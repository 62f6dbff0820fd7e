/** `eval_expression` and `eval_condition` (sifzz.py:638-751): read-only resolution of a text to a
    value or a truth value, over the variable store, the list store and the host. */
module Eval {
  import opened Text
  import opened Values
  import opened Store
  import opened Patterns

  /** `s[a:-1]` */
  function SliceToLast(s: string, a: nat): (r: string)
    ensures |r| < |s| || r == []
  {
    if a < |s| - 1 then s[a..|s| - 1] else []
  }

  /** `round(v)` and `abs(v)` keep an integer exact; strings raise TypeError; floats and other
      objects go to the host. */
  function IntFunction(name: string, v: Value, host: Host): (r: Result<Value>)
  {
    if IntLike(v) then
      var n := AsInt(v);
      Ok(IntV(if name == "abs" && n < 0 then -n else n))
    else if v.StrV? then Err("TypeError")
    else match host.mathFn(name, v) case Some(w) => Ok(w) case None => Err("TypeError")
  }

  /** `eval_expression(raw)`. The chain of rules, first that applies wins: a random number
      between two literals; a quoted literal; `sqrt(`, `round(`, `abs(` of an inner expression;
      `NAME uppercase` / `NAME lowercase` of a known variable; `length of NAME`; a number; a
      known variable; a `+`-concatenation of separately evaluated parts; and last the host's
      `eval` of the text with every variable substituted, falling back to that substituted text.
      `Err` is an exception that propagates to the caller. */
  function EvalExpression(raw: string, vars: seq<Binding>, lists: map<string, seq<Value>>, host: Host): (r: Result<Value>)
    decreases |raw|, 3, 0
  {
    EvalStripped(Strip(raw), vars, lists, host)
  }

  /** The rules of `eval_expression` on the stripped text. */
  function EvalStripped(e: string, vars: seq<Binding>, lists: map<string, seq<Value>>, host: Host): (r: Result<Value>)
    decreases |e|, 2, 0
  {
    match MatchRandomBetween(e)
    case Some((lo, hi)) =>
      if lo <= hi then Ok(IntV(host.randint(lo, hi))) else Err("ValueError")
    case None =>
      if StartsWith(e, "\"") && EndsWith(e, "\"") then Ok(StrV(SliceToLast(e, 1)))
      else if StartsWith(e, "sqrt(") then
        match EvalExpression(SliceToLast(e, 5), vars, lists, host)
        case Err(x) => Err(x)
        case Ok(v) => (match host.mathFn("sqrt", v) case Some(w) => Ok(w) case None => Err("TypeError"))
      else if StartsWith(e, "round(") then
        match EvalExpression(SliceToLast(e, 6), vars, lists, host)
        case Err(x) => Err(x)
        case Ok(v) => IntFunction("round", v, host)
      else if StartsWith(e, "abs(") then
        match EvalExpression(SliceToLast(e, 4), vars, lists, host)
        case Err(x) => Err(x)
        case Ok(v) => IntFunction("abs", v, host)
      else EvalNamed(e, vars, lists, host)
  }

  /** The word rules of `eval_expression`, after the built-in functions, for a stripped text. */
  function EvalNamed(e: string, vars: seq<Binding>, lists: map<string, seq<Value>>, host: Host): (r: Result<Value>)
    decreases |e|, 1, 2
  {
    var words := SplitWs(e);
    if Contains(e, " uppercase") && words != [] && Has(vars, words[0]) then
      Ok(StrV(Upper(Show(Lookup(vars, words[0]).value))))
    else if Contains(e, " lowercase") && words != [] && Has(vars, words[0]) then
      Ok(StrV(Lower(Show(Lookup(vars, words[0]).value))))
    else if Contains(e, "length of") && words != [] && Has(vars, words[|words| - 1]) then
      Ok(IntV(|Show(Lookup(vars, words[|words| - 1]).value)|))
    else if Contains(e, "length of") && words != [] && words[|words| - 1] in lists then
      Ok(IntV(|lists[words[|words| - 1]]|))
    else EvalAtom(e, vars, lists, host)
  }

  /** The number and variable rules. */
  function EvalAtom(e: string, vars: seq<Binding>, lists: map<string, seq<Value>>, host: Host): (r: Result<Value>)
    decreases |e|, 1, 1
  {
    var number := if Contains(e, ".") then host.parseFloat(e)
                  else match ParseInt(e) case Some(n) => Some(IntV(n)) case None => None;
    if number.Some? then Ok(number.value)
    else if Has(vars, e) then Ok(Lookup(vars, e).value)
    else EvalCompound(e, vars, lists, host)
  }

  /** The last two rules: a `+`-concatenation, then the host's `eval` of the substituted text. */
  function EvalCompound(e: string, vars: seq<Binding>, lists: map<string, seq<Value>>, host: Host): (r: Result<Value>)
    decreases |e|, 1, 0
  {
    if Contains(e, "+") then
      var parts := Split(e, "+");
      match EvalConcat(parts, |e|, vars, lists, host)
      case Err(x) => Err(x)
      case Ok(s) => Ok(StrV(s))
    else
      var substituted := Substitute(e, vars, false);
      match host.pyEval(substituted)
      case Some(v) => Ok(v)
      case None => Ok(StrV(substituted))
  }

  /** The concatenation branch: each part evaluated on its own and written with `str()`. */
  function EvalConcat(parts: seq<string>, bound: nat, vars: seq<Binding>, lists: map<string, seq<Value>>, host: Host): (r: Result<string>)
    requires forall i :: 0 <= i < |parts| ==> |parts[i]| < bound
    decreases bound, 0, |parts|
  {
    if parts == [] then Ok([])
    else
      match EvalExpression(parts[0], vars, lists, host)
      case Err(x) => Err(x)
      case Ok(v) =>
        match EvalConcat(parts[1..], bound, vars, lists, host)
        case Err(x) => Err(x)
        case Ok(rest) => Ok(Show(v) + rest)
  }

  /** The English comparison phrases of `eval_condition`, rewritten in this order: first the
      equalities, then the orderings. */
  function RewriteOps(c: string): (r: string)
  {
    RewriteOrder(RewriteEquality(c))
  }

  /** The first three rewrites: ` is not `, ` is `, ` equals `. */
  function RewriteEquality(c: string): (r: string)
  {
    Replace(Replace(Replace(c, " is not ", " != "), " is ", " == "), " equals ", " == ")
  }

  /** The last four rewrites: ` greater than or equal to `, ` less than or equal to `,
      ` greater than `, ` less than `. */
  function RewriteOrder(c: string): (r: string)
  {
    var c4 := Replace(c, " greater than or equal to ", " >= ");
    var c5 := Replace(c4, " less than or equal to ", " <= ");
    Replace(Replace(c5, " greater than ", " > "), " less than ", " < ")
  }

  /** `eval_condition(c)`. A condition containing ` contains ` is a membership test of the two
      evaluated sides of the original text, whose exceptions propagate. Any other condition is
      rewritten, has its variables substituted (strings in quotes) and goes to the host's `eval`;
      when that raises, the condition is false. */
  function EvalCondition(c: string, vars: seq<Binding>, lists: map<string, seq<Value>>, host: Host): (r: Result<bool>)
    ensures !Contains(c, " contains ") ==> r.Ok?
    ensures !Contains(c, " contains ") && host.pyTest(Substitute(RewriteOps(c), vars, true)).None? ==> r == Ok(false)
  {
    if Contains(c, " contains ") then
      var parts := Split(c, " contains ");
      match EvalExpression(Strip(parts[0]), vars, lists, host)
      case Err(x) => Err(x)
      case Ok(container) =>
        match EvalExpression(Strip(parts[1]), vars, lists, host)
        case Err(x) => Err(x)
        case Ok(item) => PyIn(item, container, host)
    else
      match host.pyTest(Substitute(RewriteOps(c), vars, true))
      case Some(b) => Ok(b)
      case None => Ok(false)
  }

  /** The quoted-literal rule. */
  lemma {:induction false} LiteralRule(e: string, vars: seq<Binding>, lists: map<string, seq<Value>>, host: Host)
    requires |e| >= 1 && e[0] == '"' && e[|e| - 1] == '"'
    ensures EvalStripped(e, vars, lists, host) == Ok(StrV(SliceToLast(e, 1)))
  {
    NotPrefix(e, "random number between ", 0);
  }

  /** A quoted literal evaluates to the text between the quotes, verbatim: a `+` or a variable's
      name inside it is not looked at. */
  lemma {:induction false} QuotedLiteral(t: string, vars: seq<Binding>, lists: map<string, seq<Value>>, host: Host)
    ensures EvalExpression("\"" + t + "\"", vars, lists, host) == Ok(StrV(t))
  {
    var e := "\"" + t + "\"";
    assert SliceToLast(e, 1) == t;
    StrippedFrom(e, '"');
    LiteralRule(e, vars, lists, host);
  }

  /** A text that lacks one of the characters of `p` does not contain `p`. */
  lemma {:induction false} Absent(s: string, p: string, j: nat)
    requires j < |p| && forall i :: 0 <= i < |s| ==> s[i] != p[j]
    ensures !Contains(s, p)
  {
    forall k | 0 <= k ensures !OccursAt(s, p, k) {
      if k + |p| <= |s| { assert s[k..k + |p|][j] == s[k + j]; }
    }
  }

  /** The variable rule, for a text that none of the earlier rules takes. */
  lemma {:induction false} NameRule(e: string, vars: seq<Binding>, lists: map<string, seq<Value>>, host: Host)
    requires MatchRandomBetween(e) == None
    requires !StartsWith(e, "\"") && !StartsWith(e, "sqrt(") && !StartsWith(e, "round(") && !StartsWith(e, "abs(")
    requires !Contains(e, " uppercase") && !Contains(e, " lowercase") && !Contains(e, "length of")
    requires !Contains(e, ".") && ParseInt(e) == None && Has(vars, e)
    ensures EvalStripped(e, vars, lists, host) == Ok(Lookup(vars, e).value)
  {
    assert EvalStripped(e, vars, lists, host) == EvalNamed(e, vars, lists, host);
    assert EvalNamed(e, vars, lists, host) == EvalAtom(e, vars, lists, host);
  }

  /** A text of word characters with a letter is a name: when it is bound, it evaluates to the
      variable's value. */
  lemma {:induction false} BoundName(name: string, vars: seq<Binding>, lists: map<string, seq<Value>>, host: Host)
    requires forall i :: 0 <= i < |name| ==> IsWordChar(name[i])
    requires exists i :: 0 <= i < |name| && IsLetter(name[i])
    requires Has(vars, name)
    ensures EvalExpression(name, vars, lists, host) == Ok(Lookup(vars, name).value)
  {
    assert !IsSpace(name[0]) && !IsSpace(name[|name| - 1]);
    StripUnchanged(name);
    if |name| > 6 { NotPrefix(name, "random number between ", 6); }
    NotPrefix(name, "\"", 0);
    if |name| >= 4 { NotPrefix(name, "abs(", 3); }
    if |name| >= 5 { NotPrefix(name, "sqrt(", 4); }
    if |name| >= 6 { NotPrefix(name, "round(", 5); }
    Absent(name, " uppercase", 0);
    Absent(name, " lowercase", 0);
    Absent(name, "length of", 6);
    Absent(name, ".", 0);
    NameIsNotInt(name);
    NameRule(name, vars, lists, host);
  }

  /** The length rule, for a text the earlier rules leave alone. */
  lemma {:induction false} LengthRule(e: string, vars: seq<Binding>, lists: map<string, seq<Value>>, host: Host)
    requires MatchRandomBetween(e) == None
    requires !StartsWith(e, "\"") && !StartsWith(e, "sqrt(") && !StartsWith(e, "round(") && !StartsWith(e, "abs(")
    requires |SplitWs(e)| >= 1 && !Has(vars, SplitWs(e)[0]) && Contains(e, "length of")
    requires var l := SplitWs(e)[|SplitWs(e)| - 1]; Has(vars, l) || l in lists
    ensures var l := SplitWs(e)[|SplitWs(e)| - 1];
            EvalStripped(e, vars, lists, host)
            == Ok(IntV(if Has(vars, l) then |Show(Lookup(vars, l).value)| else |lists[l]|))
  {
    assert EvalStripped(e, vars, lists, host) == EvalNamed(e, vars, lists, host);
    NamedLength(e, vars, lists, host);
  }

  /** The length rule among the word rules. */
  lemma {:induction false} NamedLength(e: string, vars: seq<Binding>, lists: map<string, seq<Value>>, host: Host)
    requires |SplitWs(e)| >= 1 && !Has(vars, SplitWs(e)[0]) && Contains(e, "length of")
    requires var l := SplitWs(e)[|SplitWs(e)| - 1]; Has(vars, l) || l in lists
    ensures var l := SplitWs(e)[|SplitWs(e)| - 1];
            EvalNamed(e, vars, lists, host)
            == Ok(IntV(if Has(vars, l) then |Show(Lookup(vars, l).value)| else |lists[l]|))
  {
    var words := SplitWs(e);
    var l := words[|words| - 1];
    assert !(Contains(e, " uppercase") && words != [] && Has(vars, words[0]));
    assert !(Contains(e, " lowercase") && words != [] && Has(vars, words[0]));
    if Has(vars, l) {
      assert EvalNamed(e, vars, lists, host) == Ok(IntV(|Show(Lookup(vars, l).value)|));
    } else {
      assert EvalNamed(e, vars, lists, host) == Ok(IntV(|lists[l]|));
    }
  }

  lemma {:induction false} StrippedFrom(e: string, c: char)
    requires e != [] && e[0] == c && !IsSpace(c) && !IsSpace(e[|e| - 1])
    ensures Strip(e) == e
  {
    StripUnchanged(e);
  }

  /** None of the rules ahead of `length of` takes a text that starts with a letter other
      than `r`, `s` and `a`. */
  lemma {:induction false} LetterStart(e: string)
    requires e != [] && IsLetter(e[0]) && e[0] != 'r' && e[0] != 's' && e[0] != 'a'
    ensures MatchRandomBetween(e) == None
    ensures !StartsWith(e, "\"") && !StartsWith(e, "sqrt(") && !StartsWith(e, "round(") && !StartsWith(e, "abs(")
  {
    NotPrefix(e, "random number between ", 0);
    NotPrefix(e, "\"", 0);
    NotPrefix(e, "abs(", 0);
    NotPrefix(e, "sqrt(", 0);
    NotPrefix(e, "round(", 0);
  }

  /** `length of NAME` is the length of the variable's text when `NAME` is a variable, and
      otherwise the number of items of the list `NAME`. */
  lemma {:induction false} LengthOf(name: string, vars: seq<Binding>, lists: map<string, seq<Value>>, host: Host)
    requires name != [] && forall i :: 0 <= i < |name| ==> IsWordChar(name[i])
    requires !Has(vars, "length")
    requires Has(vars, name) || name in lists
    ensures EvalExpression("length of " + name, vars, lists, host)
            == Ok(IntV(if Has(vars, name) then |Show(Lookup(vars, name).value)| else |lists[name]|))
  {
    var e := "length" + " " + ("of" + " " + name);
    assert e == "length of " + name;
    assert e[0] == 'l' && e[|e| - 1] == name[|name| - 1];
    StrippedFrom(e, 'l');
    LetterStart(e);
    assert OccursAt(e, "length of", 0);
    ContainsAt(e, "length of", 0);
    ThreeWords("length", "of", name);
    LengthRule(e, vars, lists, host);
  }

  /** Surrounding white space does not change what an expression evaluates to. */
  lemma {:induction false} EvalStrips(raw: string, vars: seq<Binding>, lists: map<string, seq<Value>>, host: Host)
    ensures EvalExpression(raw, vars, lists, host) == EvalExpression(Strip(raw), vars, lists, host)
  {
    StripStrip(raw);
  }

  /** The number rule, for a text the earlier rules leave alone. */
  lemma {:induction false} NumberRule(e: string, n: int, vars: seq<Binding>, lists: map<string, seq<Value>>, host: Host)
    requires MatchRandomBetween(e) == None
    requires !StartsWith(e, "\"") && !StartsWith(e, "sqrt(") && !StartsWith(e, "round(") && !StartsWith(e, "abs(")
    requires !Contains(e, " uppercase") && !Contains(e, " lowercase") && !Contains(e, "length of")
    requires !Contains(e, ".") && ParseInt(e) == Some(n)
    ensures EvalStripped(e, vars, lists, host) == Ok(IntV(n))
  {
    assert EvalStripped(e, vars, lists, host) == EvalNamed(e, vars, lists, host);
    assert EvalNamed(e, vars, lists, host) == EvalAtom(e, vars, lists, host);
  }

  /** None of the rules ahead of the number rule takes a text that starts with a digit and
      has no letter, no dot and no space. */
  lemma {:induction false} DigitStart(e: string)
    requires e != [] && (IsDigit(e[0]) || e[0] == '-')
    ensures MatchRandomBetween(e) == None
    ensures !StartsWith(e, "\"") && !StartsWith(e, "sqrt(") && !StartsWith(e, "round(") && !StartsWith(e, "abs(")
  {
    NotPrefix(e, "random number between ", 0);
    NotPrefix(e, "\"", 0);
    NotPrefix(e, "abs(", 0);
    NotPrefix(e, "sqrt(", 0);
    NotPrefix(e, "round(", 0);
  }

  lemma {:induction false} NumeralFacts(n: int)
    ensures var e := IntToString(n);
      && MatchRandomBetween(e) == None
      && !StartsWith(e, "\"") && !StartsWith(e, "sqrt(") && !StartsWith(e, "round(") && !StartsWith(e, "abs(")
      && !Contains(e, " uppercase") && !Contains(e, " lowercase") && !Contains(e, "length of")
      && !Contains(e, ".") && ParseInt(e) == Some(n)
  {
    var e := IntToString(n);
    assert forall i :: 0 <= i < |e| ==> IsDigit(e[i]) || e[i] == '-';
    DigitStart(e);
    Absent(e, " uppercase", 0);
    Absent(e, " lowercase", 0);
    Absent(e, "length of", 0);
    Absent(e, ".", 0);
    ParseIntToString(n);
  }

  /** An integer numeral, with white space around it or not, evaluates to its integer whatever
      the variables hold: numbers are tried before variable names. */
  lemma {:induction false} Numeral(raw: string, n: int, vars: seq<Binding>, lists: map<string, seq<Value>>, host: Host)
    requires Strip(raw) == IntToString(n)
    ensures EvalExpression(raw, vars, lists, host) == Ok(IntV(n))
  {
    NumeralFacts(n);
    NumberRule(IntToString(n), n, vars, lists, host);
  }

  /** The concatenation rule, for a text the earlier rules leave alone. */
  lemma {:induction false} ConcatRule(e: string, vars: seq<Binding>, lists: map<string, seq<Value>>, host: Host)
    requires MatchRandomBetween(e) == None
    requires !(StartsWith(e, "\"") && EndsWith(e, "\"")) && !StartsWith(e, "sqrt(") && !StartsWith(e, "round(") && !StartsWith(e, "abs(")
    requires !Contains(e, " uppercase") && !Contains(e, " lowercase") && !Contains(e, "length of")
    requires !Contains(e, ".") && ParseInt(e) == None && !Has(vars, e) && Contains(e, "+")
    ensures EvalStripped(e, vars, lists, host)
            == match EvalConcat(Split(e, "+"), |e|, vars, lists, host)
               case Err(x) => Err(x)
               case Ok(s) => Ok(StrV(s))
  {
    assert EvalStripped(e, vars, lists, host) == EvalNamed(e, vars, lists, host);
    assert EvalNamed(e, vars, lists, host) == EvalAtom(e, vars, lists, host);
    assert EvalAtom(e, vars, lists, host) == EvalCompound(e, vars, lists, host);
  }

  /** A numeral sum `A + B`, written with spaces around the plus sign. */
  predicate SumText(e: string, a: string, b: string)
  {
    && a != [] && (forall i :: 0 <= i < |a| ==> IsDigit(a[i]))
    && b != [] && (forall i :: 0 <= i < |b| ==> IsDigit(b[i]))
    && e == a + " + " + b
  }

  lemma {:induction false} SumSplit(e: string, a: string, b: string)
    requires SumText(e, a, b)
    ensures Split(e, "+") == [a + " ", " " + b]
  {
    assert OccursAt(e, "+", |a| + 1);
    var k := IndexFrom(e, "+", 0);
    assert k.Some?;
    assert k.value == |a| + 1 by {
      assert e[k.value..k.value + 1][0] == '+';
      assert forall j :: 0 <= j <= |a| ==> e[j] != '+';
    }
    assert e[..|a| + 1] == a + " ";
    assert e[|a| + 2..] == " " + b;
    Absent(" " + b, "+", 0);
  }

  lemma {:induction false} SumFacts(e: string, a: string, b: string)
    requires SumText(e, a, b)
    ensures MatchRandomBetween(e) == None
    ensures !StartsWith(e, "\"") && !StartsWith(e, "sqrt(") && !StartsWith(e, "round(") && !StartsWith(e, "abs(")
    ensures !Contains(e, " uppercase") && !Contains(e, " lowercase") && !Contains(e, "length of")
    ensures !Contains(e, ".") && Contains(e, "+")
  {
    assert forall i :: 0 <= i < |e| ==> IsDigit(e[i]) || e[i] == ' ' || e[i] == '+';
    DigitStart(e);
    Absent(e, " uppercase", 1);
    Absent(e, " lowercase", 1);
    Absent(e, "length of", 0);
    Absent(e, ".", 0);
    assert OccursAt(e, "+", |a| + 1);
    ContainsAt(e, "+", |a| + 1);
  }

  lemma {:induction false} SumNotInt(e: string, a: string, b: string)
    requires SumText(e, a, b)
    ensures Strip(e) == e && ParseInt(e) == None
  {
    assert e[0] == a[0] && e[|e| - 1] == b[|b| - 1];
    StrippedFrom(e, a[0]);
    assert !DigitGroups(e) by { assert !(IsDigit(e[|a|]) || e[|a|] == '_'); }
  }

  lemma {:induction false} ConcatTwo(p: string, q: string, bound: nat, vars: seq<Binding>, lists: map<string, seq<Value>>, host: Host)
    requires |p| < bound && |q| < bound
    requires EvalExpression(p, vars, lists, host).Ok? && EvalExpression(q, vars, lists, host).Ok?
    ensures EvalConcat([p, q], bound, vars, lists, host)
            == Ok(Show(EvalExpression(p, vars, lists, host).value) + Show(EvalExpression(q, vars, lists, host).value))
  {
    var v, w := EvalExpression(p, vars, lists, host).value, EvalExpression(q, vars, lists, host).value;
    assert [p, q][1..] == [q];
    assert [q][1..] == [];
    assert EvalConcat([], bound, vars, lists, host) == Ok([]);
    assert Show(w) + [] == Show(w);
    assert EvalConcat([q], bound, vars, lists, host) == Ok(Show(w));
  }

  lemma {:induction false} NumeralThenSpace(a: nat, vars: seq<Binding>, lists: map<string, seq<Value>>, host: Host)
    ensures EvalExpression(NatToString(a) + " ", vars, lists, host) == Ok(IntV(a))
  {
    var sa := NatToString(a);
    assert !IsSpace(sa[0]) && !IsSpace(sa[|sa| - 1]);
    StripSpaceAfter(sa);
    Numeral(sa + " ", a, vars, lists, host);
  }

  lemma {:induction false} SpaceThenNumeral(b: nat, vars: seq<Binding>, lists: map<string, seq<Value>>, host: Host)
    ensures EvalExpression(" " + NatToString(b), vars, lists, host) == Ok(IntV(b))
  {
    var sb := NatToString(b);
    NumeralStripped(sb);
    StripSpaceBefore(sb);
    Numeral(" " + sb, b, vars, lists, host);
  }

  lemma {:induction false} SumConcat(e: string, a: nat, b: nat, vars: seq<Binding>, lists: map<string, seq<Value>>, host: Host)
    requires SumText(e, NatToString(a), NatToString(b)) && Contains(e, "+")
    ensures EvalConcat(Split(e, "+"), |e|, vars, lists, host) == Ok(NatToString(a) + NatToString(b))
  {
    var sa, sb := NatToString(a), NatToString(b);
    SumSplit(e, sa, sb);
    NumeralThenSpace(a, vars, lists, host);
    SpaceThenNumeral(b, vars, lists, host);
    ConcatTwo(sa + " ", " " + sb, |e|, vars, lists, host);
    assert Show(IntV(a)) == sa && Show(IntV(b)) == sb;
  }

  lemma {:induction false} SumEval(e: string, a: nat, b: nat, vars: seq<Binding>, lists: map<string, seq<Value>>, host: Host)
    requires SumText(e, NatToString(a), NatToString(b)) && !Has(vars, e)
    ensures EvalExpression(e, vars, lists, host) == Ok(StrV(NatToString(a) + NatToString(b)))
  {
    var sa, sb := NatToString(a), NatToString(b);
    SumNotInt(e, sa, sb);
    SumFacts(e, sa, sb);
    ConcatRule(e, vars, lists, host);
    SumConcat(e, a, b, vars, lists, host);
  }

  /** `+` between two numerals concatenates their digits: `1 + 2` evaluates to the text `12`,
      because the concatenation rule comes before arithmetic is ever tried. */
  lemma {:induction false} PlusConcatenates(a: nat, b: nat, vars: seq<Binding>, lists: map<string, seq<Value>>, host: Host)
    requires !Has(vars, NatToString(a) + " + " + NatToString(b))
    ensures EvalExpression(NatToString(a) + " + " + NatToString(b), vars, lists, host)
            == Ok(StrV(NatToString(a) + NatToString(b)))
  {
    SumEval(NatToString(a) + " + " + NatToString(b), a, b, vars, lists, host);
  }

  /** A quoted word, a plus sign and a numeral: `"T" + N`, spaced as a script writes it. */
  predicate QuotedSum(e: string, t: string, b: string)
  {
    && (forall i :: 0 <= i < |t| ==> IsLetter(t[i]))
    && b != [] && (forall i :: 0 <= i < |b| ==> IsDigit(b[i]))
    && e == "\"" + t + "\" + " + b
  }

  /** A phrase with a space followed by a letter does not occur in a text where no space is
      followed by a letter. */
  lemma {:induction false} SpaceBeforeLetter(s: string, p: string, j: nat)
    requires j + 1 < |p| && p[j] == ' ' && IsLetter(p[j + 1])
    requires forall i :: 0 <= i < |s| - 1 && s[i] == ' ' ==> !IsLetter(s[i + 1])
    ensures !Contains(s, p)
  {
    forall k | 0 <= k ensures !OccursAt(s, p, k) {
      if k + |p| <= |s| {
        var w := s[k..k + |p|];
        assert w[j] == s[k + j] && w[j + 1] == s[k + j + 1];
        assert s[k + j] != ' ' || w[j + 1] != p[j + 1];
      }
    }
  }

  lemma {:induction false} QuotedSumSplit(e: string, t: string, b: string)
    requires QuotedSum(e, t, b)
    ensures Split(e, "+") == ["\"" + t + "\" ", " " + b]
  {
    var q := |t| + 3;
    assert OccursAt(e, "+", q);
    var k := IndexFrom(e, "+", 0);
    assert k.Some?;
    assert k.value == q by {
      assert e[k.value..k.value + 1][0] == '+';
      assert forall j :: 0 <= j < q ==> e[j] != '+';
    }
    assert e[..q] == "\"" + t + "\" ";
    assert e[q + 1..] == " " + b;
    Absent(" " + b, "+", 0);
  }

  lemma {:induction false} QuotedSumFacts(e: string, t: string, b: string)
    requires QuotedSum(e, t, b)
    ensures MatchRandomBetween(e) == None
    ensures !(StartsWith(e, "\"") && EndsWith(e, "\"")) && !StartsWith(e, "sqrt(") && !StartsWith(e, "round(") && !StartsWith(e, "abs(")
    ensures !Contains(e, " uppercase") && !Contains(e, " lowercase") && !Contains(e, "length of")
    ensures !Contains(e, ".") && Contains(e, "+")
  {
    QuotedSumPrefixes(e, t, b);
    QuotedSumPhrases(e, t, b);
  }

  lemma {:induction false} QuotedSumPrefixes(e: string, t: string, b: string)
    requires QuotedSum(e, t, b)
    ensures MatchRandomBetween(e) == None
    ensures !(StartsWith(e, "\"") && EndsWith(e, "\"")) && !StartsWith(e, "sqrt(") && !StartsWith(e, "round(") && !StartsWith(e, "abs(")
  {
    NotPrefix(e, "random number between ", 0);
    assert e[|e| - 1] == b[|b| - 1];
    NotPrefix(e, "abs(", 0);
    NotPrefix(e, "sqrt(", 0);
    NotPrefix(e, "round(", 0);
  }

  lemma {:induction false} QuotedSumPhrases(e: string, t: string, b: string)
    requires QuotedSum(e, t, b)
    ensures !Contains(e, " uppercase") && !Contains(e, " lowercase") && !Contains(e, "length of")
    ensures !Contains(e, ".") && Contains(e, "+")
  {
    assert forall i :: 0 <= i < |e| ==> IsLetter(e[i]) || IsDigit(e[i]) || e[i] in "\" +";
    assert forall i :: 0 <= i < |e| - 1 && e[i] == ' ' ==> !IsLetter(e[i + 1]);
    SpaceBeforeLetter(e, " uppercase", 0);
    SpaceBeforeLetter(e, " lowercase", 0);
    SpaceBeforeLetter(e, "length of", 6);
    Absent(e, ".", 0);
    assert OccursAt(e, "+", |t| + 3);
    ContainsAt(e, "+", |t| + 3);
  }

  lemma {:induction false} QuotedSumNotInt(e: string, t: string, b: string)
    requires QuotedSum(e, t, b)
    ensures Strip(e) == e && ParseInt(e) == None
  {
    assert e[|e| - 1] == b[|b| - 1];
    StrippedFrom(e, '"');
    assert !DigitGroups(e);
  }

  /** The parts of `"T" + N`: the quoted word with its trailing space, and the numeral. */
  lemma {:induction false} QuotedSumParts(t: string, n: nat, vars: seq<Binding>, lists: map<string, seq<Value>>, host: Host)
    requires forall i :: 0 <= i < |t| ==> IsLetter(t[i])
    ensures EvalExpression("\"" + t + "\" ", vars, lists, host) == Ok(StrV(t))
    ensures EvalExpression(" " + NatToString(n), vars, lists, host) == Ok(IntV(n))
  {
    var q := "\"" + t + "\"";
    StripSpaceAfter(q);
    assert q + " " == "\"" + t + "\" ";
    StripStrip(q + " ");
    QuotedLiteral(t, vars, lists, host);
    SpaceThenNumeral(n, vars, lists, host);
  }

  lemma {:induction false} QuotedSumConcat(e: string, t: string, n: nat, vars: seq<Binding>, lists: map<string, seq<Value>>, host: Host)
    requires QuotedSum(e, t, NatToString(n)) && Contains(e, "+")
    ensures EvalConcat(Split(e, "+"), |e|, vars, lists, host) == Ok(t + NatToString(n))
  {
    var b := NatToString(n);
    QuotedSumSplit(e, t, b);
    QuotedSumParts(t, n, vars, lists, host);
    ConcatTwo("\"" + t + "\" ", " " + b, |e|, vars, lists, host);
    assert Show(StrV(t)) == t && Show(IntV(n)) == b;
  }

  /** `"T" + N` is the word followed by the digits of the number, as in `"a" + 1` giving `a1`:
      the literal rule does not take the text, which ends in a digit, and the parts are joined
      as text. */
  lemma {:induction false} QuotedPlusNumeral(t: string, n: nat, vars: seq<Binding>, lists: map<string, seq<Value>>, host: Host)
    requires forall i :: 0 <= i < |t| ==> IsLetter(t[i])
    requires !Has(vars, "\"" + t + "\" + " + NatToString(n))
    ensures EvalExpression("\"" + t + "\" + " + NatToString(n), vars, lists, host) == Ok(StrV(t + NatToString(n)))
  {
    var b := NatToString(n);
    var e := "\"" + t + "\" + " + b;
    assert QuotedSum(e, t, b);
    QuotedSumNotInt(e, t, b);
    QuotedSumFacts(e, t, b);
    ConcatRule(e, vars, lists, host);
    QuotedSumConcat(e, t, n, vars, lists, host);
  }

  /** A text that does not contain `q` contains nothing that starts with `q`. */
  lemma {:induction false} NotContainsLonger(s: string, p: string, q: string)
    requires StartsWith(p, q) && !Contains(s, q)
    ensures !Contains(s, p)
  {
    forall j | 0 <= j ensures !OccursAt(s, p, j) {
      assert !OccursAt(s, q, j);
      if j + |p| <= |s| { assert s[j..j + |p|][..|q|] == s[j..j + |q|]; assert p[..|q|] == q; }
    }
  }

  /** A condition without any of the English phrases is handed on as written. */
  lemma {:induction false} RewriteUnchanged(c: string)
    requires !Contains(c, " is ") && !Contains(c, " equals ")
    requires !Contains(c, " greater than ") && !Contains(c, " less than ")
    ensures RewriteOps(c) == c
  {
    NotContainsLonger(c, " is not ", " is ");
    NotContainsLonger(c, " greater than or equal to ", " greater than ");
    NotContainsLonger(c, " less than or equal to ", " less than ");
    ReplaceAbsent(c, " is not ", " != ");
    ReplaceAbsent(c, " is ", " == ");
    ReplaceAbsent(c, " equals ", " == ");
    ReplaceAbsent(c, " greater than or equal to ", " >= ");
    ReplaceAbsent(c, " less than or equal to ", " <= ");
    ReplaceAbsent(c, " greater than ", " > ");
    ReplaceAbsent(c, " less than ", " < ");
  }

  /** Replacing a text whose only occurrence is the marked one. */
  lemma {:induction false} ReplaceOnce(a: string, pat: string, b: string, rep: string)
    requires pat != [] && !Contains(b, pat)
    requires forall j :: 0 <= j < |a| ==> !OccursAt(a + pat + b, pat, j)
    ensures Replace(a + pat + b, pat, rep) == a + rep + b
    decreases |a|
  {
    var s := a + pat + b;
    if a == [] {
      assert s == pat + b && s[..|pat|] == pat && s[|pat|..] == b;
      ReplaceAbsent(b, pat, rep);
    } else {
      assert !OccursAt(s, pat, 0);
      assert s[1..] == a[1..] + pat + b;
      forall j | 0 <= j < |a[1..]| ensures !OccursAt(a[1..] + pat + b, pat, j) {
        assert !OccursAt(s, pat, j + 1);
        if j + |pat| <= |s[1..]| { assert s[1..][j..j + |pat|] == s[j + 1..j + 1 + |pat|]; }
      }
      ReplaceOnce(a[1..], pat, b, rep);
      assert [a[0]] + (a[1..] + rep + b) == a + rep + b;
    }
  }

  /** A phrase that starts and ends with a space and whose second character is not `!` does
      not occur around a `!=` between two words. */
  lemma {:induction false} NoPhraseAroundNe(x: string, v: string, p: string)
    requires NoSpace(x) && NoSpace(v)
    requires |p| >= 3 && p[0] == ' ' && p[|p| - 1] == ' ' && p[1] != '!'
    ensures !Contains(x + " != " + v, p)
  {
    var d := x + " != " + v;
    forall j | 0 <= j ensures !OccursAt(d, p, j) {
      if j + |p| <= |d| {
        var w := d[j..j + |p|];
        if j < |x| {
          assert w[0] == x[j];
        } else if j == |x| {
          assert w[1] == '!';
        } else if j == |x| + 1 {
          assert w[0] == '!';
        } else if j == |x| + 2 {
          assert w[0] == '=';
        } else if j == |x| + 3 {
          assert w[|p| - 1] == v[j + |p| - 1 - |x| - 4];
        } else {
          assert w[0] == v[j - |x| - 4];
        }
      }
    }
  }

  /** ` is not ` is rewritten before ` is `: a negated comparison of two words becomes `!=`
      and stays negated. */
  lemma {:induction false} IsNotBeforeIs(x: string, v: string)
    requires NoSpace(x) && NoSpace(v)
    ensures RewriteOps(x + " is not " + v) == x + " != " + v
  {
    var c := x + " is not " + v;
    var d := x + " != " + v;
    forall i | 0 <= i < |v| ensures v[i] != " is not "[0] { assert !IsSpace(v[i]); }
    Absent(v, " is not ", 0);
    forall j | 0 <= j < |x| ensures !OccursAt(c, " is not ", j) {
      assert c[j] == x[j] && !IsSpace(x[j]);
      if j + 8 <= |c| { assert c[j..j + 8][0] == c[j]; }
    }
    ReplaceOnce(x, " is not ", v, " != ");
    NoPhraseAroundNe(x, v, " is ");
    NoPhraseAroundNe(x, v, " equals ");
    NoPhraseAroundNe(x, v, " greater than or equal to ");
    NoPhraseAroundNe(x, v, " less than or equal to ");
    NoPhraseAroundNe(x, v, " greater than ");
    NoPhraseAroundNe(x, v, " less than ");
    ReplaceAbsent(d, " is ", " == ");
    ReplaceAbsent(d, " equals ", " == ");
    ReplaceAbsent(d, " greater than or equal to ", " >= ");
    ReplaceAbsent(d, " less than or equal to ", " <= ");
    ReplaceAbsent(d, " greater than ", " > ");
    ReplaceAbsent(d, " less than ", " < ");
  }

  /** A phrase that starts and ends with a space occurs in `x + mid + v`, two words around a
      middle text, only inside the middle text. */
  lemma {:induction false} PhraseInMiddle(x: string, mid: string, v: string, p: string)
    requires NoSpace(x) && NoSpace(v)
    requires |p| >= 1 && p[0] == ' ' && p[|p| - 1] == ' ' && !Contains(mid, p)
    ensures !Contains(x + mid + v, p)
  {
    var d := x + mid + v;
    forall j | 0 <= j ensures !OccursAt(d, p, j) {
      if j + |p| <= |d| {
        var w := d[j..j + |p|];
        if j < |x| {
          assert w[0] == x[j] && !IsSpace(x[j]);
        } else if j + |p| - 1 >= |x| + |mid| {
          var t := j + |p| - 1 - |x| - |mid|;
          assert w[|p| - 1] == v[t] && !IsSpace(v[t]);
        } else {
          assert w == mid[j - |x|..j - |x| + |p|];
          assert !OccursAt(mid, p, j - |x|);
        }
      }
    }
  }

  /** A text in which each occurrence of the character `p[a]` is not followed, `b - a` places
      on, by `p[b]` does not contain `p`. */
  lemma {:induction false} AbsentPair(s: string, p: string, a: nat, b: nat)
    requires a < |p| && b < |p|
    requires forall i :: 0 <= i < |s| && s[i] == p[a] ==> !(0 <= i - a + b < |s| && s[i - a + b] == p[b])
    ensures !Contains(s, p)
  {
    forall j | 0 <= j ensures !OccursAt(s, p, j) {
      if j + |p| <= |s| {
        if s[j + a] == p[a] {
          assert s[j..j + |p|][b] == s[j + b] != p[b];
        } else {
          assert s[j..j + |p|][a] != p[a];
        }
      }
    }
  }

  /** Replacing the one phrase between two words. */
  lemma {:induction false} ReplaceBetweenWords(x: string, pat: string, v: string, rep: string)
    requires NoSpace(x) && NoSpace(v) && |pat| >= 1 && pat[0] == ' '
    ensures Replace(x + pat + v, pat, rep) == x + rep + v
  {
    var c := x + pat + v;
    forall i | 0 <= i < |v| ensures v[i] != pat[0] { assert !IsSpace(v[i]); }
    Absent(v, pat, 0);
    forall j | 0 <= j < |x| ensures !OccursAt(c, pat, j) {
      assert c[j] == x[j] && !IsSpace(x[j]);
      if j + |pat| <= |c| { assert c[j..j + |pat|][0] == c[j]; }
    }
    ReplaceOnce(x, pat, v, rep);
  }

  /** A text with none of the equality phrases passes the first three rewrites unchanged. */
  lemma {:induction false} NoEquality(c: string)
    requires !Contains(c, " is not ") && !Contains(c, " is ") && !Contains(c, " equals ")
    ensures RewriteEquality(c) == c
  {
    ReplaceAbsent(c, " is not ", " != ");
    ReplaceAbsent(c, " is ", " == ");
    ReplaceAbsent(c, " equals ", " == ");
  }

  /** An operator of at most two characters between two words is left alone by the order
      rewrites that follow `skip` of them. */
  lemma {:induction false} OperatorKept(x: string, op: string, v: string)
    requires NoSpace(x) && NoSpace(v) && |op| <= 2
    ensures var d := x + " " + op + " " + v;
            && Replace(d, " less than or equal to ", " <= ") == d
            && Replace(d, " greater than ", " > ") == d
            && Replace(d, " less than ", " < ") == d
  {
    var mid := " " + op + " ";
    assert x + " " + op + " " + v == x + mid + v;
    PhraseInMiddle(x, mid, v, " less than or equal to ");
    PhraseInMiddle(x, mid, v, " greater than ");
    PhraseInMiddle(x, mid, v, " less than ");
    ReplaceAbsent(x + mid + v, " less than or equal to ", " <= ");
    ReplaceAbsent(x + mid + v, " greater than ", " > ");
    ReplaceAbsent(x + mid + v, " less than ", " < ");
  }

  /** None of the equality phrases occurs in ` greater than or equal to ` (no `i`, no `s`). */
  lemma {:induction false} GreaterEqualNoIsNot()
    ensures !Contains(" greater than or equal to ", " is not ")
  {
    Absent(" greater than or equal to ", " is not ", 1);
  }

  lemma {:induction false} GreaterEqualNoIs()
    ensures !Contains(" greater than or equal to ", " is ")
  {
    Absent(" greater than or equal to ", " is ", 1);
  }

  lemma {:induction false} GreaterEqualNoEquals()
    ensures !Contains(" greater than or equal to ", " equals ")
  {
    Absent(" greater than or equal to ", " equals ", 6);
  }

  /** None of the phrases rewritten ahead of it occurs in ` less than or equal to `: it has
      no `i` and no `g`, and its one `q` is not followed by an `s` four places on. */
  lemma {:induction false} LessEqualNoIsNot()
    ensures !Contains(" less than or equal to ", " is not ")
  {
    Absent(" less than or equal to ", " is not ", 1);
  }

  lemma {:induction false} LessEqualNoIs()
    ensures !Contains(" less than or equal to ", " is ")
  {
    Absent(" less than or equal to ", " is ", 1);
  }

  lemma {:induction false} LessEqualNoEquals()
    ensures !Contains(" less than or equal to ", " equals ")
  {
    AbsentPair(" less than or equal to ", " equals ", 2, 6);
  }

  lemma {:induction false} LessEqualNoGreaterEqual()
    ensures !Contains(" less than or equal to ", " greater than or equal to ")
  {
    Absent(" less than or equal to ", " greater than or equal to ", 1);
  }

  /** The equality rewrites leave a comparison of two words by ` greater than or equal to `
      alone. */
  lemma {:induction false} GreaterEqualNoEquality(x: string, v: string)
    requires NoSpace(x) && NoSpace(v)
    ensures RewriteEquality(x + " greater than or equal to " + v) == x + " greater than or equal to " + v
  {
    var mid := " greater than or equal to ";
    GreaterEqualNoIsNot();
    GreaterEqualNoIs();
    GreaterEqualNoEquals();
    PhraseInMiddle(x, mid, v, " is not ");
    PhraseInMiddle(x, mid, v, " is ");
    PhraseInMiddle(x, mid, v, " equals ");
    NoEquality(x + mid + v);
  }

  /** The first order rewrite turns ` greater than or equal to ` between two words into `>=`,
      and the later ones leave the result alone. */
  lemma {:induction false} GreaterEqualOrder(x: string, v: string)
    requires NoSpace(x) && NoSpace(v)
    ensures RewriteOrder(x + " greater than or equal to " + v) == x + " >= " + v
  {
    var d := x + " >= " + v;
    ReplaceBetweenWords(x, " greater than or equal to ", v, " >= ");
    OperatorKept(x, ">=", v);
    assert d == x + " " + ">=" + " " + v;
  }

  /** ` greater than or equal to ` is rewritten before ` greater than `: the comparison of two
      words becomes `>=`, not `> or equal to`. */
  lemma {:induction false} GreaterEqualFirst(x: string, v: string)
    requires NoSpace(x) && NoSpace(v)
    ensures RewriteOps(x + " greater than or equal to " + v) == x + " >= " + v
  {
    GreaterEqualNoEquality(x, v);
    GreaterEqualOrder(x, v);
  }

  /** The equality rewrites leave a comparison of two words by ` less than or equal to `
      alone. */
  lemma {:induction false} LessEqualNoEquality(x: string, v: string)
    requires NoSpace(x) && NoSpace(v)
    ensures RewriteEquality(x + " less than or equal to " + v) == x + " less than or equal to " + v
  {
    var mid := " less than or equal to ";
    LessEqualNoIsNot();
    LessEqualNoIs();
    LessEqualNoEquals();
    PhraseInMiddle(x, mid, v, " is not ");
    PhraseInMiddle(x, mid, v, " is ");
    PhraseInMiddle(x, mid, v, " equals ");
    NoEquality(x + mid + v);
  }

  /** The first order rewrite finds no ` greater than or equal to ` in a comparison by
      ` less than or equal to `. */
  lemma {:induction false} LessEqualSkipsGreater(x: string, v: string)
    requires NoSpace(x) && NoSpace(v)
    ensures var c := x + " less than or equal to " + v;
            Replace(c, " greater than or equal to ", " >= ") == c
  {
    var mid := " less than or equal to ";
    LessEqualNoGreaterEqual();
    PhraseInMiddle(x, mid, v, " greater than or equal to ");
    ReplaceAbsent(x + mid + v, " greater than or equal to ", " >= ");
  }

  /** Each order rewrite, taken alone, on a comparison of two words by
      ` less than or equal to `. */
  lemma {:induction false} LessEqualSteps(x: string, v: string)
    requires NoSpace(x) && NoSpace(v)
    ensures var c := x + " less than or equal to " + v;
            var d := x + " <= " + v;
            && Replace(c, " greater than or equal to ", " >= ") == c
            && Replace(c, " less than or equal to ", " <= ") == d
            && Replace(d, " greater than ", " > ") == d
            && Replace(d, " less than ", " < ") == d
  {
    LessEqualSkipsGreater(x, v);
    ReplaceBetweenWords(x, " less than or equal to ", v, " <= ");
    OperatorKept(x, "<=", v);
    assert x + " <= " + v == x + " " + "<=" + " " + v;
  }

  /** The second order rewrite turns ` less than or equal to ` between two words into `<=`,
      and the later ones leave the result alone. */
  lemma {:induction false} LessEqualOrder(x: string, v: string)
    requires NoSpace(x) && NoSpace(v)
    ensures RewriteOrder(x + " less than or equal to " + v) == x + " <= " + v
  {
    LessEqualSteps(x, v);
    FourReplaces(x + " less than or equal to " + v, x + " <= " + v,
                 " greater than or equal to ", " >= ", " less than or equal to ", " <= ",
                 " greater than ", " > ", " less than ", " < ");
  }

  /** Four replacements in a row, the first of which changes nothing and the last two of
      which find nothing to change. */
  lemma {:induction false} FourReplaces(c: string, d: string, p1: string, r1: string, p2: string, r2: string,
                                        p3: string, r3: string, p4: string, r4: string)
    requires Replace(c, p1, r1) == c && Replace(c, p2, r2) == d
    requires Replace(d, p3, r3) == d && Replace(d, p4, r4) == d
    ensures Replace(Replace(Replace(Replace(c, p1, r1), p2, r2), p3, r3), p4, r4) == d
  {
  }

  /** ` less than or equal to ` is rewritten before ` less than `: the comparison of two words
      becomes `<=`, not `< or equal to`. */
  lemma {:induction false} LessEqualFirst(x: string, v: string)
    requires NoSpace(x) && NoSpace(v)
    ensures RewriteOps(x + " less than or equal to " + v) == x + " <= " + v
  {
    LessEqualNoEquality(x, v);
    LessEqualOrder(x, v);
  }

  predicate NoQuote(p: string) { forall i :: 0 <= i < |p| ==> p[i] != '"' }

  /** A text without a double quote occurs in a quoted text only between the quotes. */
  lemma {:induction false} QuotedNoOccurrence(t: string, p: string)
    requires p != [] && NoQuote(p) && !Contains(t, p)
    ensures !Contains("\"" + t + "\"", p)
  {
    var l := "\"" + t + "\"";
    assert l[1..|l| - 1] == t;
    forall j | 0 <= j && j + |p| <= |l| ensures !OccursAt(l, p, j) {
      var w := l[j..j + |p|];
      if j == 0 {
        assert w[0] == '"' && p[0] != '"';
      } else if j + |p| == |l| {
        assert w[|p| - 1] == l[|l| - 1] == '"';
        assert p[|p| - 1] != '"';
      } else {
        assert w == l[1..|l| - 1][j - 1..j - 1 + |p|];
        assert !OccursAt(t, p, j - 1);
      }
    }
  }

  /** After a text that ends in a quote and does not contain `p`, the first `p` is the one that
      follows it. */
  lemma {:induction false} SplitAround(l: string, p: string, r: string)
    requires l != [] && l[|l| - 1] == '"' && p != [] && NoQuote(p)
    requires !Contains(l, p) && !Contains(r, p)
    ensures Contains(l + p + r, p) && Split(l + p + r, p) == [l, r]
  {
    var c := l + p + r;
    assert c[|l|..|l| + |p|] == p;
    assert OccursAt(c, p, |l|);
    forall j | 0 <= j < |l| ensures !OccursAt(c, p, j) {
      if j + |p| <= |l| {
        assert c[j..j + |p|] == l[j..j + |p|];
        assert !OccursAt(l, p, j);
      } else {
        assert c[j..j + |p|][|l| - 1 - j] == '"';
      }
    }
    var k := IndexFrom(c, p, 0);
    assert k == Some(|l|);
    assert c[..|l|] == l;
    assert c[|l| + |p|..] == r;
  }

  /** `"S" contains "T"` is the substring test `T in S`, as long as neither text holds the
      word `contains` between spaces. */
  lemma {:induction false} ContainsTest(s: string, t: string, vars: seq<Binding>, lists: map<string, seq<Value>>, host: Host)
    requires !Contains(s, " contains ") && !Contains(t, " contains ")
    ensures EvalCondition("\"" + s + "\" contains \"" + t + "\"", vars, lists, host) == Ok(Contains(s, t))
  {
    var p := " contains ";
    var l, r := "\"" + s + "\"", "\"" + t + "\"";
    assert "\"" + s + "\" contains \"" + t + "\"" == l + p + r;
    QuotedNoOccurrence(s, p);
    QuotedNoOccurrence(t, p);
    SplitAround(l, p, r);
    StrippedFrom(l, '"');
    StrippedFrom(r, '"');
    QuotedLiteral(s, vars, lists, host);
    QuotedLiteral(t, vars, lists, host);
  }

  /** The `contains` test is made outside the `try` that guards `eval`: a number looked for
      in a quoted text raises `TypeError` out of `eval_condition`, where every other failed
      condition is false. */
  lemma {:induction false} ContainsRaises(s: string, n: int, vars: seq<Binding>, lists: map<string, seq<Value>>, host: Host)
    requires !Contains(s, " contains ")
    ensures EvalCondition("\"" + s + "\" contains " + IntToString(n), vars, lists, host) == Err("TypeError")
  {
    var p := " contains ";
    var l, r := "\"" + s + "\"", IntToString(n);
    assert "\"" + s + "\" contains " + r == l + p + r;
    assert NoQuote(p);
    QuotedNoOccurrence(s, p);
    assert forall i :: 0 <= i < |r| ==> IsDigit(r[i]) || r[i] == '-';
    Absent(r, p, 0);
    SplitAround(l, p, r);
    StrippedFrom(l, '"');
    QuotedLiteral(s, vars, lists, host);
    NumeralStripped(r);
    NumeralEval(n, vars, lists, host);
  }

  /** The `abs(` rule on a stripped text. */
  lemma {:induction false} AbsRule(e: string, vars: seq<Binding>, lists: map<string, seq<Value>>, host: Host)
    requires StartsWith(e, "abs(")
    ensures EvalStripped(e, vars, lists, host)
            == match EvalExpression(SliceToLast(e, 4), vars, lists, host)
               case Err(x) => Err(x)
               case Ok(v) => IntFunction("abs", v, host)
  {
    NotPrefix(e, "random number between ", 0);
    NotPrefix(e, "\"", 0);
    NotPrefix(e, "sqrt(", 0);
    NotPrefix(e, "round(", 0);
  }

  /** The `round(` rule on a stripped text. */
  lemma {:induction false} RoundRule(e: string, vars: seq<Binding>, lists: map<string, seq<Value>>, host: Host)
    requires StartsWith(e, "round(")
    ensures EvalStripped(e, vars, lists, host)
            == match EvalExpression(SliceToLast(e, 6), vars, lists, host)
               case Err(x) => Err(x)
               case Ok(v) => IntFunction("round", v, host)
  {
    NotPrefix(e, "random number between ", 1);
    NotPrefix(e, "\"", 0);
    NotPrefix(e, "sqrt(", 0);
  }

  lemma {:induction false} NumeralEval(n: int, vars: seq<Binding>, lists: map<string, seq<Value>>, host: Host)
    ensures EvalExpression(IntToString(n), vars, lists, host) == Ok(IntV(n))
  {
    NumeralStripped(IntToString(n));
    Numeral(IntToString(n), n, vars, lists, host);
  }

  lemma {:induction false} AbsInt(n: int, host: Host)
    ensures IntFunction("abs", IntV(n), host) == Ok(IntV(if n < 0 then -n else n))
  {
  }

  lemma {:induction false} AbsEval(e: string, n: int, vars: seq<Binding>, lists: map<string, seq<Value>>, host: Host)
    requires StartsWith(e, "abs(") && Strip(e) == e && EvalExpression(SliceToLast(e, 4), vars, lists, host) == Ok(IntV(n))
    ensures EvalExpression(e, vars, lists, host) == Ok(IntV(if n < 0 then -n else n))
  {
    AbsInt(n, host);
    AbsRule(e, vars, lists, host);
  }

  /** `abs(N)` of an integer numeral is its magnitude, computed exactly. */
  lemma {:induction false} AbsOfNumeral(n: int, vars: seq<Binding>, lists: map<string, seq<Value>>, host: Host)
    ensures EvalExpression("abs(" + IntToString(n) + ")", vars, lists, host) == Ok(IntV(if n < 0 then -n else n))
  {
    var d := IntToString(n);
    var e := "abs(" + d + ")";
    assert e[0] == 'a' && e[|e| - 1] == ')';
    StrippedFrom(e, 'a');
    assert e[..4] == "abs(";
    assert SliceToLast(e, 4) == d;
    NumeralEval(n, vars, lists, host);
    AbsEval(e, n, vars, lists, host);
  }

  /** `round(N)` of an integer numeral is the integer itself. */
  lemma {:induction false} RoundOfNumeral(n: int, vars: seq<Binding>, lists: map<string, seq<Value>>, host: Host)
    ensures EvalExpression("round(" + IntToString(n) + ")", vars, lists, host) == Ok(IntV(n))
  {
    var d := IntToString(n);
    var e := "round(" + d + ")";
    assert e[0] == 'r' && e[|e| - 1] == ')';
    StrippedFrom(e, 'r');
    assert e[..6] == "round(";
    assert SliceToLast(e, 6) == d;
    NumeralStripped(d);
    Numeral(d, n, vars, lists, host);
    RoundRule(e, vars, lists, host);
  }
}
