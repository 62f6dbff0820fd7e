/** String operations with the meaning Python's `str` methods give them. */
module Text {

  datatype Option<T> = None | Some(value: T)

  /** `c.isspace()`: the characters `str.strip()` and `str.split()` treat as white space. */
  predicate IsSpace(c: char)
  {
    c == ' ' || ('\t' <= c <= '\r') || ('\U{1c}' <= c <= '\U{1f}') || c == '\U{85}' || c == '\U{a0}'
    || c == '\U{1680}' || ('\U{2000}' <= c <= '\U{200a}') || c == '\U{2028}' || c == '\U{2029}'
    || c == '\U{202f}' || c == '\U{205f}' || c == '\U{3000}'
  }

  predicate IsDigit(c: char) { '0' <= c <= '9' }

  predicate IsLetter(c: char) { 'a' <= c <= 'z' || 'A' <= c <= 'Z' }

  /** The ASCII part of what a regular expression's `\w` matches: letters, digits and underscore.
      Python's `\w` on a `str` also matches non-ASCII letters and digits; this model does not. */
  predicate IsWordChar(c: char) { IsLetter(c) || IsDigit(c) || c == '_' }

  predicate NoSpace(s: string) { forall i :: 0 <= i < |s| ==> !IsSpace(s[i]) }

  function LStrip(s: string): (r: string)
    ensures |r| <= |s|
    ensures r == [] || !IsSpace(r[0])
  {
    if s != [] && IsSpace(s[0]) then LStrip(s[1..]) else s
  }

  /** `s.strip()` */
  function Strip(s: string): (r: string)
    ensures |r| <= |s|
    decreases |s|
  {
    if s != [] && IsSpace(s[0]) then Strip(s[1..])
    else if s != [] && IsSpace(s[|s| - 1]) then Strip(s[..|s| - 1])
    else s
  }

  /** What `strip()` leaves has no white space at either end. */
  lemma {:induction false} StripEnds(s: string)
    ensures var r := Strip(s); r == [] || (!IsSpace(r[0]) && !IsSpace(r[|r| - 1]))
    decreases |s|
  {
    if s != [] && IsSpace(s[0]) {
      StripEnds(s[1..]);
    } else if s != [] && IsSpace(s[|s| - 1]) {
      StripEnds(s[..|s| - 1]);
    }
  }

  /** A string with no white space at either end is its own strip. */
  lemma {:induction false} StripUnchanged(s: string)
    requires s == [] || (!IsSpace(s[0]) && !IsSpace(s[|s| - 1]))
    ensures Strip(s) == s
  {
  }

  /** `strip()` is idempotent. */
  lemma {:induction false} StripStrip(s: string)
    ensures Strip(Strip(s)) == Strip(s)
  {
    StripEnds(s);
    StripUnchanged(Strip(s));
  }

  /** `s.startswith(p)` */
  predicate StartsWith(s: string, p: string) { |p| <= |s| && s[..|p|] == p }

  /** A text that differs from `p` at some index of both does not start with `p`. */
  lemma {:induction false} NotPrefix(s: string, p: string, k: nat)
    requires k < |p| && k < |s| && s[k] != p[k]
    ensures !StartsWith(s, p)
  {
    if |p| <= |s| { assert s[..|p|][k] != p[k]; }
  }

  /** `s.endswith(p)` */
  predicate EndsWith(s: string, p: string) { |p| <= |s| && s[|s| - |p|..] == p }

  /** `p` occurs in `s` at index `j`. */
  predicate OccursAt(s: string, p: string, j: int)
  {
    0 <= j && j + |p| <= |s| && s[j..j + |p|] == p
  }

  /** `s.find(p, i)`: the first occurrence of `p` at or after `i`. */
  function IndexFrom(s: string, p: string, i: nat): (r: Option<nat>)
    requires i <= |s|
    ensures r.Some? ==> i <= r.value && OccursAt(s, p, r.value)
    ensures r.Some? ==> forall j :: i <= j < r.value ==> !OccursAt(s, p, j)
    ensures r.None? ==> forall j :: i <= j ==> !OccursAt(s, p, j)
    decreases |s| - i
  {
    if i + |p| > |s| then None
    else if s[i..i + |p|] == p then Some(i)
    else IndexFrom(s, p, i + 1)
  }

  /** `p in s` for two strings. */
  predicate Contains(s: string, p: string) { IndexFrom(s, p, 0).Some? }

  lemma {:induction false} ContainsAt(s: string, p: string, j: int)
    requires OccursAt(s, p, j)
    ensures Contains(s, p)
  {
  }

  /** `s.replace(pat, rep)`: every non-overlapping occurrence, left to right; an empty `pat`
      inserts `rep` before every character and at the end. */
  function Replace(s: string, pat: string, rep: string): (r: string)
    decreases |s|
  {
    if pat == [] then rep + (if s == [] then [] else [s[0]] + Replace(s[1..], pat, rep))
    else if |s| < |pat| then s
    else if s[..|pat|] == pat then rep + Replace(s[|pat|..], pat, rep)
    else [s[0]] + Replace(s[1..], pat, rep)
  }

  /** Replacing a non-empty text that does not occur leaves the string as it was. */
  lemma {:induction false} ReplaceAbsent(s: string, pat: string, rep: string)
    requires pat != [] && !Contains(s, pat)
    ensures Replace(s, pat, rep) == s
    decreases |s|
  {
    if |s| >= |pat| {
      assert !OccursAt(s, pat, 0);
      assert s[..|pat|] != pat;
      forall j | 0 <= j ensures !OccursAt(s[1..], pat, j) {
        assert !OccursAt(s, pat, j + 1);
      }
      assert !Contains(s[1..], pat);
      ReplaceAbsent(s[1..], pat, rep);
    }
  }

  /** `s.split(sep)` for a non-empty separator. */
  function Split(s: string, sep: string): (r: seq<string>)
    requires sep != []
    ensures |r| >= 1
    ensures Contains(s, sep) <==> |r| >= 2
    ensures forall k :: 0 <= k < |r| ==> |r[k]| <= |s|
    ensures |r| >= 2 ==> forall k :: 0 <= k < |r| ==> |r[k]| + |sep| <= |s|
    decreases |s|
  {
    match IndexFrom(s, sep, 0)
    case None => [s]
    case Some(k) => [s[..k]] + Split(s[k + |sep|..], sep)
  }

  /** Length of the run of non-space characters at the start of `s`. */
  function TokenLen(s: string): (n: nat)
    ensures n <= |s|
    ensures forall i :: 0 <= i < n ==> !IsSpace(s[i])
    ensures n < |s| ==> IsSpace(s[n])
  {
    if s == [] || IsSpace(s[0]) then 0 else 1 + TokenLen(s[1..])
  }

  /** `s.split()`: the maximal runs of non-space characters. */
  function SplitWs(s: string): (r: seq<string>)
    ensures forall k :: 0 <= k < |r| ==> r[k] != [] && NoSpace(r[k])
    decreases |s|
  {
    var t := LStrip(s);
    if t == [] then []
    else
      var n := TokenLen(t);
      [t[..n]] + SplitWs(t[n..])
  }

  /** A string without white space that is not empty splits into itself alone. */
  lemma {:induction false} SplitWsSingle(s: string)
    requires s != [] && NoSpace(s)
    ensures SplitWs(s) == [s]
  {
    assert LStrip(s) == s;
    var n := TokenLen(s);
    assert n == |s|;
    assert s[n..] == [];
    assert s[..n] == s;
  }

  /** A first word followed by a space splits off ahead of the rest. */
  lemma {:induction false} SplitWsCons(w: string, rest: string)
    requires w != [] && NoSpace(w)
    ensures SplitWs(w + " " + rest) == [w] + SplitWs(rest)
  {
    var s := w + " " + rest;
    assert LStrip(s) == s;
    var n := TokenLen(s);
    assert s[|w|] == ' ';
    assert n == |w|;
    assert s[..n] == w;
    assert s[n..] == " " + rest;
    assert LStrip(" " + rest) == LStrip(rest);
  }

  /** Three words joined by single spaces split back into the three. */
  lemma {:induction false} ThreeWords(a: string, b: string, c: string)
    requires a != [] && NoSpace(a) && b != [] && NoSpace(b) && c != [] && NoSpace(c)
    ensures SplitWs(a + " " + (b + " " + c)) == [a, b, c]
  {
    var t := b + " " + c;
    SplitWsSingle(c);
    SplitWsCons(b, c);
    assert SplitWs(t) == [b, c];
    SplitWsCons(a, t);
  }

  function UpperChar(c: char): char { if 'a' <= c <= 'z' then (c as int - 32) as char else c }
  function LowerChar(c: char): char { if 'A' <= c <= 'Z' then (c as int + 32) as char else c }

  /** `s.upper()`, for ASCII letters only. */
  function Upper(s: string): (r: string)
    ensures |r| == |s|
    ensures forall i :: 0 <= i < |s| ==> r[i] == UpperChar(s[i])
  {
    if s == [] then [] else [UpperChar(s[0])] + Upper(s[1..])
  }

  /** `s.lower()`, for ASCII letters only. */
  function Lower(s: string): (r: string)
    ensures |r| == |s|
    ensures forall i :: 0 <= i < |s| ==> r[i] == LowerChar(s[i])
  {
    if s == [] then [] else [LowerChar(s[0])] + Lower(s[1..])
  }

  /** `s * n` */
  function Repeat(s: string, n: int): (r: string)
    ensures |r| == if n <= 0 then 0 else |s| * n
    decreases n
  {
    if n <= 0 then [] else s + Repeat(s, n - 1)
  }

  function DigitChar(d: nat): char
    requires d < 10
  {
    ('0' as int + d) as char
  }

  function NatToString(n: nat): (r: string)
    ensures r != [] && forall i :: 0 <= i < |r| ==> IsDigit(r[i])
  {
    if n < 10 then [DigitChar(n)] else NatToString(n / 10) + [DigitChar(n % 10)]
  }

  /** `str(n)` for an integer. */
  function IntToString(n: int): (r: string)
  {
    if n < 0 then "-" + NatToString(-n) else NatToString(n)
  }

  /** The digits-with-single-underscores form `int()` accepts: `[0-9](_?[0-9])*`. */
  predicate DigitGroups(t: string)
  {
    && t != [] && IsDigit(t[0]) && IsDigit(t[|t| - 1])
    && (forall i :: 0 <= i < |t| ==> IsDigit(t[i]) || t[i] == '_')
    && (forall i :: 0 <= i < |t| - 1 ==> t[i] == '_' ==> t[i + 1] != '_')
  }

  /** The value of the digits of `t`, underscores skipped. */
  function DigitsValue(t: string): nat
  {
    if t == [] then 0
    else if IsDigit(t[|t| - 1]) then DigitsValue(t[..|t| - 1]) * 10 + (t[|t| - 1] as int - '0' as int)
    else DigitsValue(t[..|t| - 1])
  }

  function ParseDigits(t: string): Option<nat>
  {
    if DigitGroups(t) then Some(DigitsValue(t)) else None
  }

  /** `int(s)` on a string: surrounding white space, an optional sign, then decimal digits
      grouped by single underscores; `None` stands for the ValueError. Only ASCII digits are
      taken as digits. */
  function ParseInt(s: string): (r: Option<int>)
  {
    var t := Strip(s);
    if t != [] && (t[0] == '+' || t[0] == '-') then
      match ParseDigits(t[1..])
      case Some(n) => Some(if t[0] == '-' then -(n as int) else n as int)
      case None => None
    else
      match ParseDigits(t)
      case Some(n) => Some(n)
      case None => None
  }

  /** `int(str(n)) == n` for a natural number: the numeral's digits give back its value. */
  lemma {:induction false} NatDigits(n: nat)
    ensures DigitGroups(NatToString(n)) && DigitsValue(NatToString(n)) == n
  {
    var t := NatToString(n);
    if n >= 10 {
      NatDigits(n / 10);
      assert t[..|t| - 1] == NatToString(n / 10);
    }
  }

  lemma {:induction false} NumeralStripped(t: string)
    requires t != [] && (IsDigit(t[0]) || t[0] == '-') && IsDigit(t[|t| - 1])
    ensures Strip(t) == t
  {
    StripUnchanged(t);
  }

  lemma {:induction false} ParseUnsigned(t: string)
    requires DigitGroups(t) && Strip(t) == t
    ensures ParseInt(t) == Some(DigitsValue(t) as int)
  {
  }

  lemma {:induction false} ParseNat(n: nat)
    ensures ParseInt(NatToString(n)) == Some(n)
  {
    var d := NatToString(n);
    NatDigits(n);
    NumeralStripped(d);
    ParseUnsigned(d);
  }

  /** A minus sign ahead of the digits of a positive number parses to its negation. */
  lemma {:induction false} ParseNegative(n: nat)
    requires n > 0
    ensures ParseInt("-" + NatToString(n)) == Some(-(n as int))
  {
    var d := NatToString(n);
    var t := "-" + d;
    NatDigits(n);
    assert ParseDigits(d) == Some(n);
    assert t[1..] == d && t[|t| - 1] == d[|d| - 1];
    NumeralStripped(t);
    assert t[0] == '-';
  }

  /** `int(str(n)) == n` */
  lemma {:induction false} ParseIntToString(n: int)
    ensures ParseInt(IntToString(n)) == Some(n)
  {
    if n < 0 {
      ParseNegative(-n);
    } else {
      ParseNat(n);
    }
  }

  /** Spaces around a stripped text are what `strip()` removes. */
  lemma {:induction false} StripSpaceBefore(t: string)
    requires Strip(t) == t
    ensures Strip(" " + t) == t
  {
    assert (" " + t)[1..] == t;
  }

  lemma {:induction false} StripSpaceAfter(t: string)
    requires t != [] && !IsSpace(t[0]) && !IsSpace(t[|t| - 1])
    ensures Strip(t + " ") == t
  {
    assert (t + " ")[..|t|] == t;
    StripUnchanged(t);
  }

  /** Text made of word characters only, with at least one letter, is not a number to `int()`. */
  lemma {:induction false} NameIsNotInt(s: string)
    requires forall i :: 0 <= i < |s| ==> IsWordChar(s[i])
    requires exists i :: 0 <= i < |s| && IsLetter(s[i])
    ensures ParseInt(s) == None
  {
    var i :| 0 <= i < |s| && IsLetter(s[i]);
    assert !IsSpace(s[0]) && !IsSpace(s[|s| - 1]);
    StripUnchanged(s);
    assert !(s[0] == '+' || s[0] == '-');
    assert !DigitGroups(s) by { assert !(IsDigit(s[i]) || s[i] == '_'); }
  }
}
