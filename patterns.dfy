/** The regular expressions of the interpreter's built-in rules, each written out as the match
    `re.match` finds: anchored at the start of the line only, `.` any character but a newline,
    greedy repetition with backtracking resolved by hand. `\w` and `\d` are taken over ASCII
    only, where Python's own also match non-ASCII letters and digits. */
module Patterns {
  import opened Text

  /** End of the maximal run of word characters starting at `i`. */
  function WordEnd(s: string, i: nat): (j: nat)
    requires i <= |s|
    ensures i <= j <= |s|
    ensures forall k :: i <= k < j ==> IsWordChar(s[k])
    ensures j < |s| ==> !IsWordChar(s[j])
    decreases |s| - i
  {
    if i < |s| && IsWordChar(s[i]) then WordEnd(s, i + 1) else i
  }

  /** End of the maximal run of decimal digits starting at `i`. */
  function DigitEnd(s: string, i: nat): (j: nat)
    requires i <= |s|
    ensures i <= j <= |s|
    ensures forall k :: i <= k < j ==> IsDigit(s[k])
    ensures j < |s| ==> !IsDigit(s[j])
    decreases |s| - i
  {
    if i < |s| && IsDigit(s[i]) then DigitEnd(s, i + 1) else i
  }

  /** End of the maximal run of characters other than a double quote (`[^"]*`). */
  function NonQuoteEnd(s: string, i: nat): (j: nat)
    requires i <= |s|
    ensures i <= j <= |s|
    ensures forall k :: i <= k < j ==> s[k] != '"'
    ensures j < |s| ==> s[j] == '"'
    decreases |s| - i
  {
    if i < |s| && s[i] != '"' then NonQuoteEnd(s, i + 1) else i
  }

  /** End of the maximal run of white space (`\s*`). */
  function SpaceEnd(s: string, i: nat): (j: nat)
    requires i <= |s|
    ensures i <= j <= |s|
    decreases |s| - i
  {
    if i < |s| && IsSpace(s[i]) then SpaceEnd(s, i + 1) else i
  }

  /** How far `.*` reaches from `i`: the first newline, or the end. */
  function LineEnd(s: string, i: nat): (j: nat)
    requires i <= |s|
    ensures i <= j <= |s|
    ensures forall k :: i <= k < j ==> s[k] != '\n'
    ensures j < |s| ==> s[j] == '\n'
    decreases |s| - i
  {
    if i < |s| && s[i] != '\n' then LineEnd(s, i + 1) else i
  }

  /** The largest `j` with `lo <= j <= hi` where `s[j] == c`. */
  function LastChar(s: string, c: char, lo: nat, hi: nat): (r: Option<nat>)
    ensures r.Some? ==> lo <= r.value <= hi && r.value < |s| && s[r.value] == c
    ensures r.Some? ==> forall j :: r.value < j <= hi && j < |s| ==> s[j] != c
    ensures r.None? ==> forall j :: lo <= j <= hi && j < |s| ==> s[j] != c
    decreases hi
  {
    if hi < lo then None
    else if hi < |s| && s[hi] == c then Some(hi)
    else if hi == 0 then None
    else LastChar(s, c, lo, hi - 1)
  }

  /** The largest `j` with `lo <= j <= hi` where `sep` occurs and ends before `limit`. */
  function LastSep(s: string, sep: string, lo: nat, hi: nat, limit: nat): (r: Option<nat>)
    ensures r.Some? ==> lo <= r.value <= hi && OccursAt(s, sep, r.value) && r.value + |sep| < limit
    ensures r.None? ==> forall j :: lo <= j <= hi ==> !(OccursAt(s, sep, j) && j + |sep| < limit)
    decreases hi
  {
    if hi < lo then None
    else if OccursAt(s, sep, hi) && hi + |sep| < limit then Some(hi)
    else if hi == 0 then None
    else LastSep(s, sep, lo, hi - 1, limit)
  }

  /** The largest `j` with `lo <= j <= hi` where `sep` occurs followed by a word character. */
  function LastSepBeforeWord(s: string, sep: string, lo: nat, hi: nat): (r: Option<nat>)
    ensures r.Some? ==> lo <= r.value <= hi && OccursAt(s, sep, r.value)
                        && r.value + |sep| < |s| && IsWordChar(s[r.value + |sep|])
    decreases hi
  {
    if hi < lo then None
    else if OccursAt(s, sep, hi) && hi + |sep| < |s| && IsWordChar(s[hi + |sep|]) then Some(hi)
    else if hi == 0 then None
    else LastSepBeforeWord(s, sep, lo, hi - 1)
  }

  /** `PREFIX(\w+)SEP(.+)`, e.g. `set (\w+) to (.+)`: the name and the rest of the line. */
  function WordThenRest(line: string, prefix: string, sep: string): (r: Option<(string, string)>)
    ensures r.Some? ==> StartsWith(line, prefix)
  {
    if !StartsWith(line, prefix) then None
    else
      var w := WordEnd(line, |prefix|);
      if w == |prefix| || !OccursAt(line, sep, w) then None
      else
        var e := LineEnd(line, w + |sep|);
        if e == w + |sep| then None else Some((line[|prefix|..w], line[w + |sep|..e]))
  }

  /** `PREFIX(.+)SEP(\w+)`, e.g. `add (.+) to (\w+)`: the greedy `.+` takes the last separator that
      a word character follows. */
  function RestThenWord(line: string, prefix: string, sep: string): (r: Option<(string, string)>)
    ensures r.Some? ==> StartsWith(line, prefix)
  {
    if !StartsWith(line, prefix) then None
    else
      var e := LineEnd(line, |prefix|);
      match LastSepBeforeWord(line, sep, |prefix| + 1, e)
      case None => None
      case Some(k) => Some((line[|prefix|..k], line[k + |sep|..WordEnd(line, k + |sep|)]))
  }

  /** `PREFIX(\w+)SEP(\w+)`, e.g. `set (\w+) to size of (\w+)`. */
  function WordThenWord(line: string, prefix: string, sep: string): (r: Option<(string, string)>)
    ensures r.Some? ==> StartsWith(line, prefix)
  {
    if !StartsWith(line, prefix) then None
    else
      var w := WordEnd(line, |prefix|);
      if w == |prefix| || !OccursAt(line, sep, w) then None
      else
        var w2 := WordEnd(line, w + |sep|);
        if w2 == w + |sep| then None else Some((line[|prefix|..w], line[w + |sep|..w2]))
  }

  /** `PREFIX(.+):`: the text before the last colon of the line. */
  function RestColon(line: string, prefix: string): (r: Option<string>)
    ensures r.Some? ==> StartsWith(line, prefix)
  {
    if !StartsWith(line, prefix) then None
    else
      var e := LineEnd(line, |prefix|);
      if e == 0 then None
      else
        match LastChar(line, ':', |prefix| + 1, e - 1)
        case None => None
        case Some(k) => Some(line[|prefix|..k])
  }

  /** `PREFIX"([^"]+)"SEP(\w+)`, e.g. `ask "([^"]+)" and store in (\w+)`. */
  function QuotedThenWord(line: string, prefix: string, sep: string): (r: Option<(string, string)>)
    ensures r.Some? ==> StartsWith(line, prefix)
  {
    if !StartsWith(line, prefix) then None
    else
      var q := NonQuoteEnd(line, |prefix|);
      if q == |prefix| || !OccursAt(line, sep, q) then None
      else
        var w := WordEnd(line, q + |sep|);
        if w == q + |sep| then None else Some((line[|prefix|..q], line[q + |sep|..w]))
  }

  function MatchSet(line: string): Option<(string, string)> { WordThenRest(line, "set ", " to ") }
  function MatchAddTo(line: string): Option<(string, string)> { RestThenWord(line, "add ", " to ") }
  function MatchRemoveFrom(line: string): Option<(string, string)> { RestThenWord(line, "remove ", " from ") }
  function MatchSubtractFrom(line: string): Option<(string, string)> { RestThenWord(line, "subtract ", " from ") }
  function MatchMultiplyBy(line: string): Option<(string, string)> { WordThenRest(line, "multiply ", " by ") }
  function MatchDivideBy(line: string): Option<(string, string)> { WordThenRest(line, "divide ", " by ") }
  function MatchSizeOf(line: string): Option<(string, string)> { WordThenWord(line, "set ", " to size of ") }
  function MatchRandomChoice(line: string): Option<(string, string)> { WordThenWord(line, "set ", " to random choice from ") }
  function MatchAsk(line: string): Option<(string, string)> { QuotedThenWord(line, "ask \"", "\" and store in ") }
  function MatchAskNumber(line: string): Option<(string, string)> { QuotedThenWord(line, "ask for number \"", "\" and store in ") }
  function MatchIf(line: string): Option<string> { RestColon(line, "if ") }
  function MatchElseIf(line: string): Option<string> { RestColon(line, "else if ") }
  function MatchLoopWhile(line: string): Option<string> { RestColon(line, "loop while ") }

  /** A block header written as the prefix, a condition with no colon and no newline, and a
      colon gives that condition back. */
  lemma {:induction false} HeaderRoundTrip(prefix: string, c: string)
    requires c != [] && forall i :: 0 <= i < |c| ==> c[i] != ':' && c[i] != '\n'
    ensures RestColon(prefix + c + ":", prefix) == Some(c)
  {
    var line := prefix + c + ":";
    assert line[..|prefix|] == prefix;
    assert forall k :: |prefix| <= k < |line| - 1 ==> line[k] == c[k - |prefix|];
    assert LineEnd(line, |prefix|) == |line|;
    assert LastChar(line, ':', |prefix| + 1, |line| - 1) == Some(|line| - 1);
    assert line[|prefix|..|line| - 1] == c;
  }

  /** `set (\w+) to item (\d+) of (\w+)`: the variable, the index and the list. */
  function MatchItemOf(line: string): (r: Option<(string, nat, string)>)
    ensures r.Some? ==> StartsWith(line, "set ")
  {
    if !StartsWith(line, "set ") then None
    else
      var w := WordEnd(line, 4);
      if w == 4 || !OccursAt(line, " to item ", w) then None
      else
        var d := DigitEnd(line, w + 9);
        if d == w + 9 || !OccursAt(line, " of ", d) then None
        else
          var w2 := WordEnd(line, d + 4);
          if w2 == d + 4 then None else Some((line[4..w], DigitsValue(line[w + 9..d]), line[d + 4..w2]))
  }

  /** `set (\w+) to random number between (.+) and (.+)`: the variable and the two bound texts. */
  function MatchRandomNumber(line: string): (r: Option<(string, string, string)>)
    ensures r.Some? ==> StartsWith(line, "set ")
  {
    match WordThenRest(line, "set ", " to random number between ")
    case None => None
    case Some((name, _)) =>
      var p := 4 + |name| + 26;
      var e := LineEnd(line, p);
      match LastSep(line, " and ", p + 1, e, e)
      case None => None
      case Some(k) => Some((name, line[p..k], line[k + 5..e]))
  }

  /** `for each (\w+) in (.+):`: the loop variable and the source text. */
  function MatchForEach(line: string): (r: Option<(string, string)>)
  {
    if !StartsWith(line, "for each ") then None
    else
      var w := WordEnd(line, 9);
      if w == 9 || !OccursAt(line, " in ", w) then None
      else
        var e := LineEnd(line, w + 4);
        if e == 0 then None
        else
          match LastChar(line, ':', w + 5, e - 1)
          case None => None
          case Some(k) => Some((line[9..w], line[w + 4..k]))
  }

  /** `wait (\d+\.?\d*) seconds?` */
  predicate MatchWait(line: string)
  {
    StartsWith(line, "wait ") &&
    var d := DigitEnd(line, 5);
    d > 5 &&
    var f := if d < |line| && line[d] == '.' then DigitEnd(line, d + 1) else d;
    OccursAt(line, " second", f)
  }

  /** `PREFIX(\d+)SEP(\d+)` with the two numbers; `SEP` may be followed by white space when
      `spaced` (as `,\s*` is), and `suffix` must follow the second number. */
  function TwoNumbers(s: string, prefix: string, sep: string, spaced: bool, suffix: string): (r: Option<(nat, nat)>)
    ensures r.Some? ==> StartsWith(s, prefix)
  {
    if !StartsWith(s, prefix) then None
    else
      var d1 := DigitEnd(s, |prefix|);
      if d1 == |prefix| || !OccursAt(s, sep, d1) then None
      else
        var b := if spaced then SpaceEnd(s, d1 + |sep|) else d1 + |sep|;
        var d2 := DigitEnd(s, b);
        if d2 == b || !OccursAt(s, suffix, d2) then None
        else Some((DigitsValue(s[|prefix|..d1]), DigitsValue(s[b..d2])))
  }

  /** `range\((\d+),\s*(\d+)\)` */
  function MatchRange(s: string): Option<(nat, nat)> { TwoNumbers(s, "range(", ",", true, ")") }

  /** `random number between (\d+) and (\d+)` */
  function MatchRandomBetween(s: string): Option<(nat, nat)> { TwoNumbers(s, "random number between ", " and ", false, "") }
}
