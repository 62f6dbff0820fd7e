/** What two parts of the interpreter evidently mean to do, next to what they do: the clause
    scan of `handle_if` (sifzz.py:273-350) and the `contains` test of `eval_condition`
    (sifzz.py:731-736). The rest of the model keeps the behaviour as written; these
    definitions state the intended behaviour and prove it. */
module Intended {
  import opened Text
  import opened Values
  import opened Eval
  import opened Patterns
  import opened Blocks
  import opened Machines
  import opened Semantics

  /** The depth scan of `find_block_end` without its early stop at an else clause: the index of
      the terminator equal to `marker` that brings the counter to zero, or the number of lines. */
  function ScanClosing(lines: seq<string>, i: nat, depth: int, marker: string): (r: nat)
    requires 1 <= i <= |lines|
    ensures i <= r <= |lines|
    decreases |lines| - i
  {
    if i == |lines| then |lines|
    else
      var line := Strip(lines[i]);
      var d := depth + Delta(line);
      if IsEnder(line) && d == 0 && line == marker then i else ScanClosing(lines, i + 1, d, marker)
  }

  /** The terminator that closes the block opened at `start`, else clauses included. */
  function ClosingEnd(lines: seq<string>, start: nat, marker: string): (r: nat)
    requires start < |lines|
    ensures start < r <= |lines|
  {
    ScanClosing(lines, start + 1, 1, marker)
  }

  /** The first else clause of lines `i..j-1` that belongs to the block itself, at depth one
      when the lines before it are counted, or `j`. */
  function NextClause(lines: seq<string>, i: nat, j: nat, depth: int): (r: nat)
    requires i <= j <= |lines|
    ensures i <= r <= j
    ensures r < j ==> IsElseClause(Strip(lines[r]))
    decreases j - i
  {
    if i == j then j
    else
      var line := Strip(lines[i]);
      if IsElseClause(line) && depth == 1 then i else NextClause(lines, i + 1, j, depth + Delta(line))
  }

  /** `handle_if` as intended: the block ends at its own `end if`, and the clauses are the else
      lines at the block's own depth. The true branch runs up to the next clause. */
  function IntendedIf(lines: seq<string>, start: nat, m: Machine, rt: Runtime): (r: (nat, Machine))
    requires start < |lines|
    ensures start < r.0 <= |lines| + 1
  {
    match MatchIf(Strip(lines[start]))
    case None => (start + 1, m)
    case Some(c) =>
      var be := ClosingEnd(lines, start, "end if");
      var first := NextClause(lines, start + 1, be, 1);
      match Condition(c, m, rt)
      case Err(x) => (be + 1, Raise(m, x))
      case Ok(true) => (be + 1, ExecFrom(lines, start + 1, first, m, rt).1)
      case Ok(false) => (be + 1, IntendedElse(lines, first, be, m, rt))
  }

  /** The clauses from the one at `i` on, after every earlier condition was false: the first
      true `else if` runs up to the next clause, an `else:` runs to the end of the block. */
  function IntendedElse(lines: seq<string>, i: nat, be: nat, m: Machine, rt: Runtime): (r: Machine)
    requires i <= be <= |lines|
    decreases be - i
  {
    if i == be then m
    else
      var line := Strip(lines[i]);
      var next := NextClause(lines, i + 1, be, 1);
      if line == "else:" then ExecFrom(lines, i + 1, be, m, rt).1
      else match MatchElseIf(line)
        case None => IntendedElse(lines, next, be, m, rt)
        case Some(c) =>
          match Condition(c, m, rt)
          case Err(x) => Raise(m, x)
          case Ok(true) => ExecFrom(lines, i + 1, next, m, rt).1
          case Ok(false) => IntendedElse(lines, next, be, m, rt)
  }

  /** The closing scan steps over a passable stretch of lines, carrying the counter. */
  lemma {:induction false} ClosingThrough(lines: seq<string>, i: nat, j: nat, depth: int, marker: string)
    requires 1 <= i <= j <= |lines|
    requires Passes(lines, i, j, depth)
    ensures ScanClosing(lines, i, depth, marker) == ScanClosing(lines, j, depth + Net(lines, i, j), marker)
    decreases j - i
  {
    if i < j {
      var line := Strip(lines[i]);
      var d := depth + Delta(line);
      assert d >= 1 && Passes(lines, i + 1, j, d);
      assert ScanClosing(lines, i, depth, marker) == ScanClosing(lines, i + 1, d, marker);
      ClosingThrough(lines, i + 1, j, d, marker);
    }
  }

  /** The clause search steps over a passable stretch of lines, carrying the counter. */
  lemma {:induction false} ClauseThrough(lines: seq<string>, i: nat, e: nat, j: nat, depth: int)
    requires i <= e <= j <= |lines|
    requires Passes(lines, i, e, depth)
    ensures NextClause(lines, i, j, depth) == NextClause(lines, e, j, depth + Net(lines, i, e))
    decreases e - i
  {
    if i < e {
      var line := Strip(lines[i]);
      var d := depth + Delta(line);
      assert Passes(lines, i + 1, e, d);
      if IsElseClause(line) {
        ElseOnly(line);
      }
      assert NextClause(lines, i, j, depth) == NextClause(lines, i + 1, j, d);
      ClauseThrough(lines, i + 1, e, j, d);
    }
  }

  /** For `if C:`, a balanced body, `else:`, a balanced body and `end if`, exactly one of the
      two bodies runs, the first one whole when `C` holds and the second one otherwise, and the
      walk resumes after the `end if`. */
  lemma {:induction false} IfElseIntended(lines: seq<string>, start: nat, e: nat, k: nat, c: string, m: Machine, rt: Runtime)
    requires start < e < k < |lines|
    requires MatchIf(Strip(lines[start])) == Some(c) && Condition(c, m, rt).Ok?
    requires Strip(lines[e]) == "else:" && Strip(lines[k]) == "end if"
    requires Passes(lines, start + 1, e, 1) && Net(lines, start + 1, e) == 0
    requires Passes(lines, e + 1, k, 1) && Net(lines, e + 1, k) == 0
    ensures IntendedIf(lines, start, m, rt) ==
              (k + 1, if Condition(c, m, rt).value then ExecFrom(lines, start + 1, e, m, rt).1
                      else ExecFrom(lines, e + 1, k, m, rt).1)
  {
    ClosingAtEnd(lines, start, e, k, "end if");
    ClauseAtElse(lines, start, e, k);
  }

  /** For `if C:` and a balanced body closed by `end if`, with no else clause of its own (an
      else clause of a nested block is allowed): the whole body runs when `C` holds, nothing
      otherwise, and the walk resumes after the `end if`. */
  lemma {:induction false} NestedIntended(lines: seq<string>, start: nat, k: nat, c: string, m: Machine, rt: Runtime)
    requires start < k < |lines| && Strip(lines[k]) == "end if"
    requires MatchIf(Strip(lines[start])) == Some(c) && Condition(c, m, rt).Ok?
    requires Passes(lines, start + 1, k, 1) && Net(lines, start + 1, k) == 0
    ensures IntendedIf(lines, start, m, rt) ==
              (k + 1, if Condition(c, m, rt).value then ExecFrom(lines, start + 1, k, m, rt).1 else m)
  {
    ClosingFromElse(lines, start, k, "end if");
    ClauseToEnd(lines, start, k);
    assert IntendedElse(lines, k, k, m, rt) == m;
  }

  /** A balanced body holds no else clause at the block's own depth. */
  lemma {:induction false} ClauseToEnd(lines: seq<string>, start: nat, k: nat)
    requires start < k <= |lines|
    requires Passes(lines, start + 1, k, 1)
    ensures NextClause(lines, start + 1, k, 1) == k
  {
    ClauseThrough(lines, start + 1, k, k, 1);
  }

  /** The closing scan goes past the `else:` line to the terminator. */
  lemma {:induction false} ClosingAtEnd(lines: seq<string>, start: nat, e: nat, k: nat, marker: string)
    requires start < e < k < |lines| && IsEnder(marker)
    requires Strip(lines[e]) == "else:" && Strip(lines[k]) == marker
    requires Passes(lines, start + 1, e, 1) && Net(lines, start + 1, e) == 0
    requires Passes(lines, e + 1, k, 1) && Net(lines, e + 1, k) == 0
    ensures ClosingEnd(lines, start, marker) == k
  {
    ClosingToElse(lines, start, e, marker);
    ClosingPastElse(lines, e, marker);
    ClosingFromElse(lines, e, k, marker);
  }

  /** A balanced first body brings the closing scan to the `else:` line at depth one. */
  lemma {:induction false} ClosingToElse(lines: seq<string>, start: nat, e: nat, marker: string)
    requires start < e <= |lines|
    requires Passes(lines, start + 1, e, 1) && Net(lines, start + 1, e) == 0
    ensures ClosingEnd(lines, start, marker) == ScanClosing(lines, e, 1, marker)
  {
    ClosingThrough(lines, start + 1, e, 1, marker);
  }

  /** A balanced stretch of lines after `e` brings the closing scan to the terminator, which
      ends it. */
  lemma {:induction false} ClosingFromElse(lines: seq<string>, e: nat, k: nat, marker: string)
    requires e < k < |lines| && Strip(lines[k]) == marker && IsEnder(marker)
    requires Passes(lines, e + 1, k, 1) && Net(lines, e + 1, k) == 0
    ensures ScanClosing(lines, e + 1, 1, marker) == k
  {
    ClosingThrough(lines, e + 1, k, 1, marker);
    ClosingAtMarker(lines, k, marker);
  }

  /** An `else:` line at depth one does not stop the closing scan. */
  lemma {:induction false} ClosingPastElse(lines: seq<string>, e: nat, marker: string)
    requires 1 <= e < |lines| && Strip(lines[e]) == "else:"
    ensures ScanClosing(lines, e, 1, marker) == ScanClosing(lines, e + 1, 1, marker)
  {
    ElseOnly(Strip(lines[e]));
  }

  /** The terminator it looks for, met at depth one, ends the closing scan. */
  lemma {:induction false} ClosingAtMarker(lines: seq<string>, k: nat, marker: string)
    requires 1 <= k < |lines| && Strip(lines[k]) == marker && IsEnder(marker)
    ensures ScanClosing(lines, k, 1, marker) == k
  {
    EnderOnly(marker);
  }

  /** The clause search stops at the `else:` line, past the clauses of nested blocks. */
  lemma {:induction false} ClauseAtElse(lines: seq<string>, start: nat, e: nat, k: nat)
    requires start < e < k <= |lines| && Strip(lines[e]) == "else:"
    requires Passes(lines, start + 1, e, 1) && Net(lines, start + 1, e) == 0
    ensures NextClause(lines, start + 1, k, 1) == e
  {
    ClauseThrough(lines, start + 1, e, k, 1);
  }

  /** `eval_condition` with the `contains` test inside the same guard as `eval`: a condition
      that raises is false. */
  function IntendedCondition(c: string, vars: seq<Binding>, lists: map<string, seq<Value>>, host: Host): (r: bool)
    ensures EvalCondition(c, vars, lists, host).Ok? ==> r == EvalCondition(c, vars, lists, host).value
    ensures EvalCondition(c, vars, lists, host).Err? ==> !r
  {
    match EvalCondition(c, vars, lists, host)
    case Ok(b) => b
    case Err(_) => false
  }

  /** With the guard, a number looked for in a quoted text is simply not found, and a text is
      found exactly when it occurs. */
  lemma {:induction false} ContainsIntended(s: string, t: string, n: int, vars: seq<Binding>, lists: map<string, seq<Value>>, host: Host)
    requires !Contains(s, " contains ") && !Contains(t, " contains ")
    ensures !IntendedCondition("\"" + s + "\" contains " + IntToString(n), vars, lists, host)
    ensures IntendedCondition("\"" + s + "\" contains \"" + t + "\"", vars, lists, host) == Contains(s, t)
  {
    ContainsRaises(s, n, vars, lists, host);
    ContainsTest(s, t, vars, lists, host);
  }
}
