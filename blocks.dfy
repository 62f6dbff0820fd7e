/** `find_block_end` (sifzz.py:273-308): the scan that pairs a block header with its terminator
    by counting nesting depth over stripped lines. */
module Blocks {
  import opened Text

  /** A line that opens a nested block: it starts with `if `, `repeat `, `loop `, `for each ` or
      `function `. */
  predicate IsStarter(line: string)
  {
    StartsWith(line, "if ") || StartsWith(line, "repeat ") || StartsWith(line, "loop ")
    || StartsWith(line, "for each ") || StartsWith(line, "function ")
  }

  /** One of the five terminators; any of them closes one level, whatever block it names. */
  predicate IsEnder(line: string)
  {
    line == "end if" || line == "end repeat" || line == "end loop" || line == "end for" || line == "end function"
  }

  /** A sibling clause of an `if`. */
  predicate IsElseClause(line: string)
  {
    StartsWith(line, "else if ") || line == "else:"
  }

  /** How a line moves the depth counter. */
  function Delta(line: string): int
  {
    (if IsStarter(line) then 1 else 0) - (if IsEnder(line) then 1 else 0)
  }

  /** The scan from line `i` with the counter at `depth`: the index of the terminator equal to
      `marker` that brings the counter to zero, one before an else clause met at depth one, or
      the number of lines when neither comes. */
  function Scan(lines: seq<string>, i: nat, depth: int, marker: string): (r: nat)
    requires 1 <= i <= |lines|
    ensures i <= r + 1 && r <= |lines|
    decreases |lines| - i, 1
  {
    if i == |lines| then |lines| else ScanLine(lines, i, depth, marker)
  }

  /** The scan at a line that exists: count it, then stop or go on. */
  function ScanLine(lines: seq<string>, i: nat, depth: int, marker: string): (r: nat)
    requires 1 <= i < |lines|
    ensures i <= r + 1 && r <= |lines|
    decreases |lines| - i, 0
  {
    var line := Strip(lines[i]);
    var d := depth + Delta(line);
    if IsEnder(line) && d == 0 && line == marker then i
    else if IsElseClause(line) && d == 1 then i - 1
    else Scan(lines, i + 1, d, marker)
  }

  /** `find_block_end(lines, start, marker)` */
  function BlockEnd(lines: seq<string>, start: nat, marker: string): (r: nat)
    requires start < |lines|
    ensures start <= r <= |lines|
  {
    Scan(lines, start + 1, 1, marker)
  }

  /** The scan as the interpreter runs it: a counter and an index stepped by a loop. */
  method FindBlockEnd(lines: seq<string>, start: nat, marker: string) returns (r: nat)
    requires start < |lines|
    ensures r == BlockEnd(lines, start, marker)
  {
    var depth := 1;
    var i := start + 1;
    while i < |lines|
      invariant start + 1 <= i <= |lines|
      invariant Scan(lines, i, depth, marker) == BlockEnd(lines, start, marker)
      decreases |lines| - i
    {
      var line := Strip(lines[i]);
      ScanStep(lines, i, depth, marker);
      var closes, reopens;
      depth, closes, reopens := CountLine(line, depth, marker);
      if closes {
        return i;
      }
      if reopens {
        return i - 1;
      }
      i := i + 1;
    }
    return i;
  }

  /** The body of the scan for one stripped line: the counter after it, whether it is the
      terminator that closes the block, and whether it is an else clause at depth one. */
  method CountLine(line: string, depth: int, marker: string) returns (d: int, closes: bool, reopens: bool)
    ensures d == depth + Delta(line)
    ensures closes == (IsEnder(line) && d == 0 && line == marker)
    ensures reopens == (!closes && IsElseClause(line) && d == 1)
  {
    d := depth;
    closes, reopens := false, false;
    if IsStarter(line) {
      d := d + 1;
    }
    if IsEnder(line) {
      d := d - 1;
      if d == 0 && line == marker {
        closes := true;
        return;
      }
    }
    if IsElseClause(line) && d == 1 {
      reopens := true;
    }
  }

  /** One step of the scan. */
  lemma {:induction false} ScanStep(lines: seq<string>, i: nat, depth: int, marker: string)
    requires 1 <= i < |lines|
    ensures var line := Strip(lines[i]);
            var d := depth + Delta(line);
            Scan(lines, i, depth, marker) ==
              if IsEnder(line) && d == 0 && line == marker then i
              else if IsElseClause(line) && d == 1 then i - 1
              else Scan(lines, i + 1, d, marker)
  {
    assert Scan(lines, i, depth, marker) == ScanLine(lines, i, depth, marker);
  }

  /** The sum of the depth moves of lines `i` to `j - 1`. */
  function Net(lines: seq<string>, i: nat, j: nat): int
    requires i <= j <= |lines|
    decreases j - i
  {
    if i == j then 0 else Delta(Strip(lines[i])) + Net(lines, i + 1, j)
  }

  /** Lines `i` to `j - 1`, entered at `depth`, keep the counter at one or more after each line
      and hold no else clause at depth one: the scan goes past all of them. */
  predicate Passes(lines: seq<string>, i: nat, j: nat, depth: int)
    requires i <= j <= |lines|
    decreases j - i
  {
    i == j ||
    var d := depth + Delta(Strip(lines[i]));
    d >= 1 && !(IsElseClause(Strip(lines[i])) && d == 1) && Passes(lines, i + 1, j, d)
  }

  /** The scan steps over a passable stretch of lines, carrying the counter. */
  lemma {:induction false} ScanThrough(lines: seq<string>, i: nat, j: nat, depth: int, marker: string)
    requires 1 <= i <= j <= |lines|
    requires Passes(lines, i, j, depth)
    ensures Scan(lines, i, depth, marker) == Scan(lines, j, depth + Net(lines, i, j), marker)
    decreases j - i
  {
    if i < j {
      ScanStep(lines, i, depth, marker);
      ScanThrough(lines, i + 1, j, depth + Delta(Strip(lines[i])), marker);
    }
  }

  /** A terminator opens nothing and is no else clause. */
  lemma {:induction false} EnderOnly(line: string)
    requires IsEnder(line)
    ensures Delta(line) == -1 && !IsElseClause(line)
  {
    NotPrefix(line, "if ", 0);
    NotPrefix(line, "repeat ", 0);
    NotPrefix(line, "loop ", 0);
    NotPrefix(line, "for each ", 0);
    NotPrefix(line, "function ", 0);
    NotPrefix(line, "else if ", 1);
  }

  /** An else clause neither opens nor closes a level. */
  lemma {:induction false} ElseOnly(line: string)
    requires IsElseClause(line)
    ensures Delta(line) == 0
  {
    if line != "else:" {
      assert line[..8] == "else if ";
      assert line[0] == 'e' && line[1] == 'l';
    }
    assert !IsEnder(line);
    NotPrefix(line, "if ", 0);
    NotPrefix(line, "repeat ", 0);
    NotPrefix(line, "loop ", 0);
    NotPrefix(line, "for each ", 0);
    NotPrefix(line, "function ", 0);
  }

  /** A body whose nested blocks are balanced and that holds no else clause of its own ends at
      the outer terminator, never at an inner block's. */
  lemma {:induction false} BalancedBody(lines: seq<string>, start: nat, k: nat, marker: string)
    requires start < k < |lines|
    requires IsEnder(marker) && Strip(lines[k]) == marker
    requires Passes(lines, start + 1, k, 1) && Net(lines, start + 1, k) == 0
    ensures BlockEnd(lines, start, marker) == k
  {
    ScanThrough(lines, start + 1, k, 1, marker);
    EnderOnly(marker);
  }

  /** An else clause at depth one at index `k` ends the block at `k - 1`. */
  lemma {:induction false} ElseEndsBlock(lines: seq<string>, start: nat, k: nat, marker: string)
    requires start < k < |lines|
    requires IsElseClause(Strip(lines[k]))
    requires Passes(lines, start + 1, k, 1) && Net(lines, start + 1, k) == 0
    ensures BlockEnd(lines, start, marker) == k - 1
  {
    ScanThrough(lines, start + 1, k, 1, marker);
    ElseOnly(Strip(lines[k]));
  }

  /** A block that is never closed runs to the end of the program. */
  lemma {:induction false} Unterminated(lines: seq<string>, start: nat, marker: string)
    requires start < |lines|
    requires Passes(lines, start + 1, |lines|, 1)
    ensures BlockEnd(lines, start, marker) == |lines|
  {
    ScanThrough(lines, start + 1, |lines|, 1, marker);
  }

  /** Terminators are counted whatever block they name: an `end loop` closes an `if`, and the
      `end if` after it no longer matches, so the `if` block runs to the end. */
  lemma {:induction false} MismatchedTerminator()
    ensures BlockEnd(["if x:", "end loop", "end if", "say x"], 0, "end if") == 4
  {
  }

  /** An inner block closed by the wrong kind of terminator still counts as closed. */
  lemma {:induction false} AnyTerminatorCloses()
    ensures BlockEnd(["if x:", "loop while y:", "end if", "end if"], 0, "end if") == 3
  {
  }
}
