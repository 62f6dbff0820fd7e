/** What running a range of lines does: `execute_block` (sifzz.py:213-253) and the block
    handlers `handle_if` (sifzz.py:310-350), `handle_loop` (sifzz.py:352-382) and
    `handle_foreach` (sifzz.py:384-416), as functions of the machine state. Every loop iteration
    costs one unit of fuel; a run whose fuel ends stops with `OutOfFuel`. An exception or
    `sys.exit` (a status other than `Running`) unwinds every block at once. */
module Semantics {
  import opened Text
  import opened Values
  import opened Store
  import opened Eval
  import opened Patterns
  import opened Blocks
  import opened Rules
  import opened Machines

  /** `eval_condition(c)` on the machine's stores. */
  function Condition(c: string, m: Machine, rt: Runtime): Result<bool>
  {
    rt.test(c, m)
  }

  /** A line that `execute_block` passes over. */
  predicate Blank(line: string)
  {
    line == "" || StartsWith(line, "#")
  }

  /** What the block walk needs from the rest of the interpreter: what an ordinary line does
      (`execute_line`, then the modules, then the warning) and what a condition evaluates to
      (`eval_condition`). `Bind` gives the interpreter's own; the lemmas that hold for any
      runtime say so by not asking for `Faithful`. */
  datatype Runtime = Runtime(ctx: Context, step: (string, Machine) -> Machine, test: (string, Machine) -> Result<bool>)

  ghost predicate Faithful(rt: Runtime)
  {
    && (forall line, m {:trigger Statement(line, m, rt.ctx)} :: rt.step(line, m) == Statement(line, m, rt.ctx))
    && (forall c, m: Machine {:trigger EvalCondition(c, m.vars, m.lists, rt.ctx.host)} ::
          rt.test(c, m) == EvalCondition(c, m.vars, m.lists, rt.ctx.host))
  }

  function Bind(ctx: Context): (rt: Runtime)
    ensures rt.ctx == ctx && Faithful(rt)
  {
    Runtime(ctx, (line, m) => Statement(line, m, ctx), (c, m: Machine) => EvalCondition(c, m.vars, m.lists, ctx.host))
  }

  /** The first line in `i..j-1` whose stripped text starts with `else`, or `j`. */
  function FirstElse(lines: seq<string>, i: nat, j: nat): (r: nat)
    requires j <= |lines|
    ensures r <= j && (i <= j ==> i <= r)
    ensures r < j ==> StartsWith(Strip(lines[r]), "else")
    ensures forall k :: i <= k < r ==> !StartsWith(Strip(lines[k]), "else")
    decreases j - i
  {
    if i >= j then j
    else if StartsWith(Strip(lines[i]), "else") then i
    else FirstElse(lines, i + 1, j)
  }

  /** `execute_block(lines, i, end)`: the index where the walk stopped, and the state. */
  function ExecFrom(lines: seq<string>, i: nat, end: nat, m: Machine, rt: Runtime): (r: (nat, Machine))
    requires i <= |lines| + 1 && end <= |lines|
    ensures r.1.fuel <= m.fuel && i <= r.0
    decreases m.fuel, |lines| + 1 - i, 2, 0
  {
    if i >= end || m.status != Running || m.loopBreak then (i, m)
    else
      var line := Strip(lines[i]);
      if Blank(line) then ExecFrom(lines, i + 1, end, m, rt)
      else if line == "stop script" then (i, m.(status := Exited))
      else if line == "break" then (i, m.(loopBreak := true))
      else if StartsWith(line, "loop while ") then
        var (j, m1) := HandleLoop(lines, i, m, rt);
        ExecFrom(lines, j, end, m1, rt)
      else if StartsWith(line, "if ") then
        var (j, m1) := HandleIf(lines, i, m, rt);
        ExecFrom(lines, j, end, m1, rt)
      else ExecFrom(lines, i + 1, end, rt.step(line, m).(fuel := m.fuel), rt)
  }

  /** `handle_if(lines, start)`: the index after the block, and the state. */
  function HandleIf(lines: seq<string>, start: nat, m: Machine, rt: Runtime): (r: (nat, Machine))
    requires start < |lines|
    ensures start < r.0 <= |lines| + 1 && r.1.fuel <= m.fuel
    decreases m.fuel, |lines| + 1 - start, 1, 0
  {
    match MatchIf(Strip(lines[start]))
    case None => (start + 1, m)
    case Some(c) =>
      var be := BlockEnd(lines, start, "end if");
      match Condition(c, m, rt)
      case Err(x) => (be + 1, Raise(m, x))
      case Ok(true) =>
        var body := ExecFrom(lines, start + 1, FirstElse(lines, start + 1, be), m, rt);
        (be + 1, body.1)
      case Ok(false) => (be + 1, ElseScan(lines, start, start + 1, be, m, rt))
  }

  /** The `else if` / `else:` scan of `handle_if` over lines `i..be-1` after a false
      condition. */
  function ElseScan(lines: seq<string>, start: nat, i: nat, be: nat, m: Machine, rt: Runtime): (r: Machine)
    requires start < i <= be + 1 && be <= |lines|
    ensures r.fuel <= m.fuel
    decreases m.fuel, |lines| + 1 - start, 0, be + 1 - i
  {
    if i >= be then m
    else
      var line := Strip(lines[i]);
      if StartsWith(line, "else if ") then
        match MatchElseIf(line)
        case None => ElseScan(lines, start, i + 1, be, m, rt)
        case Some(c) =>
          match Condition(c, m, rt)
          case Err(x) => Raise(m, x)
          case Ok(false) => ElseScan(lines, start, i + 1, be, m, rt)
          case Ok(true) => ExecFrom(lines, i + 1, FirstElse(lines, i + 1, be), m, rt).1
      else if line == "else:" then ExecFrom(lines, i + 1, be, m, rt).1
      else ElseScan(lines, start, i + 1, be, m, rt)
  }

  /** `handle_loop(lines, start)`: the index after the block, and the state. */
  function HandleLoop(lines: seq<string>, start: nat, m: Machine, rt: Runtime): (r: (nat, Machine))
    requires start < |lines|
    ensures start < r.0 <= |lines| + 1 && r.1.fuel <= m.fuel
    decreases m.fuel, |lines| + 1 - start, 1, 0
  {
    match MatchLoopWhile(Strip(lines[start]))
    case None => (start + 1, m)
    case Some(c) =>
      var be := BlockEnd(lines, start, "end loop");
      (be + 1, LoopIter(lines, start, c, be, m, rt))
  }

  /** The `while eval_condition(c)` loop of `handle_loop` over the body `start+1..be-1`. */
  function LoopIter(lines: seq<string>, start: nat, c: string, be: nat, m: Machine, rt: Runtime): (r: Machine)
    requires start < |lines| && be <= |lines|
    ensures r.fuel <= m.fuel
    decreases m.fuel, |lines| + 1 - start, 0, 1
  {
    if m.status != Running then m
    else
      var (stop, m1) := LoopPass(lines, start, c, be, m, rt);
      if stop then m1 else LoopIter(lines, start, c, be, m1, rt)
  }

  /** One turn of that loop: test the condition, run the body once, and say whether the loop is
      over. A turn that goes on has spent one unit of fuel and left the run going. */
  function LoopPass(lines: seq<string>, start: nat, c: string, be: nat, m: Machine, rt: Runtime): (r: (bool, Machine))
    requires start < |lines| && be <= |lines|
    ensures r.1.fuel <= m.fuel
    ensures !r.0 ==> r.1.fuel < m.fuel && r.1.status == Running
    decreases m.fuel, |lines| + 1 - start, 0, 0
  {
    match Condition(c, m, rt)
    case Err(x) => (true, Raise(m, x))
    case Ok(false) => (true, m)
    case Ok(true) =>
      if m.fuel == 0 then (true, m.(status := OutOfFuel))
      else BodyRun(lines, start, be, m.(fuel := m.fuel - 1), rt)
  }

  /** One run of a loop body `start+1..be-1`, as both loop handlers do it: an exception or
      `sys.exit` ends the loop, and so does `break`, whose flag is then cleared; otherwise the
      loop goes on with the run still going. */
  function BodyRun(lines: seq<string>, start: nat, be: nat, m: Machine, rt: Runtime): (r: (bool, Machine))
    requires start < |lines| && be <= |lines|
    ensures r.1.fuel <= m.fuel
    ensures !r.0 ==> r.1.status == Running
    ensures r.1.status == Running ==> !r.1.loopBreak
    decreases m.fuel, |lines| + 1 - start, 0, 0
  {
    var m1 := ExecFrom(lines, start + 1, be, m, rt).1;
    if m1.status != Running then (true, m1)
    else if m1.loopBreak then (true, m1.(loopBreak := false))
    else (false, m1)
  }

  /** What a `for each` walks: a list of the interpreter, by name, or fixed items. */
  datatype Source = Named(list: string) | Fixed(items: seq<Value>)

  /** `list(range(a, b))` */
  function Range(a: int, b: int): (r: seq<Value>)
    ensures |r| == if a < b then b - a else 0
    ensures forall k :: 0 <= k < |r| ==> r[k] == IntV(a + k)
    decreases b - a
  {
    if a >= b then [] else [IntV(a)] + Range(a + 1, b)
  }

  /** The items of a source in the current state. A named list is read under its name as it
      is now, at every step: this follows Python's index-based walk of the list while the name
      stays bound to the same list (items added, removed or cleared in the body are seen), but
      not once `create list` in the body binds the name to a new list, which Python's loop no
      longer sees. */
  function Items(s: Source, m: Machine): seq<Value>
  {
    match s
    case Named(n) => if n in m.lists then m.lists[n] else []
    case Fixed(items) => items
  }

  /** The source of `for each V in TEXT:`. */
  function SourceOf(text: string, m: Machine): (r: Source)
    ensures text in m.lists ==> r == Named(text)
    ensures text !in m.lists && MatchRange(text).None? ==> Items(r, m) == []
  {
    if text in m.lists then Named(text)
    else match MatchRange(text)
      case Some((a, b)) => Fixed(Range(a, b))
      case None => Fixed([])
  }

  /** `handle_foreach(lines, start)`: the index after the block, and the state. */
  function HandleForeach(lines: seq<string>, start: nat, m: Machine, rt: Runtime): (r: (nat, Machine))
    requires start < |lines|
    ensures start < r.0 <= |lines| + 1 && r.1.fuel <= m.fuel
  {
    match MatchForEach(Strip(lines[start]))
    case None => (start + 1, m)
    case Some((v, text)) =>
      var be := BlockEnd(lines, start, "end for");
      (be + 1, ForIter(lines, start, v, SourceOf(text, m), 0, be, m, rt))
  }

  /** The `for item in items` loop of `handle_foreach`, from item `k` on. */
  function ForIter(lines: seq<string>, start: nat, v: string, s: Source, k: nat, be: nat, m: Machine, rt: Runtime): (r: Machine)
    requires start < |lines| && be <= |lines|
    ensures r.fuel <= m.fuel
    decreases m.fuel
  {
    if m.status != Running || k >= |Items(s, m)| then m
    else
      var (stop, m1) := ForPass(lines, start, v, Items(s, m)[k], be, m, rt);
      if stop then m1 else ForIter(lines, start, v, s, k + 1, be, m1, rt)
  }

  /** What `handle_foreach` does before each run of the body: the variable takes the item and
      both flags are cleared; the pass spends one unit of fuel. */
  function Enter(v: string, x: Value, m: Machine): (r: Machine)
    requires m.fuel > 0
  {
    m.(vars := Put(m.vars, v, x), loopBreak := false, loopContinue := false, fuel := m.fuel - 1)
  }

  /** One pass of that loop with the item `x`: bind it, run the body, and say whether the loop
      is over. A pass that goes on has spent one unit of fuel and left the run going. */
  function ForPass(lines: seq<string>, start: nat, v: string, x: Value, be: nat, m: Machine, rt: Runtime): (r: (bool, Machine))
    requires start < |lines| && be <= |lines|
    ensures r.1.fuel <= m.fuel
    ensures !r.0 ==> r.1.fuel < m.fuel && r.1.status == Running
    ensures r.1.status == Running ==> !r.1.loopBreak
  {
    if m.fuel == 0 then (true, m.(status := OutOfFuel))
    else BodyRun(lines, start, be, Enter(v, x, m), rt)
  }

  /** `run(code)` */
  function Run(code: string, m: Machine, ctx: Context): Machine
  {
    var lines := Split(code, "\n");
    ExecFrom(lines, 0, |lines|, m, Bind(ctx)).1
  }

  /** `run_line(line)`: one line through the rules and the modules, with no warning. */
  function RunLine(line: string, m: Machine, ctx: Context): (r: Machine)
    ensures r.fuel == m.fuel
  {
    var l := Strip(line);
    if Blank(l) then m
    else
      var (handled, m1) := ExecLine(l, m, ctx);
      if handled then m1 else TryModules(l, m1, ctx).1
  }

  /** `run_line` is one step of the block walk without the warning: on a line that a rule or
      a module takes, both have the same effect, and on any other line the walk adds the
      warning to what `run_line` leaves. */
  lemma {:induction false} RunLineAsStep(line: string, m: Machine, ctx: Context)
    requires !Blank(Strip(line))
    ensures var l := Strip(line);
            var r := RunLine(line, m, ctx);
            Statement(l, m, ctx) ==
              if SelectRule(l).Some? || TryModules(l, m, ctx).0 then r
              else r.(output := r.output + ["[WARNING] Unknown command: " + l + "\n"])
  {
    var l := Strip(line);
    if SelectRule(l).None? {
      assert ExecLine(l, m, ctx) == (false, m);
    }
  }

  /** `run` of a one-line program whose line is an ordinary statement is that statement's
      step of the block walk. */
  lemma {:induction false} RunOneLine(code: string, m: Machine, ctx: Context)
    requires !Contains(code, "\n") && m.status == Running && !m.loopBreak
    requires var l := Strip(code);
             !Blank(l) && l != "stop script" && l != "break"
             && !StartsWith(l, "loop while ") && !StartsWith(l, "if ")
    ensures Run(code, m, ctx) == Statement(Strip(code), m, ctx)
  {
    var lines := Split(code, "\n");
    var rt := Bind(ctx);
    assert lines == [code];
    OrdinaryLine(lines, 0, 1, m, rt);
    var m1 := Statement(Strip(code), m, ctx);
    assert ExecFrom(lines, 1, 1, m1, rt) == (1, m1);
  }

  /** Both kinds of else clause start with `else`. */
  lemma {:induction false} ElseClauseStartsElse(line: string)
    ensures IsElseClause(line) ==> StartsWith(line, "else")
  {
    if StartsWith(line, "else if ") {
      assert line[..4] == line[..8][..4];
    }
  }

  /** A stretch of blank and comment lines changes nothing, and the walk ends at `end` unless it
      was already stopped. */
  lemma {:induction false} BlankRange(lines: seq<string>, i: nat, end: nat, m: Machine, rt: Runtime)
    requires i <= end <= |lines|
    requires forall k :: i <= k < end ==> Blank(Strip(lines[k]))
    ensures ExecFrom(lines, i, end, m, rt) == (if m.status != Running || m.loopBreak then i else end, m)
    decreases end - i
  {
    if i < end && m.status == Running && !m.loopBreak {
      BlankRange(lines, i + 1, end, m, rt);
    }
  }

  /** A `break` line sets the flag and ends the walk at that line. */
  lemma {:induction false} BreakEndsRange(lines: seq<string>, i: nat, end: nat, m: Machine, rt: Runtime)
    requires i < end <= |lines| && Strip(lines[i]) == "break"
    requires m.status == Running && !m.loopBreak
    ensures ExecFrom(lines, i, end, m, rt) == (i, m.(loopBreak := true))
  {
    NotPrefix("break", "#", 0);
  }

  /** Once the flag is set, no line of the range runs. */
  lemma {:induction false} BrokenRange(lines: seq<string>, i: nat, end: nat, m: Machine, rt: Runtime)
    requires i <= |lines| + 1 && end <= |lines| && m.loopBreak
    ensures ExecFrom(lines, i, end, m, rt) == (i, m)
  {
  }

  /** An ordinary line goes through `execute_line`, the modules and the warning, and the walk
      goes on at the next line. */
  lemma {:induction false} OrdinaryLine(lines: seq<string>, i: nat, end: nat, m: Machine, rt: Runtime)
    requires Faithful(rt) && i < end <= |lines| && m.status == Running && !m.loopBreak
    requires var line := Strip(lines[i]);
             !Blank(line) && line != "stop script" && line != "break"
             && !StartsWith(line, "loop while ") && !StartsWith(line, "if ")
    ensures ExecFrom(lines, i, end, m, rt) == ExecFrom(lines, i + 1, end, Statement(Strip(lines[i]), m, rt.ctx), rt)
  {
  }

  /** An `if` header that does not match `if (.+):` is passed over. */
  lemma {:induction false} IfNoMatch(lines: seq<string>, start: nat, m: Machine, rt: Runtime)
    requires start < |lines| && MatchIf(Strip(lines[start])).None?
    ensures HandleIf(lines, start, m, rt) == (start + 1, m)
  {
  }

  /** The scan for else clauses finds none in lines that do not start with `else`. */
  lemma {:induction false} ElseScanNone(lines: seq<string>, start: nat, i: nat, be: nat, m: Machine, rt: Runtime)
    requires start < i <= be + 1 && be <= |lines|
    requires forall j :: i <= j < be ==> !StartsWith(Strip(lines[j]), "else")
    ensures ElseScan(lines, start, i, be, m, rt) == m
    decreases be + 1 - i
  {
    if i < be {
      ElseClauseStartsElse(Strip(lines[i]));
      ElseScanNone(lines, start, i + 1, be, m, rt);
    }
  }

  /** An `if` block without else clauses whose body is balanced and closed by `end if` at `k`:
      a true condition runs exactly the body, once, and a false one runs nothing; either way the
      walk resumes after the `end if`. */
  lemma {:induction false} IfWithoutElse(lines: seq<string>, start: nat, k: nat, c: string, m: Machine, rt: Runtime)
    requires start < k < |lines| && Strip(lines[k]) == "end if"
    requires MatchIf(Strip(lines[start])) == Some(c) && Condition(c, m, rt).Ok?
    requires Passes(lines, start + 1, k, 1) && Net(lines, start + 1, k) == 0
    requires forall j :: start < j < k ==> !StartsWith(Strip(lines[j]), "else")
    ensures Condition(c, m, rt) == Ok(true) ==>
              HandleIf(lines, start, m, rt) == (k + 1, ExecFrom(lines, start + 1, k, m, rt).1)
    ensures Condition(c, m, rt) == Ok(false) ==> HandleIf(lines, start, m, rt) == (k + 1, m)
  {
    BalancedBody(lines, start, k, "end if");
    assert FirstElse(lines, start + 1, k) == k;
    IfHeader(lines, start, c, m, rt);
    if Condition(c, m, rt) == Ok(false) {
      ElseScanNone(lines, start, start + 1, k, m, rt);
    }
  }

  /** A matching `if` header with a condition that evaluates runs the body up to the first line
      starting with `else` when it holds, and scans for else clauses when it does not. */
  lemma {:induction false} IfHeader(lines: seq<string>, start: nat, c: string, m: Machine, rt: Runtime)
    requires start < |lines| && MatchIf(Strip(lines[start])) == Some(c) && Condition(c, m, rt).Ok?
    ensures var be := BlockEnd(lines, start, "end if");
            HandleIf(lines, start, m, rt) ==
              if Condition(c, m, rt).value then (be + 1, ExecFrom(lines, start + 1, FirstElse(lines, start + 1, be), m, rt).1)
              else (be + 1, ElseScan(lines, start, start + 1, be, m, rt))
  {
  }

  /** With an else clause, the scan of `find_block_end` stops one line before it, so a true
      condition skips the last line of the `if` body, a false one finds no clause, and either
      way the walk resumes at the `else:` line, which `execute_line` ignores, and then runs the
      else body as ordinary lines. */
  lemma {:induction false} IfElseAsWritten(lines: seq<string>, m: Machine, rt: Runtime)
    requires lines == ["if x:", "say 1", "else:", "say 2", "end if"]
    requires Condition("x", m, rt).Ok?
    ensures HandleIf(lines, 0, m, rt) == (2, m)
  {
    StripUnchanged(lines[0]);
    StripUnchanged(lines[2]);
    HeaderRoundTrip("if ", "x");
    assert "if " + "x" + ":" == lines[0];
    assert IsElseClause(Strip(lines[2]));
    ElseEndsBlock(lines, 0, 2, "end if");
    IfHeader(lines, 0, "x", m, rt);
    assert FirstElse(lines, 1, 1) == 1;
    assert ExecFrom(lines, 1, 1, m, rt) == (1, m);
    assert ElseScan(lines, 0, 1, 1, m, rt) == m;
  }

  /** An `if` whose first clause is `else:` at `e`: the scan of `find_block_end` stops on the
      line before it, so a true condition runs the body without its last line, a false one runs
      nothing, and either way the walk resumes at the `else:` line. */
  lemma {:induction false} IfElseSkipsIfBody(lines: seq<string>, start: nat, e: nat, c: string, m: Machine, rt: Runtime)
    requires start < e < |lines| && Strip(lines[e]) == "else:"
    requires MatchIf(Strip(lines[start])) == Some(c) && Condition(c, m, rt).Ok?
    requires Passes(lines, start + 1, e, 1) && Net(lines, start + 1, e) == 0
    requires forall j :: start < j < e ==> !StartsWith(Strip(lines[j]), "else")
    ensures HandleIf(lines, start, m, rt) ==
              (e, if Condition(c, m, rt).value then ExecFrom(lines, start + 1, e - 1, m, rt).1 else m)
  {
    ElseEndsBlock(lines, start, e, "end if");
    IfHeader(lines, start, c, m, rt);
    assert FirstElse(lines, start + 1, e - 1) == e - 1;
    ElseScanNone(lines, start, start + 1, e - 1, m, rt);
  }

  /** The else clause of a nested block is taken for a clause of the outer `if`. The body is
      balanced and closed by `end if` at `k`, so `find_block_end` finds that line; the first
      line of the body to start with `else` is `else:` at `e`, one level deeper, since the body
      passes the scan. A true condition runs the body only up to `e`, and a false one runs the
      lines after `e`: the rest of the inner block, as if it were the outer else body. */
  lemma {:induction false} NestedElseAsWritten(lines: seq<string>, start: nat, e: nat, k: nat, c: string, m: Machine, rt: Runtime)
    requires start < e < k < |lines| && Strip(lines[e]) == "else:" && Strip(lines[k]) == "end if"
    requires MatchIf(Strip(lines[start])) == Some(c) && Condition(c, m, rt).Ok?
    requires Passes(lines, start + 1, k, 1) && Net(lines, start + 1, k) == 0
    requires forall j :: start < j < e ==> !StartsWith(Strip(lines[j]), "else")
    ensures HandleIf(lines, start, m, rt) ==
              (k + 1, if Condition(c, m, rt).value then ExecFrom(lines, start + 1, e, m, rt).1
                      else ExecFrom(lines, e + 1, k, m, rt).1)
  {
    BalancedBody(lines, start, k, "end if");
    IfHeader(lines, start, c, m, rt);
    if Condition(c, m, rt).value {
      FirstElseAt(lines, start + 1, e, k);
    } else {
      ElseScanAt(lines, start, e, k, m, rt);
    }
  }

  /** The first line starting with `else` is the one at `e` when none before it does. */
  lemma {:induction false} FirstElseAt(lines: seq<string>, i: nat, e: nat, j: nat)
    requires i <= e < j <= |lines| && Strip(lines[e]) == "else:"
    requires forall l :: i <= l < e ==> !StartsWith(Strip(lines[l]), "else")
    ensures FirstElse(lines, i, j) == e
  {
    ElseClauseStartsElse(Strip(lines[e]));
  }

  /** The scan for else clauses of the block at `start` reaches the `else:` line at `e` and runs
      the lines after it up to `be`. */
  lemma {:induction false} ElseScanAt(lines: seq<string>, start: nat, e: nat, be: nat, m: Machine, rt: Runtime)
    requires start < e < be <= |lines| && Strip(lines[e]) == "else:"
    requires forall j :: start < j < e ==> !StartsWith(Strip(lines[j]), "else")
    ensures ElseScan(lines, start, start + 1, be, m, rt) == ExecFrom(lines, e + 1, be, m, rt).1
  {
    ElseScanSkips(lines, start, start + 1, e, be, m, rt);
    assert !StartsWith(Strip(lines[e]), "else if ");
  }

  /** The scan for else clauses goes past lines that do not start with `else`. */
  lemma {:induction false} ElseScanSkips(lines: seq<string>, start: nat, i: nat, e: nat, be: nat, m: Machine, rt: Runtime)
    requires start < i <= e <= be <= |lines|
    requires forall j :: i <= j < e ==> !StartsWith(Strip(lines[j]), "else")
    ensures ElseScan(lines, start, i, be, m, rt) == ElseScan(lines, start, e, be, m, rt)
    decreases e - i
  {
    if i < e {
      ElseClauseStartsElse(Strip(lines[i]));
      ElseScanSkips(lines, start, i + 1, e, be, m, rt);
    }
  }

  /** So in a program made of one `if x:` with one line in each branch, the walk is the same
      whatever `x` is: the `if` body never runs, the `else:` line is ignored, and the else body
      runs as ordinary lines. */
  lemma {:induction false} ElseBodyAlwaysRuns(m: Machine, rt: Runtime)
    requires Faithful(rt) && m.status == Running && !m.loopBreak && Condition("x", m, rt).Ok?
    ensures var lines := ["if x:", "say 1", "else:", "say 2", "end if"];
            ExecFrom(lines, 0, 5, m, rt) == ExecFrom(lines, 3, 5, m, rt)
  {
    var lines := ["if x:", "say 1", "else:", "say 2", "end if"];
    IfLineWalk(lines, m, rt);
    ElseLineWalk(lines, m, rt);
  }

  /** The walk over that program steps from the `if` line to the `else:` line. */
  lemma {:induction false} IfLineWalk(lines: seq<string>, m: Machine, rt: Runtime)
    requires lines == ["if x:", "say 1", "else:", "say 2", "end if"]
    requires m.status == Running && !m.loopBreak && Condition("x", m, rt).Ok?
    ensures ExecFrom(lines, 0, 5, m, rt) == ExecFrom(lines, 2, 5, m, rt)
  {
    StripUnchanged(lines[0]);
    NotPrefix(lines[0], "#", 0);
    NotPrefix(lines[0], "loop while ", 0);
    IfElseAsWritten(lines, m, rt);
  }

  /** The walk over that program passes the `else:` line by. */
  lemma {:induction false} ElseLineWalk(lines: seq<string>, m: Machine, rt: Runtime)
    requires lines == ["if x:", "say 1", "else:", "say 2", "end if"]
    requires Faithful(rt) && m.status == Running && !m.loopBreak
    ensures ExecFrom(lines, 2, 5, m, rt) == ExecFrom(lines, 3, 5, m, rt)
  {
    StripUnchanged(lines[2]);
    NotPrefix(lines[2], "#", 0);
    NotPrefix(lines[2], "loop while ", 0);
    NotPrefix(lines[2], "if ", 0);
    IgnoredLine(lines[2], m, rt.ctx);
  }

  /** A `loop while` header that does not match is passed over. */
  lemma {:induction false} LoopNoMatch(lines: seq<string>, start: nat, m: Machine, rt: Runtime)
    requires start < |lines| && MatchLoopWhile(Strip(lines[start])).None?
    ensures HandleLoop(lines, start, m, rt) == (start + 1, m)
  {
  }

  /** A loop whose condition is false at first runs its body zero times. */
  lemma {:induction false} LoopFalseFirst(lines: seq<string>, start: nat, c: string, m: Machine, rt: Runtime)
    requires start < |lines| && MatchLoopWhile(Strip(lines[start])) == Some(c)
    requires m.status == Running && Condition(c, m, rt) == Ok(false)
    ensures HandleLoop(lines, start, m, rt) == (BlockEnd(lines, start, "end loop") + 1, m)
  {
    assert LoopPass(lines, start, c, BlockEnd(lines, start, "end loop"), m, rt) == (true, m);
  }

  /** A body run that sets the flag ends the loop: the flag is cleared and the condition is not
      tested again. */
  lemma {:induction false} LoopBreakExits(lines: seq<string>, start: nat, c: string, m: Machine, rt: Runtime)
    requires start < |lines| && MatchLoopWhile(Strip(lines[start])) == Some(c)
    requires m.status == Running && Condition(c, m, rt) == Ok(true) && m.fuel > 0
    requires var be := BlockEnd(lines, start, "end loop");
             var m1 := ExecFrom(lines, start + 1, be, m.(fuel := m.fuel - 1), rt).1;
             m1.status == Running && m1.loopBreak
    ensures var be := BlockEnd(lines, start, "end loop");
            var m1 := ExecFrom(lines, start + 1, be, m.(fuel := m.fuel - 1), rt).1;
            HandleLoop(lines, start, m, rt) == (be + 1, m1.(loopBreak := false))
  {
    var be := BlockEnd(lines, start, "end loop");
    var m1 := ExecFrom(lines, start + 1, be, m.(fuel := m.fuel - 1), rt).1;
    assert BodyRun(lines, start, be, m.(fuel := m.fuel - 1), rt) == (true, m1.(loopBreak := false));
    assert LoopPass(lines, start, c, be, m, rt) == (true, m1.(loopBreak := false));
    LoopHeader(lines, start, c, m, rt);
  }

  /** A matching `loop while` header runs the loop over the block up to `end loop`. */
  lemma {:induction false} LoopHeader(lines: seq<string>, start: nat, c: string, m: Machine, rt: Runtime)
    requires start < |lines| && MatchLoopWhile(Strip(lines[start])) == Some(c)
    ensures var be := BlockEnd(lines, start, "end loop");
            HandleLoop(lines, start, m, rt) == (be + 1, LoopIter(lines, start, c, be, m, rt))
  {
  }

  /** A loop entered with the flag clear leaves it clear, unless the run stopped. */
  lemma {:induction false} LoopLeavesFlagClear(lines: seq<string>, start: nat, c: string, be: nat, m: Machine, rt: Runtime)
    requires start < |lines| && be <= |lines| && !m.loopBreak
    ensures var r := LoopIter(lines, start, c, be, m, rt); r.status == Running ==> !r.loopBreak
    decreases m.fuel
  {
    if m.status == Running {
      var (stop, m1) := LoopPass(lines, start, c, be, m, rt);
      if !stop {
        assert !m1.loopBreak;
        LoopLeavesFlagClear(lines, start, c, be, m1, rt);
      }
    }
  }

  /** A `for each` loop leaves the flag clear, unless the run stopped or there was nothing to
      walk. */
  lemma {:induction false} ForLeavesFlagClear(lines: seq<string>, start: nat, v: string, s: Source, k: nat, be: nat, m: Machine, rt: Runtime)
    requires start < |lines| && be <= |lines|
    requires !m.loopBreak || k < |Items(s, m)|
    ensures var r := ForIter(lines, start, v, s, k, be, m, rt); r.status == Running ==> !r.loopBreak
    decreases m.fuel
  {
    if m.status == Running && k < |Items(s, m)| {
      var (stop, m1) := ForPass(lines, start, v, Items(s, m)[k], be, m, rt);
      if !stop {
        ForLeavesFlagClear(lines, start, v, s, k + 1, be, m1, rt);
      }
    }
  }

  /** A loop body that never sets the flag while the run goes on and leaves the variable `v`
      as it found it. */
  ghost predicate KeepsLoopVariable(lines: seq<string>, start: nat, be: nat, v: string, rt: Runtime)
    requires start < |lines| && be <= |lines|
  {
    forall m: Machine {:trigger ExecFrom(lines, start + 1, be, m, rt)} ::
      m.status == Running && !m.loopBreak ==>
        var r := ExecFrom(lines, start + 1, be, m, rt).1;
        Lookup(r.vars, v) == Lookup(m.vars, v) && (r.status == Running ==> !r.loopBreak)
  }

  /** Over such a body, a `for each` over fixed items that ends with the run still going has
      walked every item: `v` holds the last one and the flag is clear. */
  lemma {:induction false} ForLastItem(lines: seq<string>, start: nat, v: string, items: seq<Value>, k: nat, be: nat, m: Machine, rt: Runtime)
    requires start < |lines| && be <= |lines| && KeepsLoopVariable(lines, start, be, v, rt)
    requires k < |items| && m.status == Running
    ensures var r := ForIter(lines, start, v, Fixed(items), k, be, m, rt);
            r.status == Running ==> Lookup(r.vars, v) == Some(items[|items| - 1]) && !r.loopBreak
    decreases |items| - k
  {
    if m.fuel > 0 {
      var m0 := Enter(v, items[k], m);
      var m1 := ExecFrom(lines, start + 1, be, m0, rt).1;
      assert Lookup(m1.vars, v) == Some(items[k]);
      if m1.status == Running {
        assert ForPass(lines, start, v, items[k], be, m, rt) == (false, m1);
        if k + 1 < |items| {
          ForLastItem(lines, start, v, items, k + 1, be, m1, rt);
        }
      }
    }
  }

  /** Over such a body, `for each V in range(a, b):` with `a < b` that ends with the run still
      going leaves `V` holding `b - 1` and the flag clear, and the walk resumes after the
      `end for` that closes the block. */
  lemma {:induction false} ForRange(lines: seq<string>, start: nat, k: nat, v: string, text: string, a: nat, b: nat, m: Machine, rt: Runtime)
    requires start < k < |lines| && Strip(lines[k]) == "end for"
    requires Passes(lines, start + 1, k, 1) && Net(lines, start + 1, k) == 0
    requires KeepsLoopVariable(lines, start, k, v, rt)
    requires MatchForEach(Strip(lines[start])) == Some((v, text))
    requires text !in m.lists && MatchRange(text) == Some((a, b)) && a < b
    requires m.status == Running
    ensures var r := HandleForeach(lines, start, m, rt);
            && r.0 == k + 1
            && (r.1.status == Running ==> Lookup(r.1.vars, v) == Some(IntV(b - 1)) && !r.1.loopBreak)
  {
    BalancedBody(lines, start, k, "end for");
    var items := Range(a, b);
    ForeachHeader(lines, start, v, text, m, rt);
    RangeSource(text, a, b, m);
    ForLastItem(lines, start, v, items, 0, k, m, rt);
    assert items[|items| - 1] == IntV(b - 1);
  }

  /** What a `for each` loop over a body of blank and comment lines amounts to: bind the
      variable to each item from `k` on, clear the flags, spend one unit of fuel per item. */
  function BlankFor(v: string, items: seq<Value>, k: nat, m: Machine): (r: Machine)
    requires k <= |items| && m.fuel >= |items| - k
    ensures r.fuel == m.fuel - (|items| - k)
    decreases |items| - k
  {
    if k == |items| then m
    else BlankFor(v, items, k + 1, m.(vars := Put(m.vars, v, items[k]), loopBreak := false, loopContinue := false, fuel := m.fuel - 1))
  }

  /** Over a body of blank and comment lines, the `for each` loop is `BlankFor` over the
      source's items. */
  lemma {:induction false} ForBlank(lines: seq<string>, start: nat, v: string, s: Source, k: nat, be: nat, m: Machine, rt: Runtime)
    requires start < be <= |lines|
    requires forall j :: start < j < be ==> Blank(Strip(lines[j]))
    requires m.status == Running && k <= |Items(s, m)| && m.fuel >= |Items(s, m)| - k
    ensures ForIter(lines, start, v, s, k, be, m, rt) == BlankFor(v, Items(s, m), k, m)
    decreases |Items(s, m)| - k
  {
    var items := Items(s, m);
    if k < |items| {
      var m0 := m.(vars := Put(m.vars, v, items[k]), loopBreak := false, loopContinue := false, fuel := m.fuel - 1);
      ForBlankStep(lines, start, v, s, k, be, m, rt);
      assert Items(s, m0) == items;
      ForBlank(lines, start, v, s, k + 1, be, m0, rt);
    }
  }

  /** The reference loop, once it ran at least once, leaves the variables as they were but for
      the loop variable, which holds the last item in its old place (or a new place at the
      end), clears both flags, and keeps the lists, the output, the input and the status. */
  lemma {:induction false} BlankForResult(v: string, items: seq<Value>, k: nat, m: Machine)
    requires k < |items| && m.fuel >= |items| - k
    ensures BlankFor(v, items, k, m) ==
              m.(vars := Put(m.vars, v, items[|items| - 1]), loopBreak := false, loopContinue := false,
                 fuel := m.fuel - (|items| - k))
    decreases |items| - k
  {
    var m0 := m.(vars := Put(m.vars, v, items[k]), loopBreak := false, loopContinue := false, fuel := m.fuel - 1);
    assert BlankFor(v, items, k, m) == BlankFor(v, items, k + 1, m0);
    if k + 1 < |items| {
      BlankForResult(v, items, k + 1, m0);
      PutTwice(m.vars, v, items[k], items[|items| - 1]);
    }
  }

  /** One pass of the `for each` loop over a body of blank and comment lines only binds the
      variable, clears the flags and spends one unit of fuel. */
  lemma {:induction false} ForBlankStep(lines: seq<string>, start: nat, v: string, s: Source, k: nat, be: nat, m: Machine, rt: Runtime)
    requires start < be <= |lines|
    requires forall j :: start < j < be ==> Blank(Strip(lines[j]))
    requires m.status == Running && k < |Items(s, m)| && m.fuel > 0
    ensures var m0 := m.(vars := Put(m.vars, v, Items(s, m)[k]), loopBreak := false, loopContinue := false, fuel := m.fuel - 1);
            ForIter(lines, start, v, s, k, be, m, rt) == ForIter(lines, start, v, s, k + 1, be, m0, rt)
  {
    var m0 := m.(vars := Put(m.vars, v, Items(s, m)[k]), loopBreak := false, loopContinue := false, fuel := m.fuel - 1);
    BlankRange(lines, start + 1, be, m0, rt);
    ForStep(lines, start, v, s, k, be, m, rt);
  }

  /** One pass of the `for each` loop whose body run changes nothing. */
  lemma {:induction false} ForStep(lines: seq<string>, start: nat, v: string, s: Source, k: nat, be: nat, m: Machine, rt: Runtime)
    requires start < be <= |lines| && m.status == Running && k < |Items(s, m)| && m.fuel > 0
    ensures var m0 := m.(vars := Put(m.vars, v, Items(s, m)[k]), loopBreak := false, loopContinue := false, fuel := m.fuel - 1);
            ExecFrom(lines, start + 1, be, m0, rt) == (be, m0) ==>
              ForIter(lines, start, v, s, k, be, m, rt) == ForIter(lines, start, v, s, k + 1, be, m0, rt)
  {
  }

  /** `range(a, b)` is a source of fixed items when no list has that name. */
  lemma {:induction false} RangeSource(text: string, a: nat, b: nat, m: Machine)
    requires text !in m.lists && MatchRange(text) == Some((a, b))
    ensures SourceOf(text, m) == Fixed(Range(a, b))
  {
  }

  /** A matching `for each` header walks its source over the block up to `end for`. */
  lemma {:induction false} ForeachHeader(lines: seq<string>, start: nat, v: string, text: string, m: Machine, rt: Runtime)
    requires start < |lines| && MatchForEach(Strip(lines[start])) == Some((v, text))
    ensures var be := BlockEnd(lines, start, "end for");
            HandleForeach(lines, start, m, rt) == (be + 1, ForIter(lines, start, v, SourceOf(text, m), 0, be, m, rt))
  {
  }

  /** A `for each` over a name that is neither a list nor a `range(a, b)` runs nothing. */
  lemma {:induction false} ForUnknownSource(lines: seq<string>, start: nat, v: string, text: string, m: Machine, rt: Runtime)
    requires start < |lines| && MatchForEach(Strip(lines[start])) == Some((v, text))
    requires text !in m.lists && MatchRange(text).None?
    ensures HandleForeach(lines, start, m, rt) == (BlockEnd(lines, start, "end for") + 1, m)
  {
  }
}
