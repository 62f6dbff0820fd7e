/** `SifzzInterpreter` (sifzz.py:101-751) as an object whose fields the statements update in
    place. Each method is proved to leave the fields as the function of the same name in
    `Semantics` or `Machines` says, so what is proved about those functions holds of the
    object. */
module Interpreter {
  import opened Text
  import opened Values
  import opened Store
  import opened Eval
  import opened Patterns
  import opened Blocks
  import opened Rules
  import opened Registry
  import opened Machines
  import opened Semantics

  class SifzzInterpreter {
    var variables: seq<Binding>
    var lists: map<string, seq<Value>>
    var loopBreak: bool
    var loopContinue: bool
    /** What `print` has written so far. */
    var output: seq<string>
    /** The lines `input` has not read yet. */
    var input: seq<string>
    var status: Status
    /** Loop iterations left. */
    var fuel: nat
    /** The loaded modules' command tables and the host. */
    const ctx: Context
    /** What the block walk asks of the interpreter: its statements and its conditions. */
    ghost const rt: Runtime

    /** The fields as one value. */
    function State(): Machine
      reads this
    {
      Machine(variables, lists, loopBreak, loopContinue, output, input, status, fuel)
    }

    /** `__init__`: empty variables and lists, the flags clear, modules already loaded. */
    constructor (ctx: Context, input: seq<string>, fuel: nat)
      ensures this.ctx == ctx && rt == Bind(ctx)
      ensures State() == Machine([], map[], false, false, [], input, Running, fuel)
    {
      this.ctx := ctx;
      rt := Bind(ctx);
      variables, lists := [], map[];
      loopBreak, loopContinue := false, false;
      output, this.input := [], input;
      status, this.fuel := Running, fuel;
    }

    method Load(m: Machine)
      modifies this
      ensures State() == m
    {
      variables, lists := m.vars, m.lists;
      loopBreak, loopContinue := m.loopBreak, m.loopContinue;
      output, input := m.output, m.input;
      status, fuel := m.status, m.fuel;
    }

    /** `execute_line(line)` */
    method ExecuteLine(line: string) returns (handled: bool)
      modifies this
      ensures (handled, State()) == ExecLine(line, old(State()), ctx)
    {
      match SelectRule(line)
      case None =>
        handled := false;
      case Some(rule) =>
        Load(Apply(rule, State(), ctx));
        handled := true;
    }

    /** `try_module_commands(line)`: the modules in load order, each one's patterns in
        registration order; the first pattern that matches runs its handler. */
    method TryModuleCommands(line: string) returns (found: bool)
      modifies this
      ensures (found, State()) == TryModules(line, old(State()), ctx)
    {
      var tables := ctx.modules;
      var mi := 0;
      while mi < |tables|
        invariant mi <= |tables|
        invariant FirstMatch(tables, mi, line, ctx.host) == FirstMatch(tables, 0, line, ctx.host)
        invariant State() == old(State())
      {
        var e := 0;
        while e < |tables[mi]|
          invariant e <= |tables[mi]|
          invariant FirstIn(tables, mi, e, line, ctx.host) == FirstIn(tables, mi, 0, line, ctx.host)
          invariant State() == old(State())
        {
          var groups := ctx.host.reMatch(tables[mi][e].pattern, line);
          if groups.Some? {
            var h := ctx.host.runHandler(tables[mi][e].handler, groups.value, variables, lists);
            variables, lists, output := PutAll(variables, h.writes), h.lists, output + h.printed;
            match h.raised
            case None =>
              return true;
            case Some(message) =>
              output := output + ["[ERROR] Module command failed: " + message + "\n"];
              return false;
          }
          e := e + 1;
        }
        mi := mi + 1;
      }
      return false;
    }

    /** `eval_condition(c)` on the current variables and lists. */
    method EvalCond(c: string) returns (r: Result<bool>)
      requires Faithful(rt) && rt.ctx == ctx
      ensures r == rt.test(c, State())
    {
      r := EvalCondition(c, variables, lists, ctx.host);
    }

    /** The `for i in range(from, be)` search of `handle_if` for the first line that starts
        with `else`. */
    method NextBlock(lines: seq<string>, from: nat, be: nat) returns (nb: nat)
      requires be <= |lines|
      ensures nb == FirstElse(lines, from, be)
    {
      var i := from;
      while i < be
        invariant from <= i
        invariant FirstElse(lines, i, be) == FirstElse(lines, from, be)
      {
        if StartsWith(Strip(lines[i]), "else") {
          return i;
        }
        i := i + 1;
      }
      return be;
    }

    /** `execute_block(lines, start, end)`: the index where the walk stopped. An exception
        or `sys.exit` (a status other than `Running`) ends the walk at once. */
    method ExecuteBlock(lines: seq<string>, start: nat, end: nat) returns (i: nat)
      requires start <= |lines| + 1 && end <= |lines|
      requires Faithful(rt) && rt.ctx == ctx
      modifies this
      ensures (i, State()) == ExecFrom(lines, start, end, old(State()), rt)
      decreases fuel, |lines| + 1 - start, 2, 0
    {
      i := start;
      while i < end
        invariant start <= i <= |lines| + 1 && fuel <= old(fuel)
        invariant ExecFrom(lines, i, end, State(), rt) == ExecFrom(lines, start, end, old(State()), rt)
        decreases fuel, |lines| + 1 - i
      {
        var next, stop := BlockStep(lines, i, end);
        if stop {
          return;
        }
        i := next;
      }
    }

    /** One line of the `execute_block` walk at `i < end`: either the walk stops there, or it
        goes on at `next`, having spent fuel or moved forward. */
    method BlockStep(lines: seq<string>, i: nat, end: nat) returns (next: nat, stop: bool)
      requires i < end <= |lines|
      requires Faithful(rt) && rt.ctx == ctx
      modifies this
      ensures !stop ==> i < next <= |lines| + 1 && fuel <= old(fuel)
      ensures stop ==> (i, State()) == ExecFrom(lines, i, end, old(State()), rt)
      ensures !stop ==> ExecFrom(lines, next, end, State(), rt) == ExecFrom(lines, i, end, old(State()), rt)
      decreases fuel, |lines| + 1 - i, 1, 1
    {
      next, stop := i + 1, false;
      if status != Running || loopBreak {
        return i, true;
      }
      var line := Strip(lines[i]);
      if Blank(line) {
        return;
      }
      if line == "stop script" {
        status := Exited;
        return i, true;
      }
      if line == "break" {
        loopBreak := true;
        return i, true;
      }
      if StartsWith(line, "loop while ") {
        next := HandleLoop(lines, i);
        return;
      }
      if StartsWith(line, "if ") {
        next := HandleIf(lines, i);
        return;
      }
      StatementStep(line);
    }

    /** The statement case of `execute_block`: `execute_line`, then the modules, then the
        warning. */
    method StatementStep(line: string)
      requires Faithful(rt) && rt.ctx == ctx
      modifies this
      ensures State() == rt.step(line, old(State())) && fuel == old(fuel)
    {
      var handled := ExecuteLine(line);
      if !handled {
        var found := TryModuleCommands(line);
        if !found {
          output := output + ["[WARNING] Unknown command: " + line + "\n"];
        }
      }
      assert State() == Statement(line, old(State()), ctx);
    }

    /** `handle_if(lines, start)`: the index after the block. */
    method HandleIf(lines: seq<string>, start: nat) returns (next: nat)
      requires start < |lines|
      requires Faithful(rt) && rt.ctx == ctx
      modifies this
      ensures (next, State()) == Semantics.HandleIf(lines, start, old(State()), rt)
      decreases fuel, |lines| + 1 - start, 1, 0
    {
      var header := MatchIf(Strip(lines[start]));
      if header.None? {
        return start + 1;
      }
      var be := FindBlockEnd(lines, start, "end if");
      next := be + 1;
      var test := EvalCond(header.value);
      match test
      case Err(x) =>
        status := Raised(x);
      case Ok(true) =>
        var nb := NextBlock(lines, start + 1, be);
        var _ := ExecuteBlock(lines, start + 1, nb);
      case Ok(false) =>
        ElseBranches(lines, start, be);
    }

    /** The `else if` / `else:` scan of `handle_if` after a false condition. */
    method ElseBranches(lines: seq<string>, start: nat, be: nat)
      requires start < |lines| && start <= be <= |lines|
      requires Faithful(rt) && rt.ctx == ctx
      modifies this
      ensures State() == ElseScan(lines, start, start + 1, be, old(State()), rt)
      decreases fuel, |lines| + 1 - start, 0, be + 1 - start
    {
      var i := start + 1;
      while i < be
        invariant start < i <= be + 1
        invariant State() == old(State())
        invariant ElseScan(lines, start, i, be, State(), rt) == ElseScan(lines, start, start + 1, be, State(), rt)
      {
        var line := Strip(lines[i]);
        if StartsWith(line, "else if ") {
          var header := MatchElseIf(line);
          if header.Some? {
            var test := EvalCond(header.value);
            match test
            case Err(x) =>
              status := Raised(x);
              return;
            case Ok(true) =>
              var nb := NextBlock(lines, i + 1, be);
              var _ := ExecuteBlock(lines, i + 1, nb);
              return;
            case Ok(false) =>
          }
        } else if line == "else:" {
          var _ := ExecuteBlock(lines, i + 1, be);
          return;
        }
        i := i + 1;
      }
    }

    /** `handle_loop(lines, start)`: the index after the block. Called only while no
        exception is in flight. */
    method HandleLoop(lines: seq<string>, start: nat) returns (next: nat)
      requires start < |lines| && status == Running
      requires Faithful(rt) && rt.ctx == ctx
      modifies this
      ensures (next, State()) == Semantics.HandleLoop(lines, start, old(State()), rt)
      decreases fuel, |lines| + 1 - start, 1, 0
    {
      var header := MatchLoopWhile(Strip(lines[start]));
      if header.None? {
        return start + 1;
      }
      var c := header.value;
      var be := FindBlockEnd(lines, start, "end loop");
      next := be + 1;
      while true
        invariant status == Running && fuel <= old(fuel)
        invariant LoopIter(lines, start, c, be, State(), rt) == LoopIter(lines, start, c, be, old(State()), rt)
        decreases fuel
      {
        var stop := LoopStep(lines, start, c, be);
        if stop {
          return;
        }
      }
    }

    /** One turn of the `while eval_condition(c)` loop of `handle_loop`. */
    method LoopStep(lines: seq<string>, start: nat, c: string, be: nat) returns (stop: bool)
      requires start < |lines| && be <= |lines| && status == Running
      requires Faithful(rt) && rt.ctx == ctx
      modifies this
      ensures (stop, State()) == LoopPass(lines, start, c, be, old(State()), rt)
      decreases fuel, |lines| + 1 - start, 0, 0
    {
      var test := EvalCond(c);
      match test
      case Err(x) =>
        status := Raised(x);
        return true;
      case Ok(false) =>
        return true;
      case Ok(true) =>
        if fuel == 0 {
          status := OutOfFuel;
          return true;
        }
        fuel := fuel - 1;
        stop := RunBody(lines, start, be);
    }

    /** One run of a loop body, then the checks both loop handlers make after it. */
    method RunBody(lines: seq<string>, start: nat, be: nat) returns (stop: bool)
      requires start < |lines| && be <= |lines|
      requires Faithful(rt) && rt.ctx == ctx
      modifies this
      ensures (stop, State()) == BodyRun(lines, start, be, old(State()), rt)
      decreases fuel, |lines| + 1 - start, 0, 0
    {
      var _ := ExecuteBlock(lines, start + 1, be);
      if status != Running {
        return true;
      }
      if loopBreak {
        loopBreak := false;
        return true;
      }
      return false;
    }

    /** `handle_foreach(lines, start)`: the index after the block. A named list is looked up
        by its name again at every step (see `Semantics.Items`). */
    method HandleForeach(lines: seq<string>, start: nat) returns (next: nat)
      requires start < |lines| && status == Running
      requires Faithful(rt) && rt.ctx == ctx
      modifies this
      ensures (next, State()) == Semantics.HandleForeach(lines, start, old(State()), rt)
    {
      var header := MatchForEach(Strip(lines[start]));
      if header.None? {
        return start + 1;
      }
      var (v, text) := header.value;
      var source := SourceOf(text, State());
      var be := FindBlockEnd(lines, start, "end for");
      next := be + 1;
      var k := 0;
      while k < |Items(source, State())|
        invariant status == Running
        invariant ForIter(lines, start, v, source, k, be, State(), rt)
                  == ForIter(lines, start, v, source, 0, be, old(State()), rt)
        decreases fuel
      {
        var stop := ForStep(lines, start, v, Items(source, State())[k], be);
        if stop {
          return;
        }
        k := k + 1;
      }
    }

    /** One pass of the `for item in items` loop of `handle_foreach`, with the item `x`. */
    method ForStep(lines: seq<string>, start: nat, v: string, x: Value, be: nat) returns (stop: bool)
      requires start < |lines| && be <= |lines| && status == Running
      requires Faithful(rt) && rt.ctx == ctx
      modifies this
      ensures (stop, State()) == ForPass(lines, start, v, x, be, old(State()), rt)
    {
      if fuel == 0 {
        status := OutOfFuel;
        return true;
      }
      variables, loopBreak, loopContinue, fuel := Put(variables, v, x), false, false, fuel - 1;
      stop := RunBody(lines, start, be);
    }

    /** `run(code)`: the whole program, split at newlines. */
    method Run(code: string)
      requires rt == Bind(ctx)
      modifies this
      ensures State() == Semantics.Run(code, old(State()), ctx)
    {
      var lines := Split(code, "\n");
      var _ := ExecuteBlock(lines, 0, |lines|);
    }

    /** `run_line(line)`: one stripped line through the rules and then the modules. */
    method RunLine(line: string)
      modifies this
      ensures State() == Semantics.RunLine(line, old(State()), ctx)
    {
      var l := Strip(line);
      if Blank(l) {
        return;
      }
      var handled := ExecuteLine(l);
      if !handled {
        var _ := TryModuleCommands(l);
      }
    }
  }
}
