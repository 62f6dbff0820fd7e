/** The interpreter's state and what one statement does to it: the rules of `execute_line`
    (sifzz.py:418-636), the module fallback `try_module_commands` (sifzz.py:255-271) and the
    statement step of `execute_block` (sifzz.py:246-249). */
module Machines {
  import opened Text
  import opened Values
  import opened Store
  import opened Eval
  import opened Registry
  import opened Rules

  /** Whether the run goes on: `sys.exit`, an exception that no handler catches, or the end of
      the fuel that bounds loops end it. */
  datatype Status = Running | Exited | Raised(error: string) | OutOfFuel

  /** The fields of `SifzzInterpreter` that statements change, with standard output as the texts
      written so far, standard input as the lines not yet read, and the fuel left for loop
      iterations. */
  datatype Machine = Machine(
    vars: seq<Binding>,
    lists: map<string, seq<Value>>,
    loopBreak: bool,
    loopContinue: bool,
    output: seq<string>,
    input: seq<string>,
    status: Status,
    fuel: nat)

  /** What stays fixed during a run: the loaded modules' command tables, in load order, and the
      host. */
  datatype Context = Context(modules: seq<seq<Entry>>, host: Host)

  function Evaluate(expr: string, m: Machine, ctx: Context): Result<Value>
  {
    EvalExpression(expr, m.vars, m.lists, ctx.host)
  }

  /** An exception ends the run. */
  function Raise(m: Machine, error: string): Machine
  {
    m.(status := Raised(error))
  }

  /** The position of the first element equal to `v`. */
  function FirstEqual(l: seq<Value>, v: Value, host: Host): (r: Option<nat>)
    ensures r.Some? ==> r.value < |l| && PyEq(l[r.value], v, host)
    ensures r.Some? ==> forall i :: 0 <= i < r.value ==> !PyEq(l[i], v, host)
    ensures r.None? ==> forall i :: 0 <= i < |l| ==> !PyEq(l[i], v, host)
  {
    if l == [] then None
    else if PyEq(l[0], v, host) then Some(0)
    else match FirstEqual(l[1..], v, host)
      case None => None
      case Some(k) => Some(k + 1)
  }

  /** `l.remove(v)`, its ValueError caught: the first element equal to `v` goes, and putting
      it back where it was gives the list again; with no such element nothing changes. */
  function RemoveFirst(l: seq<Value>, v: Value, host: Host): (r: seq<Value>)
    ensures FirstEqual(l, v, host).None? ==> r == l
    ensures FirstEqual(l, v, host).Some? ==>
              var k := FirstEqual(l, v, host).value;
              |r| == |l| - 1 && r[..k] + [l[k]] + r[k..] == l
  {
    match FirstEqual(l, v, host)
    case None => l
    case Some(k) =>
      var r := l[..k] + l[k + 1..];
      assert r[..k] == l[..k] && r[k..] == l[k + 1..];
      assert l == l[..k] + [l[k]] + l[k + 1..];
      r
  }

  /** `x op= value` on a variable that holds `x`. */
  function Update(m: Machine, name: string, op: Op, value: Value, ctx: Context): Machine
    requires Has(m.vars, name)
  {
    match PyArith(op, Lookup(m.vars, name).value, value, ctx.host)
    case Ok(v) => m.(vars := Put(m.vars, name, v))
    case Err(x) => Raise(m, x)
  }

  /** `input(prompt + " ")`: the prompt goes to the output and one line is read; at the end of
      the input, EOFError. */
  function ReadLine(m: Machine, prompt: string): (r: (Option<string>, Machine))
  {
    var shown := m.(output := m.output + [prompt + " "]);
    if m.input == [] then (None, Raise(shown, "EOFError"))
    else (Some(m.input[0]), shown.(input := m.input[1..]))
  }

  /** What a rule of `execute_line` does. */
  function Apply(rule: Rule, m: Machine, ctx: Context): (r: Machine)
    ensures r.fuel == m.fuel
  {
    match rule
    case Stop => m.(status := Exited)
    case Exit => m.(status := Exited)
    case Break => m.(loopBreak := true)
    case Skip => m
    case Wait => m
    case Fail(x) => Raise(m, x)
    case Set(name, expr) =>
      (match Evaluate(expr, m, ctx)
       case Err(x) => Raise(m, x)
       case Ok(v) => m.(vars := Put(m.vars, name, v)))
    case CreateList(name) => m.(lists := m.lists[name := []])
    case AddTo(expr, name) =>
      (match Evaluate(expr, m, ctx)
       case Err(x) => Raise(m, x)
       case Ok(v) =>
         if name in m.lists then m.(lists := m.lists[name := m.lists[name] + [v]])
         else if Has(m.vars, name) then Update(m, name, Add, v, ctx)
         else m.(vars := Put(m.vars, name, v)))
    case RemoveFrom(expr, name) =>
      (match Evaluate(expr, m, ctx)
       case Err(x) => Raise(m, x)
       case Ok(v) =>
         if name in m.lists then m.(lists := m.lists[name := RemoveFirst(m.lists[name], v, ctx.host)])
         else m)
    case SizeOf(name, list) =>
      if list in m.lists then m.(vars := Put(m.vars, name, IntV(|m.lists[list]|))) else m
    case ItemOf(name, index, list) =>
      if list in m.lists && index < |m.lists[list]| then m.(vars := Put(m.vars, name, m.lists[list][index]))
      else m
    case Clear(name) =>
      if name in m.lists then m.(lists := m.lists[name := []]) else m
    case Say(expr) =>
      (match Evaluate(expr, m, ctx)
       case Err(x) => Raise(m, x)
       case Ok(v) => m.(output := m.output + [Show(v) + "\n"]))
    case Write(expr) =>
      (match Evaluate(expr, m, ctx)
       case Err(x) => Raise(m, x)
       case Ok(v) => m.(output := m.output + [Show(v)]))
    case Newline => m.(output := m.output + ["\n"])
    case Subtract(expr, name) =>
      (match Evaluate(expr, m, ctx)
       case Err(x) => Raise(m, x)
       case Ok(v) => if Has(m.vars, name) then Update(m, name, Sub, v, ctx) else m)
    case Multiply(name, expr) =>
      (match Evaluate(expr, m, ctx)
       case Err(x) => Raise(m, x)
       case Ok(v) => if Has(m.vars, name) then Update(m, name, Mul, v, ctx) else m)
    case Divide(name, expr) =>
      (match Evaluate(expr, m, ctx)
       case Err(x) => Raise(m, x)
       case Ok(v) => if Has(m.vars, name) && !PyEq(v, IntV(0), ctx.host) then Update(m, name, Div, v, ctx) else m)
    case Ask(prompt, name) =>
      (match ReadLine(m, prompt)
       case (None, m1) => m1
       case (Some(text), m1) => m1.(vars := Put(m1.vars, name, StrV(text))))
    case AskNumber(prompt, name) =>
      (match ReadLine(m, prompt)
       case (None, m1) => m1
       case (Some(text), m1) =>
         m1.(vars := Put(m1.vars, name, match ctx.host.parseFloat(text) case Some(v) => v case None => IntV(0))))
    case RandomNumber(name, lo, hi) =>
      (match Evaluate(lo, m, ctx)
       case Err(x) => Raise(m, x)
       case Ok(a) =>
         match PyInt(a, ctx.host)
         case Err(x) => Raise(m, x)
         case Ok(low) =>
           match Evaluate(hi, m, ctx)
           case Err(x) => Raise(m, x)
           case Ok(b) =>
             match PyInt(b, ctx.host)
             case Err(x) => Raise(m, x)
             case Ok(high) =>
               if low <= high then m.(vars := Put(m.vars, name, IntV(ctx.host.randint(low, high))))
               else Raise(m, "ValueError"))
    case RandomChoice(name, list) =>
      if list in m.lists && m.lists[list] != [] then m.(vars := Put(m.vars, name, ctx.host.choice(m.lists[list])))
      else m
    case Increase(name) =>
      if Has(m.vars, name) then Update(m, name, Add, IntV(1), ctx) else m.(vars := Put(m.vars, name, IntV(1)))
    case Decrease(name) =>
      if Has(m.vars, name) then Update(m, name, Sub, IntV(1), ctx) else m.(vars := Put(m.vars, name, IntV(-1)))
  }

  /** `execute_line(line)`: whether a rule consumed the line, and the state after it. */
  function ExecLine(line: string, m: Machine, ctx: Context): (r: (bool, Machine))
    ensures r.1.fuel == m.fuel
    ensures !r.0 ==> r.1 == m
  {
    match SelectRule(line)
    case None => (false, m)
    case Some(rule) => (true, Apply(rule, m, ctx))
  }

  /** What running a handler leaves behind, whether it returned or raised: its assignments,
      its list dictionary and its printed texts. */
  function AfterHandler(h: HandlerResult, m: Machine): Machine
  {
    m.(vars := PutAll(m.vars, h.writes), lists := h.lists, output := m.output + h.printed)
  }

  /** `try_module_commands(line)`: the handler of the first matching pattern runs, and only
      that one. When it returns the result is True; when it raises, the error is printed and
      the result is False, and what it did before raising stays done. */
  function TryModules(line: string, m: Machine, ctx: Context): (r: (bool, Machine))
    ensures r.1.fuel == m.fuel && r.1.status == m.status && r.1.input == m.input
    ensures r.0 ==> FirstMatch(ctx.modules, 0, line, ctx.host).Some?
    ensures FirstMatch(ctx.modules, 0, line, ctx.host).None? ==> r == (false, m)
  {
    match FirstMatch(ctx.modules, 0, line, ctx.host)
    case None => (false, m)
    case Some(hit) =>
      var h := ctx.host.runHandler(ctx.modules[hit.m][hit.e].handler, hit.groups, m.vars, m.lists);
      var m1 := AfterHandler(h, m);
      match h.raised
      case None => (true, m1)
      case Some(message) => (false, m1.(output := m1.output + ["[ERROR] Module command failed: " + message + "\n"]))
  }

  /** One ordinary line of `execute_block` once the rule of `execute_line` that takes it is
      known: that rule, or else the modules, or else a warning. */
  function Dispatch(rule: Option<Rule>, line: string, m: Machine, ctx: Context): (r: Machine)
    ensures r.fuel == m.fuel
  {
    match rule
    case Some(rl) => Apply(rl, m, ctx)
    case None =>
      var (found, m1) := TryModules(line, m, ctx);
      if found then m1 else m1.(output := m1.output + ["[WARNING] Unknown command: " + line + "\n"])
  }

  /** One ordinary line of `execute_block`: the core rules, then the modules, then a warning. */
  function Statement(line: string, m: Machine, ctx: Context): (r: Machine)
    ensures r.fuel == m.fuel
  {
    Dispatch(SelectRule(line), line, m, ctx)
  }

  /** A terminator or an else clause reaching `execute_line` is accepted and changes nothing,
      so it never reaches the modules and draws no warning. */
  lemma {:induction false} IgnoredLine(line: string, m: Machine, ctx: Context)
    requires Ignored(line)
    ensures ExecLine(line, m, ctx) == (true, m)
    ensures Statement(line, m, ctx) == m
  {
    ChooseIgnored(line, Capture(line));
  }

  /** A line that a core rule consumes never reaches the modules. */
  lemma {:induction false} CoreFirst(line: string, m: Machine, ctx: Context)
    requires SelectRule(line).Some?
    ensures Statement(line, m, ctx) == Apply(SelectRule(line).value, m, ctx)
  {
  }

  /** A line that no rule and no module pattern takes changes nothing but the output, which
      gets the warning. */
  lemma {:induction false} UnknownCommand(line: string, m: Machine, ctx: Context)
    requires SelectRule(line).None?
    requires forall i: nat, k: nat :: !Matches(ctx.modules, i, k, line, ctx.host)
    ensures TryModules(line, m, ctx) == (false, m)
    ensures Statement(line, m, ctx) == m.(output := m.output + ["[WARNING] Unknown command: " + line + "\n"])
  {
  }

  /** Only the first matching pattern's handler runs, whatever it does: the result is that
      handler's result, True exactly when it returned, and a handler that raised leaves its
      partial effects and one error line behind, without any later pattern being tried. */
  lemma {:induction false} FirstHandlerOnly(line: string, m: Machine, ctx: Context)
    requires FirstMatch(ctx.modules, 0, line, ctx.host).Some?
    ensures var hit := FirstMatch(ctx.modules, 0, line, ctx.host).value;
            var h := ctx.host.runHandler(ctx.modules[hit.m][hit.e].handler, hit.groups, m.vars, m.lists);
            var r := TryModules(line, m, ctx);
            && r.0 == h.raised.None?
            && r.1.vars == PutAll(m.vars, h.writes) && r.1.lists == h.lists
            && (h.raised.None? ==> r.1.output == m.output + h.printed)
            && (h.raised.Some? ==>
                  r.1.output == m.output + h.printed + ["[ERROR] Module command failed: " + h.raised.value + "\n"])
  {
  }

  /** `increase NAME`: an absent name becomes 1, an integer grows by one; nothing else changes. */
  lemma {:induction false} IncreaseEffect(name: string, m: Machine, ctx: Context)
    requires !Has(m.vars, name) || IntLike(Lookup(m.vars, name).value)
    ensures var r := Apply(Increase(name), m, ctx);
            && Lookup(r.vars, name) == Some(IntV(if Has(m.vars, name) then AsInt(Lookup(m.vars, name).value) + 1 else 1))
            && (forall k :: k != name ==> Lookup(r.vars, k) == Lookup(m.vars, k))
            && r.lists == m.lists && r.output == m.output && r.status == m.status
  {
  }

  /** `decrease NAME`: an absent name becomes -1, an integer shrinks by one; nothing else
      changes. */
  lemma {:induction false} DecreaseEffect(name: string, m: Machine, ctx: Context)
    requires !Has(m.vars, name) || IntLike(Lookup(m.vars, name).value)
    ensures var r := Apply(Decrease(name), m, ctx);
            && Lookup(r.vars, name) == Some(IntV(if Has(m.vars, name) then AsInt(Lookup(m.vars, name).value) - 1 else -1))
            && (forall k :: k != name ==> Lookup(r.vars, k) == Lookup(m.vars, k))
            && r.lists == m.lists && r.output == m.output && r.status == m.status
  {
  }

  /** `divide NAME by E` where `E` is zero (or False) leaves everything as it was. */
  lemma {:induction false} DivideByZero(name: string, expr: string, v: Value, m: Machine, ctx: Context)
    requires Evaluate(expr, m, ctx) == Ok(v) && PyEq(v, IntV(0), ctx.host)
    ensures Apply(Divide(name, expr), m, ctx) == m
  {
  }

  /** `subtract`, `multiply` and `divide` on a name that is not a variable change nothing once
      the operand has been evaluated. */
  lemma {:induction false} ArithmeticOnAbsent(rule: Rule, m: Machine, ctx: Context)
    requires rule.Subtract? || rule.Multiply? || rule.Divide?
    requires !Has(m.vars, rule.name) && Evaluate(rule.expr, m, ctx).Ok?
    ensures Apply(rule, m, ctx) == m
  {
  }

  /** `create list NAME` makes that list empty and touches no other list and no variable. */
  lemma {:induction false} CreateListEffect(name: string, m: Machine, ctx: Context)
    ensures var r := Apply(CreateList(name), m, ctx);
            && name in r.lists && r.lists[name] == [] && r.vars == m.vars
            && (forall k :: k != name ==> (k in r.lists <==> k in m.lists))
            && (forall k :: k != name && k in m.lists ==> r.lists[k] == m.lists[k])
  {
  }

  /** `add E to NAME` appends to the list `NAME` when there is one, even if a variable has the
      same name, and changes nothing else. */
  lemma {:induction false} AddToList(expr: string, name: string, v: Value, m: Machine, ctx: Context)
    requires name in m.lists && Evaluate(expr, m, ctx) == Ok(v)
    ensures var r := Apply(AddTo(expr, name), m, ctx);
            && r.lists[name] == m.lists[name] + [v] && r.vars == m.vars
            && r.lists.Keys == m.lists.Keys
            && (forall k :: k != name && k in m.lists ==> r.lists[k] == m.lists[k])
  {
  }

  /** `add E to NAME` on an integer variable adds, on a string variable concatenates, and on a
      new name assigns. */
  lemma {:induction false} AddToVariable(expr: string, name: string, v: Value, m: Machine, ctx: Context)
    requires name !in m.lists && Evaluate(expr, m, ctx) == Ok(v)
    ensures var r := Apply(AddTo(expr, name), m, ctx);
            var old_ := Lookup(m.vars, name);
            && (old_.None? ==> Lookup(r.vars, name) == Some(v))
            && (old_.Some? && IntLike(old_.value) && IntLike(v) ==> Lookup(r.vars, name) == Some(IntV(AsInt(old_.value) + AsInt(v))))
            && (old_.Some? && old_.value.StrV? && v.StrV? ==> Lookup(r.vars, name) == Some(StrV(old_.value.s + v.s)))
            && (old_.Some? && ((old_.value.StrV? && IntLike(v)) || (IntLike(old_.value) && v.StrV?)) ==> r.status.Raised?)
            && r.lists == m.lists
  {
  }

  /** `remove E from NAME` drops the first element equal to the value, if any, and nothing
      else. */
  lemma {:induction false} RemoveEffect(expr: string, name: string, v: Value, m: Machine, ctx: Context)
    requires name in m.lists && Evaluate(expr, m, ctx) == Ok(v)
    ensures var r := Apply(RemoveFrom(expr, name), m, ctx);
            var l := m.lists[name];
            && (FirstEqual(l, v, ctx.host).None? ==> r == m)
            && (FirstEqual(l, v, ctx.host).Some? ==>
                  var k := FirstEqual(l, v, ctx.host).value;
                  r.lists[name] == l[..k] + l[k + 1..] && |r.lists[name]| == |l| - 1)
            && r.vars == m.vars && r.lists.Keys == m.lists.Keys
  {
  }

  /** `clear NAME` empties an existing list and ignores any other name. */
  lemma {:induction false} ClearEffect(name: string, m: Machine, ctx: Context)
    ensures var r := Apply(Clear(name), m, ctx);
            && (name in m.lists ==> r.lists == m.lists[name := []])
            && (name !in m.lists ==> r == m)
            && r.vars == m.vars
  {
  }
}
