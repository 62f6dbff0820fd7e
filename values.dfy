/** Runtime values of a Sifzz script and the Python operations the interpreter applies to them.
    Whatever the interpreter hands to Python itself (`eval`, `float`, `math`, floating-point
    arithmetic, regular expressions of extension modules, the modules' handlers, `random`) is a
    field of `Host`: a deterministic oracle the model takes as a parameter. */
module Values {
  import opened Text

  /** A Python value held by a variable or a list: an `int`, a `bool`, a `float` (kept as the text
      `str()` gives it), a `str`, or any other object `eval` may produce (kept as its `str()`). */
  datatype Value = IntV(i: int) | BoolV(b: bool) | FloatV(repr: string) | StrV(s: string) | OtherV(repr: string)

  /** The outcome of an operation that may raise a Python exception. */
  datatype Result<T> = Ok(value: T) | Err(error: string)

  /** One entry of the variable dictionary. */
  datatype Binding = Binding(name: string, value: Value)

  datatype Op = Add | Sub | Mul | Div

  /** What a module's command handler did up to its return or its exception: the variables it
      assigned, in order, the list dictionary it left, the texts it printed, and the message of
      the exception it raised, if it raised one. What it did before raising stays done. */
  datatype HandlerResult = HandlerResult(
    writes: seq<Binding>, lists: map<string, seq<Value>>, printed: seq<string>, raised: Option<string>)

  datatype Host = Host(
    pyEval: string -> Option<Value>,           // eval(text); None when it raises
    pyTest: string -> Option<bool>,            // bool(eval(text)); None when it raises
    parseFloat: string -> Option<Value>,       // float(text); None on ValueError
    mathFn: (string, Value) -> Option<Value>,  // math.sqrt / round / abs on floats and other objects
    arith: (Op, Value, Value) -> Option<Value>,// true division, and arithmetic on floats and other objects
    pyEqual: (Value, Value) -> bool,           // == when a float or another object takes part
    member: (Value, Value) -> Option<bool>,    // item in container for containers that are not strings
    toInt: Value -> Option<int>,               // int(v) for floats and other objects
    randint: (int, int) -> int,                // random.randint(a, b) for a <= b
    choice: seq<Value> -> Value,               // random.choice(items) for a non-empty list
    reMatch: (string, string) -> Option<seq<string>>, // re.match(pattern, line).groups()
    runHandler: (string, seq<string>, seq<Binding>, map<string, seq<Value>>) -> HandlerResult)

  /** `str(v)`, which is also what `print` writes. */
  function Show(v: Value): (r: string)
  {
    match v
    case IntV(i) => IntToString(i)
    case BoolV(b) => if b then "True" else "False"
    case FloatV(r) => r
    case StrV(s) => s
    case OtherV(r) => r
  }

  /** `bool` is a subclass of `int` in Python. */
  predicate IntLike(v: Value) { v.IntV? || v.BoolV? }

  function AsInt(v: Value): int
    requires IntLike(v)
  {
    if v.IntV? then v.i else if v.b then 1 else 0
  }

  /** `a == b` */
  function PyEq(a: Value, b: Value, host: Host): (r: bool)
    ensures IntLike(a) && IntLike(b) ==> (r <==> AsInt(a) == AsInt(b))
    ensures a.StrV? && b.StrV? ==> (r <==> a.s == b.s)
    ensures (a.StrV? && IntLike(b)) || (IntLike(a) && b.StrV?) ==> !r
  {
    if IntLike(a) && IntLike(b) then AsInt(a) == AsInt(b)
    else if a.StrV? && b.StrV? then a.s == b.s
    else if (a.StrV? || IntLike(a)) && (b.StrV? || IntLike(b)) then false
    else host.pyEqual(a, b)
  }

  /** Exact integer `+`, `-` and `*`. */
  function IntOp(op: Op, x: int, y: int): int
    requires op != Div
  {
    if op == Add then x + y else if op == Sub then x - y else x * y
  }

  /** `a + b`, `a - b`, `a * b`, `a / b` as Python evaluates them. An `int` or `bool` pair is
      exact integer arithmetic, `str + str` concatenates, `str * int` repeats; any other mix of
      `int`, `bool` and `str` raises TypeError, and division or a float or another object goes to
      the host. */
  function PyArith(op: Op, a: Value, b: Value, host: Host): (r: Result<Value>)
    ensures op != Div && IntLike(a) && IntLike(b) ==> r == Ok(IntV(IntOp(op, AsInt(a), AsInt(b))))
    ensures op == Add && a.StrV? && b.StrV? ==> r == Ok(StrV(a.s + b.s))
    ensures (op == Add || op == Sub) && ((a.StrV? && IntLike(b)) || (IntLike(a) && b.StrV?)) ==> r.Err?
    ensures op == Sub && a.StrV? && b.StrV? ==> r.Err?
  {
    if op == Div || !(a.StrV? || IntLike(a)) || !(b.StrV? || IntLike(b)) then
      match host.arith(op, a, b)
      case Some(v) => Ok(v)
      case None => Err("TypeError")
    else if IntLike(a) && IntLike(b) then
      Ok(IntV(IntOp(op, AsInt(a), AsInt(b))))
    else if op == Add && a.StrV? && b.StrV? then Ok(StrV(a.s + b.s))
    else if op == Mul && a.StrV? && IntLike(b) then Ok(StrV(Repeat(a.s, AsInt(b))))
    else if op == Mul && IntLike(a) && b.StrV? then Ok(StrV(Repeat(b.s, AsInt(a))))
    else Err("TypeError")
  }

  /** `int(v)`: an int stays, a bool is 0 or 1, a string is parsed. */
  function PyInt(v: Value, host: Host): (r: Result<int>)
    ensures IntLike(v) ==> r == Ok(AsInt(v))
  {
    match v
    case IntV(i) => Ok(i)
    case BoolV(b) => Ok(if b then 1 else 0)
    case StrV(s) => (match ParseInt(s) case Some(n) => Ok(n) case None => Err("ValueError"))
    case _ => (match host.toInt(v) case Some(n) => Ok(n) case None => Err("ValueError"))
  }

  /** `item in container`: a substring test on two strings; TypeError for a string container
      and a non-string item, and for a number as container. */
  function PyIn(item: Value, container: Value, host: Host): (r: Result<bool>)
    ensures item.StrV? && container.StrV? ==> r == Ok(Contains(container.s, item.s))
    ensures (container.IntV? || container.BoolV? || container.FloatV?) ==> r.Err?
  {
    match container
    case StrV(c) => if item.StrV? then Ok(Contains(c, item.s)) else Err("TypeError")
    case OtherV(_) => (match host.member(item, container) case Some(b) => Ok(b) case None => Err("TypeError"))
    case _ => Err("TypeError")
  }
}
