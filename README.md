# Sifzz interpreter core in Dafny

Sifzz is a line-oriented scripting language with English-like statements (`set x to 5`,
`add 1 to items`, `if x is 3:` … `end if`, `loop while n less than 10:` … `end loop`).
`SifzzInterpreter` in `sifzz.py` runs a script by walking its lines. A block header finds the
terminator that closes it by counting nesting depth. An ordinary line goes through a fixed
chain of statement rules (`execute_line`). A line that no rule takes goes to the command
patterns that extension modules register (`try_module_commands`), and otherwise draws a
warning. Expressions and conditions are resolved by `eval_expression` and `eval_condition`:
ordered rules on the text, with Python's `eval` as the last resort.

This project models that core:

- `blocks.dfy`: the depth scan `find_block_end`, as a function and as the loop it is.
- `rules.dfy`: which statement rule of `execute_line` takes a line.
- `machines.dfy`: what that rule does to the interpreter's state, and the module fallback.
- `semantics.dfy`: the block walk `execute_block` and the handlers of `if`, `loop while` and
  `for each`, as total functions of the state.
- `interpreter.dfy`: the class `SifzzInterpreter`, whose fields the methods update in place.
  Each method is proved to leave exactly the state that the `semantics.dfy` function gives.
- `eval.dfy`: `eval_expression` and `eval_condition`.
- `registry.dfy`: a module's command dictionary (`SifzzModule.register`) and the first-match
  dispatch over the loaded modules.
- `store.dfy`, `values.dfy`, `text.dfy`, `patterns.dfy`: supporting definitions.
  - `store.dfy`: the variable dictionary, which keeps insertion order.
  - `values.dfy`: Python values and the Python operations the statements apply.
  - `text.dfy`: `str` methods.
  - `patterns.dfy`: the regular expressions of the built-in rules.
- `intended.dfy`: corrected versions of the behaviours listed under "## Findings".

Everything outside the interpreter is a parameter of the model. The `Host` datatype is a
deterministic oracle for:

- Python's `eval`;
- `float` parsing;
- `math` on floats;
- `random`;
- the regular expressions of modules;
- the module handlers.

Standard output is the `output` field, the list of texts `print` wrote. Standard input is the
`input` field, the lines not yet read. `sys.exit` and uncaught exceptions are the `status`
field. `while` and `for each` iterations are bounded by a `fuel` field.

Where the design description of the language and the code disagree, the model follows the code:

- An `if` statement with an else clause does not run exactly one clause (see "## Findings").
- `repeat N times:` has no handler, so its lines are unknown commands.
- `call NAME` never finds a function, because the function table is never filled.
- `execute_block` never dispatches a `for each` header to `handle_foreach`. The header is an
  unknown command, the body runs once as ordinary lines, and `end for` is ignored.
  `handle_foreach` is modelled on its own (`Semantics.HandleForeach`).
- A `for each` over a named list walks the list itself, not a snapshot: items added in the
  body are walked too.
- Expression evaluation can raise (`sqrt`, `round` or `abs` of a text, a `random number
  between` with the bounds reversed). Conditions can raise through `contains`.

## Model

| member | source | states |
|---|---|---|
| Blocks.BlockEnd | sifzz.py:273-308 | the block ends at or after its header and at most at the number of lines, which stands for a block that is never closed |
| Blocks.FindBlockEnd | sifzz.py:273-308 | the loop of `find_block_end` returns exactly `BlockEnd`: the first terminator equal to the marker that brings the depth to zero, or the line before an else clause at depth one |
| Blocks.CountLine | sifzz.py:290-304 | one line of the scan: the new depth is the old one plus one for a block starter and minus one for a terminator; whether the line closes the block, and whether it is an else clause at depth one |
| Blocks.ScanStep | sifzz.py:287-306 | one iteration of the scan on a line that neither closes the block nor is an else clause at depth one passes to the next line with the updated depth |
| Blocks.ScanThrough | sifzz.py:287-308 | the scan goes over a stretch of lines that keeps the depth positive and holds no else clause at depth one, and comes out with the depth changed by the stretch's net count |
| Blocks.EnderOnly | sifzz.py:278-299 | a terminator lowers the depth by one and is not an else clause |
| Blocks.ElseOnly | sifzz.py:278-304 | an else clause neither opens nor closes a block |
| Blocks.BalancedBody | sifzz.py:273-308 | a balanced body closed by the marker ends the block at that marker's line, however deeply blocks nest inside it |
| Blocks.ElseEndsBlock | sifzz.py:303-304 | an else clause at depth one after a balanced stretch ends the block on the line before the clause |
| Blocks.Unterminated | sifzz.py:308 | a block whose marker never closes it runs to the end of the program |
| Blocks.MismatchedTerminator | sifzz.py:296-300 | a terminator of another kind still lowers the depth, so the wrong `end loop` inside an `if` leaves the `if` unterminated |
| Blocks.AnyTerminatorCloses | sifzz.py:291-300 | an inner `loop while` closed by `end if` is counted as closed |
| Rules.SetConsumes | sifzz.py:438-444 | every line matching `set (\w+) to (.+)` is taken by the assignment rule |
| Rules.SetFormsShadowed | sifzz.py:480-612 | the size-of, item-of, random-number and random-choice rules never fire, because every line they match is taken by the assignment rule first |
| Rules.SizeOfIsSet | sifzz.py:481-482 | a line matching the size-of pattern also matches the assignment pattern |
| Rules.ItemOfIsSet | sifzz.py:491-492 | a line matching the item-of pattern also matches the assignment pattern |
| Rules.RandomNumberIsSet | sifzz.py:594-595 | a line matching the random-number pattern also matches the assignment pattern |
| Rules.RandomChoiceIsSet | sifzz.py:604-605 | a line matching the random-choice pattern also matches the assignment pattern |
| Rules.WriteShadows | sifzz.py:516-520 | any line that starts with `write ` is the core's write statement, so no module pattern for it is ever tried |
| Rules.ClearShadows | sifzz.py:502-506 | any line that starts with `clear ` is the core's clear statement on its second word, or raises IndexError without one |
| Rules.ChooseIgnored | sifzz.py:433-435 | terminators and else clauses are taken by the rule that ignores them |
| Rules.CallFallsThrough | sifzz.py:565-570 | `call NAME` is taken by no rule, because the function table is empty, and goes on to the modules |
| Machines.ExecLine | sifzz.py:418-636 | a line that no rule takes leaves the state unchanged and reports False; no rule consumes loop fuel |
| Machines.IgnoredLine | sifzz.py:433-435 | a terminator or an else clause reaching `execute_line` is consumed and changes nothing, so it never reaches the modules or the warning |
| Machines.IncreaseEffect | sifzz.py:614-620 | `increase NAME` sets an absent name to 1 and adds one to an integer; no other variable, no list, no output changes |
| Machines.DecreaseEffect | sifzz.py:623-629 | `decrease NAME` sets an absent name to -1 and subtracts one from an integer; nothing else changes |
| Machines.DivideByZero | sifzz.py:555-562 | `divide NAME by E` with `E` equal to zero leaves the state as it was |
| Machines.ArithmeticOnAbsent | sifzz.py:535-562 | `subtract`, `multiply` and `divide` on a name that is not a variable change nothing |
| Machines.CreateListEffect | sifzz.py:447-450 | `create list NAME` binds that list to an empty one and touches no other list and no variable |
| Machines.AddToList | sifzz.py:453-460 | `add E to NAME` appends the value to an existing list, even when a variable has the same name, and changes no other list and no variable |
| Machines.AddToVariable | sifzz.py:453-465 | `add E to NAME` without such a list assigns a new name, adds to an integer, concatenates to a text, and raises TypeError when it mixes a text and a number |
| Machines.RemoveFirst | sifzz.py:473-477 | `list.remove` takes out exactly the first element equal to the value, so putting it back gives the list again; with no such element the list is kept |
| Machines.RemoveEffect | sifzz.py:468-478 | `remove E from NAME` removes the first equal element of the list, or nothing, and changes nothing else |
| Machines.ClearEffect | sifzz.py:502-506 | `clear NAME` empties an existing list and ignores any other name |
| Machines.FirstEqual | sifzz.py:475 | the index of the first element equal to the value, under Python's `==` |
| Machines.TryModules | sifzz.py:255-271 | only a matching pattern can make the result True; without a match the state is unchanged; a handler never changes the run status, the input or the fuel |
| Machines.FirstHandlerOnly | sifzz.py:255-271 | only the first matching pattern's handler runs; the result is True exactly when it returned; a handler that raised keeps its partial effects and adds one error line |
| Machines.UnknownCommand | sifzz.py:246-249 | a line that no rule and no module takes changes nothing but the output, which gets the warning |
| Machines.CoreFirst | sifzz.py:246-249 | a line that a core rule takes never reaches the modules |
| Registry.Registered | sifzz.py:90-95 | after `register`, the pattern maps to the new handler and description; every other pattern maps to what it did before; a new pattern goes last and an existing one keeps its place |
| Registry.RegisteredKeyed | sifzz.py:90-95 | registering keeps the patterns distinct, as dictionary keys are |
| Registry.ReRegister | sifzz.py:90-95 | registering a pattern twice is the same as registering it once with the second handler |
| Registry.RegisterAll | sifzz.py:81-95 | registering a sequence of commands keeps the patterns distinct |
| Registry.SifzzModule.Register | sifzz.py:90-95 | the command table becomes `Registered` of the old one, and stays keyed |
| Registry.SifzzModule.constructor | sifzz.py:81-88 | a new module's table holds the commands its `register_commands` registers, in order |
| Registry.FirstMatch | sifzz.py:257-260 | the hit is a matching pattern; no pattern of an earlier module matches, and no earlier pattern of the same module matches; no hit means no pattern matches at all |
| Registry.FirstIn | sifzz.py:258-260 | within one module, the first pattern in registration order that matches |
| Semantics.ExecFrom | sifzz.py:213-253 | the walk never goes back and never gains fuel |
| Semantics.BlankRange | sifzz.py:222-226 | blank and comment lines change nothing, and the walk ends at the range's end unless it had already stopped |
| Semantics.BreakEndsRange | sifzz.py:232-235 | `break` sets the flag and ends the walk at that line |
| Semantics.BrokenRange | sifzz.py:216-218 | a walk entered with the break flag set does nothing |
| Semantics.OrdinaryLine | sifzz.py:246-251 | an ordinary line goes through the rules, the modules and the warning, and the walk goes on at the next line |
| Semantics.RunOneLine | sifzz.py:199-202 | `run` of a one-line program whose line is an ordinary statement is that statement's step of the walk |
| Semantics.RunLineAsStep | sifzz.py:204-211 | `run_line` has the same effect as one step of the walk on a line that a rule or a module takes; on any other line it leaves out only the warning |
| Semantics.HandleIf | sifzz.py:310-350 | the walk resumes after the header and the interpreter gains no fuel |
| Semantics.IfNoMatch | sifzz.py:313-316 | a header that does not match `if (.+):` is passed over |
| Semantics.IfWithoutElse | sifzz.py:310-350 | with a balanced body closed by `end if` and no else line, a true condition runs exactly the body and a false one runs nothing; either way the walk resumes after the `end if` |
| Semantics.IfElseAsWritten | sifzz.py:303-304 | for `if x:`, `say 1`, `else:`, `say 2`, `end if`, `handle_if` returns the index of the `else:` line and changes nothing |
| Semantics.IfElseSkipsIfBody | sifzz.py:320-350 | when the first clause is `else:`, a true condition runs the body without its last line and a false one runs nothing; the walk resumes at the `else:` line |
| Semantics.ElseBodyAlwaysRuns | sifzz.py:213-350 | the walk over `if x:`, `say 1`, `else:`, `say 2`, `end if` is the walk over the else body alone, whatever `x` is |
| Semantics.NestedElseAsWritten | sifzz.py:322-348 | the `else:` of a nested block is taken as the outer `if`'s clause: a true condition cuts the body there, and a false one runs the rest of the inner block |
| Semantics.FirstElseAt | sifzz.py:323-327 | the search for the next clause stops at the first line starting with `else` |
| Semantics.ElseScanAt | sifzz.py:332-347 | after a false condition, the clause scan reaches the `else:` line and runs the lines after it up to the block end |
| Semantics.ElseScanSkips | sifzz.py:332-348 | the clause scan goes past lines that do not start with `else` |
| Semantics.ElseScanNone | sifzz.py:331-350 | with no line starting with `else`, the clause scan runs nothing |
| Semantics.HandleLoop | sifzz.py:352-382 | the walk resumes after the header, and the loop gains no fuel |
| Semantics.LoopNoMatch | sifzz.py:355-358 | a header that does not match `loop while (.+):` is passed over |
| Semantics.LoopFalseFirst | sifzz.py:364-382 | a loop whose condition is false at first runs its body zero times and resumes after its block |
| Semantics.LoopBreakExits | sifzz.py:364-371 | a body run that sets the break flag ends the loop, with the flag cleared and the condition not tested again |
| Semantics.LoopPass | sifzz.py:364-371 | a pass after which the loop goes on spent fuel and left the run going; no pass gains fuel |
| Semantics.LoopLeavesFlagClear | sifzz.py:364-382 | a loop entered with the break flag clear leaves it clear unless the run stopped |
| Semantics.BodyRun | sifzz.py:366-371 | one run of a loop body: the loop goes on only while the run goes on, and `break` is consumed |
| Semantics.Range | sifzz.py:398-400 | `range(a, b)` has `b - a` items (none when `a >= b`), and item `k` is `a + k` |
| Semantics.SourceOf | sifzz.py:395-402 | a name of a list walks that list; a name that is neither a list nor a `range(a, b)` walks nothing |
| Semantics.RangeSource | sifzz.py:397-400 | `range(a, b)` is walked as its fixed items when no list has that name |
| Semantics.HandleForeach | sifzz.py:384-416 | the walk resumes after the header, and the loop gains no fuel |
| Semantics.ForUnknownSource | sifzz.py:395-402 | a `for each` over an unknown source runs nothing and resumes after its block |
| Semantics.ForPass | sifzz.py:407-414 | one item: a pass after which the loop goes on spent fuel and left the run going; a pass that leaves the run going leaves the break flag clear |
| Semantics.ForLeavesFlagClear | sifzz.py:407-414 | a `for each` loop entered with the break flag clear, or with items still to walk, leaves it clear unless the run stopped |
| Semantics.ForLastItem | sifzz.py:407-411 | over a body that keeps the loop variable, a loop over fixed items that ends with the run going leaves the variable holding the last item |
| Semantics.ForRange | sifzz.py:384-416 | `for each V in range(a, b):` with `a < b`, over such a body, leaves `V` holding `b - 1` and resumes after its `end for` |
| Semantics.ForBlank | sifzz.py:407-414 | over a body of blank lines, the loop is the reference loop `BlankFor` over the source's items |
| Semantics.BlankForResult | sifzz.py:407-414 | the reference loop binds the variable to the last item, clears both flags and spends one unit of fuel per item, changing nothing else |
| Semantics.ForStep | sifzz.py:407-414 | a pass whose body run changes nothing binds the variable to the item and moves to the next one |
| Interpreter.SifzzInterpreter.constructor | sifzz.py:102-115 | a new interpreter has no variables, no lists, both flags clear, no output and the whole input still to read, and is bound to its modules |
| Interpreter.SifzzInterpreter.ExecuteLine | sifzz.py:418-636 | the fields after the call are those that `Machines.ExecLine` gives, and so is the result |
| Interpreter.SifzzInterpreter.TryModuleCommands | sifzz.py:255-271 | the fields and the result are those of `Machines.TryModules` |
| Interpreter.SifzzInterpreter.EvalCond | sifzz.py:719-751 | the condition's value on the current fields |
| Interpreter.SifzzInterpreter.NextBlock | sifzz.py:323-327 | the loop that looks for the next clause returns `FirstElse` |
| Interpreter.SifzzInterpreter.ExecuteBlock | sifzz.py:213-253 | the loop of `execute_block` leaves the fields, and returns the index, that `Semantics.ExecFrom` gives |
| Interpreter.SifzzInterpreter.BlockStep | sifzz.py:216-251 | one iteration of that loop moves forward and leaves a state from which the rest of the walk ends where the whole walk from the old state ends |
| Interpreter.SifzzInterpreter.StatementStep | sifzz.py:246-249 | an ordinary line changes the fields as the bound statement step (`Machines.Statement`) does, and spends no fuel |
| Interpreter.SifzzInterpreter.HandleIf | sifzz.py:310-350 | the fields and the index after the call are those of `Semantics.HandleIf` |
| Interpreter.SifzzInterpreter.ElseBranches | sifzz.py:332-348 | the clause scan leaves the fields that `Semantics.ElseScan` gives |
| Interpreter.SifzzInterpreter.HandleLoop | sifzz.py:352-382 | the `while` loop of `handle_loop` leaves the fields, and returns the index, that `Semantics.HandleLoop` gives |
| Interpreter.SifzzInterpreter.LoopStep | sifzz.py:364-371 | one pass of that loop leaves the fields, and reports the stop, that `Semantics.LoopPass` gives |
| Interpreter.SifzzInterpreter.RunBody | sifzz.py:366-371 | one body run of either loop leaves the fields, and reports the stop, that `Semantics.BodyRun` gives |
| Interpreter.SifzzInterpreter.HandleForeach | sifzz.py:384-416 | the `for` loop of `handle_foreach` leaves the fields, and returns the index, that `Semantics.HandleForeach` gives |
| Interpreter.SifzzInterpreter.ForStep | sifzz.py:407-414 | one pass of that loop leaves the fields, and reports the stop, that `Semantics.ForPass` gives |
| Interpreter.SifzzInterpreter.Run | sifzz.py:199-202 | `run` leaves the fields that `Semantics.Run` gives |
| Interpreter.SifzzInterpreter.RunLine | sifzz.py:204-211 | `run_line` leaves the fields that `Semantics.RunLine` gives |
| Eval.EvalStrips | sifzz.py:640 | surrounding white space does not change what an expression evaluates to |
| Eval.QuotedLiteral | sifzz.py:652-654 | a quoted literal evaluates to the text between the quotes, verbatim, even when it holds a `+` or a variable's name |
| Eval.BoundName | sifzz.py:695-697 | a bound name made of word characters with a letter evaluates to the variable's value |
| Eval.LengthOf | sifzz.py:680-685 | `length of NAME` is the length of the variable's text when `NAME` is a variable, and otherwise the number of items of the list |
| Eval.Numeral | sifzz.py:687-693 | an integer numeral evaluates to its integer whatever the variables hold, because numbers are tried before names |
| Eval.PlusConcatenates | sifzz.py:704-712 | `A + B` of two numerals is the text of their digits joined, not their sum |
| Eval.QuotedPlusNumeral | sifzz.py:704-712 | `"T" + N` is the word followed by the digits of the number: `"a" + 1` gives `a1` |
| Eval.AbsOfNumeral | sifzz.py:665-667 | `abs(N)` of an integer numeral is its absolute value |
| Eval.RoundOfNumeral | sifzz.py:661-663 | `round(N)` of an integer numeral is the integer itself |
| Eval.EvalCondition | sifzz.py:719-751 | a condition without ` contains ` never raises, and is False when the host's `eval` fails |
| Eval.IsNotBeforeIs | sifzz.py:723-724 | ` is not ` is rewritten to `!=` before ` is ` can split it |
| Eval.GreaterEqualFirst | sifzz.py:726-728 | ` greater than or equal to ` becomes `>=` and not `>` followed by the leftover words |
| Eval.LessEqualFirst | sifzz.py:727-729 | ` less than or equal to ` becomes `<=` and not `<` followed by the leftover words |
| Eval.RewriteUnchanged | sifzz.py:721-729 | a condition without any of the phrases is not rewritten |
| Eval.ContainsTest | sifzz.py:731-736 | `"S" contains "T"` is True exactly when `T` occurs in `S` |
| Eval.ContainsRaises | sifzz.py:731-736 | `"S" contains N` with a number raises TypeError instead of being False |
| Store.Put | sifzz.py:443 | assigning a variable binds the name to the value and leaves every other name as it was |
| Store.PutNames | sifzz.py:443 | assigning keeps the order of the names, and a new name goes last, as in a Python dictionary |
| Store.PutTwice | sifzz.py:443 | assigning a name twice is the same as assigning the second value |
| Store.PutAll | sifzz.py:261-264 | the assignments of a handler keep the names distinct |
| Store.SubstituteNoNames | sifzz.py:738-743 | with no variables, the substitution before `eval` leaves the text as it is |
| Values.PyEq | sifzz.py:560 | Python's `==` on integers, booleans and texts: a text never equals a number |
| Values.PyArith | sifzz.py:535-562 | `+`, `-` and `*` on integers are exact; `+` joins texts; `+` or `-` of a text and a number raises, and so does `-` of two texts |
| Values.PyIn | sifzz.py:735-736 | `item in container` on two texts is substring search, and on a number it raises |
| Intended.IfElseIntended | sifzz.py:310-350 | with the block ended at its own `end if`, `if`, body, `else:`, body, `end if` runs exactly one body, the first when the condition holds and the second otherwise, and resumes after the `end if` |
| Intended.NestedIntended | sifzz.py:310-350 | with depth-aware clauses, an `if` whose only else clause belongs to a nested block runs its whole body or nothing |
| Intended.ClosingAtEnd | sifzz.py:273-308 | the scan without the early stop at an else clause ends an `if`/`else:` block at its own terminator |
| Intended.ClauseAtElse | sifzz.py:320-329 | the depth-aware clause search stops at the block's own `else:` line |
| Intended.ContainsIntended | sifzz.py:731-751 | with the membership test inside the guard, a number looked for in a text is not found, and a text is found exactly when it occurs |

## Left out

- Standard output, standard input, `time.sleep`, `random` and `sys.exit` are modelled as
  values. `print` appends a text to `output`; `input` takes the next line of `input`, and an
  exhausted input raises EOFError. `wait N seconds` is consumed without a delay. Random numbers come from the host.
  `sys.exit` becomes the `Exited` status.
- Python's `eval`, `float()`, floating-point arithmetic, true division, `math.sqrt`, and
  `round`/`abs` on floats are host oracles. The model says nothing about their results. That
  includes `/` and `sqrt` on integer and text operands.
- `\w`, `\d`, `upper`, `lower` and `int()` are taken over ASCII only. Python 3 also accepts
  non-ASCII letters and digits in them, so `set café to 1` is an unknown command in the model
  but an assignment in Python.
- `while` and `for each` loops are bounded by the `fuel` field. A run whose fuel ends stops
  with `OutOfFuel`, where Python would loop forever.
- Module handlers are opaque. A handler gets the regex groups, the variables and the lists,
  and returns its assignments, the list dictionary it left, its printed texts and the message
  of the exception it raised. A handler that calls back into `run_line` is not followed into.
  Its effects are whatever the host says they are.
- Semantics.HandleForeach: a named list is read again under its name at every step. When
  `create list` in the body binds that name to a new list, Python goes on walking the old
  list and the model walks the new one.
- `call NAME` has no rule in the model. The function table it consults is never filled, so in
  the source it always falls through (`Rules.CallFallsThrough`). `all_lines`, which only that
  rule reads, is not kept.
- `repeat N times:` and `function NAME:` blocks have no handler in the source. They are
  counted by the depth scan only.
- Debug output (`DEBUG_MODE`) is not modelled. That includes the `guesses` printout of
  `handle_loop`, which only prints in debug mode.
- Module loading (`load_external_modules`, the package installer, `PackageAPI`), `run_file`,
  `main` and the extension modules themselves are not part of this model. The loaded modules
  are the `modules` field of `Context`: one command table per module, in load order.
- `loop_continue` is set and cleared as in the source, but nothing reads it.

## Findings

| source | as written | input that shows it | evidently intended | confidence | as-written member | corrected member |
|---|---|---|---|---|---|---|
| sifzz.py:303-304 | `find_block_end` returns the line before an else clause at depth one, so an `if` with an `else:` ends there: the `if` body loses its last line, no clause is found, and the walk resumes at `else:`, which `execute_line` ignores; the else body then runs as ordinary lines | `if x:` / `say 1` / `else:` / `say 2` / `end if` prints `2` whether or not `x` holds, and never prints `1` | exactly one clause body runs, as in `Intended.IntendedIf`: the block ends at its own `end if` | high; not executed | Semantics.ElseBodyAlwaysRuns | Intended.IfElseIntended |
| sifzz.py:325-346 | the clause search of `handle_if` takes the first line starting with `else` in the block, even when it belongs to a nested block | `if a:` / `if b:` / `say 1` / `else:` / `say 2` / `end if` / `end if` with `a` false prints `2` | a false `a` runs nothing; the clauses of a nested block are skipped | high; not executed | Semantics.NestedElseAsWritten | Intended.NestedIntended |
| sifzz.py:731-736 | the `contains` test runs `item in container` outside the `try` that makes every other condition False on failure, so a type mismatch raises out of `eval_condition` | `if "abc" contains 1:` raises TypeError | the test is False, like any other condition that fails | medium; not executed | Eval.ContainsRaises | Intended.ContainsIntended |

The rest of the model keeps the behaviour as written. The corrected definitions live in
`intended.dfy`, with the intended properties proved about them.
