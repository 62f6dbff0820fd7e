/** The rule table of `execute_line` (sifzz.py:418-636): an ordered chain of tests on the stripped
    line; the first rule that fires consumes the line. Which rule fires depends on the line alone,
    so the choice is a function of the line, and what the rule does to the interpreter's state is
    `Machines.Apply`. */
module Rules {
  import opened Text
  import opened Patterns

  /** A statement of the core language, with the parts its regular expression captured. */
  datatype Rule =
    | Stop                                            // stop script
    | Break                                           // break
    | Skip                                            // a terminator or an else clause
    | Set(name: string, expr: string)                 // set NAME to EXPR
    | CreateList(name: string)                        // create list NAME
    | AddTo(expr: string, name: string)               // add EXPR to NAME
    | RemoveFrom(expr: string, name: string)          // remove EXPR from NAME
    | SizeOf(name: string, list: string)              // set NAME to size of LIST
    | ItemOf(name: string, index: nat, list: string)  // set NAME to item N of LIST
    | Clear(name: string)                             // clear NAME
    | Say(expr: string)                               // say EXPR
    | Write(expr: string)                             // write EXPR
    | Newline                                         // newline
    | Wait                                            // wait N seconds
    | Subtract(expr: string, name: string)            // subtract EXPR from NAME
    | Multiply(name: string, expr: string)            // multiply NAME by EXPR
    | Divide(name: string, expr: string)              // divide NAME by EXPR
    | Ask(prompt: string, name: string)               // ask "PROMPT" and store in NAME
    | AskNumber(prompt: string, name: string)         // ask for number "PROMPT" and store in NAME
    | RandomNumber(name: string, lo: string, hi: string) // set NAME to random number between LO and HI
    | RandomChoice(name: string, list: string)        // set NAME to random choice from LIST
    | Increase(name: string)                          // increase NAME
    | Decrease(name: string)                          // decrease NAME
    | Exit                                            // exit
    | Fail(error: string)                             // the test itself raised

  /** `line.split()[k]`, or `None` where it raises IndexError. */
  function WordAt(line: string, k: nat): Option<string>
  {
    var words := SplitWs(line);
    if k < |words| then Some(words[k]) else None
  }

  /** The terminators and else clauses that `execute_line` accepts and ignores. */
  predicate Ignored(line: string)
  {
    line == "end if" || line == "end loop" || line == "end repeat" || line == "end for"
    || line == "end function" || line == "else:" || StartsWith(line, "else if ")
  }

  /** The substring tests of the chain and what each rule's regular expression captures from
      the line. Neither has effects, so they are taken once, ahead of the chain that consults
      them in order. */
  datatype Captures = Captures(
    hasTo: bool, hasFrom: bool, hasBy: bool, hasOf: bool, hasItem: bool, hasSizeOf: bool,
    hasRandomNumber: bool, hasRandomChoice: bool,
    setTo: Option<(string, string)>,
    addTo: Option<(string, string)>,
    removeFrom: Option<(string, string)>,
    sizeOf: Option<(string, string)>,
    itemOf: Option<(string, nat, string)>,
    wait: bool,
    subtractFrom: Option<(string, string)>,
    multiplyBy: Option<(string, string)>,
    divideBy: Option<(string, string)>,
    ask: Option<(string, string)>,
    askNumber: Option<(string, string)>,
    randomNumber: Option<(string, string, string)>,
    randomChoice: Option<(string, string)>)

  function Capture(line: string): Captures
  {
    Captures(Contains(line, " to "), Contains(line, " from "), Contains(line, " by "), Contains(line, " of "),
             Contains(line, "item"), Contains(line, "size of"), Contains(line, "random number between"),
             Contains(line, "random choice from"),
             MatchSet(line), MatchAddTo(line), MatchRemoveFrom(line), MatchSizeOf(line), MatchItemOf(line),
             MatchWait(line), MatchSubtractFrom(line), MatchMultiplyBy(line), MatchDivideBy(line),
             MatchAsk(line), MatchAskNumber(line), MatchRandomNumber(line), MatchRandomChoice(line))
  }

  /** The rule of `execute_line` that consumes `line`, or `None` when it returns False. The
      `call NAME` rule is absent: it fires only for a name in the function table, which nothing
      fills, so such a line always falls through it. */
  function SelectRule(line: string): Option<Rule>
  {
    Choose(line, Capture(line))
  }

  /** The chain of `execute_line`, given the captures of every rule. */
  function Choose(line: string, c: Captures): Option<Rule>
  {
    if line == "stop script" then Some(Stop)
    else if line == "break" then Some(Break)
    else if Ignored(line) then Some(Skip)
    else if StartsWith(line, "set ") && c.hasTo && c.setTo.Some? then
      Some(Set(c.setTo.value.0, c.setTo.value.1))
    else if StartsWith(line, "create list ") then
      (match WordAt(line, 2) case Some(n) => Some(CreateList(n)) case None => Some(Fail("IndexError")))
    else if StartsWith(line, "add ") && c.hasTo && c.addTo.Some? then
      Some(AddTo(c.addTo.value.0, c.addTo.value.1))
    else if StartsWith(line, "remove ") && c.hasFrom && c.removeFrom.Some? then
      Some(RemoveFrom(c.removeFrom.value.0, c.removeFrom.value.1))
    else if c.hasSizeOf && c.sizeOf.Some? then
      Some(SizeOf(c.sizeOf.value.0, c.sizeOf.value.1))
    else if c.hasItem && c.hasOf && c.itemOf.Some? then
      Some(ItemOf(c.itemOf.value.0, c.itemOf.value.1, c.itemOf.value.2))
    else if StartsWith(line, "clear ") then
      (match WordAt(line, 1) case Some(n) => Some(Clear(n)) case None => Some(Fail("IndexError")))
    else if StartsWith(line, "say ") then Some(Say(Strip(line[4..])))
    else if StartsWith(line, "write ") then Some(Write(Strip(line[6..])))
    else if line == "newline" then Some(Newline)
    else if StartsWith(line, "wait ") && c.wait then Some(Wait)
    else if StartsWith(line, "subtract ") && c.hasFrom && c.subtractFrom.Some? then
      Some(Subtract(c.subtractFrom.value.0, c.subtractFrom.value.1))
    else if StartsWith(line, "multiply ") && c.hasBy && c.multiplyBy.Some? then
      Some(Multiply(c.multiplyBy.value.0, c.multiplyBy.value.1))
    else if StartsWith(line, "divide ") && c.hasBy && c.divideBy.Some? then
      Some(Divide(c.divideBy.value.0, c.divideBy.value.1))
    else if StartsWith(line, "ask ") && c.ask.Some? then
      Some(Ask(c.ask.value.0, c.ask.value.1))
    else if StartsWith(line, "ask for number ") && c.askNumber.Some? then
      Some(AskNumber(c.askNumber.value.0, c.askNumber.value.1))
    else if c.hasRandomNumber && c.randomNumber.Some? then
      Some(RandomNumber(c.randomNumber.value.0, c.randomNumber.value.1, c.randomNumber.value.2))
    else if c.hasRandomChoice && c.randomChoice.Some? then
      Some(RandomChoice(c.randomChoice.value.0, c.randomChoice.value.1))
    else if StartsWith(line, "increase ") then
      (match WordAt(line, 1) case Some(n) => Some(Increase(n)) case None => Some(Fail("IndexError")))
    else if StartsWith(line, "decrease ") then
      (match WordAt(line, 1) case Some(n) => Some(Decrease(n)) case None => Some(Fail("IndexError")))
    else if line == "exit" then Some(Exit)
    else None
  }

  /** A `set NAME to ...` match holds the ` to ` its rule tests for. */
  lemma {:induction false} SetMatchContains(line: string)
    requires MatchSet(line).Some?
    ensures Contains(line, " to ")
  {
    ContainsAt(line, " to ", WordEnd(line, 4));
  }

  /** Every line matching `set (\w+) to (.+)` is consumed by the assignment rule. */
  lemma {:induction false} SetConsumes(line: string)
    requires MatchSet(line).Some?
    ensures SelectRule(line) == Some(Set(MatchSet(line).value.0, MatchSet(line).value.1))
  {
    SetMatchContains(line);
    ChooseSet(line, Capture(line));
  }

  lemma {:induction false} ChooseSet(line: string, c: Captures)
    requires StartsWith(line, "set ") && c.hasTo && c.setTo.Some?
    ensures Choose(line, c) == Some(Set(c.setTo.value.0, c.setTo.value.1))
  {
    assert line[0] == 's' && line[1] == 'e';
    NotPrefix(line, "else if ", 0);
  }

  /** A `set NAME` line whose separator starts with ` to ` and a character other than a newline
      also matches the assignment rule. */
  lemma {:induction false} SetPrefix(line: string, sep: string)
    requires |sep| > 4 && sep[..4] == " to " && sep[4] != '\n'
    requires StartsWith(line, "set ") && WordEnd(line, 4) > 4 && OccursAt(line, sep, WordEnd(line, 4))
    ensures MatchSet(line).Some?
  {
    var w := WordEnd(line, 4);
    assert line[w..w + 4] == line[w..w + |sep|][..4];
    assert OccursAt(line, " to ", w);
    assert line[w + 4] == sep[4];
  }

  lemma {:induction false} SizeOfIsSet(line: string)
    ensures MatchSizeOf(line).Some? ==> MatchSet(line).Some?
  {
    if MatchSizeOf(line).Some? { SetPrefix(line, " to size of "); }
  }

  lemma {:induction false} ItemOfIsSet(line: string)
    ensures MatchItemOf(line).Some? ==> MatchSet(line).Some?
  {
    if MatchItemOf(line).Some? { SetPrefix(line, " to item "); }
  }

  lemma {:induction false} RandomNumberIsSet(line: string)
    ensures MatchRandomNumber(line).Some? ==> MatchSet(line).Some?
  {
    if MatchRandomNumber(line).Some? { SetPrefix(line, " to random number between "); }
  }

  lemma {:induction false} RandomChoiceIsSet(line: string)
    ensures MatchRandomChoice(line).Some? ==> MatchSet(line).Some?
  {
    if MatchRandomChoice(line).Some? { SetPrefix(line, " to random choice from "); }
  }

  /** The size-of, item, random-number and random-choice rules never fire: every line they
      match is a `set NAME to ...` line, which the assignment rule ahead of them consumes. */
  lemma {:induction false} SetFormsShadowed(line: string)
    ensures var r := SelectRule(line);
            r.Some? ==> !(r.value.SizeOf? || r.value.ItemOf? || r.value.RandomNumber? || r.value.RandomChoice?)
  {
    if MatchSet(line).Some? {
      SetConsumes(line);
    } else {
      SizeOfIsSet(line);
      ItemOfIsSet(line);
      RandomNumberIsSet(line);
      RandomChoiceIsSet(line);
      ChooseUnset(line, Capture(line));
    }
  }

  /** Without an assignment match and without the captures of the four `set` forms, the chain
      picks none of those forms. */
  lemma {:induction false} ChooseUnset(line: string, c: Captures)
    requires c.setTo.None? && c.sizeOf.None? && c.itemOf.None? && c.randomNumber.None? && c.randomChoice.None?
    ensures var r := Choose(line, c);
            r.Some? ==> !(r.value.SizeOf? || r.value.ItemOf? || r.value.RandomNumber? || r.value.RandomChoice?)
  {
  }

  /** The captures of the rules whose expressions start with `set ` are empty for a line that
      does not. */
  lemma {:induction false} NoSetCaptures(line: string)
    requires !StartsWith(line, "set ")
    ensures var c := Capture(line);
            c.setTo.None? && c.sizeOf.None? && c.itemOf.None? && c.randomNumber.None? && c.randomChoice.None?
  {
  }

  /** A line that starts with `write ` is the core's write statement, whatever follows. */
  lemma {:induction false} WriteShadows(line: string)
    requires StartsWith(line, "write ")
    ensures SelectRule(line) == Some(Write(Strip(line[6..])))
  {
    assert line[0] == 'w';
    NotPrefix(line, "set ", 0);
    NoSetCaptures(line);
    ChooseWrite(line, Capture(line));
  }

  lemma {:induction false} ChooseWrite(line: string, c: Captures)
    requires StartsWith(line, "write ") && c.sizeOf.None? && c.itemOf.None?
    ensures Choose(line, c) == Some(Write(Strip(line[6..])))
  {
    assert line[0] == 'w';
    NotPrefix(line, "else if ", 0);
    NotPrefix(line, "set ", 0);
    NotPrefix(line, "create list ", 0);
    NotPrefix(line, "add ", 0);
    NotPrefix(line, "remove ", 0);
    NotPrefix(line, "clear ", 0);
    NotPrefix(line, "say ", 0);
  }

  /** A line that starts with `clear ` is the core's clear statement on its second word. */
  lemma {:induction false} ClearShadows(line: string)
    requires StartsWith(line, "clear ")
    ensures SelectRule(line) == match WordAt(line, 1) case Some(n) => Some(Clear(n)) case None => Some(Fail("IndexError"))
  {
    assert line[0] == 'c';
    NotPrefix(line, "set ", 0);
    NoSetCaptures(line);
    ChooseClear(line, Capture(line));
  }

  lemma {:induction false} ChooseClear(line: string, c: Captures)
    requires StartsWith(line, "clear ") && c.sizeOf.None? && c.itemOf.None?
    ensures Choose(line, c) == match WordAt(line, 1) case Some(n) => Some(Clear(n)) case None => Some(Fail("IndexError"))
  {
    assert line[0] == 'c' && line[1] == 'l';
    NotPrefix(line, "else if ", 0);
    NotPrefix(line, "set ", 0);
    NotPrefix(line, "create list ", 1);
    NotPrefix(line, "add ", 0);
    NotPrefix(line, "remove ", 0);
  }

  /** A terminator or an else clause is taken by the rule that ignores it, whatever the other
      rules would capture. */
  lemma {:induction false} ChooseIgnored(line: string, c: Captures)
    requires Ignored(line)
    ensures Choose(line, c) == Some(Skip)
  {
    if StartsWith(line, "else if ") {
      assert line[0] == 'e';
    }
  }

  /** `call NAME` is consumed by no rule, since the function table it consults is never
      filled: the line goes on to the modules. */
  lemma {:induction false} CallFallsThrough(line: string)
    requires StartsWith(line, "call ")
    ensures SelectRule(line) == None
  {
    assert line[0] == 'c';
    NotPrefix(line, "set ", 0);
    NoSetCaptures(line);
    ChooseCall(line, Capture(line));
  }

  lemma {:induction false} ChooseCall(line: string, c: Captures)
    requires StartsWith(line, "call ")
    requires c.sizeOf.None? && c.itemOf.None? && c.randomNumber.None? && c.randomChoice.None?
    ensures Choose(line, c) == None
  {
    assert line[0] == 'c' && line[1] == 'a';
    NotPrefix(line, "else if ", 0);
    NotPrefix(line, "set ", 0);
    NotPrefix(line, "create list ", 1);
    NotPrefix(line, "add ", 0);
    NotPrefix(line, "remove ", 0);
    NotPrefix(line, "clear ", 1);
    NotPrefix(line, "say ", 0);
    NotPrefix(line, "write ", 0);
    NotPrefix(line, "wait ", 0);
    NotPrefix(line, "subtract ", 0);
    NotPrefix(line, "multiply ", 0);
    NotPrefix(line, "divide ", 0);
    NotPrefix(line, "ask ", 0);
    NotPrefix(line, "ask for number ", 0);
    NotPrefix(line, "increase ", 0);
    NotPrefix(line, "decrease ", 0);
  }
}
