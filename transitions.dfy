/** The calculator as a state machine over values: the three private fields of
    `Calculator` and the text of the two display lines, and one function per
    command. The class in calculator.dfy is proved to follow these functions. */
module Transitions {
  import opened Arithmetic
  import opened Display
  import opened Keys

  /** `#previousOperand`, `#currentOperand`, `#operation` (None is `undefined`),
      and the `textContent` of the previous-operand and current-operand lines. */
  datatype State = State(
    previousOperand: string,
    currentOperand: string,
    operation: Option<string>,
    previousText: string,
    currentText: string)

  const Initial: State := State("", "", None, "", "")

  /** `_appendNum`: a "." is refused when nothing has been typed or the operand
      already holds one; anything else is added at the end. */
  function AppendNum(s: State, number: string): (r: State)
    ensures r.previousOperand == s.previousOperand && r.operation == s.operation
    ensures r.previousText == s.previousText
    ensures r == s || (r.currentOperand == s.currentOperand + number
                       && r.currentText == DisplayNumLocal(r.currentOperand))
    ensures number != "." ==> r.currentOperand == s.currentOperand + number
  {
    if number == "." && s.currentOperand == "" then s
    else if number == "." && '.' in s.currentOperand then s
    else
      var current := s.currentOperand + number;
      s.(currentOperand := current, currentText := DisplayNumLocal(current))
  }

  /** `_checkOperation(#operation)`. */
  function CheckOperation(arith: Arith, s: State): (r: State)
    ensures r.operation == s.operation
  {
    if s.previousOperand == "" || s.currentOperand == "" || s.currentOperand == "." then s
    else
      match Apply(arith, s.operation, s.previousOperand, s.currentOperand)
      case None => s
      case Some(answer) =>
        s.(previousText := "", currentText := DisplayNumLocal(answer),
           currentOperand := answer, previousOperand := "")
  }

  /** `_addOperation`: refused while the operand is empty or ends in "."; a
      pending operation is evaluated first, then the operand moves up. */
  function AddOperation(arith: Arith, s: State, operation: string): (r: State)
    ensures r == s || (r.operation == Some(operation) && r.currentOperand == "" && r.currentText == "")
  {
    if s.currentOperand == "" then s
    else if s.currentOperand[|s.currentOperand| - 1] == '.' then s
    else
      var t := if s.previousOperand != "" then CheckOperation(arith, s) else s;
      t.(operation := Some(operation), previousOperand := t.currentOperand,
         previousText := DisplayNumLocal(t.currentOperand) + " " + operation,
         currentOperand := "", currentText := "")
  }

  /** `_delete(#currentOperand)`: `substring(0, length - 1)`, which is "" for "",
      and a lone "-" left behind is dropped too. */
  function Delete(s: State): (r: State)
    ensures r.previousOperand == s.previousOperand && r.operation == s.operation
    ensures r.previousText == s.previousText
    ensures r.currentOperand <= s.currentOperand
    ensures s.currentOperand != "" ==> |r.currentOperand| < |s.currentOperand|
    ensures r.currentText == DisplayNumLocal(r.currentOperand)
  {
    var operand := s.currentOperand;
    var shortened := if operand == "" then "" else operand[..|operand| - 1];
    var newOperand := if shortened == "-" then "" else shortened;
    s.(currentOperand := newOperand, currentText := DisplayNumLocal(newOperand))
  }

  /** The guard of `_clearAll`: the "Escape" key, or a click on an element
      carrying `data-clear`. */
  predicate ClearAccepted(trigger: ClearTrigger)
  {
    trigger.EscapeKey? || trigger.targetHasClearData
  }

  /** `_clearAll(event)`. */
  function ClearAll(s: State, trigger: ClearTrigger): (r: State)
    ensures r == s || r == Initial
  {
    if !ClearAccepted(trigger) then s
    else s.(previousOperand := "", previousText := "", currentOperand := "",
            currentText := "", operation := None)
  }

  function Step(arith: Arith, s: State, c: Command): State
  {
    match c
    case Append(number) => AppendNum(s, number)
    case ChooseOperation(symbol) => AddOperation(arith, s, symbol)
    case Evaluate => CheckOperation(arith, s)
    case DeleteLast => Delete(s)
    case Clear(trigger) => ClearAll(s, trigger)
  }

  /** The state after a sequence of commands, one at a time. */
  function Run(arith: Arith, s: State, cs: seq<Command>): State
    decreases |cs|
  {
    if cs == [] then s else Run(arith, Step(arith, s, cs[0]), cs[1..])
  }

  /** `_handleKeyPress`. */
  function HandleKeyPress(arith: Arith, s: State, event: KeyEvent): (r: State)
    ensures KeyCommand(event).None? ==> r == s
  {
    match KeyCommand(event)
    case None => s
    case Some(c) => Step(arith, s, c)
  }

  /** Running a command and then the rest. */
  lemma RunStepHolds(arith: Arith, s: State, c: Command, cs: seq<Command>)
    ensures Run(arith, s, [c] + cs) == Run(arith, Step(arith, s, c), cs)
  {
    assert ([c] + cs)[1..] == cs;
  }

  // SplitFour, SplitFive and SplitSix model nothing: they only cut a written-out
  // command list into pieces so that each scenario proof stays small.

  /** Splitting a written-out command list after its first two commands. */
  lemma SplitFour(c0: Command, c1: Command, c2: Command, c3: Command)
    ensures [c0, c1, c2, c3] == [c0, c1] + [c2, c3]
  {
  }

  lemma SplitFive(c0: Command, c1: Command, c2: Command, c3: Command, c4: Command)
    ensures [c0, c1, c2, c3, c4] == [c0, c1] + [c2, c3, c4]
  {
  }

  lemma SplitSix(c0: Command, c1: Command, c2: Command, c3: Command, c4: Command, c5: Command)
    ensures [c0, c1, c2, c3, c4, c5] == [c0, c1] + [c2, c3, c4, c5]
    ensures [c2, c3, c4, c5] == [c2, c3] + [c4, c5]
  {
  }

  /** A series of key events, each handled completely before the next. */
  function HandleKeys(arith: Arith, s: State, events: seq<KeyEvent>): State
    decreases |events|
  {
    if events == [] then s else HandleKeys(arith, HandleKeyPress(arith, s, events[0]), events[1..])
  }

  lemma {:induction false} HandleKeysSnoc(arith: Arith, s: State, events: seq<KeyEvent>, e: KeyEvent)
    ensures HandleKeys(arith, s, events + [e]) == HandleKeyPress(arith, HandleKeys(arith, s, events), e)
    decreases |events|
  {
    if events == [] {
      assert events + [e] == [e];
      assert [e][1..] == [];
    } else {
      assert (events + [e])[1..] == events[1..] + [e];
      HandleKeysSnoc(arith, HandleKeyPress(arith, s, events[0]), events[1..], e);
    }
  }

  /** Key events that each issue a command run those commands in order. */
  lemma {:induction false} HandleKeysRunsCommands(arith: Arith, s: State, events: seq<KeyEvent>, cs: seq<Command>)
    requires |events| == |cs|
    requires forall i :: 0 <= i < |cs| ==> KeyCommand(events[i]) == Some(cs[i])
    ensures HandleKeys(arith, s, events) == Run(arith, s, cs)
    decreases |cs|
  {
    if cs != [] {
      HandleKeysRunsCommands(arith, HandleKeyPress(arith, s, events[0]), events[1..], cs[1..]);
    }
  }

  // ---------------------------------------------------------------------------
  // Entry

  /** Appending "." changes nothing exactly when the operand is empty or already
      holds a "."; any other append adds the text at the end. Nothing but the
      current operand and its line changes. */
  lemma AppendNumGuard(s: State, number: string)
    ensures var r := AppendNum(s, number);
            && r.previousOperand == s.previousOperand && r.operation == s.operation
            && r.previousText == s.previousText
            && (number == "." ==> (r == s <==> s.currentOperand == "" || '.' in s.currentOperand))
            && (number != "." ==> r.currentOperand == s.currentOperand + number)
            && (r != s ==> r.currentOperand == s.currentOperand + number
                           && r.currentText == DisplayNumLocal(r.currentOperand))
  {
  }

  /** A key that types one digit. */
  predicate IsDigitKey(key: string) { |key| == 1 && IsDigit(key[0]) }

  /** Digits and at most one ".", never in front. */
  predicate WellFormedEntry(e: string)
  {
    && (forall i :: 0 <= i < |e| ==> IsDigit(e[i]) || e[i] == '.')
    && (forall i, j :: 0 <= i < j < |e| && e[i] == '.' ==> e[j] != '.')
    && (e != "" ==> e[0] != '.')
  }

  predicate AllEntryKeys(cs: seq<Command>)
  {
    forall i :: 0 <= i < |cs| ==> cs[i].Append? && IsEntryKey(cs[i].number)
  }

  lemma DotKeepsEntryWellFormed(e: string)
    requires WellFormedEntry(e) && e != "" && '.' !in e
    ensures WellFormedEntry(e + ".")
  {
    var r := e + ".";
    assert forall i :: 0 <= i < |e| ==> r[i] == e[i];
  }

  lemma DigitKeepsEntryWellFormed(e: string, key: string)
    requires WellFormedEntry(e) && IsDigitKey(key)
    ensures WellFormedEntry(e + key)
  {
    var r := e + key;
    assert forall i :: 0 <= i < |e| ==> r[i] == e[i];
    assert r[|e|] == key[0];
  }

  lemma AppendKeepsEntryWellFormed(s: State, key: string)
    requires WellFormedEntry(s.currentOperand) && IsEntryKey(key)
    ensures WellFormedEntry(AppendNum(s, key).currentOperand)
  {
    if key == "." {
      if s.currentOperand != "" && '.' !in s.currentOperand {
        DotKeepsEntryWellFormed(s.currentOperand);
      }
    } else {
      DigitKeepsEntryWellFormed(s.currentOperand, key);
    }
  }

  /** Typing digits and "." only ever builds a well-formed entry, and leaves the
      previous operand, the operation and the upper line as they were. */
  lemma {:induction false} TypingKeepsEntryWellFormed(arith: Arith, s: State, cs: seq<Command>)
    requires WellFormedEntry(s.currentOperand) && AllEntryKeys(cs)
    ensures var r := Run(arith, s, cs);
            && WellFormedEntry(r.currentOperand)
            && r.previousOperand == s.previousOperand && r.operation == s.operation
            && r.previousText == s.previousText
    decreases |cs|
  {
    if cs != [] {
      AppendKeepsEntryWellFormed(s, cs[0].number);
      var s' := Step(arith, s, cs[0]);
      assert AllEntryKeys(cs[1..]) by {
        forall i | 0 <= i < |cs[1..]| ensures cs[1..][i].Append? && IsEntryKey(cs[1..][i].number) {
          assert cs[1..][i] == cs[i + 1];
        }
      }
      TypingKeepsEntryWellFormed(arith, s', cs[1..]);
    }
  }

  lemma NoDotAfterDigit(e: string, a: string)
    requires IsDigitKey(a) && '.' !in e
    ensures '.' !in e + a
  {
    forall i | 0 <= i < |e + a| ensures (e + a)[i] != '.' {
      if i < |e| { assert (e + a)[i] == e[i]; }
    }
  }

  /** A digit and then "." typed onto an operand without a "." are both taken. */
  lemma DigitThenDot(arith: Arith, s: State, a: string, rest: seq<Command>)
    requires IsDigitKey(a) && '.' !in s.currentOperand
    ensures var current := s.currentOperand + a + ".";
            Run(arith, s, [Append(a), Append(".")] + rest)
            == Run(arith, s.(currentOperand := current, currentText := DisplayNumLocal(current)), rest)
  {
    var s1 := AppendNum(s, a);
    NoDotAfterDigit(s.currentOperand, a);
    assert [Append(a), Append(".")] + rest == [Append(a)] + ([Append(".")] + rest);
    RunStepHolds(arith, s, Append(a), [Append(".")] + rest);
    RunStepHolds(arith, s1, Append("."), rest);
  }

  /** Once the operand holds a ".", a second "." between two digits is refused. */
  lemma SecondDotRefused(arith: Arith, s: State, b: string, c: string)
    requires IsDigitKey(b) && IsDigitKey(c) && '.' in s.currentOperand
    ensures Run(arith, s, [Append(b), Append("."), Append(c)]).currentOperand == s.currentOperand + b + c
  {
    var s1 := AppendNum(s, b);
    RunStepHolds(arith, s, Append(b), [Append("."), Append(c)]);
    assert '.' in s1.currentOperand by {
      var i :| 0 <= i < |s.currentOperand| && s.currentOperand[i] == '.';
      assert s1.currentOperand[i] == '.';
    }
    RunStepHolds(arith, s1, Append("."), [Append(c)]);
    RunStepHolds(arith, s1, Append(c), []);
  }

  /** Typing a digit, ".", a digit, "." and a digit onto an empty operand gives,
      for 1 . 2 . 3, "1.23": the second "." is refused. */
  lemma DecimalEntryScenario(arith: Arith, s: State, a: string, b: string, c: string)
    requires IsDigitKey(a) && IsDigitKey(b) && IsDigitKey(c) && s.currentOperand == ""
    ensures Run(arith, s, [Append(a), Append("."), Append(b), Append("."), Append(c)]).currentOperand
         == a + "." + b + c
  {
    SplitFive(Append(a), Append("."), Append(b), Append("."), Append(c));
    DigitThenDot(arith, s, a, [Append(b), Append("."), Append(c)]);
    var current := a + ".";
    assert s.currentOperand + a + "." == current;
    assert current[|a|] == '.';
    SecondDotRefused(arith, s.(currentOperand := current, currentText := DisplayNumLocal(current)), b, c);
  }

  // ---------------------------------------------------------------------------
  // Choosing an operation

  /** Nothing changes while the operand is empty or ends in "."; otherwise the
      operand is moved up, the operation stored and the lower line emptied. */
  lemma AddOperationGuard(arith: Arith, s: State, operation: string)
    ensures var r := AddOperation(arith, s, operation);
            && (s.currentOperand == "" || s.currentOperand[|s.currentOperand| - 1] == '.' ==> r == s)
            && (s.currentOperand != "" && s.currentOperand[|s.currentOperand| - 1] != '.' ==>
                  && r.operation == Some(operation) && r.currentOperand == "" && r.currentText == ""
                  && r.previousText == DisplayNumLocal(r.previousOperand) + " " + operation)
  {
  }

  /** Past the two guards, the state is built afresh from the operand left by
      the pending evaluation, if any. */
  lemma AddOperationPastGuards(arith: Arith, s: State, operation: string)
    requires s.currentOperand != "" && s.currentOperand[|s.currentOperand| - 1] != '.'
    ensures var t := if s.previousOperand != "" then CheckOperation(arith, s) else s;
            AddOperation(arith, s, operation)
            == State(t.currentOperand, "", Some(operation), DisplayNumLocal(t.currentOperand) + " " + operation, "")
  {
  }

  /** With nothing pending, the typed operand becomes the previous operand. */
  lemma AddOperationStarts(arith: Arith, s: State, operation: string)
    requires s.previousOperand == ""
    requires s.currentOperand != "" && s.currentOperand[|s.currentOperand| - 1] != '.'
    ensures AddOperation(arith, s, operation)
         == State(s.currentOperand, "", Some(operation),
                  DisplayNumLocal(s.currentOperand) + " " + operation, "")
  {
  }

  /** Chained evaluation: with an operation pending that the switch recognises,
      the new previous operand is the answer of the earlier operation, not the raw
      operand typed. */
  lemma AddOperationChains(arith: Arith, s: State, operation: string, k: BinOp)
    requires s.previousOperand != ""
    requires s.currentOperand != "" && s.currentOperand[|s.currentOperand| - 1] != '.'
    requires ParseOperation(s.operation) == Some(k)
    ensures var answer := arith(k, s.previousOperand, s.currentOperand);
            AddOperation(arith, s, operation)
            == State(answer, "", Some(operation), DisplayNumLocal(answer) + " " + operation, "")
  {
    assert s.currentOperand != ".";
  }

  /** With an operation pending that the switch does not recognise, nothing is
      computed and the earlier previous operand is replaced by the typed one. */
  lemma AddOperationDropsUnrecognised(arith: Arith, s: State, operation: string)
    requires s.previousOperand != ""
    requires s.currentOperand != "" && s.currentOperand[|s.currentOperand| - 1] != '.'
    requires ParseOperation(s.operation).None?
    ensures AddOperation(arith, s, operation)
         == State(s.currentOperand, "", Some(operation),
                  DisplayNumLocal(s.currentOperand) + " " + operation, "")
  {
  }

  // ---------------------------------------------------------------------------
  // Evaluation

  /** Evaluation changes nothing exactly when an operand is missing, the operand
      is a lone ".", or the stored operation is not one the switch knows. */
  lemma CheckOperationNoOp(arith: Arith, s: State)
    ensures CheckOperation(arith, s) == s
        <==> (|| s.previousOperand == "" || s.currentOperand == "" || s.currentOperand == "."
              || ParseOperation(s.operation).None?)
  {
  }

  /** On success the answer replaces the operand, the previous operand and the
      upper line are cleared, and the operation is kept. */
  lemma CheckOperationSuccess(arith: Arith, s: State, k: BinOp)
    requires s.previousOperand != "" && s.currentOperand != "" && s.currentOperand != "."
    requires ParseOperation(s.operation) == Some(k)
    ensures var answer := arith(k, s.previousOperand, s.currentOperand);
            CheckOperation(arith, s) == State("", answer, s.operation, "", DisplayNumLocal(answer))
  {
  }

  /** A second evaluation right after the first changes nothing. */
  lemma CheckOperationTwice(arith: Arith, s: State)
    ensures CheckOperation(arith, CheckOperation(arith, s)) == CheckOperation(arith, s)
  {
  }

  // ---------------------------------------------------------------------------
  // Delete and clear

  /** Delete removes exactly the last character of the operand (nothing from "",
      and a lone "-" left over goes too). */
  lemma DeleteRemovesLast(s: State)
    ensures s.currentOperand == "" ==> Delete(s).currentOperand == ""
    ensures s.currentOperand != "" ==>
              var operand := s.currentOperand;
              if operand[..|operand| - 1] == "-" then Delete(s).currentOperand == ""
              else Delete(s).currentOperand + [operand[|operand| - 1]] == operand
  {
    var operand := s.currentOperand;
    if operand != "" {
      assert operand == operand[..|operand| - 1] + [operand[|operand| - 1]];
    }
  }

  /** Delete undoes an accepted one-character append, display line included,
      unless the operand was a lone "-". */
  lemma DeleteUndoesAppend(s: State, key: string)
    requires |key| == 1 && s.currentOperand != "-"
    requires s.currentText == DisplayNumLocal(s.currentOperand)
    requires AppendNum(s, key) != s
    ensures Delete(AppendNum(s, key)) == s
  {
    var typed := s.currentOperand + key;
    assert typed[..|typed| - 1] == s.currentOperand;
  }

  lemma DeleteMinusScenario(s: State)
    requires s.currentOperand == "-5"
    ensures Delete(s).currentOperand == ""
  {
    assert s.currentOperand[..1] == "-";
  }

  /** Once past its guard, clearing resets every field and both lines. */
  lemma ClearAllResets(s: State, trigger: ClearTrigger)
    ensures ClearAll(s, trigger) == if ClearAccepted(trigger) then Initial else s
  {
  }

  lemma ClearAllIdempotent(s: State, trigger: ClearTrigger)
    ensures ClearAll(ClearAll(s, trigger), trigger) == ClearAll(s, trigger)
  {
  }

  // ---------------------------------------------------------------------------
  // The display lines stay in step with the fields

  /** The arithmetic never answers with the empty string (`toString` of a number
      never does). */
  ghost predicate ResultsNonEmpty(arith: Arith)
  {
    forall k, a, b :: arith(k, a, b) != ""
  }

  /** The lower line shows the current operand; the upper line shows the previous
      operand and the operation while one is pending, and is empty otherwise. */
  predicate Consistent(s: State)
  {
    && s.currentText == DisplayNumLocal(s.currentOperand)
    && (s.previousOperand == "" ==> s.previousText == "")
    && (s.previousOperand != "" ==>
          s.operation.Some? && s.previousText == DisplayNumLocal(s.previousOperand) + " " + s.operation.value)
  }

  lemma InitialConsistent()
    ensures Consistent(Initial)
  {
    ExampleNaN();
  }

  lemma StepPreservesConsistent(arith: Arith, s: State, c: Command)
    requires ResultsNonEmpty(arith) && Consistent(s)
    ensures Consistent(Step(arith, s, c))
  {
    ExampleNaN();
  }

  /** Every sequence of commands keeps the display lines in step with the fields. */
  lemma {:induction false} RunPreservesConsistent(arith: Arith, s: State, cs: seq<Command>)
    requires ResultsNonEmpty(arith) && Consistent(s)
    ensures Consistent(Run(arith, s, cs))
    decreases |cs|
  {
    if cs != [] {
      StepPreservesConsistent(arith, s, cs[0]);
      RunPreservesConsistent(arith, Step(arith, s, cs[0]), cs[1..]);
    }
  }

  /** Key events held with ctrl change nothing. */
  lemma CtrlKeyIgnored(arith: Arith, s: State, key: string)
    ensures HandleKeyPress(arith, s, KeyEvent(key, true)) == s
  {
  }

  // ---------------------------------------------------------------------------
  // Whole sessions

  /** An operand typed onto an empty line and then an operation, with nothing
      pending: the operand moves up with the operation. */
  lemma OperandThenOperation(arith: Arith, s: State, a: string, symbol: string, rest: seq<Command>)
    requires IsDigitKey(a) && s.previousOperand == "" && s.currentOperand == ""
    ensures Run(arith, s, [Append(a), ChooseOperation(symbol)] + rest)
         == Run(arith, State(a, "", Some(symbol), DisplayNumLocal(a) + " " + symbol, ""), rest)
  {
    var s1 := AppendNum(s, a);
    assert s1.currentOperand == a;
    assert [Append(a), ChooseOperation(symbol)] + rest == [Append(a)] + ([ChooseOperation(symbol)] + rest);
    RunStepHolds(arith, s, Append(a), [ChooseOperation(symbol)] + rest);
    AddOperationStarts(arith, s1, symbol);
    RunStepHolds(arith, s1, ChooseOperation(symbol), rest);
  }

  /** An operand typed onto an empty line and then an operation, with a
      recognised operation pending: the pending answer moves up instead. */
  lemma OperandThenChain(arith: Arith, s: State, b: string, symbol: string, k: BinOp, rest: seq<Command>)
    requires IsDigitKey(b) && s.previousOperand != "" && s.currentOperand == ""
    requires ParseOperation(s.operation) == Some(k)
    ensures var answer := arith(k, s.previousOperand, b);
            Run(arith, s, [Append(b), ChooseOperation(symbol)] + rest)
            == Run(arith, State(answer, "", Some(symbol), DisplayNumLocal(answer) + " " + symbol, ""), rest)
  {
    var s1 := AppendNum(s, b);
    assert s1.currentOperand == b;
    assert [Append(b), ChooseOperation(symbol)] + rest == [Append(b)] + ([ChooseOperation(symbol)] + rest);
    RunStepHolds(arith, s, Append(b), [ChooseOperation(symbol)] + rest);
    AddOperationChains(arith, s1, symbol, k);
    RunStepHolds(arith, s1, ChooseOperation(symbol), rest);
  }

  /** An operand typed onto an empty line and then "=", with a recognised
      operation pending: the answer replaces the operand. */
  lemma OperandThenEvaluate(arith: Arith, s: State, b: string, k: BinOp)
    requires IsDigitKey(b) && s.previousOperand != "" && s.currentOperand == ""
    requires ParseOperation(s.operation) == Some(k)
    ensures var answer := arith(k, s.previousOperand, b);
            Run(arith, s, [Append(b), Evaluate]) == State("", answer, s.operation, "", DisplayNumLocal(answer))
  {
    var s1 := AppendNum(s, b);
    assert s1.currentOperand == b;
    RunStepHolds(arith, s, Append(b), [Evaluate]);
    CheckOperationSuccess(arith, s1, k);
    RunStepHolds(arith, s1, Evaluate, []);
  }

  /** a op b = for one-digit operands and a symbol the switch recognises: the
      answer replaces the operand, and the symbol stays stored. */
  lemma SingleOperationScenario(arith: Arith, a: string, symbol: string, b: string, k: BinOp)
    requires IsDigitKey(a) && IsDigitKey(b)
    requires ParseOperation(Some(symbol)) == Some(k)
    ensures var answer := arith(k, a, b);
            Run(arith, Initial, [Append(a), ChooseOperation(symbol), Append(b), Evaluate])
            == State("", answer, Some(symbol), "", DisplayNumLocal(answer))
  {
    SplitFour(Append(a), ChooseOperation(symbol), Append(b), Evaluate);
    OperandThenOperation(arith, Initial, a, symbol, [Append(b), Evaluate]);
    OperandThenEvaluate(arith, State(a, "", Some(symbol), DisplayNumLocal(a) + " " + symbol, ""), b, k);
  }

  /** 5 + 3 = : the answer of the addition replaces the operand, and "+" stays
      stored (the operation is not reset by evaluation). */
  lemma AdditionScenario(arith: Arith)
    ensures var answer := arith(Add, "5", "3");
            Run(arith, Initial, [Append("5"), ChooseOperation("+"), Append("3"), Evaluate])
            == State("", answer, Some("+"), "", DisplayNumLocal(answer))
  {
    SingleOperationScenario(arith, "5", "+", "3", Add);
  }

  /** a + b * c = (3 + 4 * 2 =) typed on an idle calculator: choosing "*"
      evaluates a + b first, and c is then applied to that answer. */
  lemma ChainedScenario(arith: Arith, s: State, a: string, b: string, c: string)
    requires ResultsNonEmpty(arith)
    requires IsDigitKey(a) && IsDigitKey(b) && IsDigitKey(c)
    requires s.previousOperand == "" && s.currentOperand == ""
    ensures Run(arith, s, [Append(a), ChooseOperation("+"), Append(b),
                           ChooseOperation("*"), Append(c), Evaluate]).currentOperand
         == arith(Multiply, arith(Add, a, b), c)
  {
    var tail := [Append(b), ChooseOperation("*"), Append(c), Evaluate];
    SplitSix(Append(a), ChooseOperation("+"), Append(b), ChooseOperation("*"), Append(c), Evaluate);
    OperandThenOperation(arith, s, a, "+", tail);
    var s2 := State(a, "", Some("+"), DisplayNumLocal(a) + " " + "+", "");
    OperandThenChain(arith, s2, b, "*", Add, [Append(c), Evaluate]);
    var sum := arith(Add, a, b);
    var s4 := State(sum, "", Some("*"), DisplayNumLocal(sum) + " " + "*", "");
    assert sum != "";
    OperandThenEvaluate(arith, s4, c, Multiply);
  }

  /** 5 / 0 = : the text `toString` gives for the quotient (an infinity with IEEE
      doubles) becomes the operand, and "Infinity" is shown as "∞". */
  lemma DivisionScenario(arith: Arith)
    ensures var answer := arith(Divide, "5", "0");
            var r := Run(arith, Initial, [Append("5"), ChooseOperation("/"), Append("0"), Evaluate]);
            && r.currentOperand == answer
            && (answer == Infinity ==> r.currentText == InfinitySign)
  {
    SingleOperationScenario(arith, "5", "/", "0", Divide);
    if arith(Divide, "5", "0") == Infinity {
      DisplayOfInfinity();
    }
  }

  /** Each of the keys 3 + 4 * 2 Enter, typed without ctrl, issues its command. */
  lemma ChainedKeyCommands()
    ensures KeyCommand(KeyEvent("3", false)) == Some(Append("3"))
    ensures KeyCommand(KeyEvent("+", false)) == Some(ChooseOperation("+"))
    ensures KeyCommand(KeyEvent("4", false)) == Some(Append("4"))
    ensures KeyCommand(KeyEvent("*", false)) == Some(ChooseOperation("*"))
    ensures KeyCommand(KeyEvent("2", false)) == Some(Append("2"))
    ensures KeyCommand(KeyEvent("Enter", false)) == Some(Evaluate)
  {
    OperatorKeysRecognised(Add);
    OperatorKeysRecognised(Multiply);
    NamedKeys(false);
  }

  /** The keys 3 + 4 * 2 Enter, typed without ctrl, run the chained session. */
  lemma ChainedKeys(arith: Arith)
    requires ResultsNonEmpty(arith)
    ensures HandleKeys(arith, Initial, [KeyEvent("3", false), KeyEvent("+", false), KeyEvent("4", false),
                                        KeyEvent("*", false), KeyEvent("2", false), KeyEvent("Enter", false)])
              .currentOperand
         == arith(Multiply, arith(Add, "3", "4"), "2")
  {
    var events := [KeyEvent("3", false), KeyEvent("+", false), KeyEvent("4", false),
                   KeyEvent("*", false), KeyEvent("2", false), KeyEvent("Enter", false)];
    var cs := [Append("3"), ChooseOperation("+"), Append("4"), ChooseOperation("*"), Append("2"), Evaluate];
    ChainedKeyCommands();
    HandleKeysRunsCommands(arith, Initial, events, cs);
    ChainedScenario(arith, Initial, "3", "4", "2");
  }
}
