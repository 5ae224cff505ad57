/** The `Calculator` class: its three private fields, the text of the two display
    lines it writes, and the methods that update them in place. Each method is
    proved to take the state exactly where the matching function of module
    Transitions takes it, and to keep the display lines in step with the fields. */
module CalculatorApp {
  import opened Arithmetic
  import opened Display
  import opened Keys
  import T = Transitions

  class Calculator {
    var previousOperand: string
    var currentOperand: string
    var operation: Option<string>
    /** `previousOperandSpot.textContent` and `currentOperandSpot.textContent`. */
    var previousOperandText: string
    var currentOperandText: string
    /** Number(previous) op Number(current), as text. */
    const arith: Arith

    function Snapshot(): T.State
      reads this
    {
      T.State(previousOperand, currentOperand, operation, previousOperandText, currentOperandText)
    }

    ghost predicate Valid()
      reads this
    {
      T.Consistent(Snapshot()) && T.ResultsNonEmpty(arith)
    }

    constructor (arith: Arith)
      requires T.ResultsNonEmpty(arith)
      ensures Valid() && Snapshot() == T.Initial && this.arith == arith
    {
      previousOperand := "";
      currentOperand := "";
      operation := None;
      previousOperandText := "";
      currentOperandText := "";
      this.arith := arith;
      new;
      T.InitialConsistent();
    }

    method HandleKeyPress(event: KeyEvent)
      requires Valid()
      modifies this
      ensures Valid()
      ensures Snapshot() == T.HandleKeyPress(arith, old(Snapshot()), event)
    {
      if event.ctrlKey { return; }
      var keyPressed := event.key;
      KeyTestsExclusive(keyPressed);
      if IsEntryKey(keyPressed) { AppendNum(keyPressed); }
      if HasOperatorChar(keyPressed) { AddOperation(keyPressed); }
      if keyPressed == "=" || keyPressed == "Enter" { CheckOperation(); }
      if keyPressed == "Backspace" { Delete(); }
      if keyPressed == "Escape" { ClearAll(EscapeKey); }
    }

    method AppendNum(number: string)
      requires Valid()
      modifies this
      ensures Valid()
      ensures Snapshot() == T.AppendNum(old(Snapshot()), number)
    {
      ghost var before := Snapshot();
      T.StepPreservesConsistent(arith, before, Append(number));
      if number == "." && currentOperand == "" { return; }
      if number == "." && '.' in currentOperand { return; }
      currentOperand := currentOperand + number;
      currentOperandText := DisplayNumLocal(currentOperand);
    }

    method AddOperation(op: string)
      requires Valid()
      modifies this
      ensures Valid()
      ensures Snapshot() == T.AddOperation(arith, old(Snapshot()), op)
    {
      ghost var before := Snapshot();
      if currentOperand == "" { return; }
      if currentOperand[|currentOperand| - 1] == '.' { return; }
      if previousOperand != "" { CheckOperation(); }
      T.AddOperationPastGuards(arith, before, op);
      operation := Some(op);
      previousOperand := currentOperand;
      previousOperandText := DisplayNumLocal(previousOperand) + " " + op;
      currentOperand := "";
      currentOperandText := currentOperand;
      T.StepPreservesConsistent(arith, before, ChooseOperation(op));
    }

    /** `_checkOperation(this.#operation)`: every caller passes the stored operation. */
    method CheckOperation()
      requires Valid()
      modifies this
      ensures Valid()
      ensures Snapshot() == T.CheckOperation(arith, old(Snapshot()))
    {
      if previousOperand == "" || currentOperand == "" || currentOperand == "." { return; }
      var answer: string;
      match ParseOperation(operation) {
        case None => return;
        case Some(k) => answer := arith(k, previousOperand, currentOperand);
      }
      previousOperandText := "";
      currentOperandText := DisplayNumLocal(answer);
      currentOperand := answer;
      previousOperand := "";
    }

    /** `_delete(this.#currentOperand)`: every caller passes the current operand. */
    method Delete()
      requires Valid()
      modifies this
      ensures Valid()
      ensures Snapshot() == T.Delete(old(Snapshot()))
    {
      ghost var before := Snapshot();
      T.StepPreservesConsistent(arith, before, DeleteLast);
      var operand := currentOperand;
      var newOperand := if |operand| == 0 then "" else operand[..|operand| - 1];
      if newOperand == "-" { newOperand := ""; }
      currentOperand := newOperand;
      currentOperandText := DisplayNumLocal(currentOperand);
    }

    method ClearAll(event: ClearTrigger)
      requires Valid()
      modifies this
      ensures Valid()
      ensures Snapshot() == T.ClearAll(old(Snapshot()), event)
    {
      ghost var before := Snapshot();
      T.StepPreservesConsistent(arith, before, Clear(event));
      if event != EscapeKey && !event.targetHasClearData { return; }
      previousOperand := "";
      previousOperandText := previousOperand;
      currentOperand := "";
      currentOperandText := currentOperand;
      operation := None;
    }
  }

  /** The browser delivering key events to a fresh calculator one at a time,
      each handled completely before the next. */
  method Session(arith: Arith, events: seq<KeyEvent>) returns (calculator: Calculator)
    requires T.ResultsNonEmpty(arith)
    ensures calculator.Valid()
    ensures calculator.Snapshot() == T.HandleKeys(arith, T.Initial, events)
  {
    calculator := new Calculator(arith);
    for i := 0 to |events|
      invariant calculator.Valid() && calculator.arith == arith
      invariant calculator.Snapshot() == T.HandleKeys(arith, T.Initial, events[..i])
    {
      T.HandleKeysSnoc(arith, T.Initial, events[..i], events[i]);
      assert events[..i + 1] == events[..i] + [events[i]];
      calculator.HandleKeyPress(events[i]);
    }
    assert events[..|events|] == events;
  }
}
