/** The key classification of `_handleKeyPress`: which of the five commands a
    keyboard event issues. The handler tests the key with five independent `if`
    statements; at most one test holds for any key, so an event issues at most
    one command. */
module Keys {
  import opened Arithmetic
  import opened Display

  /** The fields of a `keydown` event that the handler reads. */
  datatype KeyEvent = KeyEvent(key: string, ctrlKey: bool)

  /** What `_clearAll` receives: the key name "Escape" from the keyboard, or a
      click event whose target does or does not carry a `data-clear` attribute. */
  datatype ClearTrigger = EscapeKey | Click(targetHasClearData: bool)

  /** The five commands of the calculator. */
  datatype Command =
    | Append(number: string)          // _appendNum(number)
    | ChooseOperation(symbol: string) // _addOperation(operation)
    | Evaluate                        // _checkOperation(#operation)
    | DeleteLast                      // _delete(#currentOperand)
    | Clear(trigger: ClearTrigger)    // _clearAll(event)

  /** `/^[0-9\.]$/`: exactly one character, a digit or ".". */
  predicate IsEntryKey(key: string): (b: bool)
    ensures b <==> key in {"0", "1", "2", "3", "4", "5", "6", "7", "8", "9", "."}
  {
    |key| == 1 && (assert key == [key[0]]; IsDigit(key[0]) || key[0] == '.')
  }

  predicate IsOperatorChar(c: char) { c == '+' || c == '-' || c == '/' || c == '*' }

  /** `/[+\-\/\*]/`, unanchored: the key holds an operator character anywhere. */
  predicate HasOperatorChar(key: string): (b: bool)
    ensures b <==> '+' in key || '-' in key || '/' in key || '*' in key
  {
    exists i :: 0 <= i < |key| && IsOperatorChar(key[i])
  }

  predicate IsEvaluateKey(key: string) { key == "=" || key == "Enter" }

  /** The command a key event issues, if any. */
  function KeyCommand(event: KeyEvent): (r: Option<Command>)
    ensures event.ctrlKey ==> r.None?
    ensures r.None? <==> (event.ctrlKey || !(IsEntryKey(event.key) || HasOperatorChar(event.key)
                                             || IsEvaluateKey(event.key) || event.key == "Backspace"
                                             || event.key == "Escape"))
  {
    var key := event.key;
    if event.ctrlKey then None
    else if IsEntryKey(key) then Some(Append(key))
    else if HasOperatorChar(key) then Some(ChooseOperation(key))
    else if IsEvaluateKey(key) then Some(Evaluate)
    else if key == "Backspace" then Some(DeleteLast)
    else if key == "Escape" then Some(Clear(EscapeKey))
    else None
  }

  lemma NoOperatorChar(key: string)
    requires key in {"=", "Enter", "Backspace", "Escape"}
    ensures !HasOperatorChar(key)
  {
    forall i | 0 <= i < |key| ensures !IsOperatorChar(key[i]) {
      if key == "Enter" {
        assert key[i] in {'E', 'n', 't', 'e', 'r'};
      } else if key == "Backspace" {
        assert key[i] in {'B', 'a', 'c', 'k', 's', 'p', 'e'};
      } else if key == "Escape" {
        assert key[i] in {'E', 's', 'c', 'a', 'p', 'e'};
      }
    }
  }

  /** The five tests of the handler exclude each other, so running them in turn
      issues exactly the command KeyCommand names. */
  lemma KeyTestsExclusive(key: string)
    ensures IsEntryKey(key) ==> (!HasOperatorChar(key) && !IsEvaluateKey(key)
                                 && key != "Backspace" && key != "Escape")
    ensures HasOperatorChar(key) ==> !IsEvaluateKey(key) && key != "Backspace" && key != "Escape"
  {
    if IsEntryKey(key) {
      assert !IsOperatorChar(key[0]);
    }
    if IsEvaluateKey(key) || key == "Backspace" || key == "Escape" {
      NoOperatorChar(key);
    }
  }

  /** A key containing an operator character anywhere is passed whole as the
      operation, whatever else it contains. */
  lemma OperatorKeyPassesWholeKey(event: KeyEvent)
    ensures KeyCommand(event) == Some(ChooseOperation(event.key))
        <==> !event.ctrlKey && HasOperatorChar(event.key)
  {
    KeyTestsExclusive(event.key);
  }

  /** Digits and "." go to entry, one character at a time. */
  lemma EntryKeyAppends(event: KeyEvent)
    ensures (exists n :: KeyCommand(event) == Some(Append(n)))
        <==> !event.ctrlKey && IsEntryKey(event.key)
    ensures KeyCommand(event).Some? && KeyCommand(event).value.Append? ==> KeyCommand(event).value.number == event.key
  {
    KeyTestsExclusive(event.key);
  }

  /** "=" and "Enter" evaluate, "Backspace" deletes, "Escape" clears. */
  lemma NamedKeys(ctrl: bool)
    ensures KeyCommand(KeyEvent("=", ctrl)) == (if ctrl then None else Some(Evaluate))
    ensures KeyCommand(KeyEvent("Enter", ctrl)) == (if ctrl then None else Some(Evaluate))
    ensures KeyCommand(KeyEvent("Backspace", ctrl)) == (if ctrl then None else Some(DeleteLast))
    ensures KeyCommand(KeyEvent("Escape", ctrl)) == (if ctrl then None else Some(Clear(EscapeKey)))
  {
    NoOperatorChar("=");
    NoOperatorChar("Enter");
    NoOperatorChar("Backspace");
    NoOperatorChar("Escape");
  }

  /** The four keyboard operators select the four cases of the evaluation switch. */
  lemma OperatorKeysRecognised(k: BinOp)
    ensures KeyCommand(KeyEvent(KeySymbol(k), false)) == Some(ChooseOperation(KeySymbol(k)))
    ensures ParseOperation(Some(KeyCommand(KeyEvent(KeySymbol(k), false)).value.symbol)) == Some(k)
  {
    var key := KeySymbol(k);
    assert IsOperatorChar(key[0]);
    KeyTestsExclusive(key);
    KeySymbolSelects(k);
  }
}
