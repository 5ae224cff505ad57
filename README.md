# Calculator state machine

This project models the `Calculator` class of a browser calculator (`index.js`,
lines 9-135). The class holds three private fields: the previous operand, the
current operand and the pending operation. It also writes two display lines: the
upper one shows the previous operand and the operation, and the lower one shows
the current operand. Five commands change this state: append a digit or ".",
choose an operation, evaluate, delete the last character, and clear everything.
A keyboard handler turns key events into these commands.

The model has five modules:

- `Arithmetic` (`arithmetic.dfy`) models the operation switch of
  `_checkOperation`. The arithmetic itself (`Number`, the IEEE operation,
  `toString`) is a parameter `arith` that maps an operation and two operand
  texts to the answer text.
- `Display` (`display.dfy`) models `_displayNumLocal`. The text is split at its
  first ".". The integer part is read the way `parseFloat` reads it: an
  optional sign, then "Infinity" or a run of digits. It is then grouped by
  thousands the way `toLocaleString("en-US", {maximumFractionDigits: 0})`
  prints it. The text between the first and second "." is appended unchanged.
- `Keys` (`keys.dfy`) models how `_handleKeyPress` classifies a key event.
- `Transitions` (`transitions.dfy`) models the state as a value, with one
  function per command. It also runs command sequences and key-event
  sequences, and holds the lemmas about all of them.
- `CalculatorApp` (`calculator.dfy`) models the class itself. Its fields are
  updated in place. Each method is proved to take the fields to the state
  that the matching `Transitions` function gives. Each method also keeps the
  invariant that both display lines show what the fields imply.

The model keeps these edge cases of the code as they are written:

- Evaluation keeps `#operation`; it is not cleared (`index.js:111-114`).
- A lone "-" left by delete is dropped, but the operand is otherwise not reset
  (`index.js:119-120`).
- The decimal part shown is the text between the first and the second "."
  (`index.js:57-59`).
- A negative zero answer is shown as "0", because `toString` prints -0 as "0"
  (`index.js:112-113`). An operand text "-0" is still shown as "-0": deleting
  twice from the answer "-0.5" leaves "-0", and `parseFloat` reads it as -0
  (`index.js:58`).

## Model

| member | source | states |
|---|---|---|
| Arithmetic.ParseOperation | index.js:93-110 | a stored operation selects a case exactly when it is one of "x", "*", "+", "-", "÷", "/"; "x" and "*" select multiplication, "+" addition, "-" subtraction, "÷" and "/" division; an unset operation and any other symbol reach `default` |
| Arithmetic.KeySymbolSelects | index.js:93-110 | each of the keyboard operators "*", "+", "-", "/" selects its own case, so the four cases are told apart |
| Arithmetic.Apply | index.js:93-110 | no answer exactly when the switch reaches `default`; "x" and "*" answer the product of previous and current operand, "+" their sum, "-" their difference, "÷" and "/" their quotient |
| Display.NatToString | index.js:63-65 | the printed numeral of n is a digit string with at least one digit, denotes n, and has no leading zero unless n is 0 |
| Display.NumeralUnique | index.js:63-65 | a digit string without a leading zero is exactly the numeral printed for its value |
| Display.CanonicalNumeral | index.js:58-65 | reading a digit string as a number and printing that number gives the digits without their leading zeros |
| Display.StripLeadingZeros | index.js:58-65 | dropping leading zeros keeps a digit string, and a non-empty one stays non-empty |
| Display.Group | index.js:63-65 | grouping a non-empty digit string adds one comma per full block of three after the first, keeps the first character, and adds no "." |
| Display.GroupWellGrouped | index.js:63-65 | en-US grouping puts a comma at every fourth position from the right and only there, and every other character is a digit |
| Display.GroupRoundTrip | index.js:63-65 | removing the grouping commas gives back the digit string |
| Display.GroupOfFour | index.js:63-65 | "1234" is grouped as "1,234" |
| Display.GroupOfSeven | index.js:63-65 | "1234567" is grouped as "1,234,567" |
| Display.LeadingDigits | index.js:58 | the digits `parseFloat` reads: a prefix of the text made of digits, followed by a non-digit or the end of the text |
| Display.UpToDot | index.js:57-58 | the first piece of `split(".")`: a prefix holding no ".", followed by a "." or the end of the text |
| Display.UpToDotOfSplit | index.js:57-59 | the first piece of a + "." + b is a, when a holds no "." |
| Display.IntegerDisplay | index.js:58-65 | the integer part as `parseFloat` and `toLocaleString` print it; its contract is stated by `IntegerDisplayOfDigits`, `IntegerDisplayOfNegative`, `IntegerDisplayNaN` and `IntegerDisplayKeepsValue` |
| Display.DisplayNumLocal | index.js:55-68 | the shown text of an operand; its contract is stated by `DisplayWithoutDot`, `DisplayWithDot`, `DisplayOfWhole` and `DisplayOfDecimal` |
| Display.DisplayWithoutDot | index.js:55-68 | a text without "." is shown as its integer display alone |
| Display.DisplayWithDot | index.js:55-68 | a + "." + b is shown as the integer display of a, a ".", and b up to any further "." (the decimal part is present even when empty) |
| Display.LeadingDigitsOfDigits | index.js:58 | `parseFloat` reads the whole of a digit string |
| Display.IntegerDisplayOfDigits | index.js:58-65 | a digit string is shown as the grouped numeral of the number it denotes, which is the digit string without leading zeros |
| Display.IntegerDisplayOfNegative | index.js:58-65 | a "-" in front of digits is kept in front of the grouped digits |
| Display.IntegerDisplayKeepsValue | index.js:58-65 | the integer display of a digit string is well grouped, and once the commas are dropped it denotes the same number |
| Display.IntegerDisplayNaN | index.js:58-61 | an integer part of "" or "-" reads as NaN and is shown as "" |
| Display.IntegerDisplayOfOperand | index.js:58-65 | an optional "-" and digits: no digits shows "", otherwise the sign and the grouped digits without leading zeros |
| Display.DisplayOfWhole | index.js:55-68 | an operand made of an optional "-" and digits is shown as its integer display |
| Display.DisplayOfDecimal | index.js:55-68 | an operand with one "." between digit strings shows the grouped integer part, the ".", and the fraction digits unchanged |
| Display.ExampleGroupedDecimal | index.js:55-68 | "1234.5" is shown as "1,234.5" |
| Display.ExampleTrailingDot | index.js:55-68 | "12." is shown as "12." while it is being typed |
| Display.ExampleNegative | index.js:55-68 | "-1234" is shown as "-1,234" |
| Display.ExampleLeadingZeros | index.js:55-68 | "0012" is shown as "12" |
| Display.ExampleNaN | index.js:55-68 | "" and "-" are shown as "" and never as "NaN" |
| Display.DisplayOfInfinity | index.js:55-68 | "Infinity" is shown as "∞" and "-Infinity" as "-∞" |
| Keys.KeyCommand | index.js:35-44 | a key held with ctrl issues nothing; otherwise a key issues no command exactly when none of the five tests of the handler accepts it |
| Keys.IsEntryKey | index.js:38 | the test `/^[0-9\.]$/` accepts exactly the eleven one-character keys "0" to "9" and "." |
| Keys.HasOperatorChar | index.js:39 | the test `/[+\-\/\*]/` accepts a key exactly when "+", "-", "/" or "*" occurs in it |
| Keys.NoOperatorChar | index.js:39-43 | "=", "Enter", "Backspace" and "Escape" hold no operator character |
| Keys.KeyTestsExclusive | index.js:38-43 | a key accepted by the entry test or the operator test is accepted by no later test, so one event issues at most one command |
| Keys.OperatorKeyPassesWholeKey | index.js:39 | a key chooses an operation exactly when no ctrl is held and an operator character appears anywhere in it; the whole key is passed on |
| Keys.EntryKeyAppends | index.js:38 | a key appends exactly when no ctrl is held and it is one digit or "."; what it appends is the key itself |
| Keys.NamedKeys | index.js:40-43 | "=" and "Enter" evaluate, "Backspace" deletes and "Escape" clears, unless ctrl is held |
| Keys.OperatorKeysRecognised | index.js:39 | each keyboard operator chooses itself as the operation, and the switch recognises it |
| Transitions.HandleKeysSnoc | index.js:17-19 | handling one more key event acts on the state the earlier events left |
| Transitions.HandleKeysRunsCommands | index.js:35-44 | key events that each issue a command leave the same state as running those commands in order |
| Transitions.HandleKeyPress | index.js:35-44 | a key event that issues no command changes nothing |
| Transitions.AppendNum | index.js:46-53 | the previous operand, the operation and the upper line never change; the append is either refused or adds the text at the end and reshows the operand; anything but "." is always added |
| Transitions.AppendNumGuard | index.js:46-53 | "." changes nothing exactly when the operand is empty or already holds a "."; any other append adds the text at the end and reshows the operand; nothing else changes |
| Transitions.AppendKeepsEntryWellFormed | index.js:46-53 | one accepted key keeps the typed operand made of digits with at most one "." and never a leading "." |
| Transitions.TypingKeepsEntryWellFormed | index.js:46-53 | any series of digit and "." keys keeps the operand well formed and leaves the previous operand, the operation and the upper line as they were |
| Transitions.DigitThenDot | index.js:46-53 | a digit and then "." typed onto an operand without "." are both taken |
| Transitions.SecondDotRefused | index.js:48 | once the operand holds a ".", digit, ".", digit adds only the two digits |
| Transitions.DecimalEntryScenario | index.js:46-53 | typing digit a, ".", digit b, ".", digit c onto an empty operand gives a + "." + b + c: the second "." is refused |
| Transitions.AddOperation | index.js:70-81 | either nothing changes, or the new operation is stored and the operand and lower line are emptied |
| Transitions.AddOperationGuard | index.js:70-81 | nothing changes while the operand is empty or ends in "."; otherwise the operation is stored, the lower line and operand are emptied and the upper line shows the new previous operand and the operation |
| Transitions.AddOperationPastGuards | index.js:73-80 | past the two guards, the operand (evaluated first when a previous operand exists) moves up, the upper line shows it with the operation, and the operand and lower line are emptied |
| Transitions.AddOperationStarts | index.js:70-81 | with nothing pending, the typed operand becomes the previous operand |
| Transitions.AddOperationChains | index.js:73 | with a recognised operation pending, the answer of that operation becomes the previous operand, not the raw operand |
| Transitions.AddOperationDropsUnrecognised | index.js:73 | with an unrecognised operation pending, nothing is computed and the typed operand replaces the previous operand |
| Transitions.CheckOperation | index.js:83-115 | evaluation never changes the stored operation |
| Transitions.CheckOperationNoOp | index.js:83-110 | evaluation changes nothing exactly when an operand is missing, the operand is a lone ".", or the operation is not recognised |
| Transitions.CheckOperationSuccess | index.js:111-114 | on success the answer replaces the operand and its line, the previous operand and upper line are cleared, and the operation is kept |
| Transitions.CheckOperationTwice | index.js:83-115 | a second evaluation right after the first changes nothing |
| Transitions.Delete | index.js:117-125 | the operand left is a prefix of the old one and shorter when the old one was not empty; the lower line shows it; the previous operand, operation and upper line do not change |
| Transitions.DeleteRemovesLast | index.js:117-125 | delete removes exactly the last character of the operand (nothing from ""), and a lone "-" left over goes too |
| Transitions.DeleteUndoesAppend | index.js:117-125 | delete undoes an accepted one-character append, display line included, unless the operand was a lone "-"; the lower line must show the operand beforehand |
| Transitions.DeleteMinusScenario | index.js:120 | deleting from "-5" leaves "", not "-" |
| Transitions.ClearAll | index.js:127-134 | clearing either changes nothing or leaves the initial state |
| Transitions.ClearAllResets | index.js:127-134 | "Escape" or a click on an element with `data-clear` resets every field and both lines; any other click changes nothing |
| Transitions.ClearAllIdempotent | index.js:127-134 | clearing twice is the same as clearing once |
| Transitions.InitialConsistent | index.js:10-12 | the initial fields and empty lines agree with each other |
| Transitions.StepPreservesConsistent | index.js:46-134 | every command keeps the lower line showing the operand, and the upper line showing the previous operand and operation when one is pending and empty otherwise |
| Transitions.RunPreservesConsistent | index.js:35-134 | every series of commands keeps the two lines in step with the fields |
| Transitions.CtrlKeyIgnored | index.js:36 | a key event with ctrl held changes nothing |
| Transitions.OperandThenOperation | index.js:70-81 | on an idle calculator, a digit and then an operation move the digit up with the operation |
| Transitions.OperandThenChain | index.js:73-81 | with a recognised operation pending, a digit and then an operation move the answer up with the new operation |
| Transitions.OperandThenEvaluate | index.js:83-115 | with a recognised operation pending, a digit and then "=" make the answer the operand |
| Transitions.SingleOperationScenario | index.js:46-115 | a op b = makes the answer of a op b the operand and keeps op stored, with the upper line empty |
| Transitions.AdditionScenario | index.js:46-115 | 5 + 3 = makes the answer of 5 + 3 the operand, with "+" still stored |
| Transitions.ChainedScenario | index.js:70-115 | a + b * c = gives (a + b) * c: choosing "*" evaluates a + b first |
| Transitions.DivisionScenario | index.js:104-113 | 5 / 0 = makes the quotient's text the operand, and "Infinity" is shown as "∞" |
| Transitions.ChainedKeyCommands | index.js:35-44 | the keys 3 + 4 * 2 Enter issue append, choose, append, choose, append, evaluate |
| Transitions.ChainedKeys | index.js:35-115 | the keys 3 + 4 * 2 Enter leave (3 + 4) * 2 as the operand |
| CalculatorApp.Calculator.constructor | index.js:10-16 | a new calculator has empty operands, no operation and empty lines, and the lines agree with the fields |
| CalculatorApp.Calculator.HandleKeyPress | index.js:35-44 | the five tests run in turn change the fields as the key's command does, or not at all |
| CalculatorApp.Calculator.AppendNum | index.js:46-53 | updates the fields in place as `Transitions.AppendNum` says and keeps the lines in step |
| CalculatorApp.Calculator.AddOperation | index.js:70-81 | updates the fields in place as `Transitions.AddOperation` says, evaluating first when an operation is pending |
| CalculatorApp.Calculator.CheckOperation | index.js:83-115 | updates the fields in place as `Transitions.CheckOperation` says |
| CalculatorApp.Calculator.Delete | index.js:117-125 | updates the fields in place as `Transitions.Delete` says |
| CalculatorApp.Calculator.ClearAll | index.js:127-134 | updates the fields in place as `Transitions.ClearAll` says |
| CalculatorApp.Session | index.js:17-19 | key events delivered one at a time leave the calculator in the state `Transitions.HandleKeys` gives |

## Left out

- The page wiring is not modelled: the `querySelector` lookups, the click listeners on the buttons and `new Calculator(...)` (`index.js:1-7`, `index.js:20-32`, `index.js:137`). Clicks and keys appear only as the commands they issue.
- The arithmetic is a parameter `arith`, because Dafny has no IEEE doubles. That covers `Number` of both operands, the four double operations and `toString` of the answer. `Arithmetic.Apply` says which case runs, not what number it computes.
- Transitions.ResultsNonEmpty: the class invariant assumes `arith` never answers "". That holds for JavaScript's `toString` of a number.
- Display.IntegerDisplay: `parseFloat` exponent forms such as "1e+21" are not modelled, nor leading white space; only the digits before the "e" are read.
- Display.IntegerDisplay: integer parts above 2^53 are not modelled. `parseFloat` reads them as rounded doubles (`index.js:58`), so the groups printed can differ from the digits typed.
- The initial text of the two display elements comes from the HTML page, which is not part of this model. It is taken to be empty.
- Strings are sequences of Dafny characters, not UTF-16 code units.
- `_checkOperation(operation)` and `_delete(operand)` take no argument here. Every caller passes `#operation` and `#currentOperand`.
- A click reaches `_clearAll` as `Click(targetHasClearData)`, and the "Escape" key as `EscapeKey`. The rest of the event object is not modelled.
- Only `ctrlKey` is modelled among the modifier keys, because it is the only one the handler tests.
