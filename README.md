# Calculator reducer

A model of the calculator's Redux store, `Calculator/ClientApp/src/store/Calculator.ts`. The store is a step function from a state and an action to the next state.

The state holds:
- the current operand and the other operand;
- the pending operator (`add`, `substract`, `multiply`, `divide` or the sentinel `noop`);
- the editing flag;
- the 16-button keypad with its enabled flags;
- the save, load and clear buttons;
- the two display strings.

Button clicks dispatch on the `ButtonType` code to the handlers for operators, the decimal point, digits and equals. The memory actions enable or disable every button, and a loaded number replaces the current operand.

The model has five modules:

- `JsNumbers` (`js_numbers.dfy`): the part of JavaScript's `Number.parseFloat` the calculator relies on. It finds the longest prefix of a text that is a decimal literal, and gives NaN when there is none. A parsed number is represented by the literal that denotes it.
- `NumberGrammar` (`number_grammar.dfy`): the decimal-literal grammar of ECMAScript (StrDecimalLiteral, which `parseFloat` reads a prefix of: section 19.2.4 of ECMA-262, 2022 edition), stated on its own. It proves that `JsNumbers.ParseFloat` reads the longest prefix that the grammar accepts.
- `Operands` (`operands.dfy`): the operator registry, the `Operand` class and `Operator.execute`. Floating-point arithmetic and `Number.prototype.toString` form a parameter `arith`, since their IEEE-754 detail is outside the model.
- `Calculator` (`reducer.dfy`): the reducer and every helper it calls, as functions on state values.
- `Store` (`store.dfy`): the same reducer over a mutable state object. `calculateDisplayValue`, `setButtonState` and `handleOperatorClick` write into the object they are given. Each method is proved to compute the value the `Calculator` function computes. It also states whether it hands back the object it was given, and what it leaves in that object.
- `CalculatorProperties` (`properties.dfy`) and `CalculatorScenarios` (`scenarios.dfy`): properties relating several events, and the key sequences of `Calculator.test.ts`.
  - The scenarios are stated on the four registers a key acts on: the current operand, the other operand, the operator and the editing flag.
  - `CalculatorScenarios.TypedRegisters` proves that pressing the keypad buttons through the whole reducer leaves exactly those registers.

## Model

| member | source | states |
|---|---|---|
| JsNumbers.ParseFloat | Calculator/ClientApp/src/store/Calculator.ts:81-83 | `parseFloat` is NaN exactly when the text does not begin like a literal (an optional sign, then a digit, a point and a digit, or `Infinity`); otherwise it reads a prefix of the text that begins like one |
| NumberGrammar.ParseFloatReadsLongestLiteral | Calculator/ClientApp/src/store/Calculator.ts:81-83 | `parseFloat` reads the longest prefix of the text that the decimal-literal grammar accepts; when no prefix is accepted the result is NaN |
| JsNumbers.ParsesAsNumberAppend | Calculator/ClientApp/src/store/Calculator.ts:73-79 | a text that parses keeps parsing whatever is appended |
| JsNumbers.ParseFloatInteger | Calculator/ClientApp/src/store/Calculator.ts:81-83 | a run of digits is read in full |
| JsNumbers.ParseFloatNegative | Calculator/ClientApp/src/store/Calculator.ts:81-83 | a minus and a run of digits are read in full |
| JsNumbers.ParseFloatFraction | Calculator/ClientApp/src/store/Calculator.ts:81-83 | digits, a point and digits are read in full, and a following character that is neither a digit nor an exponent mark is ignored |
| Operands.Operand.IsValid | Calculator/ClientApp/src/store/Calculator.ts:73-79 | an operand that parses holds a value |
| Operands.Operand.Value | Calculator/ClientApp/src/store/Calculator.ts:65-71 | reading the value fails (throws) exactly when the operand has no value; otherwise it is a number exactly when the operand is valid |
| Operands.Operand.StringValue | Calculator/ClientApp/src/store/Calculator.ts:92-98 | the raw text for an operand with a value, "" otherwise |
| Operands.Operand.Concat | Calculator/ClientApp/src/store/Calculator.ts:85-90 | the result has a value. A "0" typed onto the text "0" leaves the operand as it was. Otherwise the new text is the old text followed by the given text. The decimal flag is set exactly when it was set or the text appended is "." |
| Operands.Execute | Calculator/ClientApp/src/store/Calculator.ts:30-46 | succeeds exactly when the operator is not `noop` and both operands have values; the result has a value, no decimal flag, and the text the arithmetic gives for the two parsed operands |
| Calculator.GetInitialState | Calculator/ClientApp/src/store/Calculator.ts:227-247 | 16 enabled buttons, no operands, `noop`, editing allowed |
| Calculator.CalculateDisplayValue | Calculator/ClientApp/src/store/Calculator.ts:249-258 | the result's display strings agree with its operands and operator, nothing else changes, and a consistent state is a fixed point |
| Calculator.Reduce | Calculator/ClientApp/src/store/Calculator.ts:260-304 | no state gives the initial state; an unknown action changes nothing; every action keeps the keypad layout, the save, load and clear buttons and the error message |
| Calculator.Reducer | Calculator/ClientApp/src/store/Calculator.ts:306-308 | the result is what `reduce` gives, with only the two display strings recomputed. The main display shows the current operand; the secondary display shows the other operand and the operator |
| Calculator.ClearScreen | Calculator/ClientApp/src/store/Calculator.ts:310-318 | both operands emptied, `noop`, editing allowed, buttons untouched |
| Calculator.SetEnabled | Calculator/ClientApp/src/store/Calculator.ts:320-323 | every button copied with its enabled flag replaced |
| Calculator.SetButtonState | Calculator/ClientApp/src/store/Calculator.ts:320-323 | every button gets the given enabled flag and nothing else changes |
| Calculator.RecieveMemoryLoad | Calculator/ClientApp/src/store/Calculator.ts:325-335 | a number becomes the current operand without decimal flag and allows editing; `null` changes nothing |
| Calculator.HandleButtonClick | Calculator/ClientApp/src/store/Calculator.ts:337-355 | a click changes only the operands, the operator and the editing flag; a button of any other type changes nothing |
| Calculator.HandleOperatorClick | Calculator/ClientApp/src/store/Calculator.ts:357-384 | editing is always allowed afterwards. The four cases, in order: a leading minus is appended; a pending operation is executed into the other operand; a parsed current operand is moved aside; otherwise only the editing flag changes |
| Calculator.CanExecuteOperation | Calculator/ClientApp/src/store/Calculator.ts:429-431 | an executable state has values in both operands |
| Calculator.ExecutePending | Calculator/ClientApp/src/store/Calculator.ts:425-427 | the result has a value, no decimal flag, and the text the arithmetic gives for the other operand and the current operand |
| Calculator.HandleDecimalClick | Calculator/ClientApp/src/store/Calculator.ts:386-396 | unchanged unless editing with no decimal flag. Then the current operand becomes its `concat` with "." (a started operand) or "0." (an empty one), which sets the decimal flag only for ".". The other operand, the operator, the editing flag and the panel are kept |
| Calculator.HandleNumberClick | Calculator/ClientApp/src/store/Calculator.ts:397-403 | the digit is concatenated while editing; otherwise nothing changes |
| Calculator.AppendTextToCurrent | Calculator/ClientApp/src/store/Calculator.ts:405-410 | the current operand becomes its `concat` with the given text: the text followed by the given text, unless a "0" is typed onto "0". Nothing else changes |
| Calculator.HandleEqualsClick | Calculator/ClientApp/src/store/Calculator.ts:412-423 | when executable, the result becomes the current operand, the other operand is emptied, `noop` is set and editing locked; otherwise nothing changes |
| CalculatorProperties.InitialStateInv | Calculator/ClientApp/src/store/Calculator.ts:260-263 | the store's first state satisfies the invariant |
| CalculatorProperties.RegistryOperator | Calculator/ClientApp/src/store/Calculator.ts:37-47 | every registry entry other than `noop` is an arithmetic operator |
| CalculatorProperties.RegistrySymbols | Calculator/ClientApp/src/store/Calculator.ts:38-46 | the registry maps `add`, `substract`, `multiply` and `divide` to the symbols "+", "-", "*" and "/"; only `noop` names the sentinel, whose symbol is "" |
| Calculator.NumberButton | Calculator/ClientApp/src/store/Calculator.ts:187-193 | an enabled number button whose text and name are the one digit denoting the given number |
| CalculatorProperties.KeypadOperatorsInRegistry | Calculator/ClientApp/src/store/Calculator.ts:195-233 | every operator button of the keypad names a registry operator other than `noop` whose symbol is the button's text |
| CalculatorProperties.KeypadDigitButtons | Calculator/ClientApp/src/store/Calculator.ts:187-233 | every number button of the keypad is one digit, named by its own text |
| CalculatorProperties.KeypadHasEveryDigit | Calculator/ClientApp/src/store/Calculator.ts:229-233 | the button of each of the ten digits is on the keypad |
| CalculatorProperties.KeypadKinds | Calculator/ClientApp/src/store/Calculator.ts:187-240 | every keypad button is enabled and carries a click code from 1 to 4; the decimal-point and equals buttons sit in the bottom row; the action buttons carry the equals code |
| Calculator.IsLeadingMinus | Calculator/ClientApp/src/store/Calculator.ts:382-384 | a leading minus is the subtract operator, whose symbol is "-", met on an empty current operand |
| CalculatorProperties.OnlyMinusStartsOperand | Calculator/ClientApp/src/store/Calculator.ts:357-384 | on an empty current operand an operator key gives the operand a value exactly when it is the subtract key, and that value is the text "-" |
| CalculatorProperties.OperatorClickKeepsInv | Calculator/ClientApp/src/store/Calculator.ts:357-384 | an operator click keeps "other operand has a value exactly when an operator is pending" and "locked editing means a result with no operator" |
| CalculatorProperties.ClickKeepsInv | Calculator/ClientApp/src/store/Calculator.ts:337-431 | a click keeps "other operand has a value exactly when an operator is pending" and "locked editing means a result with no operator" |
| CalculatorProperties.MemoryKeepsInv | Calculator/ClientApp/src/store/Calculator.ts:266-297 | clear and the memory actions keep the register invariant and the keypad layout with all flags alike |
| CalculatorProperties.StepKeepsInv | Calculator/ClientApp/src/store/Calculator.ts:306-308 | one reducer step keeps the invariant |
| CalculatorProperties.RunKeepsInv | Calculator/ClientApp/src/store/Calculator.ts:306-308 | any sequence of actions keeps the invariant |
| CalculatorProperties.ReachableOperatorPendingIffOtherOperand | Calculator/ClientApp/src/store/Calculator.ts:357-423 | in every reachable state the other operand has a value exactly when an operator is pending |
| CalculatorProperties.OperatorChainsLikeEqualsThenOperator | Calculator/ClientApp/src/store/Calculator.ts:363-370 | an operator on an executable state equals "=" followed by that operator when the result parses: chaining is left to right |
| CalculatorProperties.InvalidResultBlocksOperators | Calculator/ClientApp/src/store/Calculator.ts:363-379 | after "=" gives a text that does not parse, an operator only re-enables editing |
| CalculatorProperties.EqualsLocksEditing | Calculator/ClientApp/src/store/Calculator.ts:412-421 | after "=", digits and the decimal point are ignored |
| CalculatorProperties.PendingOperatorNotReplaced | Calculator/ClientApp/src/store/Calculator.ts:371-379 | with an operator pending and no current operand, another operator keeps the pending one, the other operand and the secondary display |
| CalculatorProperties.ConcatAllCollapsesLeadingZeros | Calculator/ClientApp/src/store/Calculator.ts:85-90 | characters concatenated onto an empty operand give the text with its run of leading zeros collapsed to one "0" |
| CalculatorProperties.DigitPressConcats | Calculator/ClientApp/src/store/Calculator.ts:397-403 | a digit press while editing concatenates the digit |
| CalculatorProperties.DigitPressesConcat | Calculator/ClientApp/src/store/Calculator.ts:397-403 | digit presses while editing concatenate every digit in order |
| CalculatorProperties.DigitPressesCollapseLeadingZeros | Calculator/ClientApp/src/store/Calculator.test.ts:41-47 | digits typed onto an empty operand display with redundant leading zeros collapsed: "000000" shows "0" |
| CalculatorProperties.SecondDecimalPointIgnored | Calculator/ClientApp/src/store/Calculator.ts:386-396 | once the operand has a value, a second decimal point is ignored |
| CalculatorProperties.DecimalPointOnEmptyOperand | Calculator/ClientApp/src/store/Calculator.ts:386-396 | on an empty operand "." gives "0." without decimal flag, a second "." gives "0.." and only a third is ignored |
| CalculatorProperties.ConcatKeepsValidity | Calculator/ClientApp/src/store/Calculator.ts:85-90 | concatenation onto a valid operand keeps it valid |
| CalculatorProperties.ClearRestoresInitialState | Calculator/ClientApp/src/store/Calculator.ts:310-318 | clearing a reachable state with enabled buttons gives exactly the initial state |
| CalculatorProperties.MemoryRequestOnlyDisablesButtons | Calculator/ClientApp/src/store/Calculator.ts:269-285 | a memory request disables every button and changes nothing else |
| CalculatorProperties.FailedRequestReenablesInput | Calculator/ClientApp/src/store/Calculator.ts:277-297 | a failure or the save response re-enables every button and editing and changes nothing else |
| CalculatorProperties.LoadedNumberBecomesCurrent | Calculator/ClientApp/src/store/Calculator.ts:274-276 | a loaded number becomes the displayed current operand with editing allowed and every button enabled |
| CalculatorProperties.EmptyLoadOnlyEnablesButtons | Calculator/ClientApp/src/store/Calculator.ts:325-335 | a `null` load only enables the buttons |
| CalculatorScenarios.KeyButtonOnKeypad | Calculator/ClientApp/src/store/Calculator.test.ts:10-16 | each key names a button of the initial keypad whose text is that key |
| CalculatorScenarios.ClickActsOnRegisters | Calculator/ClientApp/src/store/Calculator.ts:337-355 | a click on a key's button changes the four registers as the key's effect says |
| CalculatorScenarios.OperatorClickActsOnRegisters | Calculator/ClientApp/src/store/Calculator.ts:357-384 | the same for the operator keys |
| CalculatorScenarios.OperatorKeyNamed | Calculator/ClientApp/src/store/Calculator.ts:229-233 | each operator key's button names the matching entry of the operator registry |
| CalculatorScenarios.PressActsOnRegisters | Calculator/ClientApp/src/store/Calculator.ts:298-300 | a press through the whole reducer changes the registers as the key's effect says |
| CalculatorScenarios.TypedRegisters | Calculator/ClientApp/src/store/Calculator.test.ts:224-230 | typing keys from the store's first state leaves exactly the registers the key effects compute |
| CalculatorScenarios.DigitStep | Calculator/ClientApp/src/store/Calculator.ts:85-90 | a digit typed while editing onto any text but "0" is appended as it is |
| CalculatorScenarios.KeyedDigits | Calculator/ClientApp/src/store/Calculator.ts:85-90 | a run of digits that never meets the single-"0" rule is appended as it is |
| CalculatorScenarios.ZerosKeepOneZero | Calculator/ClientApp/src/store/Calculator.ts:85-90 | zeros typed onto "0" change nothing |
| CalculatorScenarios.KeyedDigitsFromStart | Calculator/ClientApp/src/store/Calculator.ts:397-403 | digits typed first, not starting with "0", become the current operand |
| CalculatorScenarios.OperatorMovesOperand | Calculator/ClientApp/src/store/Calculator.ts:371-378 | with nothing pending, an operator moves a parsed operand aside |
| CalculatorScenarios.OperatorKeepsPending | Calculator/ClientApp/src/store/Calculator.ts:379 | with an operator pending and no current operand, another operator (not a minus) only re-enables editing |
| CalculatorScenarios.OperatorAfterInvalid | Calculator/ClientApp/src/store/Calculator.ts:379 | with nothing pending and an operand that does not parse, an operator only re-enables editing |
| CalculatorScenarios.OperatorChains | Calculator/ClientApp/src/store/Calculator.ts:363-370 | with both operands parsed and an operator pending, an operator chains |
| CalculatorScenarios.SingleDigit | Calculator/ClientApp/src/store/Calculator.test.ts:33-39 | "9": current 9, no other operand, `noop` |
| CalculatorScenarios.OnlyFirstZero | Calculator/ClientApp/src/store/Calculator.test.ts:41-47 | "000000": current "0" |
| CalculatorScenarios.MultipleDigits | Calculator/ClientApp/src/store/Calculator.test.ts:50-56 | "92311654": current 92311654 |
| CalculatorScenarios.NegativeNumber | Calculator/ClientApp/src/store/Calculator.test.ts:58-64 | "-92311654": current -92311654 |
| CalculatorScenarios.PointAfter923 | Calculator/ClientApp/src/store/Calculator.test.ts:66-72 | "923." has the decimal flag set |
| CalculatorScenarios.FractionEntry | Calculator/ClientApp/src/store/Calculator.test.ts:66-72 | "923", a point and any digits, such as "923.11654": the current text is exactly what was typed, with the decimal flag, and reads as that number |
| CalculatorScenarios.SecondPointIgnored | Calculator/ClientApp/src/store/Calculator.test.ts:74-80 | a second point after "923.116" is ignored |
| CalculatorScenarios.OnlyFirstDecimalPoint | Calculator/ClientApp/src/store/Calculator.test.ts:74-80 | "923.116.54": current text "923.11654" |
| CalculatorScenarios.SplitFractionReads | Calculator/ClientApp/src/store/Calculator.ts:81-83 | digits typed after an ignored second point parse as further fraction digits: the text reads as the whole part, the point and both digit groups joined |
| CalculatorScenarios.OnlyFirstDecimalPointReads | Calculator/ClientApp/src/store/Calculator.test.ts:74-80 | that text reads as 923.11654 |
| CalculatorScenarios.OperatorAfterNumber | Calculator/ClientApp/src/store/Calculator.test.ts:84-105 | "9" and an operator: 9 aside, that operator pending, no current operand |
| CalculatorScenarios.CannotChangeOperator | Calculator/ClientApp/src/store/Calculator.test.ts:106-112 | "966+*": `add` still pending with 966 aside |
| CalculatorScenarios.CannotStartWithOperator | Calculator/ClientApp/src/store/Calculator.test.ts:113-119 | "+": nothing changes |
| CalculatorScenarios.CanStartWithMinus | Calculator/ClientApp/src/store/Calculator.test.ts:120-126 | "-": current text "-", `noop`, and that text does not parse as a number |
| CalculatorScenarios.NumberOperatorNumber | Calculator/ClientApp/src/store/Calculator.test.ts:146-167 | "9", an operator and "100": 100 current, 9 aside |
| CalculatorScenarios.FullOperation | Calculator/ClientApp/src/store/Calculator.test.ts:146-167 | "9", an operator, "100" and "=": the operator's result on 9 and 100 current, `noop`, editing locked |
| CalculatorScenarios.OperatorAfterEquals | Calculator/ClientApp/src/store/Calculator.test.ts:169-175 | "9+100=+": 109 aside, `add` pending |
| CalculatorScenarios.SecondOperandAfterEquals | Calculator/ClientApp/src/store/Calculator.test.ts:169-175 | "9+100=+45": 45 current, 109 aside |
| CalculatorScenarios.AddAfterEquals | Calculator/ClientApp/src/store/Calculator.test.ts:169-175 | "9+100=+45=": 154 current, `noop` |
| CalculatorScenarios.SecondOperatorChains | Calculator/ClientApp/src/store/Calculator.test.ts:177-183 | "9+100+": 109 aside, `add` pending |
| CalculatorScenarios.ChainOperation | Calculator/ClientApp/src/store/Calculator.test.ts:177-183 | "9+100+45": 45 current, 109 aside, `add` pending |
| CalculatorScenarios.DivideByZeroStaysPending | Calculator/ClientApp/src/store/Calculator.test.ts:130-135 | "10/0": `divide` stays pending with 10 aside and "0" current |
| CalculatorScenarios.DivideByZeroThenOperator | Calculator/ClientApp/src/store/Calculator.test.ts:136-140 | "10/0+": the division's result (Infinity) aside, `add` pending |
| CalculatorScenarios.DivideByZeroThenNumber | Calculator/ClientApp/src/store/Calculator.test.ts:136-140 | "10/0+5": 5 current, Infinity aside, `add` pending |
| CalculatorScenarios.PointOnEmptyOperand | Calculator/ClientApp/src/store/Calculator.ts:386-396 | ".5." on an empty calculator holds the text "0.5." |
| CalculatorScenarios.PointOnEmptyOperandReads | Calculator/ClientApp/src/store/Calculator.ts:81-83 | "0.5." reads as 0.5 |
| CalculatorScenarios.ZeroOverZero | Calculator/ClientApp/src/store/Calculator.ts:357-403 | "0/0": 0 aside, 0 current, `divide` pending |
| CalculatorScenarios.InvalidResultBlocksOperator | Calculator/ClientApp/src/store/Calculator.ts:363-379 | when "0/0=" gives NaN, a following "+" only re-enables editing |
| Store.CalculatorState.CalculateDisplayValue | Calculator/ClientApp/src/store/Calculator.ts:249-258 | the object's display strings are rewritten to agree with its operands and operator |
| Store.CalculatorState.SetButtonState | Calculator/ClientApp/src/store/Calculator.ts:320-323 | the object's buttons all get the given flag |
| Store.AppendTextToCurrent | Calculator/ClientApp/src/store/Calculator.ts:405-410 | a new object with the text appended to the current operand |
| Store.HandleOperatorClick | Calculator/ClientApp/src/store/Calculator.ts:357-380 | the given object gets the editing flag set; it is returned exactly when none of the three cases applies, and otherwise a new object is returned |
| Store.HandleDecimalClick | Calculator/ClientApp/src/store/Calculator.ts:386-396 | the given object is returned exactly when the point is rejected |
| Store.HandleNumberClick | Calculator/ClientApp/src/store/Calculator.ts:397-403 | the given object is returned exactly when editing is locked |
| Store.HandleEqualsClick | Calculator/ClientApp/src/store/Calculator.ts:412-423 | the given object is returned exactly when nothing can be executed |
| Store.HandleButtonClick | Calculator/ClientApp/src/store/Calculator.ts:337-355 | dispatch with the same identity and in-place effects as the handlers |
| Store.Reduce | Calculator/ClientApp/src/store/Calculator.ts:260-304 | computes the reducer's value. The given object is returned exactly for an unknown action, a `null` load or a rejected click. A `null` load enables the given object's buttons, and an operator click sets its editing flag |
| Store.Reducer | Calculator/ClientApp/src/store/Calculator.ts:306-308 | computes the reducer's value, with the same identity behaviour |
| Store.CopyingReducer | Calculator/ClientApp/src/store/Calculator.ts:306-308 | computes the reducer's value in a new object and leaves the given object unchanged |
| Store.SetEnabledUnchangedIff | Calculator/ClientApp/src/store/Calculator.ts:320-323 | setting every flag changes nothing exactly when every flag already has that value |
| Store.InputChangedIff | Calculator/ClientApp/src/store/Calculator.ts:320-359 | the reducer alters the object it was given exactly when a `null` load finds a disabled button or an operator click finds editing locked |
| Store.NullLoadRewritesPreviousState | Calculator/ClientApp/src/store/Calculator.ts:325-335 | after the load request, a `null` load alters the state object it is given and returns it |
| Store.OperatorAfterNaNRewritesPreviousState | Calculator/ClientApp/src/store/Calculator.ts:357-380 | on the state "0/0=" leaves when the division renders as NaN (written out directly), "+" alters the state object it is given and returns it |

## Left out

- The action creators `load`, `save` and `onButtonClick` (Calculator.ts lines 144-185) are left out: they are `fetch` I/O and promise sequencing. The model covers only the actions they dispatch. `load` reports a failed fetch as ERROR_MEMORY_SAVE, which the reducer handles exactly like ERROR_MEMORY_LOAD.
- The number carried by ERROR_MEMORY_LOAD and REQUEST_MEMORY_SAVE is ignored by the reducer, and is not part of the action datatype.
- A loaded number is given by its `toString()` text.
- `memory.ts`, the C# controller and the storage services are left out: they are HTTP and file-system persistence.
- The React components and the Redux wiring are left out: they are presentation and glue.
- The buttons' `onClick` handler and `width` are presentation only.
- IEEE-754 arithmetic and `Number.prototype.toString` form the parameter `arith`. Scenarios that need a value, such as 9 + 100 giving "109", take it as a precondition on `arith`.
- JsNumbers.ParseFloat: its own contract fixes only when the result is NaN and that a prefix beginning like a literal is read. `NumberGrammar.ParseFloatReadsLongestLiteral` states that this prefix is the longest one the grammar accepts.
- `parseFloat` is modelled without skipping leading white space. No text the calculator builds begins with white space.
- An operator button whose name is not in the registry makes `operators[name]` undefined in the source. The model requires operator buttons to name a registry entry, as every keypad button does.
- `Operands.Execute` returns a failure where the source throws: for `noop` (its executor throws "Invalid operation") and for an operand without value (the `value` getter throws). The reducer calls it only when both operands parse and an operator other than `noop` is pending.
- The divide-by-zero tests (Calculator.test.ts lines 129-141) expect `noop` after "10/0" and after "10/0+5". The code leaves `divide` pending after "10/0", and leaves `add` pending with the division's result aside after "10/0+5". The model follows the code, and `CalculatorScenarios.DivideByZeroStaysPending` and `CalculatorScenarios.DivideByZeroThenNumber` state what it does.
- The test at Calculator.test.ts lines 23-27 (16 buttons in the first state) is stated by `Calculator.GetInitialState`.
- CalculatorScenarios: the scenario lemmas state the four registers rather than the whole state. `CalculatorScenarios.TypedRegisters` ties those registers to the whole reducer. The display strings follow from `Calculator.Reducer`.

## Findings

| source | as written | input that shows it | evidently intended | confidence | as-written member | corrected member |
|---|---|---|---|---|---|---|
| Calculator/ClientApp/src/store/Calculator.ts:320-335 | for RECEIVE_MEMORY_LOAD with `null`, `recieveMemoryLoad` returns the state it was given and `setButtonState` writes the enabled flags into it, so the reducer alters the previous state object and returns that same object | REQUEST_MEMORY_LOAD, then RECEIVE_MEMORY_LOAD with number `null` | a reducer that leaves the previous state untouched and returns a new object, as the other memory actions do with object spread | low; not executed | Store.NullLoadRewritesPreviousState | Store.CopyingReducer |
| Calculator/ClientApp/src/store/Calculator.ts:357-380 | `handleOperatorClick` sets `canEditCurrentValue` on the state it was given before deciding what to return, and returns that state when no case applies | "0/0=" (the result NaN), then "+" | the editing flag set on a new object, leaving the previous state untouched | low; not executed | Store.OperatorAfterNaNRewritesPreviousState | Store.CopyingReducer |

In both rows the value computed is the intended one, and the module `Calculator` models that value. The corrected member `Store.CopyingReducer` is proved to compute the value of `Calculator.Reducer` without changing the object it was given.
