/**
 * Properties of the reducer that relate several events: the invariant kept
 * by every reachable state, operator chaining, entry of digits and decimal
 * points, clearing and the memory request cycle.
 */
module CalculatorProperties {
  import opened Wrappers
  import opened JsNumbers
  import opened Operands
  import opened Calculator

  /** Operator buttons select one of the four arithmetic operators, as every keypad button does: none is named "noop". */
  predicate SelectsArithmetic(action: Action) {
    action.HandleButtonAction? && action.button.kind == OperatorType ==> action.button.name != "noop"
  }

  /** Feeds `actions` to the reducer one after the other, starting from `s`. */
  function Run(s: State, actions: seq<Action>, arith: Arithmetic): State
    requires forall a :: a in actions ==> WellFormedAction(a)
    decreases |actions|
  {
    if actions == [] then s
    else Reducer(Some(Run(s, actions[..|actions| - 1], arith)), actions[|actions| - 1], arith)
  }

  predicate AllEnabledAlike(buttons: seq<Button>) {
    forall i, j :: 0 <= i < |buttons| && 0 <= j < |buttons| ==> buttons[i].enabled == buttons[j].enabled
  }

  /** The operands, the pending operator and the editing flag agree with each other. */
  predicate RegistersInv(s: State) {
    && (s.otherOperand.HasValue() <==> s.operator != Noop)
    && (!s.canEditCurrentValue ==> s.currentOperand.HasValue() && s.operator == Noop)
  }

  /** The keypad keeps its layout with all buttons enabled alike, and the other panel fields never change. */
  predicate PanelInv(s: State) {
    && SameLayout(s.buttons, InitialButtons)
    && AllEnabledAlike(s.buttons)
    && s.saveButton == ActionButton("Save")
    && s.loadButton == ActionButton("Load")
    && s.clearButton == ActionButton("Clear")
    && s.errorMessage == ""
  }

  /** What holds of every state the reducer produces from the initial state. */
  predicate Inv(s: State) {
    RegistersInv(s) && PanelInv(s) && DisplayConsistent(s)
  }

  lemma InitialStateInv(action: Action, arith: Arithmetic)
    requires WellFormedAction(action)
    ensures Inv(Reducer(None, action, arith))
  {
  }

  lemma SameLayoutTransitive(a: seq<Button>, b: seq<Button>, c: seq<Button>)
    requires SameLayout(a, b) && SameLayout(b, c)
    ensures SameLayout(a, c)
  {
    forall i | 0 <= i < |a|
      ensures a[i].(enabled := c[i].enabled) == c[i]
    {
      assert a[i].(enabled := b[i].enabled) == b[i];
    }
  }

  /** Every registry entry other than "noop" is an arithmetic operator. */
  lemma RegistryOperator(name: string)
    requires name in Operators && name != "noop"
    ensures Operators[name] != Noop
  {
  }

  /** The registry gives each operator its symbol, and only "noop" names the sentinel. */
  lemma RegistrySymbols(name: string)
    requires name in Operators
    ensures Operators[name] == Noop <==> name == "noop"
    ensures Operators[name].Text() ==
              if name == "add" then "+" else if name == "substract" then "-"
              else if name == "multiply" then "*" else if name == "divide" then "/" else ""
  {
  }

  /** The operator buttons of the initial keypad name registry operators whose symbol is the button's text. */
  lemma KeypadOperatorsInRegistry()
    ensures forall i :: 0 <= i < |InitialButtons| && InitialButtons[i].kind == OperatorType ==>
              && InitialButtons[i].name in Operators && Operators[InitialButtons[i].name] != Noop
              && Operators[InitialButtons[i].name].Text() == InitialButtons[i].text
  {
    forall i | 0 <= i < |InitialButtons| && InitialButtons[i].kind == OperatorType
      ensures InitialButtons[i] in [OperatorButton("/", "divide"), OperatorButton("*", "multiply"),
                                    OperatorButton("-", "substract"), OperatorButton("+", "add")]
    {
      assert i == 3 || i == 7 || i == 11 || i == 15;
    }
  }

  /** The digit on each position of the initial keypad that holds a number button. */
  const KeypadDigit: seq<nat> := [9, 8, 7, 0, 6, 5, 4, 0, 3, 2, 1, 0, 0, 0, 0, 0]

  /** The number buttons of the initial keypad are digits, each named by its own text. */
  lemma KeypadDigitButtons()
    ensures forall i :: 0 <= i < |InitialButtons| && InitialButtons[i].kind == NumberType ==>
              && InitialButtons[i].text == InitialButtons[i].name && |InitialButtons[i].text| == 1
              && IsDigit(InitialButtons[i].text[0])
  {
    forall i | 0 <= i < |InitialButtons| && InitialButtons[i].kind == NumberType
      ensures InitialButtons[i] == NumberButton(KeypadDigit[i])
    {
    }
  }

  /** Each of the ten digits has its number button on the initial keypad. */
  lemma KeypadHasEveryDigit()
    ensures forall d :: 0 <= d < 10 ==> NumberButton(d) in InitialButtons
  {
    var position := [12, 10, 9, 8, 6, 5, 4, 2, 1, 0];
    forall d | 0 <= d < 10 ensures NumberButton(d) in InitialButtons {
      assert NumberButton(d) == InitialButtons[position[d]];
    }
  }

  /** Every button of the initial keypad is enabled and carries one of the four click codes; the action buttons share the equals code. */
  lemma KeypadKinds()
    ensures forall i :: 0 <= i < |InitialButtons| ==>
              InitialButtons[i].enabled && NumberType <= InitialButtons[i].kind <= EqualsType
    ensures InitialButtons[13] == DecimalSeparator && InitialButtons[14] == EqualsButton
    ensures ActionButton("Save").kind == EqualsButton.kind
  {
  }

  /** On an empty current operand an operator key starts a number only when it is the minus key; any other key leaves the operand empty. */
  lemma OnlyMinusStartsOperand(s: State, button: Button, arith: Arithmetic)
    requires button.name in Operators
    requires !s.currentOperand.HasValue()
    ensures HandleOperatorClick(s, button, arith).currentOperand.HasValue() <==> Operators[button.name] == Substract
    ensures Operators[button.name] == Substract ==> HandleOperatorClick(s, button, arith).currentOperand == Entered("-", false)
  {
  }

  /** An operator click keeps the registers consistent. */
  lemma OperatorClickKeepsInv(s: State, b: Button, arith: Arithmetic)
    requires RegistersInv(s)
    requires b.name in Operators && b.name != "noop"
    ensures RegistersInv(HandleOperatorClick(s, b, arith))
  {
    RegistryOperator(b.name);
    var r := HandleOperatorClick(s, b, arith);
    var newOperator := Operators[b.name];
    if IsLeadingMinus(s, newOperator) {
      assert r.currentOperand.HasValue();
    } else if CanExecuteOperation(s) {
      assert r.otherOperand.HasValue() && r.operator != Noop;
    }
  }

  /** A button click keeps the registers consistent. */
  lemma ClickKeepsInv(s: State, b: Button, arith: Arithmetic)
    requires RegistersInv(s)
    requires b.kind == OperatorType ==> b.name in Operators && b.name != "noop"
    ensures RegistersInv(HandleButtonClick(s, b, arith))
  {
    var r := HandleButtonClick(s, b, arith);
    if b.kind == OperatorType {
      OperatorClickKeepsInv(s, b, arith);
    } else if b.kind == DecimalSeparatorType {
      assert r == HandleDecimalClick(s);
    } else if b.kind == NumberType {
      assert r == HandleNumberClick(s, b);
    } else if b.kind == EqualsType {
      assert r == HandleEqualsClick(s, arith);
    }
  }

  /** The memory actions keep the registers consistent and set every button's enabled flag alike. */
  lemma MemoryKeepsInv(s: State, action: Action, arith: Arithmetic)
    requires RegistersInv(s) && PanelInv(s)
    requires !action.HandleButtonAction? && !action.UnknownAction?
    ensures RegistersInv(Reduce(Some(s), action, arith)) && PanelInv(Reduce(Some(s), action, arith))
  {
    var r := Reduce(Some(s), action, arith);
    SameLayoutTransitive(r.buttons, s.buttons, InitialButtons);
    if action.ClearScreenAction? {
      assert r.buttons == s.buttons;
    }
  }

  /** One reducer step keeps the invariant. */
  lemma StepKeepsInv(s: State, action: Action, arith: Arithmetic)
    requires Inv(s) && WellFormedAction(action) && SelectsArithmetic(action)
    ensures Inv(Reducer(Some(s), action, arith))
  {
    var r := Reduce(Some(s), action, arith);
    if action.HandleButtonAction? {
      ClickKeepsInv(s, action.button, arith);
      assert r == HandleButtonClick(s, action.button, arith);
      assert r.buttons == s.buttons;
    } else if !action.UnknownAction? {
      MemoryKeepsInv(s, action, arith);
    }
    assert RegistersInv(r) && PanelInv(r);
  }

  /** Every state reached from a state satisfying the invariant satisfies it. */
  lemma {:induction false} RunKeepsInv(s: State, actions: seq<Action>, arith: Arithmetic)
    requires Inv(s)
    requires forall a :: a in actions ==> WellFormedAction(a) && SelectsArithmetic(a)
    ensures Inv(Run(s, actions, arith))
    decreases |actions|
  {
    if actions != [] {
      var prefix := actions[..|actions| - 1];
      RunKeepsInv(s, prefix, arith);
      StepKeepsInv(Run(s, prefix, arith), actions[|actions| - 1], arith);
    }
  }

  /** In every reachable state the other operand holds a value exactly when an operator is pending. */
  lemma ReachableOperatorPendingIffOtherOperand(first: Action, actions: seq<Action>, arith: Arithmetic)
    requires WellFormedAction(first)
    requires forall a :: a in actions ==> WellFormedAction(a) && SelectsArithmetic(a)
    ensures var s := Run(Reducer(None, first, arith), actions, arith);
            s.otherOperand.HasValue() <==> s.operator != Noop
  {
    InitialStateInv(first, arith);
    RunKeepsInv(Reducer(None, first, arith), actions, arith);
  }

  // ---------------------------------------------------------------------
  // Operators and equals

  /**
   * Pressing an operator while an operation can be executed gives the same
   * state as pressing equals and then the operator, provided the
   * intermediate result parses: chaining is left to right.
   */
  lemma OperatorChainsLikeEqualsThenOperator(s: State, button: Button, arith: Arithmetic)
    requires button.name in Operators
    requires CanExecuteOperation(s)
    requires ExecutePending(s, arith).IsValid()
    ensures HandleOperatorClick(s, button, arith) == HandleOperatorClick(HandleEqualsClick(s, arith), button, arith)
  {
  }

  /** A result that does not parse (such as "NaN") cannot be carried on: operators then only re-enable editing. */
  lemma InvalidResultBlocksOperators(s: State, button: Button, arith: Arithmetic)
    requires button.name in Operators
    requires CanExecuteOperation(s)
    requires !ExecutePending(s, arith).IsValid()
    ensures var e := HandleEqualsClick(s, arith);
            HandleOperatorClick(e, button, arith) == e.(canEditCurrentValue := true)
  {
  }

  /** After equals, digits and decimal points are ignored until an operator, a clear or a memory response re-enables editing. */
  lemma EqualsLocksEditing(s: State, button: Button, arith: Arithmetic)
    requires CanExecuteOperation(s)
    requires button.kind == NumberType || button.kind == DecimalSeparatorType
    ensures var e := HandleEqualsClick(s, arith);
            HandleButtonClick(e, button, arith) == e
  {
  }

  /** A pending operator cannot be replaced by pressing another operator while the current operand is empty. */
  lemma PendingOperatorNotReplaced(s: State, button: Button, arith: Arithmetic)
    requires Inv(s) && s.operator != Noop && !s.currentOperand.HasValue()
    requires button.kind == OperatorType && button.name in Operators
    ensures var r := Reducer(Some(s), HandleButtonAction(button), arith);
            r.operator == s.operator && r.otherOperand == s.otherOperand
            && r.textValueSecondary == s.textValueSecondary
  {
  }

  // ---------------------------------------------------------------------
  // Digits and the decimal point

  /** The number of leading '0' characters of `s`. */
  function LeadingZeros(s: string): (n: nat)
    ensures n <= |s|
    ensures forall i :: 0 <= i < n ==> s[i] == '0'
    ensures n < |s| ==> s[n] != '0'
  {
    if s != [] && s[0] == '0' then 1 + LeadingZeros(s[1..]) else 0
  }

  /** `keys` with a run of leading zeros collapsed to a single "0". */
  function CollapseLeadingZeros(keys: string): string {
    var z := LeadingZeros(keys);
    if z == 0 then keys else "0" + keys[z..]
  }

  /** Each character of `keys`, in order, concatenated onto `o`. */
  function ConcatAll(o: Operand, keys: string): Operand
    decreases |keys|
  {
    if keys == [] then o else ConcatAll(o, keys[..|keys| - 1]).Concat([keys[|keys| - 1]])
  }

  lemma {:induction false} LeadingZerosAppend(k: string, c: char)
    ensures LeadingZeros(k + [c]) ==
              if LeadingZeros(k) == |k| then |k| + (if c == '0' then 1 else 0) else LeadingZeros(k)
  {
    if k != [] {
      assert (k + [c])[1..] == k[1..] + [c];
      if k[0] == '0' {
        LeadingZerosAppend(k[1..], c);
      }
    }
  }

  /** Appending a character to a text collapses a leading zero exactly when the text is "0" and the character is '0'. */
  lemma CollapseLeadingZerosAppend(k: string, c: char)
    ensures CollapseLeadingZeros(k + [c]) ==
              if CollapseLeadingZeros(k) == "0" && c == '0' then "0" else CollapseLeadingZeros(k) + [c]
  {
    LeadingZerosAppend(k, c);
    var z := LeadingZeros(k);
    if z == |k| {
      if z > 0 {
        assert k[z..] == [];
        assert (k + [c])[z..] == [c];
      }
    } else if z > 0 {
      assert (k + [c])[z..] == k[z..] + [c];
      assert |CollapseLeadingZeros(k)| > 1;
    }
  }

  /** Typing characters onto an empty operand keeps everything except redundant leading zeros. */
  lemma {:induction false} ConcatAllCollapsesLeadingZeros(keys: string)
    ensures ConcatAll(NullOperand, keys).HasValue() <==> keys != []
    ensures ConcatAll(NullOperand, keys).Text() == CollapseLeadingZeros(keys)
  {
    if keys != [] {
      var k, c := keys[..|keys| - 1], keys[|keys| - 1];
      assert keys == k + [c];
      ConcatAllCollapsesLeadingZeros(k);
      CollapseLeadingZerosAppend(k, c);
    }
  }

  /** The number button for a digit. */
  function DigitButton(digit: char): Button {
    Button([digit], [digit], NumberType, true)
  }

  function DigitActions(keys: string): (actions: seq<Action>)
    ensures |actions| == |keys|
    ensures forall i :: 0 <= i < |keys| ==> actions[i] == HandleButtonAction(DigitButton(keys[i]))
  {
    seq(|keys|, i requires 0 <= i < |keys| => HandleButtonAction(DigitButton(keys[i])))
  }

  lemma DigitPressConcats(s: State, digit: char, arith: Arithmetic)
    requires s.canEditCurrentValue
    ensures var r := Reducer(Some(s), HandleButtonAction(DigitButton(digit)), arith);
            r.canEditCurrentValue && r.currentOperand == s.currentOperand.Concat([digit])
  {
  }

  /** The last digit of `keys` is pressed on the state the other digits leave. */
  lemma RunDigitsLast(s: State, keys: string, arith: Arithmetic)
    requires keys != []
    requires forall a :: a in DigitActions(keys) ==> WellFormedAction(a)
    requires forall a :: a in DigitActions(keys[..|keys| - 1]) ==> WellFormedAction(a)
    ensures Run(s, DigitActions(keys), arith) ==
              Reducer(Some(Run(s, DigitActions(keys[..|keys| - 1]), arith)), HandleButtonAction(DigitButton(keys[|keys| - 1])), arith)
  {
    assert DigitActions(keys)[..|keys| - 1] == DigitActions(keys[..|keys| - 1]);
  }

  lemma {:induction false} DigitPressesConcat(s: State, keys: string, arith: Arithmetic)
    requires s.canEditCurrentValue
    ensures forall a :: a in DigitActions(keys) ==> WellFormedAction(a)
    ensures Run(s, DigitActions(keys), arith).canEditCurrentValue
    ensures Run(s, DigitActions(keys), arith).currentOperand == ConcatAll(s.currentOperand, keys)
    decreases |keys|
  {
    if keys != [] {
      var k, c := keys[..|keys| - 1], keys[|keys| - 1];
      assert DigitActions(keys)[..|keys| - 1] == DigitActions(k);
      DigitPressesConcat(s, k, arith);
      RunDigitsLast(s, keys, arith);
      DigitPressConcats(Run(s, DigitActions(k), arith), c, arith);
    }
  }

  /**
   * Starting from an empty current operand with editing allowed, pressing
   * digit buttons displays the digits with redundant leading zeros
   * collapsed: "000000" shows "0", "0005" shows "05".
   */
  lemma DigitPressesCollapseLeadingZeros(s: State, keys: string, arith: Arithmetic)
    requires s.canEditCurrentValue && !s.currentOperand.HasValue()
    ensures forall a :: a in DigitActions(keys) ==> WellFormedAction(a)
    ensures Run(s, DigitActions(keys), arith).currentOperand.Text() == CollapseLeadingZeros(keys)
    ensures keys != [] ==> Run(s, DigitActions(keys), arith).textValue == CollapseLeadingZeros(keys)
  {
    DigitPressesConcat(s, keys, arith);
    assert s.currentOperand == NullOperand;
    ConcatAllCollapsesLeadingZeros(keys);
  }

  /** Once the current operand holds a value, a decimal point is taken at most once. */
  lemma SecondDecimalPointIgnored(s: State)
    requires s.currentOperand.HasValue()
    ensures HandleDecimalClick(HandleDecimalClick(s)) == HandleDecimalClick(s)
  {
  }

  /**
   * A decimal point typed on an empty operand appends "0." without setting the
   * decimal flag, so a second point is still accepted and only a third is ignored.
   */
  lemma DecimalPointOnEmptyOperand(s: State)
    requires DecimalAccepted(s) && !s.currentOperand.HasValue()
    ensures HandleDecimalClick(s).currentOperand == Entered("0.", false)
    ensures HandleDecimalClick(HandleDecimalClick(s)).currentOperand == Entered("0..", true)
    ensures HandleDecimalClick(HandleDecimalClick(HandleDecimalClick(s))) == HandleDecimalClick(HandleDecimalClick(s))
  {
  }

  /** A text that parses keeps parsing whatever is typed after it. */
  lemma ConcatKeepsValidity(o: Operand, character: string)
    requires o.IsValid()
    ensures o.Concat(character).IsValid()
  {
    var c := if o.Text() == "0" && character == "0" then "" else character;
    ParsesAsNumberAppend(o.Text(), c);
  }

  // ---------------------------------------------------------------------
  // Clearing and memory

  /** Clearing a reachable state whose buttons are enabled gives back exactly the initial state. */
  lemma ClearRestoresInitialState(s: State, arith: Arithmetic)
    requires Inv(s) && forall i :: 0 <= i < |s.buttons| ==> s.buttons[i].enabled
    ensures Reducer(Some(s), ClearScreenAction, arith) == GetInitialState()
  {
    assert s.buttons == InitialButtons by {
      forall i | 0 <= i < |s.buttons|
        ensures s.buttons[i] == InitialButtons[i]
      {
        assert s.buttons[i].(enabled := InitialButtons[i].enabled) == InitialButtons[i];
      }
    }
  }

  /** A memory request disables every button and changes nothing else. */
  lemma MemoryRequestOnlyDisablesButtons(s: State, request: Action, arith: Arithmetic)
    requires request == RequestMemoryLoadAction || request == RequestMemorySaveAction
    ensures var r := Reduce(Some(s), request, arith);
            && (forall i :: 0 <= i < |r.buttons| ==> !r.buttons[i].enabled)
            && r.(buttons := s.buttons) == s
  {
  }

  /** A request followed by a failure (or by the save response) re-enables every button and editing and changes nothing else. */
  lemma FailedRequestReenablesInput(s: State, request: Action, response: Action, arith: Arithmetic)
    requires request == RequestMemoryLoadAction || request == RequestMemorySaveAction
    requires response == ErrorMemoryLoadAction || response == ErrorMemorySaveAction || response == RecieveMemorySaveAction
    ensures var r := Reduce(Some(Reduce(Some(s), request, arith)), response, arith);
            && (forall i :: 0 <= i < |r.buttons| ==> r.buttons[i].enabled)
            && r.canEditCurrentValue
            && r.(buttons := s.buttons, canEditCurrentValue := s.canEditCurrentValue) == s
  {
  }

  /** A loaded number becomes the displayed current operand (without decimal flag) and editing is allowed. */
  lemma LoadedNumberBecomesCurrent(s: State, number: string, arith: Arithmetic)
    ensures var r := Reducer(Some(s), RecieveMemoryLoadAction(Some(number)), arith);
            && r.currentOperand == Entered(number, false)
            && r.textValue == number
            && r.canEditCurrentValue
            && (forall i :: 0 <= i < |r.buttons| ==> r.buttons[i].enabled)
            && r.otherOperand == s.otherOperand && r.operator == s.operator
  {
  }

  /** An empty load response only re-enables the buttons. */
  lemma EmptyLoadOnlyEnablesButtons(s: State, arith: Arithmetic)
    ensures Reduce(Some(s), RecieveMemoryLoadAction(None), arith) == s.(buttons := SetEnabled(s.buttons, true))
  {
  }
}
