/**
 * The calculator's reducer (Calculator.ts, lines 103-431) as a function on
 * state values: every event produces the next state, and the display strings
 * are recomputed afterwards.  Which calls hand back the very object they were
 * given is modelled in module Store.
 */
module Calculator {
  import opened Wrappers
  import opened JsNumbers
  import opened Operands

  /** The numeric codes of the `ButtonType` enum; EQUALS and ACTION share the code 4. */
  type ButtonType = int
  const NumberType: ButtonType := 1
  const OperatorType: ButtonType := 2
  const DecimalSeparatorType: ButtonType := 3
  const EqualsType: ButtonType := 4
  const ActionType: ButtonType := 4

  /** A calculator button; the click handler and the layout width are presentation only. */
  datatype Button = Button(text: string, name: string, kind: ButtonType, enabled: bool)

  /** The state of the calculator store. */
  datatype State = State(
    buttons: seq<Button>,
    saveButton: Button,
    loadButton: Button,
    clearButton: Button,
    textValue: string,
    textValueSecondary: string,
    otherOperand: Operand,
    currentOperand: Operand,
    operator: Operator,
    canEditCurrentValue: bool,
    errorMessage: string)

  /**
   * The actions the reducer knows.  A loaded number is given by its
   * `toString()` text; the numbers carried by ERROR_MEMORY_LOAD and
   * REQUEST_MEMORY_SAVE are ignored by the reducer and left out.
   * `UnknownAction` is any other action, such as the store's own
   * initialisation action.
   */
  datatype Action =
    | ClearScreenAction
    | RequestMemoryLoadAction
    | RecieveMemoryLoadAction(number: Option<string>)
    | ErrorMemoryLoadAction
    | RequestMemorySaveAction
    | RecieveMemorySaveAction
    | ErrorMemorySaveAction
    | HandleButtonAction(button: Button)
    | UnknownAction(actionType: string)

  /** An operator button names an entry of the operator registry (the lookup of any other name is not modelled). */
  predicate WellFormedAction(action: Action) {
    action.HandleButtonAction? && action.button.kind == OperatorType ==> action.button.name in Operators
  }

  function DigitText(d: nat): (s: string)
    requires d < 10
    ensures |s| == 1 && IsDigit(s[0])
  {
    [('0' as int + d) as char]
  }

  /** `numberButton`: an enabled number button whose text and name are the digit `d`. */
  function NumberButton(d: nat): (b: Button)
    requires d < 10
    ensures b.kind == NumberType && b.enabled && b.name == b.text
    ensures |b.text| == 1 && IsDigit(b.text[0]) && b.text[0] as int - '0' as int == d
  {
    Button(DigitText(d), DigitText(d), NumberType, true)
  }

  function OperatorButton(value: string, name: string): Button {
    Button(value, name, OperatorType, true)
  }

  function ActionButton(value: string): Button {
    Button(value, value, ActionType, true)
  }

  const DecimalSeparator: Button := Button(".", "decimalSeparator", DecimalSeparatorType, true)

  const EqualsButton: Button := Button("=", "equals", EqualsType, true)

  /** The 4x4 keypad, row by row. */
  const InitialButtons: seq<Button> := [
    NumberButton(9), NumberButton(8), NumberButton(7), OperatorButton("/", "divide"),
    NumberButton(6), NumberButton(5), NumberButton(4), OperatorButton("*", "multiply"),
    NumberButton(3), NumberButton(2), NumberButton(1), OperatorButton("-", "substract"),
    NumberButton(0), DecimalSeparator, EqualsButton, OperatorButton("+", "add")]

  /** `getInitialState`: no operands, no pending operator, editing allowed, every button enabled. */
  function GetInitialState(): (s: State)
    ensures |s.buttons| == 16
    ensures forall i :: 0 <= i < |s.buttons| ==> s.buttons[i].enabled
    ensures !s.currentOperand.HasValue() && !s.otherOperand.HasValue() && s.operator == Noop
    ensures s.canEditCurrentValue
  {
    State(
      buttons := InitialButtons,
      saveButton := ActionButton("Save"),
      loadButton := ActionButton("Load"),
      clearButton := ActionButton("Clear"),
      textValue := "",
      textValueSecondary := "",
      otherOperand := NullOperand,
      currentOperand := NullOperand,
      operator := Noop,
      canEditCurrentValue := true,
      errorMessage := "")
  }

  /** The display strings as `calculateDisplayValue` derives them from the operands and the operator. */
  predicate DisplayConsistent(s: State) {
    && s.textValue == s.currentOperand.StringValue()
    && s.textValueSecondary ==
         if s.otherOperand.HasValue() then s.otherOperand.StringValue() + " " + s.operator.Text() else ""
  }

  /** `calculateDisplayValue`: rewrites the two display strings and nothing else. */
  function CalculateDisplayValue(s: State): (r: State)
    ensures DisplayConsistent(r)
    ensures r.(textValue := s.textValue, textValueSecondary := s.textValueSecondary) == s
    ensures DisplayConsistent(s) ==> r == s
  {
    if s.otherOperand.HasValue() then
      s.(textValueSecondary := s.otherOperand.StringValue() + " " + s.operator.Text(),
         textValue := s.currentOperand.StringValue())
    else
      s.(textValueSecondary := "", textValue := s.currentOperand.StringValue())
  }

  /** `reduce`: the transition for one action; an undefined state yields the initial state. */
  function Reduce(state: Option<State>, action: Action, arith: Arithmetic): (r: State)
    requires WellFormedAction(action)
    ensures state.None? ==> r == GetInitialState()
    ensures state.Some? && action.UnknownAction? ==> r == state.value
    ensures state.Some? ==> SameLayout(r.buttons, state.value.buttons)
    ensures state.Some? ==> && r.saveButton == state.value.saveButton
                            && r.loadButton == state.value.loadButton
                            && r.clearButton == state.value.clearButton
                            && r.errorMessage == state.value.errorMessage
  {
    if state.None? then
      GetInitialState()
    else
      var s := state.value;
      match action
      case ClearScreenAction => ClearScreen(s)
      case RequestMemoryLoadAction => SetButtonState(s, false)
      case RecieveMemoryLoadAction(number) => SetButtonState(RecieveMemoryLoad(s, number), true)
      case ErrorMemoryLoadAction => SetButtonState(s.(canEditCurrentValue := true), true)
      case RequestMemorySaveAction => SetButtonState(s, false)
      case RecieveMemorySaveAction => SetButtonState(s.(canEditCurrentValue := true), true)
      case ErrorMemorySaveAction => SetButtonState(s.(canEditCurrentValue := true), true)
      case HandleButtonAction(button) => HandleButtonClick(s, button, arith)
      case UnknownAction(_) => s
  }

  /** `reducer`: `reduce` followed by the display computation. */
  function Reducer(state: Option<State>, action: Action, arith: Arithmetic): (r: State)
    requires WellFormedAction(action)
    ensures DisplayConsistent(r)
    ensures r.textValue == r.currentOperand.StringValue()
    ensures r.(textValue := Reduce(state, action, arith).textValue,
               textValueSecondary := Reduce(state, action, arith).textValueSecondary) == Reduce(state, action, arith)
  {
    CalculateDisplayValue(Reduce(state, action, arith))
  }

  /** `clearScreen`: forgets both operands and the pending operator and allows editing again. */
  function ClearScreen(s: State): (r: State)
    ensures !r.currentOperand.HasValue() && !r.otherOperand.HasValue()
    ensures r.operator == Noop && r.canEditCurrentValue
    ensures r.buttons == s.buttons
  {
    s.(currentOperand := NullOperand, otherOperand := NullOperand, operator := Noop, canEditCurrentValue := true)
  }

  /** The two keypads hold the same buttons in the same order, up to their enabled flags. */
  predicate SameLayout(buttons: seq<Button>, other: seq<Button>) {
    && |buttons| == |other|
    && forall i :: 0 <= i < |buttons| ==> buttons[i].(enabled := other[i].enabled) == other[i]
  }

  /** Every button of `buttons` with its enabled flag set to `enable`. */
  function SetEnabled(buttons: seq<Button>, enable: bool): (r: seq<Button>)
    ensures |r| == |buttons|
    ensures forall i :: 0 <= i < |r| ==> r[i] == buttons[i].(enabled := enable)
  {
    seq(|buttons|, i requires 0 <= i < |buttons| => buttons[i].(enabled := enable))
  }

  /** `setButtonState`: replaces the keypad by copies whose enabled flag is `enable`; nothing else changes. */
  function SetButtonState(s: State, enable: bool): (r: State)
    ensures |r.buttons| == |s.buttons|
    ensures forall i :: 0 <= i < |r.buttons| ==> r.buttons[i].enabled == enable
    ensures r.(buttons := s.buttons) == s
  {
    s.(buttons := SetEnabled(s.buttons, enable))
  }

  /** `recieveMemoryLoad`: a loaded number replaces the current operand and allows editing; `null` changes nothing. */
  function RecieveMemoryLoad(s: State, number: Option<string>): (r: State)
    ensures number.None? ==> r == s
    ensures number.Some? ==> r == s.(currentOperand := Entered(number.value, false), canEditCurrentValue := true)
  {
    if number.Some? then
      s.(currentOperand := Entered(number.value, false), canEditCurrentValue := true)
    else
      s
  }

  /** `handleButtonClick`: dispatches on the button type code; a click changes only the operands, the pending operator and the editing flag. */
  function HandleButtonClick(s: State, button: Button, arith: Arithmetic): (r: State)
    requires button.kind == OperatorType ==> button.name in Operators
    ensures r.(canEditCurrentValue := s.canEditCurrentValue, currentOperand := s.currentOperand,
               otherOperand := s.otherOperand, operator := s.operator) == s
    ensures !(NumberType <= button.kind <= EqualsType) ==> r == s
  {
    if button.kind == OperatorType then HandleOperatorClick(s, button, arith)
    else if button.kind == DecimalSeparatorType then HandleDecimalClick(s)
    else if button.kind == NumberType then HandleNumberClick(s, button)
    else if button.kind == EqualsType then HandleEqualsClick(s, arith)
    else s
  }

  /** `isLeadingMinus`: a minus typed while the current operand is still empty starts a negative number. */
  predicate IsLeadingMinus(s: State, newOperator: Operator)
    ensures IsLeadingMinus(s, newOperator) ==> s.currentOperand.Text() == "" && newOperator.Text() == "-"
  {
    !s.currentOperand.HasValue() && newOperator == Substract
  }

  /** `canExecuteOperation`: both operands parse and an operator is pending. */
  predicate CanExecuteOperation(s: State)
    ensures CanExecuteOperation(s) ==> s.currentOperand.HasValue() && s.otherOperand.HasValue()
  {
    s.currentOperand.IsValid() && s.otherOperand.IsValid() && s.operator != Noop
  }

  /** `execute`: the pending operator applied to the other operand and the current operand. */
  function ExecutePending(s: State, arith: Arithmetic): (o: Operand)
    requires CanExecuteOperation(s)
    ensures o.HasValue() && !o.HasDecimal()
    ensures o.Text() == arith(s.operator, ParseFloat(s.otherOperand.Text()), ParseFloat(s.currentOperand.Text()))
  {
    Execute(s.operator, s.otherOperand, s.currentOperand, arith).value
  }

  /**
   * `handleOperatorClick`: always re-enables editing; then either types a
   * leading minus, or chains the pending operation, or moves the current
   * operand aside, or changes nothing else.
   */
  function HandleOperatorClick(state: State, button: Button, arith: Arithmetic): (r: State)
    requires button.name in Operators
    ensures r.canEditCurrentValue
    ensures r.buttons == state.buttons
    ensures IsLeadingMinus(state, Operators[button.name]) ==>
              r == state.(canEditCurrentValue := true, currentOperand := Entered("-", false))
    ensures CanExecuteOperation(state) ==>
              && r.otherOperand == ExecutePending(state, arith)
              && r.currentOperand == NullOperand && r.operator == Operators[button.name]
    ensures !IsLeadingMinus(state, Operators[button.name]) && !CanExecuteOperation(state)
            && state.operator == Noop && state.currentOperand.IsValid() ==>
              r == state.(otherOperand := state.currentOperand, currentOperand := NullOperand,
                          operator := Operators[button.name], canEditCurrentValue := true)
    ensures !IsLeadingMinus(state, Operators[button.name]) && !CanExecuteOperation(state)
            && !(state.operator == Noop && state.currentOperand.IsValid()) ==>
              r == state.(canEditCurrentValue := true)
    ensures state.operator != Noop && !state.currentOperand.HasValue() ==>
              r.operator == state.operator && r.otherOperand == state.otherOperand
  {
    var newOperator := Operators[button.name];
    var s := state.(canEditCurrentValue := true);
    if IsLeadingMinus(s, newOperator) then
      AppendTextToCurrent(s, "-")
    else if CanExecuteOperation(s) then
      s.(otherOperand := ExecutePending(s, arith), currentOperand := NullOperand, operator := newOperator)
    else if s.operator == Noop && s.currentOperand.IsValid() then
      s.(otherOperand := s.currentOperand, currentOperand := NullOperand, operator := newOperator)
    else
      s
  }

  /** The decimal point is taken only while editing and before the current operand has one. */
  predicate DecimalAccepted(s: State) {
    !s.currentOperand.HasDecimal() && s.canEditCurrentValue
  }

  /** `handleDecimalClick`: appends "." to a started operand and "0." to an empty one. */
  function HandleDecimalClick(s: State): (r: State)
    ensures !DecimalAccepted(s) ==> r == s
    ensures DecimalAccepted(s) ==> r.currentOperand.Text() == s.currentOperand.Text() + (if s.currentOperand.HasValue() then "." else "0.")
    ensures DecimalAccepted(s) ==>
              r == s.(currentOperand := s.currentOperand.Concat(if s.currentOperand.HasValue() then "." else "0."))
    ensures DecimalAccepted(s) ==> r.currentOperand.HasDecimal() == s.currentOperand.HasValue()
  {
    if DecimalAccepted(s) then
      if s.currentOperand.HasValue() then AppendTextToCurrent(s, ".") else AppendTextToCurrent(s, "0.")
    else
      s
  }

  /** `handleNumberClick`: appends the button's text while editing is allowed. */
  function HandleNumberClick(s: State, button: Button): (r: State)
    ensures !s.canEditCurrentValue ==> r == s
    ensures s.canEditCurrentValue ==> r == s.(currentOperand := s.currentOperand.Concat(button.text))
  {
    if s.canEditCurrentValue then AppendTextToCurrent(s, button.text) else s
  }

  /** `appendTextToCurrent`: concatenates `text` onto the current operand. */
  function AppendTextToCurrent(s: State, text: string): (r: State)
    ensures r.currentOperand.HasValue() && s.currentOperand.Text() <= r.currentOperand.Text()
    ensures r.currentOperand == s.currentOperand.Concat(text)
    ensures !(s.currentOperand.Text() == "0" && text == "0") ==> r.currentOperand.Text() == s.currentOperand.Text() + text
    ensures r.(currentOperand := s.currentOperand) == s
  {
    s.(currentOperand := s.currentOperand.Concat(text))
  }

  /** `handleEqualsClick`: the result becomes the current operand and locks editing; otherwise nothing happens. */
  function HandleEqualsClick(s: State, arith: Arithmetic): (r: State)
    ensures !CanExecuteOperation(s) ==> r == s
    ensures CanExecuteOperation(s) ==> && r.currentOperand == ExecutePending(s, arith)
                                       && !r.otherOperand.HasValue() && r.operator == Noop
                                       && !r.canEditCurrentValue
  {
    if CanExecuteOperation(s) then
      s.(currentOperand := ExecutePending(s, arith), canEditCurrentValue := false,
         otherOperand := NullOperand, operator := Noop)
    else
      s
  }
}
