/**
 * The reducer with object identity.  The store's state is a mutable object:
 * `calculateDisplayValue` and `setButtonState` assign fields of the object
 * they are given, and `handleOperatorClick` sets `canEditCurrentValue` on its
 * argument before deciding what to return.  The other handlers build a new
 * object with object spread, or hand back the object they were given.  Every
 * method here is proved to compute the value that module Calculator
 * computes, and states what becomes of the object it was passed.
 */
module Store {
  import opened Wrappers
  import JsNumbers
  import opened Operands
  import opened Calculator

  class CalculatorState {
    var buttons: seq<Button>
    var saveButton: Button
    var loadButton: Button
    var clearButton: Button
    var textValue: string
    var textValueSecondary: string
    var otherOperand: Operand
    var currentOperand: Operand
    var operator: Operator
    var canEditCurrentValue: bool
    var errorMessage: string

    /** The value the object currently holds. */
    function Snapshot(): State
      reads this
    {
      State(buttons, saveButton, loadButton, clearButton, textValue, textValueSecondary,
            otherOperand, currentOperand, operator, canEditCurrentValue, errorMessage)
    }

    /** A new object holding `v`: an object literal, or `{ ...state, ... }`. */
    constructor FromValue(v: State)
      ensures Snapshot() == v
    {
      buttons := v.buttons;
      saveButton := v.saveButton;
      loadButton := v.loadButton;
      clearButton := v.clearButton;
      textValue := v.textValue;
      textValueSecondary := v.textValueSecondary;
      otherOperand := v.otherOperand;
      currentOperand := v.currentOperand;
      operator := v.operator;
      canEditCurrentValue := v.canEditCurrentValue;
      errorMessage := v.errorMessage;
    }

    /** `calculateDisplayValue`: rewrites the two display strings of this object. */
    method CalculateDisplayValue()
      modifies this
      ensures Snapshot() == Calculator.CalculateDisplayValue(old(Snapshot()))
      ensures DisplayConsistent(Snapshot())
    {
      if otherOperand.HasValue() {
        textValueSecondary := otherOperand.StringValue() + " " + operator.Text();
        textValue := currentOperand.StringValue();
      } else {
        textValueSecondary := "";
        textValue := currentOperand.StringValue();
      }
    }

    /** `setButtonState`: replaces this object's keypad by copies with the given enabled flag. */
    method SetButtonState(enable: bool)
      modifies this
      ensures Snapshot() == Calculator.SetButtonState(old(Snapshot()), enable)
      ensures forall i :: 0 <= i < |buttons| ==> buttons[i].enabled == enable
    {
      buttons := SetEnabled(buttons, enable);
    }
  }

  /** `handleOperatorClick` hands back the object it was given when none of its three cases applies. */
  predicate OperatorReturnsInput(s: State, op: Operator) {
    !IsLeadingMinus(s, op) && !CanExecuteOperation(s) && !(s.operator == Noop && s.currentOperand.IsValid())
  }

  /** `handleButtonClick` hands back the object it was given exactly when the click is rejected. */
  predicate ClickReturnsInput(s: State, button: Button)
    requires button.kind == OperatorType ==> button.name in Operators
  {
    if button.kind == OperatorType then OperatorReturnsInput(s, Operators[button.name])
    else if button.kind == DecimalSeparatorType then !DecimalAccepted(s)
    else if button.kind == NumberType then !s.canEditCurrentValue
    else if button.kind == EqualsType then !CanExecuteOperation(s)
    else true
  }

  /** `reduce` hands back the object it was given: unknown actions, a `null` load and rejected clicks. */
  predicate ReduceReturnsInput(s: State, action: Action)
    requires WellFormedAction(action)
  {
    match action
    case RecieveMemoryLoadAction(number) => number.None?
    case HandleButtonAction(button) => ClickReturnsInput(s, button)
    case UnknownAction(_) => true
    case _ => false
  }

  /**
   * What `reduce` leaves in the object it was given: an operator click sets its
   * editing flag, and a `null` load enables its buttons.
   */
  function InputAfterReduce(s: State, action: Action): State {
    match action
    case RecieveMemoryLoadAction(None) => Calculator.SetButtonState(s, true)
    case HandleButtonAction(button) =>
      if button.kind == OperatorType then s.(canEditCurrentValue := true) else s
    case _ => s
  }

  /** `{ ...state, ... }`: a new object holding `v`. */
  method Spread(v: State) returns (r: CalculatorState)
    ensures fresh(r)
    ensures r.Snapshot() == v
  {
    r := new CalculatorState.FromValue(v);
  }

  /** `appendTextToCurrent`: a new object whose current operand has `text` appended. */
  method AppendTextToCurrent(state: CalculatorState, text: string) returns (r: CalculatorState)
    ensures fresh(r)
    ensures r.Snapshot() == Calculator.AppendTextToCurrent(state.Snapshot(), text)
  {
    r := new CalculatorState.FromValue(state.Snapshot().(currentOperand := state.currentOperand.Concat(text)));
  }

  /**
   * `handleOperatorClick`: sets the editing flag on the object it is given,
   * then returns a new object or, when no case applies, that same object.
   */
  method HandleOperatorClick(state: CalculatorState, button: Button, arith: Arithmetic) returns (r: CalculatorState)
    requires button.name in Operators
    modifies state
    ensures state.Snapshot() == old(state.Snapshot()).(canEditCurrentValue := true)
    ensures r.Snapshot() == Calculator.HandleOperatorClick(old(state.Snapshot()), button, arith)
    ensures r == state <==> OperatorReturnsInput(old(state.Snapshot()), Operators[button.name])
    ensures r != state ==> fresh(r)
  {
    var newOperator := Operators[button.name];
    state.canEditCurrentValue := true;
    var s := state.Snapshot();
    if IsLeadingMinus(s, newOperator) {
      r := AppendTextToCurrent(state, "-");
    } else if CanExecuteOperation(s) {
      r := new CalculatorState.FromValue(
        s.(otherOperand := ExecutePending(s, arith), currentOperand := NullOperand, operator := newOperator));
    } else if s.operator == Noop && s.currentOperand.IsValid() {
      r := new CalculatorState.FromValue(
        s.(otherOperand := s.currentOperand, currentOperand := NullOperand, operator := newOperator));
    } else {
      r := state;
    }
  }

  /** `handleDecimalClick`: a new object with the point appended, or the same object. */
  method HandleDecimalClick(state: CalculatorState) returns (r: CalculatorState)
    ensures r.Snapshot() == Calculator.HandleDecimalClick(state.Snapshot())
    ensures r == state <==> !DecimalAccepted(state.Snapshot())
    ensures r != state ==> fresh(r)
  {
    if !state.currentOperand.HasDecimal() && state.canEditCurrentValue {
      if state.currentOperand.HasValue() {
        r := AppendTextToCurrent(state, ".");
      } else {
        r := AppendTextToCurrent(state, "0.");
      }
    } else {
      r := state;
    }
  }

  /** `handleNumberClick`: a new object with the digit appended, or the same object. */
  method HandleNumberClick(state: CalculatorState, button: Button) returns (r: CalculatorState)
    ensures r.Snapshot() == Calculator.HandleNumberClick(state.Snapshot(), button)
    ensures r == state <==> !state.canEditCurrentValue
    ensures r != state ==> fresh(r)
  {
    if state.canEditCurrentValue {
      r := AppendTextToCurrent(state, button.text);
    } else {
      r := state;
    }
  }

  /** `handleEqualsClick`: a new object holding the result, or the same object. */
  method HandleEqualsClick(state: CalculatorState, arith: Arithmetic) returns (r: CalculatorState)
    ensures r.Snapshot() == Calculator.HandleEqualsClick(state.Snapshot(), arith)
    ensures r == state <==> !CanExecuteOperation(state.Snapshot())
    ensures r != state ==> fresh(r)
  {
    var s := state.Snapshot();
    if CanExecuteOperation(s) {
      r := new CalculatorState.FromValue(
        s.(currentOperand := ExecutePending(s, arith), canEditCurrentValue := false,
           otherOperand := NullOperand, operator := Noop));
    } else {
      r := state;
    }
  }

  /** `handleButtonClick`: dispatches on the button type code. */
  method HandleButtonClick(state: CalculatorState, button: Button, arith: Arithmetic) returns (r: CalculatorState)
    requires button.kind == OperatorType ==> button.name in Operators
    modifies state
    ensures state.Snapshot() == InputAfterReduce(old(state.Snapshot()), HandleButtonAction(button))
    ensures r.Snapshot() == Calculator.HandleButtonClick(old(state.Snapshot()), button, arith)
    ensures r == state <==> ClickReturnsInput(old(state.Snapshot()), button)
    ensures r != state ==> fresh(r)
  {
    if button.kind == OperatorType {
      r := HandleOperatorClick(state, button, arith);
    } else if button.kind == DecimalSeparatorType {
      r := HandleDecimalClick(state);
    } else if button.kind == NumberType {
      r := HandleNumberClick(state, button);
    } else if button.kind == EqualsType {
      r := HandleEqualsClick(state, arith);
    } else {
      r := state;
    }
  }

  /**
   * `reduce`: the transition for one action.  The memory actions copy the
   * state with object spread before `setButtonState` writes into the copy,
   * except for a `null` load, which writes into the object it was given.
   */
  method Reduce(state: CalculatorState?, action: Action, arith: Arithmetic) returns (r: CalculatorState)
    requires WellFormedAction(action)
    modifies state
    ensures state == null ==> fresh(r) && r.Snapshot() == GetInitialState()
    ensures state != null ==> r.Snapshot() == Calculator.Reduce(Some(old(state.Snapshot())), action, arith)
    ensures state != null ==> state.Snapshot() == InputAfterReduce(old(state.Snapshot()), action)
    ensures state != null ==> (r == state <==> ReduceReturnsInput(old(state.Snapshot()), action))
    ensures r != state ==> fresh(r)
  {
    if state == null {
      r := new CalculatorState.FromValue(GetInitialState());
      return;
    }
    var s := state.Snapshot();
    match action
    case ClearScreenAction =>
      r := Spread(ClearScreen(s));
    case RequestMemoryLoadAction =>
      r := Spread(s);
      r.SetButtonState(false);
    case RecieveMemoryLoadAction(number) =>
      if number.Some? {
        r := Spread(RecieveMemoryLoad(s, number));
      } else {
        r := state;
      }
      r.SetButtonState(true);
    case ErrorMemoryLoadAction =>
      r := Spread(s.(canEditCurrentValue := true));
      r.SetButtonState(true);
    case RequestMemorySaveAction =>
      r := Spread(s);
      r.SetButtonState(false);
    case RecieveMemorySaveAction =>
      r := Spread(s.(canEditCurrentValue := true));
      r.SetButtonState(true);
    case ErrorMemorySaveAction =>
      r := Spread(s.(canEditCurrentValue := true));
      r.SetButtonState(true);
    case HandleButtonAction(button) =>
      r := HandleButtonClick(state, button, arith);
    case UnknownAction(_) =>
      r := state;
  }

  /**
   * `reducer`: `reduce`, then the display strings are written into the object
   * it returned, which is the object given when `reduce` handed that back.
   */
  method Reducer(state: CalculatorState?, action: Action, arith: Arithmetic) returns (r: CalculatorState)
    requires WellFormedAction(action)
    modifies state
    ensures r.Snapshot() == Calculator.Reducer(if state == null then None else Some(old(state.Snapshot())), action, arith)
    ensures state != null && r != state ==> state.Snapshot() == InputAfterReduce(old(state.Snapshot()), action)
    ensures state != null ==> (r == state <==> ReduceReturnsInput(old(state.Snapshot()), action))
    ensures r != state ==> fresh(r)
  {
    r := Reduce(state, action, arith);
    r.CalculateDisplayValue();
  }

  /**
   * A reducer that never writes into the state it is given: `reduce` and the
   * display computation run on a copy made with object spread.
   */
  method CopyingReducer(state: CalculatorState?, action: Action, arith: Arithmetic) returns (r: CalculatorState)
    requires WellFormedAction(action)
    ensures state != null ==> unchanged(state)
    ensures fresh(r)
    ensures r.Snapshot() == Calculator.Reducer(if state == null then None else Some(state.Snapshot()), action, arith)
  {
    var copy: CalculatorState? := null;
    if state != null {
      copy := Spread(state.Snapshot());
    }
    r := Reduce(copy, action, arith);
    r.CalculateDisplayValue();
  }

  /** Setting every enabled flag to `enable` changes nothing exactly when every flag already is `enable`. */
  lemma {:induction false} SetEnabledUnchangedIff(buttons: seq<Button>, enable: bool)
    ensures SetEnabled(buttons, enable) == buttons <==> forall i :: 0 <= i < |buttons| ==> buttons[i].enabled == enable
  {
    if forall i :: 0 <= i < |buttons| ==> buttons[i].enabled == enable {
      assert forall i :: 0 <= i < |buttons| ==> SetEnabled(buttons, enable)[i] == buttons[i];
    } else {
      var i :| 0 <= i < |buttons| && buttons[i].enabled != enable;
      assert SetEnabled(buttons, enable)[i] != buttons[i];
    }
  }

  /**
   * `reduce` alters the object it was given exactly when a `null` load finds
   * a disabled button, or an operator click finds editing locked.
   */
  lemma InputChangedIff(s: State, action: Action)
    ensures InputAfterReduce(s, action) != s <==>
      || (action == RecieveMemoryLoadAction(None) && exists i :: 0 <= i < |s.buttons| && !s.buttons[i].enabled)
      || (action.HandleButtonAction? && action.button.kind == OperatorType && !s.canEditCurrentValue)
  {
    if action == RecieveMemoryLoadAction(None) {
      SetEnabledUnchangedIff(s.buttons, true);
    }
  }

  /**
   * After the load button is pressed, a `null` load enables the buttons of the
   * store's state object in place and hands that same object back.
   */
  lemma NullLoadRewritesPreviousState(arith: Arithmetic)
    ensures var s := Calculator.Reducer(Some(GetInitialState()), RequestMemoryLoadAction, arith);
      && ReduceReturnsInput(s, RecieveMemoryLoadAction(None))
      && InputAfterReduce(s, RecieveMemoryLoadAction(None)) != s
  {
    var s := Calculator.Reducer(Some(GetInitialState()), RequestMemoryLoadAction, arith);
    InputChangedIff(s, RecieveMemoryLoadAction(None));
    assert !s.buttons[0].enabled;
  }

  /**
   * The state is the one "0/0=" leaves when the division renders as "NaN",
   * written out directly: the text "NaN" current and shown, no other operand,
   * no pending operator, editing locked.  On it "+" sets the editing flag of
   * the store's state object in place and hands that same object back.
   */
  lemma OperatorAfterNaNRewritesPreviousState()
    ensures var s := GetInitialState().(currentOperand := Entered("NaN", false), canEditCurrentValue := false, textValue := "NaN");
            var click := HandleButtonAction(OperatorButton("+", "add"));
      && ReduceReturnsInput(s, click)
      && InputAfterReduce(s, click) != s
  {
    var s := GetInitialState().(currentOperand := Entered("NaN", false), canEditCurrentValue := false, textValue := "NaN");
    assert !JsNumbers.StartsLiteral("NaN");
    InputChangedIff(s, HandleButtonAction(OperatorButton("+", "add")));
  }
}
