/**
 * Key sequences from the reducer's test file, replayed on the model: each key
 * is the keypad button with that text, pressed from the store's initial state.
 */
module CalculatorScenarios {
  import opened Wrappers
  import opened JsNumbers
  import opened Operands
  import opened Calculator

  /** The keys of the keypad: the ten digits, the decimal point, the four operators and equals. */
  predicate IsKey(key: char) {
    IsDigit(key) || key == '.' || key == '/' || key == '*' || key == '-' || key == '+' || key == '='
  }

  /** The keypad button whose text is `key`. */
  function KeyButton(key: char): (b: Button)
    requires IsKey(key)
    ensures IsDigit(key) ==> b == Button([key], [key], NumberType, true)
  {
    if key == '.' then DecimalSeparator
    else if key == '=' then EqualsButton
    else if key == '/' then OperatorButton("/", "divide")
    else if key == '*' then OperatorButton("*", "multiply")
    else if key == '-' then OperatorButton("-", "substract")
    else if key == '+' then OperatorButton("+", "add")
    else Button([key], [key], NumberType, true)
  }

  /** Every key names a button of the initial keypad, as the tests' `getButton` requires. */
  lemma KeyButtonOnKeypad(key: char)
    requires IsKey(key)
    ensures KeyButton(key) in InitialButtons && KeyButton(key).text == [key]
  {
    if IsDigit(key) {
      var d := key as int - '0' as int;
      assert KeyButton(key) == NumberButton(d);
    }
  }

  function Press(s: State, key: char, arith: Arithmetic): State
    requires IsKey(key)
  {
    Reducer(Some(s), HandleButtonAction(KeyButton(key)), arith)
  }

  /** The state after the store's initialisation and one press per key. */
  function Typed(keys: string, arith: Arithmetic): State
    requires forall k :: k in keys ==> IsKey(k)
    decreases |keys|
  {
    if keys == [] then Reducer(None, UnknownAction("@@INIT"), arith)
    else Press(Typed(keys[..|keys| - 1], arith), keys[|keys| - 1], arith)
  }

  /** The operator keys. */
  predicate IsOperatorKey(key: char) {
    key == '+' || key == '-' || key == '*' || key == '/'
  }

  /** The operator a key names; digits, the point and equals name none. */
  function KeyOperator(key: char): Operator {
    if key == '+' then Add
    else if key == '-' then Substract
    else if key == '*' then Multiply
    else if key == '/' then Divide
    else Noop
  }

  /** The four registers a key acts on: current operand, other operand, pending operator, editing flag. */
  datatype Registers = Registers(current: Operand, other: Operand, operator: Operator, canEdit: bool)

  function RegistersOf(s: State): Registers {
    Registers(s.currentOperand, s.otherOperand, s.operator, s.canEditCurrentValue)
  }

  const StartRegisters := Registers(NullOperand, NullOperand, Noop, true)

  /** Both operands parse and an operator is pending. */
  predicate Ready(e: Registers) {
    e.current.IsValid() && e.other.IsValid() && e.operator != Noop
  }

  /**
   * What one key does to the registers, stated key by key: digits append while
   * editing, the point appends "." (or "0." to an empty operand) once, an
   * operator starts a negative number, chains, moves the operand aside or only
   * re-enables editing, and equals computes and locks editing.  A character
   * that is not on the keypad changes nothing.
   */
  function KeyEffect(e: Registers, key: char, arith: Arithmetic): Registers {
    if IsDigit(key) then
      if e.canEdit then e.(current := e.current.Concat([key])) else e
    else if key == '.' then
      if !e.current.HasDecimal() && e.canEdit then
        e.(current := e.current.Concat(if e.current.HasValue() then "." else "0."))
      else e
    else if key == '=' then
      if Ready(e) then Registers(Execute(e.operator, e.other, e.current, arith).value, NullOperand, Noop, false)
      else e
    else if IsOperatorKey(key) then
      var op := KeyOperator(key);
      if !e.current.HasValue() && op == Substract then e.(current := Entered("-", false), canEdit := true)
      else if Ready(e) then Registers(NullOperand, Execute(e.operator, e.other, e.current, arith).value, op, true)
      else if e.operator == Noop && e.current.IsValid() then Registers(NullOperand, e.current, op, true)
      else e.(canEdit := true)
    else e
  }

  /** The registers after `keys`, pressed one by one from the start registers. */
  function Keyed(keys: string, arith: Arithmetic): Registers
    decreases |keys|
  {
    if keys == [] then StartRegisters
    else KeyEffect(Keyed(keys[..|keys| - 1], arith), keys[|keys| - 1], arith)
  }

  /** A click on a key's button acts on the registers as `KeyEffect` says. */
  lemma ClickActsOnRegisters(s: State, key: char, arith: Arithmetic)
    requires IsKey(key)
    ensures KeyButton(key).kind == OperatorType ==> KeyButton(key).name in Operators
    ensures RegistersOf(HandleButtonClick(s, KeyButton(key), arith)) == KeyEffect(RegistersOf(s), key, arith)
  {
    if IsOperatorKey(key) {
      OperatorClickActsOnRegisters(s, key, arith);
    } else {
      assert KeyButton(key).kind != OperatorType;
    }
  }

  /** A click on an operator key's button acts on the registers as `KeyEffect` says. */
  lemma OperatorClickActsOnRegisters(s: State, key: char, arith: Arithmetic)
    requires IsOperatorKey(key)
    ensures KeyButton(key).kind == OperatorType && KeyButton(key).name in Operators
    ensures RegistersOf(HandleButtonClick(s, KeyButton(key), arith)) == KeyEffect(RegistersOf(s), key, arith)
  {
    var b := KeyButton(key);
    OperatorKeyNamed(key);
    assert !IsDigit(key) && key != '.' && key != '=';
    assert HandleButtonClick(s, b, arith) == HandleOperatorClick(s, b, arith);
  }

  /** An operator key's button names, in the operator registry, the operator `KeyOperator` gives. */
  lemma OperatorKeyNamed(key: char)
    requires IsOperatorKey(key)
    ensures KeyButton(key).kind == OperatorType && KeyButton(key).name in Operators
    ensures Operators[KeyButton(key).name] == KeyOperator(key)
  {
  }

  /**
   * A key press through the whole reducer acts on the registers exactly as
   * `KeyEffect` says: the keypad and the display play no part in it.
   */
  lemma PressActsOnRegisters(s: State, key: char, arith: Arithmetic)
    requires IsKey(key)
    ensures RegistersOf(Press(s, key, arith)) == KeyEffect(RegistersOf(s), key, arith)
  {
    ClickActsOnRegisters(s, key, arith);
    assert Reduce(Some(s), HandleButtonAction(KeyButton(key)), arith) == HandleButtonClick(s, KeyButton(key), arith);
  }

  /** Typing `keys` into the store leaves the registers that `Keyed` computes. */
  lemma {:induction false} TypedRegisters(keys: string, arith: Arithmetic)
    requires forall k :: k in keys ==> IsKey(k)
    ensures RegistersOf(Typed(keys, arith)) == Keyed(keys, arith)
    decreases |keys|
  {
    if keys != [] {
      var init := keys[..|keys| - 1];
      TypedRegisters(init, arith);
      PressActsOnRegisters(Typed(init, arith), keys[|keys| - 1], arith);
    }
  }

  lemma KeyedAppend(keys: string, key: char, arith: Arithmetic)
    ensures Keyed(keys + [key], arith) == KeyEffect(Keyed(keys, arith), key, arith)
  {
    assert (keys + [key])[..|keys|] == keys;
  }

  /** Appending `digits` to text `t` one key at a time never meets the single-"0" rule. */
  predicate NoZeroDropped(t: string, digits: string) {
    t != "0" && !(t == "" && digits != [] && digits[0] == '0')
  }

  /** Splitting off the last character of `b` and appending it again gives `a + b`. */
  lemma AppendLast(a: string, b: string)
    requires b != []
    ensures (a + b[..|b| - 1]) + [b[|b| - 1]] == a + b
  {
    assert b[..|b| - 1] + [b[|b| - 1]] == b;
  }

  /** A digit key pressed while editing appends the digit by `concat`; otherwise it changes nothing. */
  lemma DigitKey(e: Registers, d: char, arith: Arithmetic)
    requires IsDigit(d)
    ensures KeyEffect(e, d, arith) == if e.canEdit then e.(current := e.current.Concat([d])) else e
  {
  }

  /** A digit typed while editing onto any text but "0" is appended as it is. */
  lemma DigitStep(keys: string, d: char, arith: Arithmetic)
    requires IsDigit(d)
    requires Keyed(keys, arith).canEdit && Keyed(keys, arith).current.Text() != "0"
    ensures var e := Keyed(keys, arith);
            Keyed(keys + [d], arith) == e.(current := Entered(e.current.Text() + [d], e.current.HasDecimal()))
  {
    KeyedAppend(keys, d, arith);
    DigitKey(Keyed(keys, arith), d, arith);
  }

  /**
   * While editing is allowed, a run of digits that never meets the single-"0"
   * rule is appended to the current operand as it is, and nothing else changes.
   */
  lemma {:induction false} KeyedDigits(keys: string, digits: string, arith: Arithmetic)
    requires digits != [] && AllDigits(digits)
    requires Keyed(keys, arith).canEdit
    requires NoZeroDropped(Keyed(keys, arith).current.Text(), digits)
    ensures var e := Keyed(keys, arith);
            Keyed(keys + digits, arith) == e.(current := Entered(e.current.Text() + digits, e.current.HasDecimal()))
    decreases |digits|
  {
    var e := Keyed(keys, arith);
    var n := |digits| - 1;
    var front := digits[..n];
    if n == 0 {
      assert keys + digits == keys + [digits[0]];
      DigitStep(keys, digits[0], arith);
    } else {
      var t := e.current.Text() + front;
      assert Keyed(keys + front, arith) == e.(current := Entered(t, e.current.HasDecimal())) by {
        assert NoZeroDropped(e.current.Text(), front);
        KeyedDigits(keys, front, arith);
      }
      assert t != "0" by {
        if e.current.Text() == "" {
          assert t[0] == digits[0];
        }
      }
      DigitStep(keys + front, digits[n], arith);
      AppendLast(keys, digits);
      AppendLast(e.current.Text(), digits);
    }
  }

  /** Once the current operand is exactly "0", further zeros change nothing. */
  lemma {:induction false} ZerosKeepOneZero(keys: string, zeros: string, arith: Arithmetic)
    requires forall i :: 0 <= i < |zeros| ==> zeros[i] == '0'
    requires Keyed(keys, arith).canEdit && Keyed(keys, arith).current == Entered("0", false)
    ensures Keyed(keys + zeros, arith) == Keyed(keys, arith)
    decreases |zeros|
  {
    if zeros == [] {
      assert keys + [] == keys;
    } else {
      var n := |zeros| - 1;
      assert Keyed(keys + zeros[..n], arith) == Keyed(keys, arith) by {
        ZerosKeepOneZero(keys, zeros[..n], arith);
      }
      AppendLast(keys, zeros);
      KeyedAppend(keys + zeros[..n], '0', arith);
      DigitKey(Keyed(keys, arith), '0', arith);
    }
  }

  /** The first key acts on the start registers. */
  lemma KeyedFirst(key: char, arith: Arithmetic)
    ensures Keyed([key], arith) == KeyEffect(StartRegisters, key, arith)
  {
    assert [key][..0] == [];
  }

  /** Digits typed first, not starting with "0", become the current operand as they are. */
  lemma KeyedDigitsFromStart(digits: string, arith: Arithmetic)
    requires digits != [] && digits[0] != '0' && forall k :: k in digits ==> IsDigit(k)
    ensures Keyed(digits, arith) == Registers(Entered(digits, false), NullOperand, Noop, true)
  {
    assert [] + digits == digits;
    KeyedDigits([], digits, arith);
  }

  /** "9" is a current operand 9, with no operator and no other operand. */
  lemma SingleDigit(arith: Arithmetic)
    ensures Keyed("9", arith) == Registers(Entered("9", false), NullOperand, Noop, true)
    ensures ParseFloat("9") == Denoted("9")
  {
    KeyedDigitsFromStart("9", arith);
    ParseFloatInteger("9");
  }

  /** "000000" keeps a single "0". */
  lemma OnlyFirstZero(arith: Arithmetic)
    ensures Keyed("0" + "00000", arith) == Registers(Entered("0", false), NullOperand, Noop, true)
  {
    KeyedFirst('0', arith);
    var zero := Registers(Entered("0", false), NullOperand, Noop, true);
    assert NullOperand.Concat("0") == zero.current;
    ZerosKeepOneZero("0", "00000", arith);
  }

  /** Digits accumulate in the current operand, and the operand reads as the number they spell. */
  lemma MultipleDigits(arith: Arithmetic)
    ensures Keyed("92311654", arith) == Registers(Entered("92311654", false), NullOperand, Noop, true)
    ensures ParseFloat("92311654") == Denoted("92311654")
  {
    KeyedDigitsFromStart("92311654", arith);
    ParseFloatInteger("92311654");
  }

  /** A leading minus starts a negative current operand. */
  lemma NegativeNumber(arith: Arithmetic)
    ensures Keyed("-" + "92311654", arith) == Registers(Entered("-" + "92311654", false), NullOperand, Noop, true)
    ensures ParseFloat("-" + "92311654") == Denoted("-" + "92311654")
  {
    KeyedFirst('-', arith);
    assert Keyed("-", arith) == Registers(Entered("-", false), NullOperand, Noop, true);
    KeyedDigits("-", "92311654", arith);
    ParseFloatNegative("92311654");
  }

  /** A decimal point appends "." to a started operand and "0." to an empty one, once, while editing. */
  lemma PointKey(e: Registers, arith: Arithmetic)
    ensures KeyEffect(e, '.', arith) ==
              if !e.current.HasDecimal() && e.canEdit then
                e.(current := e.current.Concat(if e.current.HasValue() then "." else "0."))
              else e
  {
  }

  /** An operator with nothing pending moves a parsed current operand aside. */
  lemma OperatorMovesOperand(e: Registers, key: char, arith: Arithmetic)
    requires IsOperatorKey(key)
    requires e.operator == Noop && e.current.IsValid()
    ensures KeyEffect(e, key, arith) == Registers(NullOperand, e.current, KeyOperator(key), true)
  {
    assert !IsDigit(key) && key != '.' && key != '=';
    assert e.current.HasValue();
  }

  /** An operator with one pending and no current operand only re-enables editing (a minus starts a number). */
  lemma OperatorKeepsPending(e: Registers, key: char, arith: Arithmetic)
    requires IsOperatorKey(key) && key != '-'
    requires e.operator != Noop && !e.current.HasValue()
    ensures KeyEffect(e, key, arith) == e.(canEdit := true)
  {
    assert !IsDigit(key) && key != '.' && key != '=';
  }

  /** An operator after a current operand that does not parse only re-enables editing. */
  lemma OperatorAfterInvalid(e: Registers, key: char, arith: Arithmetic)
    requires IsOperatorKey(key)
    requires e.current.HasValue() && !e.current.IsValid()
    ensures KeyEffect(e, key, arith) == e.(canEdit := true)
  {
    assert !IsDigit(key) && key != '.' && key != '=';
  }

  /** An operator with both operands parsed and one pending chains: the result becomes the other operand. */
  lemma OperatorChains(e: Registers, key: char, arith: Arithmetic)
    requires IsOperatorKey(key) && Ready(e)
    ensures KeyEffect(e, key, arith) == Registers(NullOperand, Execute(e.operator, e.other, e.current, arith).value, KeyOperator(key), true)
  {
    assert !IsDigit(key) && key != '.' && key != '=';
    assert e.current.HasValue();
  }

  /** Equals with both operands parsed and an operator pending computes the result and locks editing. */
  lemma EqualsComputes(e: Registers, arith: Arithmetic)
    requires Ready(e)
    ensures KeyEffect(e, '=', arith) == Registers(Execute(e.operator, e.other, e.current, arith).value, NullOperand, Noop, false)
  {
  }

  /** "923." after "923": the point is appended and sets the decimal flag. */
  lemma PointAfter923(arith: Arithmetic)
    ensures Keyed("923" + ".", arith) == Registers(Entered("923" + ".", true), NullOperand, Noop, true)
  {
    assert Keyed("923", arith) == Registers(Entered("923", false), NullOperand, Noop, true) by {
      KeyedDigitsFromStart("923", arith);
    }
    KeyedAppend("923", '.', arith);
    PointKey(Keyed("923", arith), arith);
  }

  /** "923", a point and digits: the digits extend the fraction, and the text reads as the number it spells. */
  lemma FractionEntry(fraction: string, arith: Arithmetic)
    requires fraction != [] && AllDigits(fraction)
    ensures Keyed("923" + "." + fraction, arith) == Registers(Entered("923" + "." + fraction, true), NullOperand, Noop, true)
    ensures ParseFloat("923" + "." + fraction) == Denoted("923" + "." + fraction)
  {
    PointAfter923(arith);
    KeyedDigits("923" + ".", fraction, arith);
    ParseFloatFraction("923", fraction, []);
    assert "923" + "." + fraction + [] == "923" + "." + fraction;
  }

  /** A second decimal point is ignored: "923.116." holds the text "923.116". */
  lemma SecondPointIgnored(arith: Arithmetic)
    ensures Keyed("923" + "." + "116" + ".", arith) == Registers(Entered("923" + "." + "116", true), NullOperand, Noop, true)
  {
    var e := Registers(Entered("923" + "." + "116", true), NullOperand, Noop, true);
    FractionEntry("116", arith);
    KeyedAppend("923" + "." + "116", '.', arith);
    PointKey(e, arith);
  }

  /** The digits after an ignored point carry on the fraction: "923.116.54" holds the text "923.11654". */
  lemma OnlyFirstDecimalPoint(arith: Arithmetic)
    ensures Keyed("923" + "." + "116" + "." + "54", arith) == Registers(Entered("923" + "." + "116" + "54", true), NullOperand, Noop, true)
  {
    SecondPointIgnored(arith);
    KeyedDigits("923" + "." + "116" + ".", "54", arith);
  }

  /** Digits typed after an ignored second point still read as further fraction digits. */
  lemma SplitFractionReads(whole: string, first: string, second: string)
    requires whole != [] && AllDigits(whole)
    requires first != [] && AllDigits(first) && AllDigits(second)
    ensures ParseFloat(whole + "." + first + second) == Denoted(whole + "." + (first + second))
  {
    assert AllDigits(first + second) by {
      forall i | 0 <= i < |first + second| ensures IsDigit((first + second)[i]) {
        if i >= |first| { assert (first + second)[i] == second[i - |first|]; }
      }
    }
    ParseFloatFraction(whole, first + second, []);
    assert whole + "." + first + second == whole + "." + (first + second) + [];
  }

  /** The text "923.116" + "54" left by "923.116.54" reads as 923.11654. */
  lemma OnlyFirstDecimalPointReads()
    ensures ParseFloat("923" + "." + "116" + "54") == Denoted("923" + "." + "11654")
  {
    SplitFractionReads("923", "116", "54");
    assert "116" + "54" == "11654";
  }

  /** A number followed by an operator moves aside and leaves that operator pending. */
  lemma OperatorAfterNumber(op: char, arith: Arithmetic)
    requires IsOperatorKey(op)
    ensures Keyed("9" + [op], arith) == Registers(NullOperand, Entered("9", false), KeyOperator(op), true)
  {
    KeyedDigitsFromStart("9", arith);
    KeyedAppend("9", op, arith);
    ParseFloatInteger("9");
    OperatorMovesOperand(Keyed("9", arith), op, arith);
  }

  /** An operator after an operator is ignored: "966+*" keeps the addition pending. */
  lemma CannotChangeOperator(arith: Arithmetic)
    ensures Keyed("966" + "+" + "*", arith) == Registers(NullOperand, Entered("966", false), Add, true)
  {
    var e := Registers(NullOperand, Entered("966", false), Add, true);
    assert Keyed("966" + "+", arith) == e by {
      KeyedDigitsFromStart("966", arith);
      KeyedAppend("966", '+', arith);
      ParseFloatInteger("966");
      OperatorMovesOperand(Keyed("966", arith), '+', arith);
    }
    KeyedAppend("966" + "+", '*', arith);
    OperatorKeepsPending(e, '*', arith);
  }

  /** "+" on an empty calculator changes nothing. */
  lemma CannotStartWithOperator(arith: Arithmetic)
    ensures Keyed("+", arith) == StartRegisters
  {
    KeyedFirst('+', arith);
  }

  /** "-" on an empty calculator is the text "-", with no operator pending. */
  lemma CanStartWithMinus(arith: Arithmetic)
    ensures Keyed("-", arith) == Registers(Entered("-", false), NullOperand, Noop, true)
    ensures !Keyed("-", arith).current.IsValid()
  {
    KeyedFirst('-', arith);
  }

  /** Two numbers around an operator: the first is the other operand, the second the current one. */
  lemma NumberOperatorNumber(op: char, arith: Arithmetic)
    requires IsOperatorKey(op)
    ensures Keyed("9" + [op] + "100", arith) == Registers(Entered("100", false), Entered("9", false), KeyOperator(op), true)
  {
    OperatorAfterNumber(op, arith);
    KeyedDigits("9" + [op], "100", arith);
    assert [] + "100" == "100";
  }

  /** "9", an operator, "100" and "=" leave the result of that operator on 9 and 100, with editing locked. */
  lemma FullOperation(op: char, arith: Arithmetic)
    requires IsOperatorKey(op)
    ensures Keyed("9" + [op] + "100" + "=", arith) ==
              Registers(Entered(arith(KeyOperator(op), Denoted("9"), Denoted("100")), false), NullOperand, Noop, false)
  {
    var e := Registers(Entered("100", false), Entered("9", false), KeyOperator(op), true);
    NumberOperatorNumber(op, arith);
    ParseFloatInteger("9");
    ParseFloatInteger("100");
    KeyedAppend("9" + [op] + "100", '=', arith);
    EqualsComputes(e, arith);
  }

  /** An operator after "=" moves the result aside: "9+100=+" leaves 109 aside and the addition pending. */
  lemma OperatorAfterEquals(arith: Arithmetic)
    requires arith(Add, Denoted("9"), Denoted("100")) == "109"
    ensures Keyed("9" + "+" + "100" + "=" + "+", arith) == Registers(NullOperand, Entered("109", false), Add, true)
  {
    var r := Registers(Entered("109", false), NullOperand, Noop, false);
    assert Keyed("9" + "+" + "100" + "=", arith) == r by {
      FullOperation('+', arith);
    }
    ParseFloatInteger("109");
    KeyedAppend("9" + "+" + "100" + "=", '+', arith);
    OperatorMovesOperand(r, '+', arith);
  }

  /** After "9+100=+", "45" is the current operand with 109 aside. */
  lemma SecondOperandAfterEquals(arith: Arithmetic)
    requires arith(Add, Denoted("9"), Denoted("100")) == "109"
    ensures Keyed("9" + "+" + "100" + "=" + "+" + "45", arith) == Registers(Entered("45", false), Entered("109", false), Add, true)
  {
    OperatorAfterEquals(arith);
    KeyedDigits("9" + "+" + "100" + "=" + "+", "45", arith);
    assert [] + "45" == "45";
  }

  /** The calculation carries on from the result: "9+100=+45=" is (9 + 100) + 45. */
  lemma AddAfterEquals(arith: Arithmetic)
    requires arith(Add, Denoted("9"), Denoted("100")) == "109"
    requires arith(Add, Denoted("109"), Denoted("45")) == "154"
    ensures Keyed("9" + "+" + "100" + "=" + "+" + "45" + "=", arith) == Registers(Entered("154", false), NullOperand, Noop, false)
  {
    var e := Registers(Entered("45", false), Entered("109", false), Add, true);
    ParseFloatInteger("45");
    ParseFloatInteger("109");
    assert Execute(Add, e.other, e.current, arith).value == Entered("154", false);
    SecondOperandAfterEquals(arith);
    KeyedAppend("9" + "+" + "100" + "=" + "+" + "45", '=', arith);
    EqualsComputes(e, arith);
  }

  /** A second operator chains: "9+100+" leaves 109 aside and the addition pending. */
  lemma SecondOperatorChains(arith: Arithmetic)
    requires arith(Add, Denoted("9"), Denoted("100")) == "109"
    ensures Keyed("9" + "+" + "100" + "+", arith) == Registers(NullOperand, Entered("109", false), Add, true)
  {
    var e := Registers(Entered("100", false), Entered("9", false), Add, true);
    ParseFloatInteger("9");
    ParseFloatInteger("100");
    assert Execute(Add, e.other, e.current, arith).value == Entered("109", false);
    NumberOperatorNumber('+', arith);
    KeyedAppend("9" + "+" + "100", '+', arith);
    OperatorChains(e, '+', arith);
  }

  /** "9+100+45" leaves 109 aside, 45 current and the addition pending. */
  lemma ChainOperation(arith: Arithmetic)
    requires arith(Add, Denoted("9"), Denoted("100")) == "109"
    ensures Keyed("9" + "+" + "100" + "+" + "45", arith) == Registers(Entered("45", false), Entered("109", false), Add, true)
  {
    SecondOperatorChains(arith);
    KeyedDigits("9" + "+" + "100" + "+", "45", arith);
    assert [] + "45" == "45";
  }

  /** Without "=", "10/0" only leaves the division pending, with "0" as the current operand. */
  lemma DivideByZeroStaysPending(arith: Arithmetic)
    ensures Keyed("10" + "/" + "0", arith) == Registers(Entered("0", false), Entered("10", false), Divide, true)
  {
    var e := Registers(NullOperand, Entered("10", false), Divide, true);
    assert Keyed("10" + "/", arith) == e by {
      KeyedDigitsFromStart("10", arith);
      KeyedAppend("10", '/', arith);
      ParseFloatInteger("10");
      OperatorMovesOperand(Keyed("10", arith), '/', arith);
    }
    KeyedAppend("10" + "/", '0', arith);
    DigitKey(e, '0', arith);
    assert NullOperand.Concat("0") == Entered("0", false);
  }

  /**
   * An operator after "10/0" chains the division: its result (Infinity for
   * IEEE-754 doubles) becomes the other operand and the new operator is pending.
   */
  lemma DivideByZeroThenOperator(arith: Arithmetic)
    requires arith(Divide, Denoted("10"), Denoted("0")) == "Infinity"
    ensures Keyed("10" + "/" + "0" + "+", arith) == Registers(NullOperand, Entered("Infinity", false), Add, true)
  {
    var e := Registers(Entered("0", false), Entered("10", false), Divide, true);
    ParseFloatInteger("10");
    ParseFloatInteger("0");
    OperatorChains(e, '+', arith);
    assert Execute(Divide, Entered("10", false), Entered("0", false), arith).value == Entered("Infinity", false);
    DivideByZeroStaysPending(arith);
    KeyedAppend("10" + "/" + "0", '+', arith);
  }

  /** "10/0+5" ends with 5 current, the division's result aside and the addition pending, not with `noop`. */
  lemma DivideByZeroThenNumber(arith: Arithmetic)
    requires arith(Divide, Denoted("10"), Denoted("0")) == "Infinity"
    ensures Keyed("10" + "/" + "0" + "+" + "5", arith) == Registers(Entered("5", false), Entered("Infinity", false), Add, true)
  {
    DivideByZeroThenOperator(arith);
    KeyedDigits("10" + "/" + "0" + "+", "5", arith);
    assert [] + "5" == "5";
  }

  /** ".5." on an empty calculator: the first point types "0." without setting the decimal flag, so the second is taken too. */
  lemma PointOnEmptyOperand(arith: Arithmetic)
    ensures Keyed("." + "5" + ".", arith) == Registers(Entered("0." + "5" + ".", true), NullOperand, Noop, true)
  {
    var e := Registers(Entered("0.", false), NullOperand, Noop, true);
    assert Keyed(".", arith) == e by {
      KeyedFirst('.', arith);
      PointKey(StartRegisters, arith);
    }
    KeyedDigits(".", "5", arith);
    KeyedAppend("." + "5", '.', arith);
    PointKey(Registers(Entered("0." + "5", false), NullOperand, Noop, true), arith);
  }

  /** "0.5." reads as 0.5: `parseFloat` stops at the second point. */
  lemma PointOnEmptyOperandReads()
    ensures ParseFloat("0" + "." + "5" + ".") == Denoted("0" + "." + "5")
  {
    ParseFloatFraction("0", "5", ".");
  }

  /** "0/0" leaves 0 aside, 0 current and the division pending. */
  lemma ZeroOverZero(arith: Arithmetic)
    ensures Keyed("0" + "/" + "0", arith) == Registers(Entered("0", false), Entered("0", false), Divide, true)
  {
    var z := Registers(Entered("0", false), NullOperand, Noop, true);
    var d := Registers(NullOperand, Entered("0", false), Divide, true);
    assert NullOperand.Concat("0") == Entered("0", false);
    assert Keyed("0" + "/", arith) == d by {
      KeyedFirst('0', arith);
      ParseFloatInteger("0");
      KeyedAppend("0", '/', arith);
      OperatorMovesOperand(z, '/', arith);
    }
    KeyedAppend("0" + "/", '0', arith);
    DigitKey(d, '0', arith);
  }

  /**
   * A result that does not parse blocks the operators: when "0/0=" gives NaN,
   * a following "+" only re-enables editing and nothing is moved aside.
   */
  lemma InvalidResultBlocksOperator(arith: Arithmetic)
    requires arith(Divide, Denoted("0"), Denoted("0")) == "NaN"
    ensures Keyed("0" + "/" + "0" + "=" + "+", arith) == Registers(Entered("NaN", false), NullOperand, Noop, true)
  {
    var e := Registers(Entered("0", false), Entered("0", false), Divide, true);
    var r := Registers(Entered("NaN", false), NullOperand, Noop, false);
    assert Keyed("0" + "/" + "0" + "=", arith) == r by {
      ParseFloatInteger("0");
      EqualsComputes(e, arith);
      assert Execute(Divide, Entered("0", false), Entered("0", false), arith).value == Entered("NaN", false);
      ZeroOverZero(arith);
      KeyedAppend("0" + "/" + "0", '=', arith);
    }
    assert !r.current.IsValid() by {
      assert !StartsLiteral("NaN");
    }
    KeyedAppend("0" + "/" + "0" + "=", '+', arith);
    OperatorAfterInvalid(r, '+', arith);
  }
}
