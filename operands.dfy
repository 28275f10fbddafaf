/**
 * Operands and operators of the calculator (Calculator.ts, lines 18-101).
 */
module Operands {
  import opened Wrappers
  import opened JsNumbers

  /** The operators of the registry; `Noop` is the sentinel for "no pending operation". */
  datatype Operator = Add | Substract | Multiply | Divide | Noop {

    /** The symbol shown after the first operand on the secondary display. */
    function Text(): string {
      match this
      case Add => "+"
      case Substract => "-"
      case Multiply => "*"
      case Divide => "/"
      case Noop => ""
    }
  }

  /** The registry of operators, keyed by the name of the button that selects them. */
  const Operators: map<string, Operator> :=
    map["add" := Add, "substract" := Substract, "multiply" := Multiply, "divide" := Divide, "noop" := Noop]

  /**
   * The floating-point arithmetic of the JavaScript runtime: applies an
   * operator (other than `Noop`) to two parsed numbers and renders the result
   * with `Number.prototype.toString`, giving texts such as "109", "0.09",
   * "Infinity" or "NaN".
   */
  type Arithmetic = (Operator, JsNumber, JsNumber) -> string

  /**
   * A number being entered or computed, kept as the text that denotes it.
   * `NullOperand` is the operand built from `null`: it has no value, no
   * decimal point and empty text.
   */
  datatype Operand = NullOperand | Entered(raw: string, decimal: bool) {

    predicate HasValue() {
      Entered?
    }

    predicate HasDecimal() {
      Entered? && decimal
    }

    /** The text the operand holds; empty for `NullOperand`. */
    function Text(): string {
      if Entered? then raw else ""
    }

    /** `isValid`: the text does not parse to NaN. */
    predicate IsValid()
      ensures IsValid() ==> HasValue()
    {
      ParsesAsNumber(Text())
    }

    /** The `value` getter: parses the text, and throws when there is no value. */
    function Value(): (r: Result<JsNumber, string>)
      ensures r.Failure? <==> !HasValue()
      ensures r.Success? ==> (r.value.Denoted? <==> IsValid())
    {
      if Entered? then Success(ParseFloat(raw)) else Failure("Null reference exception")
    }

    /** The `stringValue` getter: the text verbatim, or "" for an operand without value. */
    function StringValue(): (s: string)
      ensures HasValue() ==> s == Text()
      ensures !HasValue() ==> s == ""
    {
      if Entered? then "" + raw else ""
    }

    /**
     * `concat`: appends `character`, except that a "0" typed onto the text "0"
     * is dropped.  The decimal flag is set only when the appended text is
     * exactly ".".
     */
    function Concat(character: string): (o: Operand)
      ensures o.HasValue()
      ensures o.HasDecimal() <==> HasDecimal() || character == "."
      ensures Text() <= o.Text()
      ensures o.Text() == Text() <==> character == "" || (Text() == "0" && character == "0")
      ensures !(Text() == "0" && character == "0") ==> o.Text() == Text() + character
      ensures Text() == "0" && character == "0" ==> o == Entered("0", HasDecimal())
    {
      var c := if Text() == "0" && character == "0" then "" else character;
      assert Text() + c == Text() ==> c == [] by {
        if Text() + c == Text() { assert |Text() + c| == |Text()|; }
      }
      Entered(Text() + c, HasDecimal() || c == ".")
    }
  }

  /** `Operator.execute`: applies the operator and wraps the rendered result in a new operand without decimal flag. */
  function Execute(op: Operator, left: Operand, right: Operand, arith: Arithmetic): (r: Result<Operand, string>)
    ensures r.Success? <==> op != Noop && left.HasValue() && right.HasValue()
    ensures r.Success? ==> r.value.HasValue() && !r.value.HasDecimal()
    ensures r.Success? ==> r.value.Text() == arith(op, left.Value().value, right.Value().value)
  {
    if op == Noop then
      Failure("Invalid operation")
    else
      match (left.Value(), right.Value())
      case (Success(l), Success(r)) => Success(Entered(arith(op, l, r), false))
      case _ => Failure("Null reference exception")
  }
}
