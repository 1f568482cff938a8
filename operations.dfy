/**
  The operator vocabulary of the calculator: the four arithmetic operations,
  their one-character symbols, the throwing `calculate`, and the token type
  that an expression is built from.
 */
module Operations {
  import opened Wrappers

  /** The four operations; each has a one-character raw value. */
  datatype Operation = Add | Subtract | Multiply | Divide

  /** The only way `calculate` can fail. */
  datatype CalculationError = DividedByZero

  /** One token of an expression: an operand or an operator. */
  datatype HistoryItem = Number(value: real) | Op(op: Operation)

  /** The raw values accepted by the operation initialiser. */
  const Symbols: set<string> := {"+", "-", "x", "/"}

  /** The raw value (symbol) of an operation. */
  function RawValue(op: Operation): (s: string)
    ensures s in Symbols
  {
    match op
    case Add => "+"
    case Subtract => "-"
    case Multiply => "x"
    case Divide => "/"
  }

  /**
    The failable initialiser from a raw value: it recognises exactly the four
    symbols, and it inverts `RawValue` in both directions.
   */
  function ParseOperation(s: string): (r: Option<Operation>)
    ensures r.Some? <==> s in Symbols
    ensures r.Some? ==> RawValue(r.value) == s
    ensures forall op :: RawValue(op) == s ==> r == Some(op)
  {
    if s == "+" then Some(Add)
    else if s == "-" then Some(Subtract)
    else if s == "x" then Some(Multiply)
    else if s == "/" then Some(Divide)
    else None
  }

  /**
    `calculate(number1, number2)`: fails exactly on an exact-zero divisor of a
    division; otherwise the result is the one the operation's inverse recovers
    the first operand from.
   */
  function Apply(op: Operation, a: real, b: real): (r: Result<real, CalculationError>)
    ensures r.Failure? <==> op == Divide && b == 0.0
    ensures r.Success? && op == Add ==> r.value - b == a
    ensures r.Success? && op == Subtract ==> r.value + b == a
    ensures r.Success? && op == Multiply && b != 0.0 ==> r.value / b == a
    ensures r.Success? && op == Multiply && b == 0.0 ==> r.value == 0.0
    ensures r.Success? && op == Divide ==> r.value * b == a
  {
    match op
    case Add => Success(a + b)
    case Subtract => Success(a - b)
    case Multiply =>
      MultiplyUndoneByDivide(a, b);
      Success(a * b)
    case Divide => if b == 0.0 then Failure(DividedByZero) else Success(a / b)
  }

  /** Dividing a product by its non-zero factor gives the other factor back. */
  lemma MultiplyUndoneByDivide(a: real, b: real)
    ensures b != 0.0 ==> (a * b) / b == a
  {
  }
}
