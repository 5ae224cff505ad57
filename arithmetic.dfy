/** The operation switch of `_checkOperation`. The arithmetic itself (converting
    both operands with `Number`, the IEEE double operation and `toString` of the
    answer) is not modelled: it is a parameter `arith` of type `Arith`. */
module Arithmetic {

  datatype Option<T> = None | Some(value: T)

  /** The four arithmetic cases of the switch. */
  datatype BinOp = Multiply | Add | Subtract | Divide

  /** Number(previous) op Number(current), converted back with toString. */
  type Arith = (BinOp, string, string) -> string

  const Obelus: string := "\U{F7}"

  /** The symbols the switch recognises: "x" and "*" multiply, "÷" and "/" divide. */
  const Recognised: set<string> := {"x", "*", "+", "-", Obelus, "/"}

  /** The case of the switch a stored operation selects; an unset operation
      (`undefined`) and every other symbol reach `default: return`. */
  function ParseOperation(operation: Option<string>): (r: Option<BinOp>)
    ensures r.Some? <==> operation.Some? && operation.value in Recognised
    ensures operation == Some("x") || operation == Some("*") ==> r == Some(Multiply)
    ensures operation == Some("+") ==> r == Some(Add)
    ensures operation == Some("-") ==> r == Some(Subtract)
    ensures operation == Some(Obelus) || operation == Some("/") ==> r == Some(Divide)
  {
    match operation
    case None => None
    case Some(sym) =>
      if sym == "x" || sym == "*" then Some(Multiply)
      else if sym == "+" then Some(Add)
      else if sym == "-" then Some(Subtract)
      else if sym == Obelus || sym == "/" then Some(Divide)
      else None
  }

  /** The symbol typed on the keyboard for each case. */
  function KeySymbol(k: BinOp): string
  {
    match k
    case Multiply => "*"
    case Add => "+"
    case Subtract => "-"
    case Divide => "/"
  }

  /** Every keyboard operator selects its own case of the switch, so the four
      cases are told apart. */
  lemma KeySymbolSelects(k: BinOp)
    ensures ParseOperation(Some(KeySymbol(k))) == Some(k)
    ensures KeySymbol(k) in Recognised
  {
  }

  /** The answer of the pending operation, or None when the switch reaches
      `default` and nothing is computed. */
  function Apply(arith: Arith, operation: Option<string>, previous: string, current: string): (r: Option<string>)
    ensures r.None? <==> operation.None? || operation.value !in Recognised
    ensures operation == Some("x") || operation == Some("*") ==> r == Some(arith(Multiply, previous, current))
    ensures operation == Some("+") ==> r == Some(arith(Add, previous, current))
    ensures operation == Some("-") ==> r == Some(arith(Subtract, previous, current))
    ensures operation == Some(Obelus) || operation == Some("/") ==> r == Some(arith(Divide, previous, current))
  {
    match ParseOperation(operation)
    case None => None
    case Some(k) => Some(arith(k, previous, current))
  }
}
