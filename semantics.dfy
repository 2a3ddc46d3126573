/**
 * The meaning of an expression as the language describes it: 64-bit integers with
 * wrap-around addition, subtraction and multiplication, signed truncating division and
 * remainder, a left shift and a logical right shift, and bitwise and, or and xor.
 * `None` marks the cases the compiled code leaves undefined: division or remainder by
 * zero, the minimum integer divided by -1, and shift amounts outside [0, 64).
 */
module Semantics {

  import opened Wrappers
  import opened Word
  import Ast

  function Quotient(a: Int64, b: Int64): (q: Int64)
    requires b != 0 && !(a as int == -Half && b == -1)
    ensures q as int == TruncDiv(a as int, b as int)
  {
    TruncDivInRange(a, b);
    TruncDiv(a as int, b as int) as Int64
  }

  function Remainder(a: Int64, b: Int64): (r: Int64)
    requires b != 0 && !(a as int == -Half && b == -1)
    ensures r as int == TruncRem(a as int, b as int)
  {
    TruncDivInRange(a, b);
    TruncRem(a as int, b as int) as Int64
  }

  /** `a << n`: the bits move up, the ones past bit 63 are lost. */
  function ShiftedLeft(a: Int64, n: nat): Int64
    requires n < 64
  {
    Wrap(a as int * Pow2(n))
  }

  /** `a >> n` as a logical shift: zeros come in at the top, whatever the sign. */
  function ShiftedRight(a: Int64, n: nat): Int64
    requires n < 64
  {
    Signed(ShiftDown(Unsigned(a), n))
  }

  function Apply(op: Ast.Operator, a: Int64, b: Int64): Option<Int64> {
    match op
    case Add => Some(Wrap(a as int + b as int))
    case Subtract => Some(Wrap(a as int - b as int))
    case Multiply => Some(Wrap(a as int * b as int))
    case Divide =>
      if b == 0 || (a as int == -Half && b == -1) then None else Some(Quotient(a, b))
    case Mod =>
      if b == 0 || (a as int == -Half && b == -1) then None else Some(Remainder(a, b))
    case ShiftLeft => if 0 <= b < 64 then Some(ShiftedLeft(a, b as nat)) else None
    case ShiftRight => if 0 <= b < 64 then Some(ShiftedRight(a, b as nat)) else None
    case BitAnd => Some(Signed(And(Unsigned(a), Unsigned(b))))
    case BitOr => Some(Signed(Or(Unsigned(a), Unsigned(b))))
    case BitXor => Some(Signed(Xor(Unsigned(a), Unsigned(b))))
  }

  /** The value of an expression, operands left to right. */
  function Value(e: Ast.Expression): Option<Int64> {
    match e
    case IntegerLiteral(_, value) => Some(value)
    case Binary(_, lhs, op, rhs) =>
      match (Value(lhs), Value(rhs))
      case (Some(a), Some(b)) => Apply(op, a, b)
      case _ => None
  }

  /**
   * What a program prints: the value of each top-level expression, in source order;
   * `None` if any of them is undefined.
   */
  function Program(expressions: seq<Ast.Expression>): Option<seq<Int64>> {
    if expressions == [] then Some([])
    else match (Value(expressions[0]), Program(expressions[1..]))
      case (Some(x), Some(rest)) => Some([x] + rest)
      case _ => None
  }
}
