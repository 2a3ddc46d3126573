/**
 * An abstract view of the LLVM IR the emitter produces: typed function declarations,
 * basic blocks of calls and returns, and `i64` values built from constants by the ten
 * binary opcodes. The `IRBuilder` and the `llvm::Module` it fills are classes; the
 * evaluator gives each value the meaning LLVM's instruction semantics assign to it.
 */
module Ir {

  import opened Wrappers
  import opened Word

  datatype Opcode = Add | Sub | SDiv | Mul | SRem | Shl | LShr | And | Or | Xor

  /**
   * An `i64` value. With every operand a constant, the builder's constant folder turns
   * each operation into a constant expression; it is kept here as an unevaluated tree.
   */
  datatype Value =
    | Const(value: Int64)
    | Op(opcode: Opcode, lhs: Value, rhs: Value)

  datatype Type = I8Pointer | I32 | I64

  datatype Signature = Signature(result: Type, parameters: seq<Type>, variadic: bool)

  datatype Linkage = External

  datatype Instruction =
    | Call(callee: string, format: string, argument: Value)
    | Ret(code: int)

  datatype Block = Block(name: string, instructions: seq<Instruction>)

  /** A function of an IR unit; a declaration has no blocks. */
  datatype Function = Function(name: string, signature: Signature, linkage: Linkage, blocks: seq<Block>)

  /**
   * What one instruction computes on two bit patterns. Wrapping arithmetic for add, sub,
   * mul and shl (they carry no no-wrap flags); `None` where LLVM yields poison or undefined
   * behaviour: sdiv and srem by zero or of the minimum by -1, shifts by 64 or more.
   */
  function Apply(opcode: Opcode, a: Bits, b: Bits): Option<Bits> {
    match opcode
    case Add => Some(Truncate(a + b))
    case Sub => Some(Truncate(a - b))
    case Mul => Some(Multiply(a, b))
    case SDiv => if DivisionDefined(a, b) then Some(SignedDivide(a, b)) else None
    case SRem => if DivisionDefined(a, b) then Some(SignedRemainder(a, b)) else None
    case Shl => if b < 64 then Some(ShiftLeft(a, b)) else None
    case LShr => if b < 64 then Some(ShiftRight(a, b)) else None
    case And => Some(Word.And(a, b))
    case Or => Some(Word.Or(a, b))
    case Xor => Some(Word.Xor(a, b))
  }

  /** sdiv and srem are defined unless the divisor is 0, or the minimum is divided by -1. */
  predicate DivisionDefined(a: Bits, b: Bits) {
    Signed(b) != 0 && !(Signed(a) as int == -Half && Signed(b) == -1)
  }

  function Multiply(a: Bits, b: Bits): Bits {
    Truncate(a * b)
  }

  function SignedDivide(a: Bits, b: Bits): Bits
    requires DivisionDefined(a, b)
  {
    Truncate(TruncDiv(Signed(a) as int, Signed(b) as int))
  }

  function SignedRemainder(a: Bits, b: Bits): Bits
    requires DivisionDefined(a, b)
  {
    Truncate(TruncRem(Signed(a) as int, Signed(b) as int))
  }

  /** `shl`: the bits move up and the ones past bit 63 are lost. */
  function ShiftLeft(a: Bits, n: Bits): Bits
    requires n < 64
  {
    Truncate(a * Pow2(n))
  }

  /** `lshr`: the bits move down and zeros come in at the top (division by 2^n, see `Word.ShiftDownDivides`). */
  function ShiftRight(a: Bits, n: Bits): Bits
    requires n < 64
  {
    ShiftDown(a, n)
  }

  /** The bit pattern a value computes to, if it is defined. */
  function Eval(v: Value): Option<Bits> {
    match v
    case Const(x) => Some(Unsigned(x))
    case Op(opcode, lhs, rhs) =>
      match (Eval(lhs), Eval(rhs))
      case (Some(a), Some(b)) => Apply(opcode, a, b)
      case _ => None
  }

  /**
   * The `i64` arguments a straight-line block passes to its calls, up to its first `ret`;
   * `None` if one of them is undefined.
   */
  function Printed(instructions: seq<Instruction>): Option<seq<Int64>> {
    if instructions == [] then Some([])
    else match instructions[0]
      case Ret(_) => Some([])
      case Call(_, _, argument) =>
        match (Eval(argument), Printed(instructions[1..]))
        case (Some(x), Some(rest)) => Some([Signed(x)] + rest)
        case _ => None
  }

  /** The IR unit being filled: the functions it holds, in creation order. */
  class Unit {
    var functions: seq<Function>

    constructor ()
      ensures functions == []
    {
      functions := [];
    }

    method AddFunction(f: Function)
      modifies this
      ensures functions == old(functions) + [f]
    {
      functions := functions + [f];
    }
  }

  /**
   * An `IRBuilder<>`: the block at its insertion point, if any, and the log of the values
   * its create calls returned, in call order.
   */
  class Builder {
    var hasInsertPoint: bool
    var block: seq<Instruction>
    var created: seq<Value>

    constructor ()
      ensures !hasInsertPoint && block == [] && created == []
    {
      hasInsertPoint := false;
      block := [];
      created := [];
    }

    /** Points the builder at the end of a new, empty block. */
    method SetInsertPoint()
      modifies this
      ensures hasInsertPoint && block == [] && created == old(created)
    {
      hasInsertPoint := true;
      block := [];
    }

    method ClearInsertionPoint()
      modifies this
      ensures !hasInsertPoint && block == old(block) && created == old(created)
    {
      hasInsertPoint := false;
    }

    /** `getInt64`: a constant, inserted nowhere. */
    method GetInt64(x: Int64) returns (v: Value)
      modifies this
      ensures v == Const(x)
      ensures created == old(created) + [v]
      ensures block == old(block) && hasInsertPoint == old(hasInsertPoint)
    {
      v := Const(x);
      created := created + [v];
    }

    /** `CreateAdd`, `CreateSub`, ...: on constant operands the folder returns a constant expression. */
    method CreateOp(opcode: Opcode, lhs: Value, rhs: Value) returns (v: Value)
      modifies this
      ensures v == Op(opcode, lhs, rhs)
      ensures created == old(created) + [v]
      ensures block == old(block) && hasInsertPoint == old(hasInsertPoint)
    {
      v := Op(opcode, lhs, rhs);
      created := created + [v];
    }

    method CreateCall(callee: string, format: string, argument: Value)
      requires hasInsertPoint
      modifies this
      ensures block == old(block) + [Call(callee, format, argument)]
      ensures hasInsertPoint && created == old(created)
    {
      block := block + [Call(callee, format, argument)];
    }

    method CreateRet(code: int)
      requires hasInsertPoint
      modifies this
      ensures block == old(block) + [Ret(code)]
      ensures hasInsertPoint && created == old(created)
    {
      block := block + [Ret(code)];
    }
  }
}
