/**
 * Lowering the syntax tree to IR. Each expression is lowered by a fresh `Emitter`, which
 * dispatches on the expression's variant, lowers a binary node's operands left before
 * right, and applies the one opcode its operator maps to. `Emit` builds the program's
 * `main` routine: one `printf` call per top-level expression, in order, then `ret 0`.
 */
module Emitter {

  import opened Wrappers
  import opened Word
  import Ast
  import Ir
  import Semantics
  import SourceFile

  /** The opcode each operator lowers to; division and remainder are signed, the right shift logical. */
  function OpcodeOf(op: Ast.Operator): Ir.Opcode {
    match op
    case Add => Ir.Add
    case Subtract => Ir.Sub
    case Divide => Ir.SDiv
    case Multiply => Ir.Mul
    case Mod => Ir.SRem
    case ShiftLeft => Ir.Shl
    case ShiftRight => Ir.LShr
    case BitAnd => Ir.And
    case BitOr => Ir.Or
    case BitXor => Ir.Xor
  }

  /** Distinct operators lower to distinct opcodes. */
  lemma OpcodeOfInjective(a: Ast.Operator, b: Ast.Operator)
    requires OpcodeOf(a) == OpcodeOf(b)
    ensures a == b
  {
  }

  /** The IR value an expression lowers to: a literal to an `i64` constant of the same value. */
  function Lower(e: Ast.Expression): Ir.Value {
    match e
    case IntegerLiteral(_, value) => Ir.Const(value)
    case Binary(_, lhs, op, rhs) => Ir.Op(OpcodeOf(op), Lower(lhs), Lower(rhs))
  }

  /** `handle_binary` as a value: the operator's opcode on the lowered operands. */
  function LowerBinary(e: Ast.Expression): Ir.Value {
    if e.Binary? then Ir.Op(OpcodeOf(e.op), Lower(e.lhs), Lower(e.rhs)) else Lower(e)
  }

  /** `handle_integer_literal` as a value: the literal's `i64` constant. */
  function LowerIntegerLiteral(e: Ast.Expression): Ir.Value {
    if e.IntegerLiteral? then Ir.Const(e.value) else Lower(e)
  }

  /** The emitter seen as an `Expression::Handler` over IR values. */
  const Lowering: Ast.Handler<Ir.Value> := Ast.Handler(LowerBinary, LowerIntegerLiteral)

  /** Lowering is `Expression::handle` with the emitter as the handler, at every node. */
  lemma {:induction false} LowerDispatches(e: Ast.Expression)
    ensures Lower(e) == Ast.Handle(e, Lowering)
    ensures e.Binary? ==> Ast.Handle(e, Lowering) == Ir.Op(OpcodeOf(e.op), Ast.Handle(e.lhs, Lowering), Ast.Handle(e.rhs, Lowering))
  {
    if e.Binary? {
      LowerDispatches(e.lhs);
      LowerDispatches(e.rhs);
    }
  }

  /** The values the builder hands out while lowering `e`, in the order it hands them out. */
  function Creations(e: Ast.Expression): seq<Ir.Value> {
    match e
    case IntegerLiteral(_, value) => [Ir.Const(value)]
    case Binary(_, lhs, op, rhs) => Creations(lhs) + Creations(rhs) + [Lower(e)]
  }

  /**
   * Lowering creates one value per node, the expression's own value last; in a binary
   * node the left operand's value is complete before any value of the right operand is
   * created.
   */
  lemma {:induction false} CreationOrder(e: Ast.Expression)
    ensures |Creations(e)| == Ast.Size(e)
    ensures Creations(e)[|Creations(e)| - 1] == Lower(e)
    ensures e.Binary? ==>
              var left := |Creations(e.lhs)|;
              var right := |Creations(e.rhs)|;
              Creations(e)[..left] == Creations(e.lhs) &&
              Creations(e)[left - 1] == Lower(e.lhs) &&
              Creations(e)[left..left + right] == Creations(e.rhs) &&
              Creations(e)[left + right - 1] == Lower(e.rhs)
  {
    match e
    case IntegerLiteral(_, _) =>
    case Binary(_, lhs, _, rhs) =>
      CreationOrder(lhs);
      CreationOrder(rhs);
      var c := Creations(e);
      assert c == Creations(lhs) + Creations(rhs) + [Lower(e)];
      assert c[..|Creations(lhs)|] == Creations(lhs);
      assert c[|Creations(lhs)|..|Creations(lhs)| + |Creations(rhs)|] == Creations(rhs);
  }

  /** Lowering preserves meaning: the IR value computes the expression's 64-bit value. */
  lemma {:induction false} LowerCorrect(e: Ast.Expression)
    ensures Ir.Eval(Lower(e)) ==
            match Semantics.Value(e)
            case None => None
            case Some(x) => Some(Unsigned(x))
  {
    match e
    case IntegerLiteral(_, _) =>
    case Binary(_, lhs, op, rhs) =>
      LowerCorrect(lhs);
      LowerCorrect(rhs);
      match (Semantics.Value(lhs), Semantics.Value(rhs))
      case (Some(a), Some(b)) => ApplyCorrect(op, a, b);
      case _ =>
  }

  /** Each opcode computes, on bit patterns, what its operator means on signed integers. */
  lemma ApplyCorrect(op: Ast.Operator, a: Int64, b: Int64)
    ensures Ir.Apply(OpcodeOf(op), Unsigned(a), Unsigned(b)) ==
            match Semantics.Apply(op, a, b)
            case None => None
            case Some(x) => Some(Unsigned(x))
  {
    match op
    case Add => AddCorrect(a, b);
    case Subtract => SubtractCorrect(a, b);
    case Multiply => MultiplyCorrect(a, b);
    case Divide => DivideCorrect(a, b);
    case Mod => ModCorrect(a, b);
    case ShiftLeft => ShiftLeftCorrect(a, b);
    case ShiftRight => ShiftRightCorrect(a, b);
    case BitAnd => UnsignedSigned(Word.And(Unsigned(a), Unsigned(b)));
    case BitOr => UnsignedSigned(Word.Or(Unsigned(a), Unsigned(b)));
    case BitXor => UnsignedSigned(Word.Xor(Unsigned(a), Unsigned(b)));
  }

  lemma AddCorrect(a: Int64, b: Int64)
    ensures Ir.Apply(Ir.Add, Unsigned(a), Unsigned(b)) == Some(Unsigned(Wrap(a as int + b as int)))
  {
    TruncateCongruent(a as int + b as int, Unsigned(a) + Unsigned(b));
    UnsignedWrap(a as int + b as int);
  }

  lemma SubtractCorrect(a: Int64, b: Int64)
    ensures Ir.Apply(Ir.Sub, Unsigned(a), Unsigned(b)) == Some(Unsigned(Wrap(a as int - b as int)))
  {
    TruncateCongruent(a as int - b as int, Unsigned(a) - Unsigned(b));
    UnsignedWrap(a as int - b as int);
  }

  lemma MultiplyCorrect(a: Int64, b: Int64)
    ensures Ir.Apply(Ir.Mul, Unsigned(a), Unsigned(b)) == Some(Unsigned(Wrap(a as int * b as int)))
  {
    MultiplyCongruent(a, Unsigned(b) as int);
    MultiplyCongruent(b, a as int);
    assert Unsigned(b) as int * a as int == a as int * Unsigned(b) as int;
    assert b as int * a as int == a as int * b as int;
    UnsignedWrap(a as int * b as int);
  }

  lemma DivideCorrect(a: Int64, b: Int64)
    ensures Ir.Apply(Ir.SDiv, Unsigned(a), Unsigned(b)) ==
            match Semantics.Apply(Ast.Divide, a, b)
            case None => None
            case Some(x) => Some(Unsigned(x))
  {
    SignedUnsigned(a);
    SignedUnsigned(b);
    if b != 0 && !(a as int == -Half && b == -1) {
      UnsignedInRange(Semantics.Quotient(a, b));
    }
  }

  lemma ModCorrect(a: Int64, b: Int64)
    ensures Ir.Apply(Ir.SRem, Unsigned(a), Unsigned(b)) ==
            match Semantics.Apply(Ast.Mod, a, b)
            case None => None
            case Some(x) => Some(Unsigned(x))
  {
    SignedUnsigned(a);
    SignedUnsigned(b);
    if b != 0 && !(a as int == -Half && b == -1) {
      UnsignedInRange(Semantics.Remainder(a, b));
    }
  }

  lemma ShiftLeftCorrect(a: Int64, b: Int64)
    ensures Ir.Apply(Ir.Shl, Unsigned(a), Unsigned(b)) ==
            match Semantics.Apply(Ast.ShiftLeft, a, b)
            case None => None
            case Some(x) => Some(Unsigned(x))
  {
    if 0 <= b < 64 {
      MultiplyCongruent(a, Pow2(b as nat));
      UnsignedWrap(a as int * Pow2(b as nat));
    }
  }

  lemma ShiftRightCorrect(a: Int64, b: Int64)
    ensures Ir.Apply(Ir.LShr, Unsigned(a), Unsigned(b)) ==
            match Semantics.Apply(Ast.ShiftRight, a, b)
            case None => None
            case Some(x) => Some(Unsigned(x))
  {
    if 0 <= b < 64 {
      var n := b as nat;
      assert Unsigned(b) == n;
      assert Ir.ShiftRight(Unsigned(a), n) == ShiftDown(Unsigned(a), n);
      UnsignedSigned(ShiftDown(Unsigned(a), n));
      assert Semantics.Apply(Ast.ShiftRight, a, b) == Some(Semantics.ShiftedRight(a, n));
    } else {
      assert Unsigned(b) >= 64;
    }
  }

  lemma TruncateCongruent(x: int, y: int)
    requires (x - y) % Modulus == 0
    ensures Truncate(x) == Truncate(y)
  {
    var k := (x - y) / Modulus;
    assert x == y + k * Modulus;
    ModShift(y, k);
  }

  lemma ModShift(y: int, k: int)
    ensures (y + k * Modulus) % Modulus == y % Modulus
  {
  }

  /** Replacing a factor by its bit pattern does not change the product modulo 2^64. */
  lemma MultiplyCongruent(a: Int64, c: int)
    ensures Truncate(Unsigned(a) * c) == Truncate(a as int * c)
  {
    if a < 0 {
      assert Unsigned(a) * c == a as int * c + c * Modulus;
      ModShift(a as int * c, c);
    }
  }

  lemma UnsignedWrap(x: int)
    ensures Unsigned(Wrap(x)) == Truncate(x)
  {
    UnsignedSigned(Truncate(x));
  }

  lemma UnsignedInRange(x: Int64)
    ensures Unsigned(x) == Truncate(x as int)
  {
  }

  /**
   * The state of the C++ `Emitter`: the builder it appends to and the result the handler
   * for the expression's variant stores.
   */
  class Emitter {
    const builder: Ir.Builder
    var result: Option<Ir.Value>

    constructor (builder: Ir.Builder)
      ensures this.builder == builder && result == None
    {
      this.builder := builder;
      result := None;
    }

    /** Dispatches on the variant of `e`; the handler always sets a result. */
    method Emit(e: Ast.Expression) returns (v: Ir.Value)
      modifies this, builder
      ensures v == Lower(e) && result == Some(v)
      ensures builder.created == old(builder.created) + Creations(e)
      ensures builder.block == old(builder.block) && builder.hasInsertPoint == old(builder.hasInsertPoint)
      decreases e, 1
    {
      match e {
        case Binary(_, _, _, _) => HandleBinary(e);
        case IntegerLiteral(_, _) => HandleIntegerLiteral(e);
      }
      v := result.value;
    }

    method HandleBinary(e: Ast.Expression)
      requires e.Binary?
      modifies this, builder
      ensures result == Some(Lower(e))
      ensures builder.created == old(builder.created) + Creations(e)
      ensures builder.block == old(builder.block) && builder.hasInsertPoint == old(builder.hasInsertPoint)
      decreases e, 0
    {
      var lhs := EmitExpression(builder, e.lhs);
      var rhs := EmitExpression(builder, e.rhs);
      var opcode: Ir.Opcode;
      match e.op {
        case Add => opcode := Ir.Add;
        case Subtract => opcode := Ir.Sub;
        case Divide => opcode := Ir.SDiv;
        case Multiply => opcode := Ir.Mul;
        case Mod => opcode := Ir.SRem;
        case ShiftLeft => opcode := Ir.Shl;
        case ShiftRight => opcode := Ir.LShr;
        case BitAnd => opcode := Ir.And;
        case BitOr => opcode := Ir.Or;
        case BitXor => opcode := Ir.Xor;
      }
      var v := builder.CreateOp(opcode, lhs, rhs);
      result := Some(v);
    }

    method HandleIntegerLiteral(e: Ast.Expression)
      requires e.IntegerLiteral?
      modifies this, builder
      ensures result == Some(Lower(e))
      ensures builder.created == old(builder.created) + Creations(e)
      ensures builder.block == old(builder.block) && builder.hasInsertPoint == old(builder.hasInsertPoint)
      decreases e, 0
    {
      var v := builder.GetInt64(e.value);
      result := Some(v);
    }
  }

  /** `emit_expression`: lowers `e` with a fresh emitter, so no state carries over. */
  method EmitExpression(builder: Ir.Builder, e: Ast.Expression) returns (v: Ir.Value)
    modifies builder
    ensures v == Lower(e)
    ensures builder.created == old(builder.created) + Creations(e)
    ensures builder.block == old(builder.block) && builder.hasInsertPoint == old(builder.hasInsertPoint)
    decreases e, 2
  {
    var emitter := new Emitter(builder);
    v := emitter.Emit(e);
  }

  const Format: string := "%d\n"

  /** The external variadic `printf(i8*, ...) -> i32`. */
  const Printf: Ir.Function :=
    Ir.Function("printf", Ir.Signature(Ir.I32, [Ir.I8Pointer], true), Ir.External, [])

  /** One `printf` call per expression, in order, each with the shared format. */
  function Prints(expressions: seq<Ast.Expression>): seq<Ir.Instruction> {
    if expressions == [] then []
    else [Ir.Call("printf", Format, Lower(expressions[0]))] + Prints(expressions[1..])
  }

  lemma {:induction false} PrintsAppend(expressions: seq<Ast.Expression>, e: Ast.Expression)
    ensures Prints(expressions + [e]) == Prints(expressions) + [Ir.Call("printf", Format, Lower(e))]
  {
    if expressions != [] {
      assert (expressions + [e])[1..] == expressions[1..] + [e];
      PrintsAppend(expressions[1..], e);
    }
  }

  lemma {:induction false} PrintsAt(expressions: seq<Ast.Expression>, i: nat)
    requires i < |expressions|
    ensures |Prints(expressions)| == |expressions|
    ensures Prints(expressions)[i] == Ir.Call("printf", Format, Lower(expressions[i]))
  {
    if i > 0 {
      PrintsAt(expressions[1..], i - 1);
    } else if |expressions| > 1 {
      PrintsAt(expressions[1..], 0);
    }
  }

  /** The `main` routine the module lowers to: no parameters, an `i32` result, one block. */
  function Main(ast: Ast.Module): Ir.Function {
    Ir.Function("main", Ir.Signature(Ir.I32, [], false), Ir.External,
                [Ir.Block("", Prints(ast.expressions) + [Ir.Ret(0)])])
  }

  /**
   * `emit`: declares `printf`, then builds `main` in a single block, one print per
   * top-level expression and a final `ret 0`, and clears the insertion point. It never
   * fails: the verifier's verdict is not looked at.
   */
  method Emit(ast: Ast.Module, unit: Ir.Unit) returns (main: Ir.Function)
    modifies unit
    ensures main == Main(ast)
    ensures unit.functions == old(unit.functions) + [Printf, main]
  {
    var builder := new Ir.Builder();
    unit.AddFunction(Printf);
    builder.SetInsertPoint();
    var i := 0;
    while i < |ast.expressions|
      invariant i <= |ast.expressions|
      invariant builder.hasInsertPoint
      invariant builder.block == Prints(ast.expressions[..i])
      invariant unit.functions == old(unit.functions) + [Printf]
    {
      var value := EmitExpression(builder, ast.expressions[i]);
      builder.CreateCall("printf", Format, value);
      PrintsAppend(ast.expressions[..i], ast.expressions[i]);
      assert ast.expressions[..i + 1] == ast.expressions[..i] + [ast.expressions[i]];
      i := i + 1;
    }
    assert ast.expressions[..i] == ast.expressions;
    builder.CreateRet(0);
    builder.ClearInsertionPoint();
    main := Ir.Function("main", Ir.Signature(Ir.I32, [], false), Ir.External, [Ir.Block("", builder.block)]);
    unit.AddFunction(main);
  }

  /**
   * The shape of `main`: named `main`, no parameters, returning `i32`, a single block
   * holding one call per top-level expression, in module order, each passing the shared
   * format and that expression's lowered value, then `ret 0`.
   */
  lemma MainShape(ast: Ast.Module, i: nat)
    requires i < |ast.expressions|
    ensures var f := Main(ast);
            f.name == "main" && f.signature == Ir.Signature(Ir.I32, [], false) &&
            |f.blocks| == 1 &&
            |f.blocks[0].instructions| == |ast.expressions| + 1 &&
            f.blocks[0].instructions[i] == Ir.Call("printf", Format, Lower(ast.expressions[i])) &&
            f.blocks[0].instructions[|ast.expressions|] == Ir.Ret(0)
  {
    PrintsAt(ast.expressions, i);
  }

  /** An empty module lowers to a `main` that only returns 0. */
  lemma EmptyMain(ast: Ast.Module)
    requires ast.expressions == []
    ensures Main(ast).blocks == [Ir.Block("", [Ir.Ret(0)])]
  {
    assert Prints(ast.expressions) + [Ir.Ret(0)] == [Ir.Ret(0)];
  }

  /** Running `main` prints the value of every top-level expression, in source order. */
  lemma {:induction false} MainPrintsProgram(expressions: seq<Ast.Expression>)
    ensures Ir.Printed(Prints(expressions) + [Ir.Ret(0)]) == Semantics.Program(expressions)
  {
    if expressions != [] {
      var rest := Prints(expressions[1..]) + [Ir.Ret(0)];
      assert Prints(expressions) + [Ir.Ret(0)] == [Ir.Call("printf", Format, Lower(expressions[0]))] + rest;
      assert (Prints(expressions) + [Ir.Ret(0)])[1..] == rest;
      MainPrintsProgram(expressions[1..]);
      LowerCorrect(expressions[0]);
      match Semantics.Value(expressions[0])
      case None =>
      case Some(x) => SignedUnsigned(x);
    }
  }

  /** `42` prints 42. */
  lemma PrintsLiteral(at: SourceFile.Location)
    ensures Ir.Printed(Main(Ast.Module(at, at.file, [Ast.IntegerLiteral(at, 42)])).blocks[0].instructions) ==
            Some([42])
  {
    var program := [Ast.IntegerLiteral(at, 42)];
    MainPrintsProgram(program);
    ProgramCons(program[0], []);
    assert program == [program[0]] + [];
    assert [42 as Int64] + [] == [42];
  }

  /** `2 + 3 * 4` prints 14, `1 - 2` prints -1, and `-8 >> 1` shifts in a zero bit: 2^63 - 4. */
  lemma PrintsArithmetic(at: SourceFile.Location)
    ensures var sum := Ast.Binary(at, Ast.IntegerLiteral(at, 2), Ast.Add,
                                  Ast.Binary(at, Ast.IntegerLiteral(at, 3), Ast.Multiply, Ast.IntegerLiteral(at, 4)));
            var difference := Ast.Binary(at, Ast.IntegerLiteral(at, 1), Ast.Subtract, Ast.IntegerLiteral(at, 2));
            var shift := Ast.Binary(at, Ast.IntegerLiteral(at, -8), Ast.ShiftRight, Ast.IntegerLiteral(at, 1));
            Ir.Printed(Main(Ast.Module(at, at.file, [sum, difference, shift])).blocks[0].instructions) ==
            Some([14, -1, 0x7FFF_FFFF_FFFF_FFFC])
  {
    var sum := Ast.Binary(at, Ast.IntegerLiteral(at, 2), Ast.Add,
                          Ast.Binary(at, Ast.IntegerLiteral(at, 3), Ast.Multiply, Ast.IntegerLiteral(at, 4)));
    var difference := Ast.Binary(at, Ast.IntegerLiteral(at, 1), Ast.Subtract, Ast.IntegerLiteral(at, 2));
    var shift := Ast.Binary(at, Ast.IntegerLiteral(at, -8), Ast.ShiftRight, Ast.IntegerLiteral(at, 1));
    var program := [sum, difference, shift];
    MainPrintsProgram(program);
    SumValue(at);
    DifferenceValue(at);
    ShiftValue(at);
    ProgramCons(shift, []);
    ProgramCons(difference, [shift]);
    ProgramCons(sum, [difference, shift]);
    assert [shift] == [shift] + [];
    assert [difference, shift] == [difference] + [shift];
    assert program == [sum] + [difference, shift];
    assert [0x7FFF_FFFF_FFFF_FFFC as Int64] + [] == [0x7FFF_FFFF_FFFF_FFFC];
    assert [-1 as Int64] + [0x7FFF_FFFF_FFFF_FFFC] == [-1, 0x7FFF_FFFF_FFFF_FFFC];
    assert [14 as Int64] + [-1, 0x7FFF_FFFF_FFFF_FFFC] == [14, -1, 0x7FFF_FFFF_FFFF_FFFC];
  }

  lemma SumValue(at: SourceFile.Location)
    ensures Semantics.Value(Ast.Binary(at, Ast.IntegerLiteral(at, 2), Ast.Add,
              Ast.Binary(at, Ast.IntegerLiteral(at, 3), Ast.Multiply, Ast.IntegerLiteral(at, 4)))) == Some(14)
  {
    var product := Ast.Binary(at, Ast.IntegerLiteral(at, 3), Ast.Multiply, Ast.IntegerLiteral(at, 4));
    assert Semantics.Value(product) == Some(12);
  }

  lemma DifferenceValue(at: SourceFile.Location)
    ensures Semantics.Value(Ast.Binary(at, Ast.IntegerLiteral(at, 1), Ast.Subtract, Ast.IntegerLiteral(at, 2))) == Some(-1)
  {
  }

  lemma ShiftValue(at: SourceFile.Location)
    ensures Semantics.Value(Ast.Binary(at, Ast.IntegerLiteral(at, -8), Ast.ShiftRight, Ast.IntegerLiteral(at, 1))) ==
            Some(0x7FFF_FFFF_FFFF_FFFC)
  {
    assert ShiftDown(Unsigned(-8), 1) == ShiftDown(Unsigned(-8) / 2, 0);
  }

  /** A division by zero anywhere makes the printed output undefined. */
  lemma DivisionByZeroUndefined(at: SourceFile.Location)
    ensures var quotient := Ast.Binary(at, Ast.IntegerLiteral(at, 7), Ast.Divide, Ast.IntegerLiteral(at, 0));
            Ir.Printed(Main(Ast.Module(at, at.file, [Ast.IntegerLiteral(at, 1), quotient])).blocks[0].instructions) ==
            None
  {
    var quotient := Ast.Binary(at, Ast.IntegerLiteral(at, 7), Ast.Divide, Ast.IntegerLiteral(at, 0));
    var program := [Ast.IntegerLiteral(at, 1), quotient];
    MainPrintsProgram(program);
    ProgramCons(quotient, []);
    ProgramCons(program[0], [quotient]);
    assert [quotient] == [quotient] + [];
    assert program == [program[0]] + [quotient];
  }

  lemma ProgramCons(e: Ast.Expression, rest: seq<Ast.Expression>)
    ensures Semantics.Program([e] + rest) ==
            match (Semantics.Value(e), Semantics.Program(rest))
            case (Some(x), Some(values)) => Some([x] + values)
            case _ => None
  {
    assert ([e] + rest)[1..] == rest;
  }
}
