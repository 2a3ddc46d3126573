/**
 * The abstract syntax tree: a closed set of expression variants, each carrying its source
 * location, and the module that holds a file's top-level expressions in source order.
 * The double-dispatch `Handler` becomes a pair of functions, one per variant, chosen by an
 * exhaustive match.
 */
module Ast {

  import SourceFile
  import Word

  datatype Operator =
    | Add
    | Subtract
    | Divide
    | Multiply
    | Mod
    | ShiftLeft
    | ShiftRight
    | BitAnd
    | BitOr
    | BitXor

  datatype Expression =
    | Binary(location: SourceFile.Location, lhs: Expression, op: Operator, rhs: Expression)
    | IntegerLiteral(location: SourceFile.Location, value: Word.Int64)

  /** The root of one parsed file. Its own location is fixed at construction. */
  datatype Module = Module(
    location: SourceFile.Location,
    file: SourceFile.File,
    expressions: seq<Expression>)

  /** A new module: located at line 1, column 1 of its own file, with no expressions yet. */
  function NewModule(file: SourceFile.File): (m: Module)
    ensures m.file == file && m.location.file == file
    ensures SourceFile.Span(m.location) == (1, 1, 1, 1)
    ensures m.expressions == []
  {
    Module(SourceFile.Location(file, 1, 1, 1, 1), file, [])
  }

  /** One method per concrete expression variant. */
  datatype Handler<R> = Handler(
    handleBinary: Expression -> R,
    handleIntegerLiteral: Expression -> R)

  /** `Expression::handle`: forwards the expression itself to the method for its variant. */
  function Handle<R>(e: Expression, handler: Handler<R>): (r: R)
    ensures e.Binary? ==> r == handler.handleBinary(e)
    ensures e.IntegerLiteral? ==> r == handler.handleIntegerLiteral(e)
  {
    match e
    case Binary(_, _, _, _) => handler.handleBinary(e)
    case IntegerLiteral(_, _) => handler.handleIntegerLiteral(e)
  }

  /** The number of nodes of an expression tree. */
  function Size(e: Expression): (n: nat)
    ensures 1 <= n
    ensures e.IntegerLiteral? ==> n == 1
  {
    match e
    case Binary(_, lhs, _, rhs) => Size(lhs) + Size(rhs) + 1
    case IntegerLiteral(_, _) => 1
  }
}
