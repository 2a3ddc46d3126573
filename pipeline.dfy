/**
 * What the subcommands share: the parser and the checker, taken as parameters, and their
 * view of the parsed flag and option maps, where looking up a name that is absent yields
 * false or the empty string.
 */
module Pipeline {

  import opened Wrappers
  import Ast
  import Checker
  import Diagnostics

  /** What parsing one path yields: the module (`ast`), if any, and the diagnostics it reported. */
  datatype ParseResult = ParseResult(ast: Option<Ast.Module>, reported: seq<Diagnostics.Diagnostic>)

  /**
   * The phases a command drives: `parse` reads and parses a path, `check` checks a parsed
   * module, and `separator` is the platform's preferred path separator.
   */
  datatype Toolchain = Toolchain(
    parse: string -> ParseResult,
    check: Ast.Module -> Checker.Outcome,
    separator: char)

  /** `flags[name]`: an absent flag reads as false. */
  function FlagSet(flags: map<string, bool>, name: string): (on: bool)
    ensures on <==> name in flags && flags[name]
  {
    if name in flags then flags[name] else false
  }

  /** `options[name]`: an absent option reads as empty. */
  function OptionValue(options: map<string, string>, name: string): (value: string)
    ensures name in options ==> value == options[name]
    ensures name !in options ==> value == []
  {
    if name in options then options[name] else []
  }

  /** `strict` makes warnings fatal; otherwise only errors are. */
  function FailLevel(flags: map<string, bool>): (level: Diagnostics.Level)
    ensures level == Diagnostics.Warning <==> FlagSet(flags, "strict")
  {
    if FlagSet(flags, "strict") then Diagnostics.Warning else Diagnostics.Error
  }

  /** The toolchain with the program's stub checker, which accepts every module, in place. */
  ghost predicate UsesStubChecker(toolchain: Toolchain) {
    forall m :: toolchain.check(m) == Checker.Check(m)
  }
}
