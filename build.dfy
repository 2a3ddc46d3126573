/**
 * The `build` subcommand up to the point where the IR is handed to LLVM's backend: it
 * parses the first path, stops on a missing module or any error, checks the module,
 * stops on a failed check or any diagnostic at the fail level, lowers the module to
 * `main`, and derives the output file name.
 */
module Build {

  import opened Wrappers
  import Ast
  import Checker
  import Diagnostics
  import Emitter
  import Ir
  import SourceFile
  import CommandLine
  import Pipeline

  /** The options `build` declares. */
  const BuildCommand: CommandLine.Command := CommandLine.Command(
    "build", "Build a binary for a program",
    [ CommandLine.OptionSpec("strict", "Treat compiler warnings as fatal errors", CommandLine.Flag, ""),
      CommandLine.OptionSpec("unoptimized", "Do not optimize the program", CommandLine.Flag, ""),
      CommandLine.OptionSpec("output", "Output binary name", CommandLine.Valued, ""),
      CommandLine.OptionSpec("target", "Target architecture (see options below)", CommandLine.Valued, ""),
      CommandLine.OptionSpec("llvm", "Generate LLVM IR assembly code", CommandLine.Flag, ""),
      CommandLine.OptionSpec("object", "Generate an unlinked object file", CommandLine.Flag, "") ],
    "path…")

  /** Before parsing, `build`'s four flags are false and its two valued options empty. */
  lemma BuildDefaults()
    ensures CommandLine.DefaultFlags(BuildCommand.options) ==
            map["strict" := false, "unoptimized" := false, "llvm" := false, "object" := false]
    ensures CommandLine.DefaultOptions(BuildCommand.options) == map["output" := "", "target" := ""]
  {
    var options := BuildCommand.options;
    assert options[..1][..0] == [];
    assert CommandLine.DefaultFlags(options[..1]) == map["strict" := false];
    assert CommandLine.DefaultOptions(options[..1]) == map[];
    assert options[..2][..1] == options[..1];
    assert CommandLine.DefaultFlags(options[..2]) == map["strict" := false, "unoptimized" := false];
    assert CommandLine.DefaultOptions(options[..2]) == map[];
    assert options[..3][..2] == options[..2];
    assert CommandLine.DefaultFlags(options[..3]) == map["strict" := false, "unoptimized" := false];
    assert CommandLine.DefaultOptions(options[..3]) == map["output" := ""];
    assert options[..4][..3] == options[..3];
    assert CommandLine.DefaultFlags(options[..4]) == map["strict" := false, "unoptimized" := false];
    assert CommandLine.DefaultOptions(options[..4]) == map["output" := "", "target" := ""];
    assert options[..5][..4] == options[..4];
    assert CommandLine.DefaultFlags(options[..5]) == map["strict" := false, "unoptimized" := false, "llvm" := false];
    assert CommandLine.DefaultOptions(options[..5]) == map["output" := "", "target" := ""];
    assert options[..6] == options;
    assert options[..6][..5] == options[..5];
  }

  /** Setting `strict` over the defaults changes that flag alone. */
  lemma StrictOverDefaults()
    ensures map["strict" := false, "unoptimized" := false, "llvm" := false, "object" := false]["strict" := true] ==
            map["strict" := true, "unoptimized" := false, "llvm" := false, "object" := false]
  {
    assert "strict"[0] != "object"[0];
    assert "strict" != "llvm" && "strict" != "unoptimized";
  }

  /** `build -strict path` sets `strict`, leaves everything else at its default, and takes the path. */
  lemma StrictCommandLine(path: string)
    requires path == [] || path[0] != '-'
    ensures CommandLine.ParseArguments(BuildCommand, ["-strict", path]) ==
            CommandLine.Parsed(CommandLine.Arguments(
              map["strict" := true, "unoptimized" := false, "llvm" := false, "object" := false],
              map["output" := "", "target" := ""],
              [path]))
  {
    CommandLine.OptionTableFirst(BuildCommand.options, "strict", 0);
    BuildDefaults();
    StrictOverDefaults();
    assert "-" + "strict" == "-strict";
    CommandLine.BareFlagLine(BuildCommand, "strict", path);
  }

  /** How far the pipeline got: the phase that stopped it, or the lowered program and its output name. */
  datatype Outcome =
    | Usage
    | ParseFailed
    | CheckFailed
    | Lowered(main: Ir.Function, outputName: string)

  const SourceExtension: string := ".indie"

  /** The base name of the source path without a trailing `.indie`, unless that is all there is. */
  function Stem(name: string): string {
    if |name| > 6 && name[|name| - 6..] == SourceExtension then name[..|name| - 6] else name
  }

  /**
   * The output file name: the `output` option verbatim when it is non-empty; otherwise the
   * stem of the source's base name, with `.ll` for `llvm` or else `.o` for `object`.
   */
  function OutputName(flags: map<string, bool>, options: map<string, string>, path: string, separator: char): string {
    var output := Pipeline.OptionValue(options, "output");
    if output != [] then output
    else
      var stem := Stem(SourceFile.FileName(path, separator));
      if Pipeline.FlagSet(flags, "llvm") then stem + ".ll"
      else if Pipeline.FlagSet(flags, "object") then stem + ".o"
      else stem
  }

  /** The parse and check phases either stop the pipeline or accept the module. */
  datatype Gate = Stopped(outcome: Outcome) | Accepted(ast: Ast.Module)

  /**
   * Parsing stops on a missing module or on any error it reported; checking stops on a
   * failed check or on any diagnostic, from either phase, at the fail level.
   */
  function Gates(flags: map<string, bool>, path: string, toolchain: Pipeline.Toolchain): Gate {
    var parsed := toolchain.parse(path);
    var parseLevels := Diagnostics.Levels(parsed.reported);
    if parsed.ast.None? || Diagnostics.Tally(parseLevels, Diagnostics.Error) > 0 then Stopped(ParseFailed)
    else
      var checked := toolchain.check(parsed.ast.value);
      var levels := parseLevels + Diagnostics.Levels(checked.reported);
      if !checked.ok || Diagnostics.Tally(levels, Pipeline.FailLevel(flags)) > 0 then Stopped(CheckFailed)
      else Accepted(parsed.ast.value)
  }

  /**
   * What the reporter of lines 64-76 writes to standard error, by default filter: the
   * parse's diagnostics, then the check's when parsing let the module through.
   */
  function GatesShown(path: string, toolchain: Pipeline.Toolchain, sys: Diagnostics.System): Diagnostics.Rendering {
    var parsed := toolchain.parse(path);
    var shown := Diagnostics.ShowsAll(Diagnostics.Warning, parsed.reported, sys);
    if parsed.ast.None? || Diagnostics.Tally(Diagnostics.Levels(parsed.reported), Diagnostics.Error) > 0 then shown
    else Diagnostics.Then(shown, Diagnostics.ShowsAll(Diagnostics.Warning, toolchain.check(parsed.ast.value).reported, sys))
  }

  /** What `execute` writes through its reporter: nothing on a usage error. */
  function StagesShown(arguments: seq<string>, toolchain: Pipeline.Toolchain, sys: Diagnostics.System): Diagnostics.Rendering {
    if |arguments| < 1 then Diagnostics.Rendering([], false) else GatesShown(arguments[0], toolchain, sys)
  }

  /** The outcome of `execute` on the parsed command line. */
  function Stages(flags: map<string, bool>, options: map<string, string>, arguments: seq<string>,
                  toolchain: Pipeline.Toolchain): Outcome
  {
    if |arguments| < 1 then Usage
    else match Gates(flags, arguments[0], toolchain)
      case Stopped(outcome) => outcome
      case Accepted(ast) => Lowered(Emitter.Main(ast), OutputName(flags, options, arguments[0], toolchain.separator))
  }

  /**
   * `Build::execute`, lines 52-76 and 115-126: the usage check, the gated phases, the
   * lowering and the output name.
   */
  method Execute(flags: map<string, bool>, options: map<string, string>, arguments: seq<string>,
                 toolchain: Pipeline.Toolchain, sys: Diagnostics.System)
    returns (outcome: Outcome, shown: Diagnostics.Rendering)
    ensures outcome == Stages(flags, options, arguments, toolchain)
    ensures shown == StagesShown(arguments, toolchain, sys)
  {
    if |arguments| < 1 {
      return Usage, Diagnostics.Rendering([], false);
    }
    var gate;
    gate, shown := RunGates(flags, arguments[0], toolchain, sys);
    if gate.Stopped? {
      return gate.outcome, shown;
    }
    var unit := new Ir.Unit();
    var main := Emitter.Emit(gate.ast, unit);
    var name := DeriveOutputName(flags, options, arguments[0], toolchain.separator);
    outcome := Lowered(main, name);
  }

  /**
   * Lines 64-76: both phases report into one fresh reporter and are gated on its counts;
   * `shown` is what that reporter wrote.
   */
  method RunGates(flags: map<string, bool>, path: string, toolchain: Pipeline.Toolchain, sys: Diagnostics.System)
    returns (gate: Gate, shown: Diagnostics.Rendering)
    ensures gate == Gates(flags, path, toolchain)
    ensures shown == GatesShown(path, toolchain, sys)
  {
    var reporter := new Diagnostics.Terminal();
    var failLevel := if Pipeline.FlagSet(flags, "strict") then Diagnostics.Warning else Diagnostics.Error;
    var parsed := toolchain.parse(path);
    reporter.ReportAll(parsed.reported, sys);
    assert reporter.reported == Diagnostics.Levels(parsed.reported);
    ghost var first := Diagnostics.ShowsAll(Diagnostics.Warning, parsed.reported, sys);
    assert [] + first.lines == first.lines;
    shown := Diagnostics.Rendering(reporter.stderr, reporter.faulted);
    assert shown == first;
    if parsed.ast.None? || reporter.Count(Diagnostics.Error) > 0 {
      return Stopped(ParseFailed), shown;
    }
    var checked := toolchain.check(parsed.ast.value);
    reporter.ReportAll(checked.reported, sys);
    shown := Diagnostics.Rendering(reporter.stderr, reporter.faulted);
    assert shown == Diagnostics.Then(first, Diagnostics.ShowsAll(Diagnostics.Warning, checked.reported, sys));
    if !checked.ok || reporter.Count(failLevel) > 0 {
      return Stopped(CheckFailed), shown;
    }
    return Accepted(parsed.ast.value), shown;
  }

  /** Lines 115-126: the name is built by successive reassignments. */
  method DeriveOutputName(flags: map<string, bool>, options: map<string, string>, path: string, separator: char)
    returns (name: string)
    ensures name == OutputName(flags, options, path, separator)
  {
    name := Pipeline.OptionValue(options, "output");
    if name == [] {
      name := SourceFile.FileName(path, separator);
      if |name| > 6 && name[|name| - 6..] == SourceExtension {
        name := name[..|name| - 6];
      }
      if Pipeline.FlagSet(flags, "llvm") {
        name := name + ".ll";
      } else if Pipeline.FlagSet(flags, "object") {
        name := name + ".o";
      }
    }
  }

  /** A non-empty `output` option is the name, whatever the flags and the path. */
  lemma OutputVerbatim(flags: map<string, bool>, options: map<string, string>, path: string, separator: char)
    requires "output" in options && options["output"] != []
    ensures OutputName(flags, options, path, separator) == options["output"]
  {
  }

  /**
   * Without `output`, the name is the base name with `.indie` dropped, then `.ll` if
   * `llvm` is set, `.o` if only `object` is, and nothing otherwise.
   */
  lemma DerivedName(flags: map<string, bool>, options: map<string, string>, path: string, separator: char)
    requires Pipeline.OptionValue(options, "output") == []
    ensures var base := SourceFile.FileName(path, separator);
            var name := OutputName(flags, options, path, separator);
            (base == Stem(base) + SourceExtension || base == Stem(base)) &&
            (Pipeline.FlagSet(flags, "llvm") ==> name == Stem(base) + ".ll") &&
            (!Pipeline.FlagSet(flags, "llvm") && Pipeline.FlagSet(flags, "object") ==> name == Stem(base) + ".o") &&
            (!Pipeline.FlagSet(flags, "llvm") && !Pipeline.FlagSet(flags, "object") ==> name == Stem(base))
  {
    var base := SourceFile.FileName(path, separator);
    if |base| > 6 && base[|base| - 6..] == SourceExtension {
      assert base == base[..|base| - 6] + base[|base| - 6..];
    }
  }

  /** `.indie` is stripped only from a name longer than the extension itself. */
  lemma StemExamples()
    ensures Stem("prog.indie") == "prog"
    ensures Stem(".indie") == ".indie"
    ensures Stem("prog.c") == "prog.c"
  {
    assert "prog.indie"[10 - 6..] == ".indie";
    assert "prog.indie"[..10 - 6] == "prog";
  }

  /** With no path, `build` stops before parsing. */
  lemma NoArgumentsUsage(flags: map<string, bool>, options: map<string, string>, toolchain: Pipeline.Toolchain)
    ensures Stages(flags, options, [], toolchain) == Usage
  {
  }

  /**
   * With the program's stub checker, a module that parsed without errors is lowered
   * unless `strict` is set and parsing reported a warning; a warning alone never stops a
   * non-strict build.
   */
  lemma StrictWarningsFatal(flags: map<string, bool>, options: map<string, string>, arguments: seq<string>,
                            toolchain: Pipeline.Toolchain)
    requires Pipeline.UsesStubChecker(toolchain)
    requires |arguments| >= 1
    requires var parsed := toolchain.parse(arguments[0]);
             parsed.ast.Some? && Diagnostics.Tally(Diagnostics.Levels(parsed.reported), Diagnostics.Error) == 0
    ensures var parsed := toolchain.parse(arguments[0]);
            Stages(flags, options, arguments, toolchain).CheckFailed? <==>
            Pipeline.FlagSet(flags, "strict") && |parsed.reported| > 0
    ensures var parsed := toolchain.parse(arguments[0]);
            !Stages(flags, options, arguments, toolchain).CheckFailed? ==>
            Stages(flags, options, arguments, toolchain) ==
            Lowered(Emitter.Main(parsed.ast.value), OutputName(flags, options, arguments[0], toolchain.separator))
  {
    var parsed := toolchain.parse(arguments[0]);
    var levels := Diagnostics.Levels(parsed.reported);
    assert toolchain.check(parsed.ast.value) == Checker.Check(parsed.ast.value);
    assert levels + Diagnostics.Levels([]) == levels;

  }
}
