/**
 * The `check` subcommand: parses and checks every path against one shared reporter, with
 * no early exit, and succeeds only if every path parsed and passed its check and the
 * reporter holds nothing at the fail level.
 */
module Check {

  import opened Wrappers
  import Ast
  import Checker
  import Diagnostics
  import CommandLine
  import Pipeline

  /** The options `check` declares. */
  const CheckCommand: CommandLine.Command := CommandLine.Command(
    "check", "Verify the correctness of a program",
    [CommandLine.OptionSpec("strict", "Treat compiler warnings as fatal errors", CommandLine.Flag, "")],
    "path…")

  /** `check -strict path` sets `strict`, the only option `check` declares, and takes the path. */
  lemma StrictCommandLine(path: string)
    requires path == [] || path[0] != '-'
    ensures CommandLine.ParseArguments(CheckCommand, ["-strict", path]) ==
            CommandLine.Parsed(CommandLine.Arguments(map["strict" := true], map[], [path]))
  {
    var options := CheckCommand.options;
    assert options[..0] == [];
    CommandLine.OptionTableFirst(options, "strict", 0);
    assert CommandLine.DefaultFlags(options) == map["strict" := false];
    assert map["strict" := false]["strict" := true] == map["strict" := true];
    assert "-" + "strict" == "-strict";
    CommandLine.BareFlagLine(CheckCommand, "strict", path);
  }

  /** `check` declares no `output`: the option `build` takes stops `check`'s parse, whatever follows. */
  lemma OutputUnrecognized(rest: seq<string>)
    ensures CommandLine.ParseArguments(CheckCommand, ["-output=a.out"] + rest) ==
            CommandLine.Rejected(CommandLine.Unrecognized("-output=a.out"))
  {
    var options := CheckCommand.options;
    var argument := "-output=a.out";
    assert options[..0] == [];
    CommandLine.OptionTableNames(options, "output");
    assert argument == "-" + ("output" + "=" + "a.out");
    CommandLine.OptionText1("output" + "=" + "a.out");
    CommandLine.SplitAtFirst("output", "a.out");
    CommandLine.UnknownRejects(CommandLine.OptionTable(options),
                               CommandLine.State(CommandLine.DefaultFlags(options), CommandLine.DefaultOptions(options)),
                               argument, rest);
  }

  /** Whether one path parsed and its module passed the check. */
  predicate PathPassed(toolchain: Pipeline.Toolchain, path: string) {
    var parsed := toolchain.parse(path);
    parsed.ast.Some? && toolchain.check(parsed.ast.value).ok
  }

  /** The levels one path reports: its parse's, then its check's if it parsed. */
  function PathLevels(toolchain: Pipeline.Toolchain, path: string): seq<Diagnostics.Level> {
    var parsed := toolchain.parse(path);
    Diagnostics.Levels(parsed.reported) +
    match parsed.ast
    case None => []
    case Some(m) => Diagnostics.Levels(toolchain.check(m).reported)
  }

  /** Every path passed. */
  predicate AllPassed(toolchain: Pipeline.Toolchain, paths: seq<string>) {
    if paths == [] then true
    else AllPassed(toolchain, paths[..|paths| - 1]) && PathPassed(toolchain, paths[|paths| - 1])
  }

  /** What the shared reporter has seen after all of `paths`, in order. */
  function Reported(toolchain: Pipeline.Toolchain, paths: seq<string>): seq<Diagnostics.Level> {
    if paths == [] then []
    else Reported(toolchain, paths[..|paths| - 1]) + PathLevels(toolchain, paths[|paths| - 1])
  }

  /** What one path writes through a reporter filtering at `minLevel`: its parse's diagnostics, then its check's if it parsed. */
  function PathShown(minLevel: Diagnostics.Level, toolchain: Pipeline.Toolchain, path: string, sys: Diagnostics.System): Diagnostics.Rendering {
    var parsed := toolchain.parse(path);
    var shown := Diagnostics.ShowsAll(minLevel, parsed.reported, sys);
    match parsed.ast
    case None => shown
    case Some(m) => Diagnostics.Then(shown, Diagnostics.ShowsAll(minLevel, toolchain.check(m).reported, sys))
  }

  /** What the shared reporter writes for all of `paths`, in order. */
  function Shown(minLevel: Diagnostics.Level, toolchain: Pipeline.Toolchain, paths: seq<string>, sys: Diagnostics.System): Diagnostics.Rendering {
    if paths == [] then Diagnostics.Rendering([], false)
    else Diagnostics.Then(Shown(minLevel, toolchain, paths[..|paths| - 1], sys), PathShown(minLevel, toolchain, paths[|paths| - 1], sys))
  }

  /** The result of `execute`. */
  predicate Succeeds(flags: map<string, bool>, arguments: seq<string>, toolchain: Pipeline.Toolchain) {
    |arguments| >= 1 &&
    AllPassed(toolchain, arguments) &&
    Diagnostics.Tally(Reported(toolchain, arguments), Pipeline.FailLevel(flags)) == 0
  }

  /** `Check::execute`. */
  method Execute(flags: map<string, bool>, options: map<string, string>, arguments: seq<string>,
                 toolchain: Pipeline.Toolchain, sys: Diagnostics.System)
    returns (ok: bool, shown: Diagnostics.Rendering)
    ensures ok == Succeeds(flags, arguments, toolchain)
    ensures shown == Shown(Diagnostics.Warning, toolchain, arguments, sys)
  {
    if |arguments| < 1 {
      return false, Diagnostics.Rendering([], false);
    }
    var reporter := new Diagnostics.Terminal();
    var failLevel := if Pipeline.FlagSet(flags, "strict") then Diagnostics.Warning else Diagnostics.Error;
    var success := true;
    for i := 0 to |arguments|
      invariant reporter.Valid()
      invariant reporter.minLevel == Diagnostics.Warning
      invariant reporter.reported == Reported(toolchain, arguments[..i])
      invariant Diagnostics.Rendering(reporter.stderr, reporter.faulted) == Shown(Diagnostics.Warning, toolchain, arguments[..i], sys)
      invariant success == AllPassed(toolchain, arguments[..i])
    {
      assert arguments[..i + 1][..i] == arguments[..i];
      var passed := CheckPath(reporter, toolchain, arguments[i], sys);
      if !passed {
        success := false;
      }
    }
    assert arguments[..|arguments|] == arguments;
    ok := success && reporter.Count(failLevel) == 0;
    shown := Diagnostics.Rendering(reporter.stderr, reporter.faulted);
  }

  /** One iteration: parse the path, and check the module if there is one, into the shared reporter. */
  method CheckPath(reporter: Diagnostics.Terminal, toolchain: Pipeline.Toolchain, path: string, sys: Diagnostics.System)
    returns (passed: bool)
    requires reporter.Valid()
    modifies reporter
    ensures reporter.Valid()
    ensures reporter.reported == old(reporter.reported) + PathLevels(toolchain, path)
    ensures passed == PathPassed(toolchain, path)
    ensures Diagnostics.Rendering(reporter.stderr, reporter.faulted) ==
            Diagnostics.Then(old(Diagnostics.Rendering(reporter.stderr, reporter.faulted)),
                             PathShown(reporter.minLevel, toolchain, path, sys))
  {
    ghost var before := Diagnostics.Rendering(reporter.stderr, reporter.faulted);
    var parsed := toolchain.parse(path);
    reporter.ReportAll(parsed.reported, sys);
    ghost var middle := Diagnostics.Rendering(reporter.stderr, reporter.faulted);
    ghost var seen := reporter.reported;
    match parsed.ast {
      case Some(m) =>
        var checked := toolchain.check(m);
        reporter.ReportAll(checked.reported, sys);
        passed := checked.ok;
      case None =>
        passed := false;
    }
    PathShownSteps(reporter.minLevel, toolchain, path, sys, before, middle, Diagnostics.Rendering(reporter.stderr, reporter.faulted));
    PathLevelsSteps(toolchain, path, old(reporter.reported), seen, reporter.reported);
  }

  /** The levels the two reports of one path add, one after the other, are `PathLevels`. */
  lemma PathLevelsSteps(toolchain: Pipeline.Toolchain, path: string,
                        before: seq<Diagnostics.Level>, middle: seq<Diagnostics.Level>, after: seq<Diagnostics.Level>)
    requires middle == before + Diagnostics.Levels(toolchain.parse(path).reported)
    requires toolchain.parse(path).ast.None? ==> after == middle
    requires toolchain.parse(path).ast.Some? ==>
             after == middle + Diagnostics.Levels(toolchain.check(toolchain.parse(path).ast.value).reported)
    ensures after == before + PathLevels(toolchain, path)
  {
    var parsed := toolchain.parse(path);
    if parsed.ast.Some? {
      Diagnostics.Associative(before, Diagnostics.Levels(parsed.reported),
                              Diagnostics.Levels(toolchain.check(parsed.ast.value).reported));
    } else {
      assert Diagnostics.Levels(parsed.reported) + [] == Diagnostics.Levels(parsed.reported);
    }
  }

  /** The two reports of one path, one after the other, write what `PathShown` says. */
  lemma PathShownSteps(minLevel: Diagnostics.Level, toolchain: Pipeline.Toolchain, path: string, sys: Diagnostics.System,
                       before: Diagnostics.Rendering, middle: Diagnostics.Rendering, after: Diagnostics.Rendering)
    requires middle == Diagnostics.Then(before, Diagnostics.ShowsAll(minLevel, toolchain.parse(path).reported, sys))
    requires toolchain.parse(path).ast.None? ==> after == middle
    requires toolchain.parse(path).ast.Some? ==>
             after == Diagnostics.Then(middle, Diagnostics.ShowsAll(minLevel, toolchain.check(toolchain.parse(path).ast.value).reported, sys))
    ensures after == Diagnostics.Then(before, PathShown(minLevel, toolchain, path, sys))
  {
    var parsed := toolchain.parse(path);
    if parsed.ast.Some? {
      Diagnostics.ThenAssociative(before, Diagnostics.ShowsAll(minLevel, parsed.reported, sys),
                                  Diagnostics.ShowsAll(minLevel, toolchain.check(parsed.ast.value).reported, sys));
    }
  }

  /** The result is the conjunction over the paths; a failed path does not stop the others. */
  lemma {:induction false} AllPassedEvery(toolchain: Pipeline.Toolchain, paths: seq<string>)
    ensures AllPassed(toolchain, paths) <==> forall i :: 0 <= i < |paths| ==> PathPassed(toolchain, paths[i])
  {
    if paths != [] {
      var prefix := paths[..|paths| - 1];
      AllPassedEvery(toolchain, prefix);
      assert forall i :: 0 <= i < |prefix| ==> prefix[i] == paths[i];
    }
  }

  /** The shared reporter sees the diagnostics of the paths in order, split at any point. */
  lemma {:induction false} ReportedAppend(toolchain: Pipeline.Toolchain, a: seq<string>, b: seq<string>)
    ensures Reported(toolchain, a + b) == Reported(toolchain, a) + Reported(toolchain, b)
    decreases |b|
  {
    if b == [] {
      assert a + b == a;
    } else {
      var prefix := b[..|b| - 1];
      var last := b[|b| - 1];
      assert (a + b)[..|a + b| - 1] == a + prefix;
      assert (a + b)[|a + b| - 1] == last;
      ReportedAppend(toolchain, a, prefix);
      assert Reported(toolchain, a + b) == Reported(toolchain, a + prefix) + PathLevels(toolchain, last);
    }
  }

  /** One path that does not parse, or fails its check, fails the whole command. */
  lemma FailedPathFails(flags: map<string, bool>, arguments: seq<string>, toolchain: Pipeline.Toolchain, i: nat)
    requires i < |arguments| && !PathPassed(toolchain, arguments[i])
    ensures !Succeeds(flags, arguments, toolchain)
  {
    AllPassedEvery(toolchain, arguments);
  }

  /**
   * With the program's stub checker, `check` succeeds exactly when every path parses and
   * the parses reported no error, or, under `strict`, nothing at all.
   */
  lemma {:induction false} StubCheckerVerdict(flags: map<string, bool>, arguments: seq<string>, toolchain: Pipeline.Toolchain)
    requires Pipeline.UsesStubChecker(toolchain)
    requires |arguments| >= 1
    ensures Succeeds(flags, arguments, toolchain) <==>
            (forall i :: 0 <= i < |arguments| ==> toolchain.parse(arguments[i]).ast.Some?) &&
            Diagnostics.Tally(Reported(toolchain, arguments), Pipeline.FailLevel(flags)) == 0
    ensures Pipeline.FlagSet(flags, "strict") ==>
            (Succeeds(flags, arguments, toolchain) <==>
             (forall i :: 0 <= i < |arguments| ==> toolchain.parse(arguments[i]).ast.Some?) &&
             |Reported(toolchain, arguments)| == 0)
  {
    AllPassedEvery(toolchain, arguments);
    forall i | 0 <= i < |arguments|
      ensures PathPassed(toolchain, arguments[i]) <==> toolchain.parse(arguments[i]).ast.Some?
    {
      var parsed := toolchain.parse(arguments[i]);
      if parsed.ast.Some? {
        assert toolchain.check(parsed.ast.value) == Checker.Check(parsed.ast.value);
      }
    }
  }
}
