# A verified model of the `indie` toy compiler's core

This project models in Dafny the core of a small compiler for integer-expression programs
(source files ending in `.indie`). The model covers these parts:

- **Source spans** (`source_file.dfy`). A syntax-tree location holds start and end lines and
  columns. `merge` takes the union of two spans. `file_name` and `directory_name` split a path
  at its last separator, and the separator is a parameter.
- **The diagnostic reporter** (`diagnostics.dfy`, `decimal.dfy`).
  - `Terminal` is a class. It holds the two counters, the minimum display level, and a log of
    the lines written to standard error.
  - Plain mode writes one line per diagnostic. TTY mode writes a coloured header and then a
    source excerpt. The excerpt has right-aligned line numbers, an arrow on the target line,
    and the offending codepoints highlighted.
  - The excerpt loop is an imperative method. It is proved equal to a declarative function of
    the file's lines, the span and the level.
  - Colours are abstract: a rendered line is a sequence of plain, tinted or dimmed pieces.
- **The syntax tree** (`ast.dfy`). It has ten binary operators and 64-bit integer literals.
  A module holds its file and its expressions in source order. The double-dispatch `Handler`
  is an exhaustive match.
- **The stub checker** (`checker.dfy`). It accepts every module and reports nothing.
- **Lowering to IR** (`ir.dfy`, `emitter.dfy`).
  - The IR is an abstract datatype: constants, opcode applications, calls, returns, blocks
    and functions.
  - `IRBuilder<>` and the IR unit are classes. The `Emitter` class sets its `result` field
    inside its handlers, as the source does.
  - The builder's `created` field records every value the create calls return, in order.
    This log shows that the left operand is lowered before the right.
  - `emit` declares `printf`, builds `main` with one print call per top-level expression, and
    ends it with `ret 0`.
  - `semantics.dfy` gives the language's 64-bit meaning. An evaluator over the IR, in
    `ir.dfy`, gives LLVM's instruction meaning. The model proves that lowering preserves the
    value of every expression, and so what the program prints.
- **Command-line parsing and the subcommands** (`command_line.dfy`, `pipeline.dfy`,
  `build.dfy`, `check_command.dfy`).
  - `Command::run` is an imperative method with its loops. It is proved equal to a recursive
    function over the arguments.
  - `Build::execute` is modelled up to the hand-off to LLVM. That covers the gating on the
    reporter's counts and the derivation of the output name.
  - `Check::execute` is modelled as its loop over all paths with one shared reporter.
  - The parser and the checker are parameters of these models (`Pipeline.Toolchain`).
    Lemmas instantiate the checker with the stub.
- `word.dfy` holds 64-bit two's-complement arithmetic: signed/unsigned conversion,
  wrap-around, truncating division, and the shifts. `wrappers.dfy` holds `Option`.

Three points of the modelled behaviour are worth stating directly:

- The checker (checker/check.cc:19-22) always succeeds and reports nothing, and
  `Checker.Check` does the same. Every semantic guarantee therefore rests on the parser.
- Division by a literal zero is not caught at compile time. `7 / 0` is lowered to an `sdiv`
  like any other division (emitter/expression.cc:34-36), and
  `Emitter.DivisionByZeroUndefined` shows that the printed output is then undefined.
- There are two location types: core/file.h for the syntax tree and core/location.h for the
  reporter. They stay separate here, as `SourceFile.Location` and `Diagnostics.Location`.

Some behaviour follows from the code and may be surprising:

- An argument made only of dashes, such as `--`, has an empty option name. It is rejected
  as unrecognized rather than ending the options.
- `.indie` is stripped only from a base name longer than six characters.

## Model

| member | source | states |
|---|---|---|
| SourceFile.Merge | core/file.cc:39-53 | The merged start is at or before both starts and the merged end at or after both ends, in (line, column) order. The start is the receiver's unless the other's is strictly earlier, and the end the receiver's unless the other's is strictly later. The file is always the receiver's. |
| SourceFile.MergeSelf | core/file.cc:39-53 | Merging a location with itself gives it back unchanged. |
| SourceFile.MergeCommutative | core/file.cc:42-51 | The span of a merge does not depend on the order of its arguments. |
| SourceFile.MergeAssociative | core/file.cc:39-53 | Chained merges give the same location however they are grouped. |
| SourceFile.RFind | core/file.cc:56 | `rfind`: the index found holds the separator and no later index does; with no result, no index holds it. |
| SourceFile.FileNameWhole | core/file.cc:55-69 | `file_name` and `directory_name` each return the whole path exactly when the path has no separator, or ends with one. |
| SourceFile.FileNameHasNoSeparator | core/file.cc:55-61 | When the last separator is not trailing, the file name is non-empty and contains no separator. |
| SourceFile.SplitJoin | core/file.cc:55-69 | When the last separator is not trailing, directory name + separator + file name is the path. |
| Decimal.Digits | core/error.cc:62-64 | The decimal rendering of a line number is non-empty, all digits, and has no leading zero. |
| Decimal.ValueOfDigits | core/error.cc:62-64 | Reading the rendered digits back gives the number. |
| Decimal.DigitsInjective | core/error.cc:62-64 | Distinct line numbers render differently. |
| Diagnostics.Tally | core/error.h:43-46 | `count` never exceeds the number of reported diagnostics, and `count(WARNING)` counts all of them. |
| Diagnostics.TallyAppend | core/error.cc:138-155 | One more report raises `count(min)` by one exactly when the level is at or above `min`. |
| Diagnostics.TallyWarningsAndErrors | core/error.h:43-46 | `count(ERROR)` is the number of errors reported, and `count(WARNING)` is that plus the number of warnings. |
| Diagnostics.LineNumberPrefix | core/error.cc:60-70 | The padding loop produces the prefix function: spaces up to width 6, the prefix, the dimmed digits and a tab. |
| Diagnostics.PrefixAlignment | core/error.cc:60-70 | When the digits fit, the spaces, the prefix width and the digits add up to 6, so every prefix is 7 characters wide with the tab. |
| Diagnostics.PrintTargetLine | core/error.cc:97-119 | The target line is printed as the arrow prefix and the highlighted line. It faults exactly when the highlight cannot be cut out of the line. |
| Diagnostics.PrintExcerptLine | core/error.cc:96-131 | One iteration writes a line only inside the window [begin-2, begin+2], with one blank line before the first. It faults only on an uncuttable target line and stops after line begin+2. |
| Diagnostics.PrintExcerpt | core/error.cc:89-135 | The loop with its `break` writes exactly the declarative excerpt of the file's lines, and faults exactly when the excerpt does. |
| Diagnostics.ExcerptShowsWindow | core/error.cc:90-135 | Without a fault, the excerpt is one blank line, each window line in order, and one closing blank line. |
| Diagnostics.ExcerptEmpty | core/error.cc:93-101 | Nothing at all is printed, not even blank lines, exactly when no line of the file lies in the window. |
| Diagnostics.ArrowOnlyOnTarget | core/error.cc:97-127 | A row carries the `→ ` arrow exactly when it is the target line. |
| Diagnostics.HighlightKeepsText | core/error.cc:103-119 | With the colours removed, the three pieces of the target line (or the plain line) read as the file line. |
| Diagnostics.HighlightRange | core/error.cc:103-118 | The coloured piece is codepoints [begin.column-1, E), where E is the line length for a multi-line span and end.column otherwise. A single-line span ending past the line is shown plain. |
| Diagnostics.OrderedSpanRenders | core/error.cc:104-116 | A single-line span with 1 <= begin.column <= end.column never faults the highlight. |
| Diagnostics.DisplayLocated | core/error.cc:157-172 | A terminal with minimum level ERROR shows nothing for a warning. Plain mode writes `Warning: <path>:<line>: <message>` or `Error: ...`. TTY mode starts with the coloured header. |
| Diagnostics.DisplayMessage | core/error.cc:174-187 | Suppressed warnings write nothing. Otherwise exactly one line is written, reading `<Prefix>: <message>` in either mode. |
| Diagnostics.Terminal.constructor | core/error.h:54-64 | Both counters start at 0. The minimum level defaults to WARNING, so everything is displayed. |
| Diagnostics.Terminal.Count | core/error.h:43-46 | `count(min)`, which defaults to ERROR, is the number of reported diagnostics at or above `min`; as a function it changes nothing. |
| Diagnostics.Terminal.Report | core/error.cc:138-146 | A warning raises only the warning counter and an error only the error counter, whatever the display filter. Then exactly the display's lines are written. |
| Diagnostics.Terminal.ReportMessage | core/error.cc:148-155 | The same counting for the message-only overload, then the one-line display. |
| Diagnostics.Terminal.DisplayAt | core/error.cc:157-172 | The located display writes exactly the filtered plain line or TTY rendering. |
| Diagnostics.Terminal.DisplayPlain | core/error.cc:174-187 | The message-only display writes exactly the filtered line. |
| Diagnostics.Terminal.DisplayTtyError | core/error.cc:74-135 | Writes the header, then the excerpt only for a regular file. |
| Diagnostics.Terminal.ReportAll | core/error.cc:138-155 | Reporting a phase's diagnostics in order extends the reported history by their levels, keeping the counters consistent. Standard error gains each diagnostic's display in order, and the fault flag records any fault among them. |
| Diagnostics.Terminal.ReportDiagnostic | core/error.cc:138-155 | One diagnostic goes through the overload its shape calls for and is counted once. A located one appends its located display to standard error and keeps that display's fault; one without a location appends the message-only display and never faults. |
| Diagnostics.ThenAssociative | core/error.cc:138-155 | Output written in pieces is the same however the pieces are grouped. |
| Ast.NewModule | parser/ast.cc:45-47 | A new module is located at (1,1)-(1,1) in its own file and holds no expressions. |
| Ast.Handle | parser/ast.cc:33-43 | `handle` passes the expression itself to the one handler method for its variant. |
| Emitter.LowerDispatches | parser/ast.cc:33-43 | Lowering an expression is `handle` with the emitter's two methods as the handler, and a binary node's handler result is its opcode on the handler results of its operands. |
| Checker.Check | checker/check.cc:19-22 | `check` succeeds for every module and reports nothing. |
| Word.TruncDivProperties | emitter/expression.cc:34-42 | Signed division truncates: quotient times divisor plus remainder is the dividend, and the remainder is smaller than the divisor and has the dividend's sign. |
| Word.TruncDivInRange | emitter/expression.cc:34-42 | Truncating 64-bit division overflows only for the minimum divided by -1. |
| Word.ShiftDownDivides | emitter/expression.cc:46-48 | A logical right shift by n is unsigned division by 2^n. |
| Ir.Unit.AddFunction | emitter/emit.cc:27-35 | A created function is appended to the unit. |
| Ir.Builder.SetInsertPoint | emitter/emit.cc:36-37 | The builder now inserts into a new, empty block. |
| Ir.Builder.ClearInsertionPoint | emitter/emit.cc:47 | The insertion point is cleared and the block is kept. |
| Ir.Builder.GetInt64 | emitter/expression.cc:63 | Returns the i64 constant of the literal's value and logs it. |
| Ir.Builder.CreateOp | emitter/expression.cc:28-57 | Returns the operation on its operands, logs it, and leaves the block alone. |
| Ir.Builder.CreateCall | emitter/emit.cc:43 | Appends one call to the block. |
| Ir.Builder.CreateRet | emitter/emit.cc:46 | Appends the return to the block. |
| Emitter.OpcodeOfInjective | emitter/expression.cc:27-58 | Each operator maps to its own opcode: distinct operators never share one. |
| Emitter.ApplyCorrect | emitter/expression.cc:27-58 | For all operands, the opcode chosen for an operator computes the operator's 64-bit meaning, and is undefined exactly where the language leaves it undefined. |
| Emitter.AddCorrect | emitter/expression.cc:28-30 | `add` without no-wrap flags is 64-bit wrap-around addition. |
| Emitter.SubtractCorrect | emitter/expression.cc:31-33 | `sub` is 64-bit wrap-around subtraction. |
| Emitter.MultiplyCorrect | emitter/expression.cc:37-39 | `mul` is 64-bit wrap-around multiplication. |
| Emitter.DivideCorrect | emitter/expression.cc:34-36 | `sdiv` is signed truncating division, undefined for a zero divisor and for the minimum divided by -1. |
| Emitter.ModCorrect | emitter/expression.cc:40-42 | `srem` is the signed truncating remainder, with the same undefined cases. |
| Emitter.ShiftLeftCorrect | emitter/expression.cc:43-45 | `shl` is a wrapping left shift, undefined for amounts outside [0, 64). |
| Emitter.ShiftRightCorrect | emitter/expression.cc:46-48 | `lshr` is a logical right shift, with zeros in at the top even for negative values, and is undefined outside [0, 64). |
| Emitter.CreationOrder | emitter/expression.cc:24-26 | The values a lowering creates number the tree's nodes and end with the result. All of the left operand's creations come first, then the right operand's. |
| Emitter.LowerCorrect | emitter/expression.cc:24-64 | The lowered IR value evaluates to the expression's 64-bit value, and is undefined exactly when the expression is. |
| Emitter.Emitter.constructor | emitter/expression.cc:14-15 | A new emitter holds the builder and no result. |
| Emitter.Emitter.Emit | emitter/expression.cc:17-21 | After dispatch the result is set; it is the lowering of the expression, created in post-order. |
| Emitter.Emitter.HandleBinary | emitter/expression.cc:24-59 | Lowers lhs, then rhs, then creates the operator's opcode on them. The result is the lowering and the builder's block is untouched. |
| Emitter.Emitter.HandleIntegerLiteral | emitter/expression.cc:61-64 | The result is the literal's i64 constant. |
| Emitter.EmitExpression | emitter/expression.cc:74-77 | A fresh emitter lowers the expression, so nothing carries over between calls. |
| Emitter.PrintsAppend | emitter/emit.cc:40-44 | Each further expression adds exactly one `printf("%d\n", value)` call at the end. |
| Emitter.PrintsAt | emitter/emit.cc:40-44 | The i-th call prints the i-th expression's lowered value, one call per expression. |
| Emitter.Emit | emitter/emit.cc:23-50 | The method declares `printf` and then `main` in the unit, and always returns the `main` routine the loop builds. |
| Emitter.MainShape | emitter/emit.cc:33-46 | `main` takes no parameters and returns i32. It has one block: one print per expression in module order, then `ret 0`. |
| Emitter.EmptyMain | emitter/emit.cc:46 | An empty module gives a `main` with only `ret 0`. |
| Emitter.MainPrintsProgram | emitter/emit.cc:39-46 | Running `main`'s block prints exactly the program's values in order, and is undefined exactly when one of them is. |
| Emitter.PrintsLiteral | emitter/emit.cc:39-46 | A module holding the literal 42 prints 42. |
| Emitter.PrintsArithmetic | emitter/emit.cc:39-46 | `2 + 3 * 4`, `1 - 2` and `-8 >> 1` print 14, -1 and 2^63 - 4, the last being a logical shift. |
| Emitter.DivisionByZeroUndefined | emitter/expression.cc:34-36 | A module containing `7 / 0` has undefined output. |
| CommandLine.LeadingDashes | commands/command.cc:66-70 | Counts the leading run of dashes exactly. |
| CommandLine.Find | commands/command.cc:74 | `find('=')`: the first occurrence, or none. |
| CommandLine.Split | commands/command.cc:73-80 | Name and value come from a split at the first `=`. The name has no `=`, and with no `=` the value is empty. |
| CommandLine.Initialise | commands/command.cc:46-60 | The loop builds the option table, all flags false and all options at their defaults. |
| CommandLine.SkipDashes | commands/command.cc:66-70 | The inner `while` stops at the first non-dash character. |
| CommandLine.ReadOption | commands/command.cc:66-115 | One option argument has exactly the effect of the specification function: a rejection, a flag setting or an option setting. |
| CommandLine.CopyTail | commands/command.cc:116-121 | The copy loop collects the arguments from the first positional one onward. |
| CommandLine.ParseCommandLine | commands/command.cc:45-122 | The parsing loops give exactly the recursive parse of the arguments. |
| CommandLine.Run | commands/command.cc:45-125 | A rejected command line returns false without calling `execute`; otherwise the result is `execute`'s on the parsed maps and tail. |
| CommandLine.OptionTableNames | commands/command.cc:49-51 | The option table holds exactly the declared names. |
| CommandLine.OptionTableFirst | commands/command.cc:49-51 | A name maps to its first declaration, since `insert` keeps the first. |
| CommandLine.DefaultFlagsFalse | commands/command.cc:50-55 | Before parsing, the flag map holds exactly the declared flags, all false. |
| CommandLine.DefaultOptionsValue | commands/command.cc:50-58 | Before parsing, every option maps to the default of its last declaration. |
| CommandLine.TailStart | commands/command.cc:64-66 | Arguments before the start all begin with `-`, and the one at the start is empty or does not. |
| CommandLine.TailIsSuffix | commands/command.cc:116-121 | The tail is exactly the suffix from the first non-option argument; later dashed arguments pass through. |
| CommandLine.DashesEquivalent | commands/command.cc:66-70 | `-x`, `--x` and any longer run of dashes name the same option. |
| CommandLine.DashesPrefix | commands/command.cc:66-70 | The leading dashes counted are exactly the run of dashes before the name. |
| CommandLine.SameTextSameEffect | commands/command.cc:66-115 | Arguments that differ only in their dashes have the same effect, and one is rejected exactly when the other is. |
| CommandLine.UnknownRejects | commands/command.cc:81-88 | An unknown name rejects the command line, whatever follows. |
| CommandLine.EmptyValueRejects | commands/command.cc:90-98 | A valued option with an empty value rejects the command line. |
| CommandLine.FlagBare | commands/command.cc:113-115 | A bare flag sets it true. |
| CommandLine.BareFlagLine | commands/command.cc:45-122 | A bare flag followed by a positional argument sets that flag over the defaults and leaves the argument as the whole tail. |
| CommandLine.FlagValue | commands/command.cc:100-112 | `=true` and `=false` set a flag accordingly; any other value rejects it as a boolean flag. |
| CommandLine.SplitAtFirst | commands/command.cc:73-80 | The split happens at the first `=`; later ones stay in the value. |
| CommandLine.LaterOverwrites | commands/command.cc:99-114 | A later occurrence of the same name overwrites the earlier one. |
| Pipeline.FlagSet | commands/build.cc:66 | `flags[name]` reads false for an absent name. |
| Pipeline.OptionValue | commands/build.cc:115 | `options[name]` reads empty for an absent name. |
| Pipeline.FailLevel | commands/build.cc:65-66 | `strict` makes the fail level WARNING, and otherwise it is ERROR. |
| Build.Execute | commands/build.cc:52-76 | With no path the result is usage and the reporter writes nothing. Otherwise the parse and check gates apply, then `main` is lowered and the output name derived; what the reporter writes is the gates' output. |
| Build.RunGates | commands/build.cc:63-76 | A missing module or any error after parsing stops before checking. A failed check or `count(fail_level) > 0` stops before emission. The reporter writes the parse's diagnostics, then the check's only when parsing let the module through. |
| Build.BuildDefaults | commands/build.cc:36-47 | Before parsing, `build`'s four flags are false and its two valued options are empty. |
| Build.StrictCommandLine | commands/build.cc:39 | `build -strict path` sets `strict`, leaves every other flag and option at its default, and leaves the path as the only positional argument. |
| Build.DeriveOutputName | commands/build.cc:115-126 | The successive reassignments of `name` give the output-name function. |
| Build.OutputVerbatim | commands/build.cc:115-116 | A non-empty `output` option is the name, used verbatim. |
| Build.DerivedName | commands/build.cc:116-126 | Otherwise the name is the base name with `.indie` stripped. `llvm` adds `.ll` and takes priority, `object` adds `.o`, and with neither nothing is added. |
| Build.StemExamples | commands/build.cc:118-120 | `.indie` is stripped only from a name longer than six characters. |
| Build.NoArgumentsUsage | commands/build.cc:52-55 | With no arguments the build stops before parsing. |
| Build.StrictWarningsFatal | commands/build.cc:65-76 | Take the stub checker and an error-free parse. The build then stops at the check exactly when `strict` is set and parsing reported something; otherwise it lowers. |
| Check.Execute | commands/check.cc:32-52 | Succeeds exactly when there is a path, every path parsed and passed, and the shared reporter counts nothing at the fail level. The reporter writes what every path shows, in argument order. |
| Check.CheckPath | commands/check.cc:43-49 | Parses one path, checks it only if it parsed, and reports both into the shared reporter. The reporter's output grows by the parse's display, then the check's when there is a module. |
| Check.PathShownSteps | commands/check.cc:43-49 | Reporting the parse's diagnostics and then, if there is a module, the check's, writes exactly one path's output after what was written before. |
| Check.PathLevelsSteps | commands/check.cc:43-49 | The same two reports extend the reported history by exactly that path's levels. |
| Check.StrictCommandLine | commands/check.cc:24-29 | `check -strict path` sets `strict`, the one option `check` declares, and leaves the path as the only positional argument. |
| Check.OutputUnrecognized | commands/check.cc:24-29 | `check` rejects `-output=…` as unrecognized, whatever follows, because it declares only `strict`. |
| Check.AllPassedEvery | commands/check.cc:41-50 | The result is the conjunction over all paths; there is no early exit. |
| Check.ReportedAppend | commands/check.cc:38-50 | The shared reporter's history over a list of paths splits at any point into the two parts' histories. |
| Check.FailedPathFails | commands/check.cc:43-48 | A single path that does not parse, or fails its check, fails the command. |
| Check.StubCheckerVerdict | commands/check.cc:39-51 | With the stub checker, success means every path parsed and nothing was reported at the fail level; under `strict`, nothing at all was reported. |

## Left out

- `File::read` (core/file.cc:13-28) is filesystem I/O. Reading a file is part of the `parse`
  parameter, and the excerpt reads lines through `System.fileLines`.
- parser/parse.cc and the generated lexer and grammar are not part of this model. Parsing is
  the `parse` function of `Pipeline.Toolchain`, which yields an optional module and its
  diagnostics.
- `isatty`, `filesystem::proximate` and `filesystem::is_regular_file` are fields of
  `Diagnostics.System`, given as inputs.
- The ANSI escape bytes are not modelled. Only which piece is plain, tinted by level
  (underlined, bold or coloured) or dimmed is.
- The LLVM backend is not modelled: initialising targets, the execution engine, the target
  triple and data layout, optimisation, and writing IR, assembly or object files. This is
  commands/build.cc:57-62 and 86-113 and 128 onward. `Build.Outcome.Lowered` marks the point
  where the lowered `main` and the output name are handed on.
- The `llvm::verifyFunction` call (emitter/emit.cc:48) is not modelled. Its result is ignored
  there, so it changes nothing `emit` returns.
- The `!llvm_function` check (commands/build.cc:82-84) is not modelled. `emit` always returns
  `main`, so that branch is never taken.
- `CreateGlobalStringPtr` is modelled as the shared `"%d\n"` string in each call. Printing an
  i64 through `%d` is C undefined behaviour. The model's `Ir.Printed` takes the i64 argument
  itself as what is printed.
- The constant folder of `IRBuilder<>` is not modelled: operations stay unevaluated trees.
  Folding would not change the values the evaluator gives them.
- Build.Execute and Check.Execute: the text the reporter writes is returned as a value, not
  written to a process-wide standard error. The usage text of `print_help` is not part of it.
- `print_help`, `print_secondary_help`, the help and colour modules, and the text of the
  rejection messages are left out. They are user-interface text. `CommandLine.Rejection`
  records which message would be printed.
- main.cc, the dispatch over `argv`, is left out.
- The stale `TerminalError` name (commands/build.cc:64, commands/check.cc:38) is left out. It
  is modelled as `Diagnostics.Terminal` with its default minimum level.
- A rendering fault is not modelled as a crash. A start column past the end of the target
  line makes `utf8::advance` throw, and a reversed column range is undefined behaviour in
  `string(start, end)`. The model sets the terminal's `faulted` flag and stops that excerpt.
  It does not model the process ending.
- Counter and line widths (`size_t`, `int`) are unbounded here. Overflow after 2^64 reports,
  or beyond `int` line numbers, is not modelled.
- Diagnostics.LineNumberPrefix: requires a prefix size of at most 6. The source's `size_t`
  subtraction would wrap for larger sizes, and its callers only pass 0 and 2.
- The streaming `report(nullptr) << ...` builder is not part of this model, because
  core/error.h does not declare it.
