/**
 * The diagnostic reporter: severity levels, the two monotone counters, the minimum-level
 * display filter, and the rendering of diagnostics to standard error, either as one plain
 * line or, on a terminal, as a coloured header followed by a numbered source excerpt with
 * the offending columns highlighted.
 *
 * Colours are abstract: a rendered line is a sequence of pieces, each plain, tinted in the
 * level's colour (underlined, bold or plain colour) or dimmed; the escape bytes are not
 * modelled. A line's text is what it shows with the colours taken away.
 */
module Diagnostics {

  import opened Wrappers
  import Decimal

  datatype Level = Warning | Error

  /** Whether `count(minLevel)` counts a diagnostic at `level`. */
  predicate AtLeast(level: Level, minLevel: Level) {
    minLevel == Warning || level == Error
  }

  /** The number of levels in `levels` at or above `minLevel`. */
  function Tally(levels: seq<Level>, minLevel: Level): (n: nat)
    ensures n <= |levels|
    ensures minLevel == Warning ==> n == |levels|
  {
    if levels == [] then 0
    else Tally(levels[..|levels| - 1], minLevel) + if AtLeast(levels[|levels| - 1], minLevel) then 1 else 0
  }

  lemma TallyAppend(levels: seq<Level>, level: Level, minLevel: Level)
    ensures Tally(levels + [level], minLevel) ==
            Tally(levels, minLevel) + if AtLeast(level, minLevel) then 1 else 0
  {
    assert (levels + [level])[..|levels|] == levels;
  }

  /** A position in a source file: lines and codepoint columns count from 1. */
  datatype Position = Position(path: string, line: nat, column: nat)

  /** The location of a sequence of characters in a source file. */
  datatype Location = Location(begin: Position, end: Position)

  datatype Tint = Underline | Bold | Colorful

  datatype Piece =
    | Plain(text: string)
    | Tinted(tint: Tint, level: Level, text: string)
    | Dim(text: string)

  /** One line written to standard error, without its line terminator. */
  type Line = seq<Piece>

  /** The characters a line shows once its colours are taken away. */
  function Text(line: Line): string {
    if line == [] then [] else Text(line[..|line| - 1]) + line[|line| - 1].text
  }

  lemma {:induction false} TextAppend(a: Line, b: Line)
    ensures Text(a + b) == Text(a) + Text(b)
  {
    if b == [] {
      assert a + b == a;
    } else {
      assert (a + b)[..|a + b| - 1] == a + b[..|b| - 1];
      assert (a + b)[|a + b| - 1] == b[|b| - 1];
      TextAppend(a, b[..|b| - 1]);
    }
  }

  lemma TextOfTwo(p: Piece, q: Piece)
    ensures Text([p, q]) == p.text + q.text
  {
    assert [p, q][..1] == [p] && [p][..0] == [];
    assert Text([p]) == Text([]) + p.text;
    assert Text([p]) == p.text;
  }

  lemma TextOfThree(p: Piece, q: Piece, r: Piece)
    ensures Text([p, q, r]) == p.text + q.text + r.text
  {
    assert [p, q, r][..2] == [p, q];
    TextOfTwo(p, q);
  }

  function Spaces(n: nat): (s: string)
    ensures |s| == n && forall k :: 0 <= k < n ==> s[k] == ' '
  {
    seq(n, _ => ' ')
  }

  /**
   * What `line_number_prefix` writes: left padding, the prefix, the dimmed line number and
   * a tab. The padding fills the field up to six columns together with the prefix's
   * `prefixSize` columns and the digits, and is empty when they do not fit.
   */
  function NumberPrefix(lineNumber: nat, prefix: Line, prefixSize: nat): Line
    requires prefixSize <= 6
  {
    var value := Decimal.Digits(lineNumber);
    var pad := if |value| < 6 - prefixSize then 6 - prefixSize - |value| else 0;
    [Plain(Spaces(pad))] + prefix + [Dim(value), Plain("\t")]
  }

  /** The padding loop of `line_number_prefix`. */
  method LineNumberPrefix(lineNumber: nat, prefix: Line := [], prefixSize: nat := 0) returns (r: Line)
    requires prefixSize <= 6
    ensures r == NumberPrefix(lineNumber, prefix, prefixSize)
  {
    var value := Decimal.Digits(lineNumber);
    var result := "";
    var i := |value|;
    while i < 6 - prefixSize
      invariant |value| <= i
      invariant i <= 6 - prefixSize || i == |value|
      invariant result == Spaces(i - |value|)
    {
      result := result + " ";
      i := i + 1;
    }
    r := [Plain(result)] + prefix + [Dim(value), Plain("\t")];
  }

  /**
   * When the digits fit, the padding, the prefix and the digits take exactly six columns,
   * so the numbers of an excerpt end in the same column.
   */
  lemma PrefixAlignment(lineNumber: nat, prefix: Line, prefixSize: nat)
    requires prefixSize <= 6 && |Text(prefix)| == prefixSize
    requires |Decimal.Digits(lineNumber)| <= 6 - prefixSize
    ensures Text(NumberPrefix(lineNumber, prefix, prefixSize)) ==
            Spaces(6 - prefixSize - |Decimal.Digits(lineNumber)|) + Text(prefix) +
            Decimal.Digits(lineNumber) + "\t"
    ensures |Text(NumberPrefix(lineNumber, prefix, prefixSize))| == 7
  {
    var value := Decimal.Digits(lineNumber);
    var pad := Spaces(6 - prefixSize - |value|);
    TextAppend([Plain(pad)] + prefix, [Dim(value), Plain("\t")]);
    TextAppend([Plain(pad)], prefix);
    assert Text([Plain(pad)]) == pad;
    assert Text([Dim(value), Plain("\t")]) == value + "\t" by {
      assert [Dim(value), Plain("\t")][..1] == [Dim(value)];
    }
  }

  /**
   * The pieces that follow the line number on the target line. The highlight runs from
   * codepoint `begin.column - 1` to `end.column`, or to the end of the line when the span
   * continues on later lines; a single-line span that ends past the line shows it plain.
   * `None` when the highlight cannot be cut out: a start column of 0 or past the end of the
   * line (the source's checked UTF-8 advance throws), or a start after the end (the source
   * builds a string from a reversed iterator range, which is undefined).
   */
  function Highlight(line: string, location: Location, level: Level): (r: Option<Line>)
  {
    if location.end.line > location.begin.line || |line| >= location.end.column then
      var endColumn := if location.end.line > location.begin.line then |line| else location.end.column;
      if 1 <= location.begin.column && location.begin.column - 1 <= endColumn then
        Some([Plain(line[..location.begin.column - 1]),
              Tinted(Colorful, level, line[location.begin.column - 1..endColumn]),
              Plain(line[endColumn..])])
      else None
    else Some([Plain(line)])
  }

  const Arrow: string := "→ "

  /**
   * Excerpt line `k` (1-based) of `lines`: the target line `location.begin.line` gets the
   * arrow and the highlight (only its number prefix when the highlight faults), every other
   * line is shown dimmed.
   */
  function Row(lines: seq<string>, k: nat, location: Location, level: Level): Line
    requires 1 <= k <= |lines|
  {
    RowOf(lines[k - 1], k, location, level)
  }

  /** Excerpt line number `k`, whose text is `line`. */
  function RowOf(line: string, k: nat, location: Location, level: Level): Line {
    if k == location.begin.line then
      NumberPrefix(k, [Tinted(Bold, level, Arrow)], 2) +
      match Highlight(line, location, level)
      case None => []
      case Some(pieces) => pieces
    else NumberPrefix(k, [], 0) + [Dim(line)]
  }

  /** The rows numbered `first` to `last`, in order. */
  function Rows(lines: seq<string>, location: Location, level: Level, first: nat, last: nat): seq<Line>
    requires 1 <= first && last <= |lines|
    decreases last
  {
    if last < first then [] else Rows(lines, location, level, first, last - 1) + [Row(lines, last, location, level)]
  }

  /** What was written, and whether the writing stopped at a fault. */
  datatype Rendering = Rendering(lines: seq<Line>, faulted: bool)

  /** The first line of the excerpt window: two lines above the target, but at least line 1. */
  function WindowFirst(location: Location): nat {
    if location.begin.line > 2 then location.begin.line - 2 else 1
  }

  /** The last line of the excerpt window: two lines below the target, but within the file. */
  function WindowLast(lines: seq<string>, location: Location): nat {
    if |lines| < location.begin.line + 2 then |lines| else location.begin.line + 2
  }

  /**
   * The excerpt of `lines` for a diagnostic at `location`: the lines numbered in
   * [begin.line - 2, begin.line + 2] that exist, between two blank lines, or nothing at all
   * when no line of the file falls in that window. A fault on the target line stops the
   * writing right after its number prefix.
   */
  function Excerpt(lines: seq<string>, location: Location, level: Level): Rendering {
    var first := WindowFirst(location);
    var last := WindowLast(lines, location);
    var b := location.begin.line;
    if last < first then Rendering([], false)
    else if first <= b <= last && Highlight(lines[b - 1], location, level).None? then
      Rendering([[]] + Rows(lines, location, level, first, b), true)
    else
      Rendering([[]] + Rows(lines, location, level, first, last) + [[]], false)
  }

  /**
   * The target line of the excerpt: the arrow and its number, then the line with its
   * highlighted segment; `fault` when the segment cannot be cut out of the line.
   */
  method PrintTargetLine(lineNumber: nat, line: string, location: Location, level: Level)
    returns (row: Line, fault: bool)
    requires lineNumber == location.begin.line
    ensures fault == Highlight(line, location, level).None?
    ensures row == RowOf(line, lineNumber, location, level)
  {
    row := LineNumberPrefix(lineNumber, [Tinted(Bold, level, Arrow)], 2);
    fault := false;
    var lineLength := |line|;
    if location.end.line > location.begin.line || lineLength >= location.end.column {
      var endColumn := if location.end.line > location.begin.line then lineLength else location.end.column;
      if location.begin.column < 1 || location.begin.column - 1 > endColumn {
        fault := true;
        return;
      }
      row := row + [Plain(line[..location.begin.column - 1]),
                    Tinted(Colorful, level, line[location.begin.column - 1..endColumn]),
                    Plain(line[endColumn..])];
    } else {
      row := row + [Plain(line)];
    }
  }

  /**
   * The excerpt loop of `display_tty_error`: it reads the file line by line, counting line
   * numbers, writes the blank separator before the first line it shows, and stops reading
   * after the line two below the target.
   */
  method PrintExcerpt(lines: seq<string>, location: Location, level: Level)
    returns (out: seq<Line>, faulted: bool)
    ensures Rendering(out, faulted) == Excerpt(lines, location, level)
  {
    var b := location.begin.line;
    ghost var first := WindowFirst(location);
    out := [];
    faulted := false;
    var lineNumber := 0;
    var printedExcerpt := false;
    while lineNumber < |lines|
      invariant lineNumber <= |lines|
      invariant Shown(lines, location, level, lineNumber, printedExcerpt, out)
    {
      lineNumber := lineNumber + 1;
      var written, fault, stop := PrintExcerptLine(lineNumber, lines[lineNumber - 1], location, level, printedExcerpt);
      ShownStep(lines, location, level, lineNumber, printedExcerpt, out);
      out := out + written;
      printedExcerpt := printedExcerpt || written != [];
      if fault {
        faulted := true;
        return;
      }
      if stop {
        break;
      }
    }
    ExcerptCompletes(lines, location, level, lineNumber, printedExcerpt, out);
    if printedExcerpt {
      out := out + [[]];
    }
  }

  /**
   * The state of the excerpt loop after reading `n` lines: it is still before the stop
   * line, the separator was written exactly when the window was entered, the target (if
   * passed) did not fault, and `out` holds the window's rows read so far.
   */
  ghost predicate Shown(lines: seq<string>, location: Location, level: Level, n: nat, printed: bool, out: seq<Line>) {
    var b := location.begin.line;
    var first := WindowFirst(location);
    n <= |lines| && n < b + 2 &&
    (printed <==> first <= n) &&
    (1 <= b <= n ==> Highlight(lines[b - 1], location, level).Some?) &&
    out == if printed then [[]] + Rows(lines, location, level, first, n) else []
  }

  /** Reading line `n` keeps `Shown`, unless it faults (the excerpt is complete) or it is the stop line. */
  lemma ShownStep(lines: seq<string>, location: Location, level: Level, n: nat, printed: bool, out: seq<Line>)
    requires 1 <= n <= |lines|
    requires Shown(lines, location, level, n - 1, printed, out)
    ensures var b := location.begin.line;
            var line := lines[n - 1];
            var inWindow := n + 2 >= b && n <= b + 2;
            var written := if inWindow then (if printed then [] else [[]]) + [RowOf(line, n, location, level)] else [];
            var fault := n == b && Highlight(line, location, level).None?;
            var stop := n != b && n == b + 2;
            (fault ==> Rendering(out + written, true) == Excerpt(lines, location, level)) &&
            (!fault && !stop ==> Shown(lines, location, level, n, printed || written != [], out + written)) &&
            (!fault && stop ==>
               n == b + 2 && printed && out + written == [[]] + Rows(lines, location, level, WindowFirst(location), n) &&
               (1 <= b ==> Highlight(lines[b - 1], location, level).Some?))
  {
    var first := WindowFirst(location);
    if first <= n {
      RowsExtend(lines, location, level, first, n);
    }
  }

  /**
   * One iteration of the excerpt loop: the row for file line `lineNumber` when it is in
   * the window, preceded by the blank separator if nothing was shown yet; `stop` after
   * the line two below the target.
   */
  method PrintExcerptLine(lineNumber: nat, line: string, location: Location, level: Level, printedExcerpt: bool)
    returns (written: seq<Line>, fault: bool, stop: bool)
    ensures var b := location.begin.line;
            written == if lineNumber + 2 >= b && lineNumber <= b + 2
                       then (if printedExcerpt then [] else [[]]) + [RowOf(line, lineNumber, location, level)]
                       else []
    ensures fault == (lineNumber == location.begin.line && Highlight(line, location, level).None?)
    ensures stop == (lineNumber != location.begin.line && lineNumber == location.begin.line + 2)
  {
    var b := location.begin.line;
    written := [];
    fault := false;
    stop := false;
    if lineNumber == b {
      if !printedExcerpt {
        written := written + [[]];
      }
      var row;
      row, fault := PrintTargetLine(lineNumber, line, location, level);
      written := written + [row];
    } else if lineNumber + 2 >= b && lineNumber <= b + 2 {
      if !printedExcerpt {
        written := written + [[]];
      }
      var prefix := LineNumberPrefix(lineNumber);
      written := written + [prefix + [Dim(line)]];
      if b + 2 == lineNumber {
        stop := true;
      }
    }
  }

  /** One more row: the rows up to `n` are the rows up to `n - 1` and row `n`. */
  lemma RowsExtend(lines: seq<string>, location: Location, level: Level, first: nat, n: nat)
    requires 1 <= first <= n <= |lines|
    ensures Rows(lines, location, level, first, n) ==
            Rows(lines, location, level, first, n - 1) + [RowOf(lines[n - 1], n, location, level)]
    ensures n == first ==> Rows(lines, location, level, first, n) == [RowOf(lines[n - 1], n, location, level)]
  {
  }

  /** When the loop ends without a fault, it has shown every line of the window. */
  lemma ExcerptCompletes(lines: seq<string>, location: Location, level: Level, n: nat, printed: bool, out: seq<Line>)
    requires n <= |lines| && n <= location.begin.line + 2
    requires n == |lines| || n == location.begin.line + 2
    requires 1 <= location.begin.line <= n ==> Highlight(lines[location.begin.line - 1], location, level).Some?
    requires printed <==> WindowFirst(location) <= n
    requires out == if printed then [[]] + Rows(lines, location, level, WindowFirst(location), n) else []
    ensures Excerpt(lines, location, level) == Rendering(if printed then out + [[]] else out, false)
  {
  }

  /** The `i`-th row of the window is file line `first + i`: the lines appear in order. */
  lemma {:induction false} RowsAt(lines: seq<string>, location: Location, level: Level, first: nat, last: nat, i: nat)
    requires 1 <= first && last <= |lines| && first + i <= last
    ensures |Rows(lines, location, level, first, last)| == last - first + 1
    ensures Rows(lines, location, level, first, last)[i] == Row(lines, first + i, location, level)
  {
    if first + i < last {
      RowsAt(lines, location, level, first, last - 1, i);
    } else if first < last {
      RowsAt(lines, location, level, first, last - 1, 0);
    }
  }

  /**
   * Without a fault the excerpt shows exactly the file lines numbered in
   * [begin.line - 2, begin.line + 2] ∩ [1, |lines|], in order, framed by one blank line
   * before and one after; it is empty exactly when that range is.
   */
  lemma ExcerptShowsWindow(lines: seq<string>, location: Location, level: Level, i: nat)
    requires !Excerpt(lines, location, level).faulted
    requires WindowFirst(location) + i <= WindowLast(lines, location)
    ensures var out := Excerpt(lines, location, level).lines;
            |out| == WindowLast(lines, location) - WindowFirst(location) + 3 &&
            out[0] == [] && out[|out| - 1] == [] &&
            out[i + 1] == Row(lines, WindowFirst(location) + i, location, level)
  {
    RowsAt(lines, location, level, WindowFirst(location), WindowLast(lines, location), i);
  }

  lemma ExcerptEmpty(lines: seq<string>, location: Location, level: Level)
    ensures Excerpt(lines, location, level).lines == [] <==>
            WindowLast(lines, location) < WindowFirst(location)
  {
  }

  /** Only the target line carries the arrow. */
  lemma ArrowOnlyOnTarget(lines: seq<string>, k: nat, location: Location, level: Level)
    requires 1 <= k <= |lines|
    ensures Row(lines, k, location, level)[1] == Tinted(Bold, level, Arrow) <==> k == location.begin.line
  {
  }

  /** With its colours taken away, the highlighted target line reads as the file line. */
  lemma HighlightKeepsText(line: string, location: Location, level: Level)
    requires Highlight(line, location, level).Some?
    ensures Text(Highlight(line, location, level).value) == line
  {
    var h := Highlight(line, location, level).value;
    if location.end.line > location.begin.line || |line| >= location.end.column {
      var s := location.begin.column - 1;
      var e := if location.end.line > location.begin.line then |line| else location.end.column;
      var before, span, after := Plain(line[..s]), Tinted(Colorful, level, line[s..e]), Plain(line[e..]);
      assert h == [before, span, after];
      TextOfThree(before, span, after);
      assert line == line[..s] + line[s..e] + line[e..];
    } else {
      assert h == [Plain(line)];
      assert h[..0] == [];
    }
  }

  /**
   * The coloured piece of the target line is codepoints [begin.column - 1, E), where E is
   * the line's length for a span that continues on later lines and end.column otherwise;
   * a single-line span ending past the line is shown without highlighting.
   */
  lemma HighlightRange(line: string, location: Location, level: Level)
    requires Highlight(line, location, level).Some?
    ensures location.end.line > location.begin.line ==>
            Highlight(line, location, level).value[1] ==
            Tinted(Colorful, level, line[location.begin.column - 1..|line|])
    ensures location.end.line <= location.begin.line && location.end.column <= |line| ==>
            Highlight(line, location, level).value[1] ==
            Tinted(Colorful, level, line[location.begin.column - 1..location.end.column])
    ensures location.end.line <= location.begin.line && location.end.column > |line| ==>
            Highlight(line, location, level).value == [Plain(line)]
  {
  }

  /** A well-formed single-line span never faults. */
  lemma OrderedSpanRenders(line: string, location: Location, level: Level)
    requires location.begin.line == location.end.line
    requires 1 <= location.begin.column <= location.end.column
    ensures Highlight(line, location, level).Some?
  {
  }

  /** The environment the terminal reporter queries. */
  datatype System = System(
    stderrIsTty: bool,                    // isatty(STDERR_FILENO)
    proximate: string -> string,          // the path shown, relative to the working directory
    isRegularFile: string -> bool,
    fileLines: string -> seq<string>)     // the lines of the file as read back, as codepoints

  function LevelName(level: Level): string {
    if level == Warning then "Warning" else "Error"
  }

  /** The coloured `path:line · message` header of an excerpted diagnostic. */
  function TtyHeader(level: Level, location: Location, message: string, sys: System): Line {
    [Tinted(Underline, level, sys.proximate(location.begin.path) + ":" + Decimal.Digits(location.begin.line)),
     Tinted(Colorful, level, " · " + message)]
  }

  /** What `display_tty_error` writes: the header, then the excerpt of a regular file. */
  function TtyLocated(level: Level, location: Location, message: string, sys: System): Rendering {
    if !sys.isRegularFile(location.begin.path) then Rendering([TtyHeader(level, location, message, sys)], false)
    else
      var e := Excerpt(sys.fileLines(location.begin.path), location, level);
      Rendering([TtyHeader(level, location, message, sys)] + e.lines, e.faulted)
  }

  /** Whether a terminal with the given minimum level shows a diagnostic at `level`. */
  predicate Displays(minLevel: Level, level: Level) {
    !(minLevel == Error && level == Warning)
  }

  /** What the terminal shows for a located diagnostic. */
  function DisplayLocated(minLevel: Level, level: Level, location: Location, message: string, sys: System): (r: Rendering)
    ensures !Displays(minLevel, level) ==> r.lines == []
    ensures Displays(minLevel, level) && !sys.stderrIsTty ==>
            r.lines == [[Plain(LevelName(level) + ": " + sys.proximate(location.begin.path) + ":" +
                               Decimal.Digits(location.begin.line) + ": " + message)]]
    ensures Displays(minLevel, level) && sys.stderrIsTty ==>
            0 < |r.lines| && r.lines[0] == TtyHeader(level, location, message, sys)
  {
    if !Displays(minLevel, level) then Rendering([], false)
    else if sys.stderrIsTty then TtyLocated(level, location, message, sys)
    else Rendering([[Plain(LevelName(level) + ": " + sys.proximate(location.begin.path) + ":" +
                          Decimal.Digits(location.begin.line) + ": " + message)]], false)
  }

  /** What the terminal shows for a diagnostic without a location. */
  function DisplayMessage(minLevel: Level, level: Level, message: string, sys: System): (r: seq<Line>)
    ensures !Displays(minLevel, level) ==> r == []
    ensures Displays(minLevel, level) ==> |r| == 1
    ensures Displays(minLevel, level) && !sys.stderrIsTty ==> Text(r[0]) == LevelName(level) + ": " + message
    ensures Displays(minLevel, level) && sys.stderrIsTty ==> Text(r[0]) == LevelName(level) + ": " + message
  {
    if !Displays(minLevel, level) then []
    else if sys.stderrIsTty then
      var line := [Tinted(Underline, level, LevelName(level) + ":"), Tinted(Colorful, level, " " + message)];
      TextOfTwo(line[0], line[1]);
      [line]
    else
      var line := [Plain(LevelName(level) + ": " + message)];
      assert line[..0] == [];
      [line]
  }

  /** A diagnostic as a phase hands it to the reporter. */
  datatype Diagnostic =
    | Located(level: Level, location: Location, message: string)
    | Unlocated(level: Level, message: string)

  /** What the terminal writes for one diagnostic: the located display or the message-only one. */
  function Shows(minLevel: Level, diagnostic: Diagnostic, sys: System): Rendering {
    match diagnostic
    case Located(level, location, message) => DisplayLocated(minLevel, level, location, message, sys)
    case Unlocated(level, message) => Rendering(DisplayMessage(minLevel, level, message, sys), false)
  }

  /** One rendering written after another: the lines follow on, and a fault in either is kept. */
  function Then(first: Rendering, second: Rendering): Rendering {
    Rendering(first.lines + second.lines, first.faulted || second.faulted)
  }

  /** Writing renderings one after another does not depend on how they are grouped. */
  lemma ThenAssociative(a: Rendering, b: Rendering, c: Rendering)
    ensures Then(Then(a, b), c) == Then(a, Then(b, c))
  {
    Associative(a.lines, b.lines, c.lines);
  }

  /** What the terminal writes for a sequence of diagnostics, one after the other. */
  function ShowsAll(minLevel: Level, diagnostics: seq<Diagnostic>, sys: System): (r: Rendering)
    ensures diagnostics == [] ==> r == Rendering([], false)
  {
    if diagnostics == [] then Rendering([], false)
    else Then(ShowsAll(minLevel, diagnostics[..|diagnostics| - 1], sys), Shows(minLevel, diagnostics[|diagnostics| - 1], sys))
  }

  /** Showing one more diagnostic appends its rendering. */
  lemma ShowsAllStep(minLevel: Level, diagnostics: seq<Diagnostic>, i: nat, sys: System)
    requires i < |diagnostics|
    ensures ShowsAll(minLevel, diagnostics[..i + 1], sys) ==
            Then(ShowsAll(minLevel, diagnostics[..i], sys), Shows(minLevel, diagnostics[i], sys))
  {
    assert diagnostics[..i + 1][..i] == diagnostics[..i];
  }

  /** Concatenation regroups freely; stated once so the reporting loop need not rediscover it. */
  lemma Associative<T>(a: seq<T>, b: seq<T>, c: seq<T>)
    ensures a + b + c == a + (b + c)
  {
  }

  function Levels(diagnostics: seq<Diagnostic>): (r: seq<Level>)
    ensures |r| == |diagnostics| && forall i :: 0 <= i < |r| ==> r[i] == diagnostics[i].level
  {
    if diagnostics == [] then [] else Levels(diagnostics[..|diagnostics| - 1]) + [diagnostics[|diagnostics| - 1].level]
  }

  /**
   * A reporter that writes to standard error. `reported` is the history of levels
   * reported so far; the two counters always agree with it.
   */
  class Terminal {
    var errorCount: nat
    var warningCount: nat
    const minLevel: Level
    /** Everything written to standard error so far. */
    var stderr: seq<Line>
    /** Set once rendering hit a fault: the source would throw or reach undefined behaviour there. */
    var faulted: bool
    ghost var reported: seq<Level>

    ghost predicate Valid()
      reads this
    {
      errorCount == Tally(reported, Error) && errorCount + warningCount == |reported|
    }

    /** A fresh reporter has counted nothing; by default it displays everything. */
    constructor (minLevel: Level := Warning)
      ensures Valid()
      ensures this.minLevel == minLevel
      ensures errorCount == 0 && warningCount == 0 && reported == []
      ensures stderr == [] && !faulted
    {
      this.minLevel := minLevel;
      errorCount := 0;
      warningCount := 0;
      stderr := [];
      faulted := false;
      reported := [];
    }

    /** The number of diagnostics reported at or above `minLevel` (errors by default). */
    function Count(minLevel: Level := Error): (n: nat)
      reads this
      requires Valid()
      ensures n == Tally(reported, minLevel)
    {
      if minLevel == Warning then warningCount + errorCount else errorCount
    }

    /** Counts the diagnostic, then displays it if the filter lets it through. */
    method Report(level: Level, location: Location, message: string, sys: System)
      requires Valid()
      modifies this
      ensures Valid()
      ensures reported == old(reported) + [level]
      ensures level == Warning ==> warningCount == old(warningCount) + 1 && errorCount == old(errorCount)
      ensures level == Error ==> errorCount == old(errorCount) + 1 && warningCount == old(warningCount)
      ensures stderr == old(stderr) + DisplayLocated(minLevel, level, location, message, sys).lines
      ensures faulted == (old(faulted) || DisplayLocated(minLevel, level, location, message, sys).faulted)
    {
      if level == Warning {
        warningCount := warningCount + 1;
      } else {
        errorCount := errorCount + 1;
      }
      TallyAppend(reported, level, Error);
      reported := reported + [level];
      DisplayAt(level, location, message, sys);
    }

    /** Counts a diagnostic that has no location, then displays it if the filter lets it through. */
    method ReportMessage(level: Level, message: string, sys: System)
      requires Valid()
      modifies this
      ensures Valid()
      ensures reported == old(reported) + [level]
      ensures level == Warning ==> warningCount == old(warningCount) + 1 && errorCount == old(errorCount)
      ensures level == Error ==> errorCount == old(errorCount) + 1 && warningCount == old(warningCount)
      ensures stderr == old(stderr) + DisplayMessage(minLevel, level, message, sys)
      ensures faulted == old(faulted)
    {
      if level == Warning {
        warningCount := warningCount + 1;
      } else {
        errorCount := errorCount + 1;
      }
      TallyAppend(reported, level, Error);
      reported := reported + [level];
      DisplayPlain(level, message, sys);
    }

    /** `Terminal::display` for a located diagnostic. */
    method DisplayAt(level: Level, location: Location, message: string, sys: System)
      modifies this`stderr, this`faulted
      ensures stderr == old(stderr) + DisplayLocated(minLevel, level, location, message, sys).lines
      ensures faulted == (old(faulted) || DisplayLocated(minLevel, level, location, message, sys).faulted)
    {
      if minLevel == Error && level == Warning {
        return;
      }
      if sys.stderrIsTty {
        DisplayTtyError(level, location, message, sys);
      } else {
        var prefix := LevelName(level);
        stderr := stderr + [[Plain(prefix + ": " + sys.proximate(location.begin.path) + ":" +
                                   Decimal.Digits(location.begin.line) + ": " + message)]];
      }
    }

    /** `Terminal::display` for a diagnostic without a location. */
    method DisplayPlain(level: Level, message: string, sys: System)
      modifies this`stderr
      ensures stderr == old(stderr) + DisplayMessage(minLevel, level, message, sys)
    {
      if minLevel == Error && level == Warning {
        return;
      }
      var prefix := LevelName(level);
      if sys.stderrIsTty {
        stderr := stderr + [[Tinted(Underline, level, prefix + ":"), Tinted(Colorful, level, " " + message)]];
      } else {
        stderr := stderr + [[Plain(prefix + ": " + message)]];
      }
    }

    /** `display_tty_error`: the header, then the excerpt unless the path is not a regular file. */
    method DisplayTtyError(level: Level, location: Location, message: string, sys: System)
      modifies this`stderr, this`faulted
      ensures stderr == old(stderr) + TtyLocated(level, location, message, sys).lines
      ensures faulted == (old(faulted) || TtyLocated(level, location, message, sys).faulted)
    {
      var header := TtyHeader(level, location, message, sys);
      ghost var before := stderr;
      stderr := stderr + [header];
      if !sys.isRegularFile(location.begin.path) {
        return;
      }
      var excerpt, fault := PrintExcerpt(sys.fileLines(location.begin.path), location, level);
      stderr := stderr + excerpt;
      assert stderr == before + ([header] + excerpt);
      faulted := faulted || fault;
    }

    /** Reports each diagnostic of `diagnostics` in order. */
    method ReportAll(diagnostics: seq<Diagnostic>, sys: System)
      requires Valid()
      modifies this
      ensures Valid()
      ensures reported == old(reported) + Levels(diagnostics)
      ensures Rendering(stderr, faulted) == Then(Rendering(old(stderr), old(faulted)), ShowsAll(minLevel, diagnostics, sys))
    {
      var i := 0;
      ghost var shown := Rendering([], false);
      while i < |diagnostics|
        invariant 0 <= i <= |diagnostics|
        invariant Valid()
        invariant reported == old(reported) + Levels(diagnostics[..i])
        invariant shown == ShowsAll(minLevel, diagnostics[..i], sys)
        invariant stderr == old(stderr) + shown.lines
        invariant faulted == (old(faulted) || shown.faulted)
      {
        assert diagnostics[..i + 1][..i] == diagnostics[..i];
        assert Levels(diagnostics[..i + 1]) == Levels(diagnostics[..i]) + [diagnostics[i].level];
        ShowsAllStep(minLevel, diagnostics, i, sys);
        ghost var next := Shows(minLevel, diagnostics[i], sys);
        ReportDiagnostic(diagnostics[i], sys);
        Associative(old(stderr), shown.lines, next.lines);
        shown := Then(shown, next);
        i := i + 1;
      }
      assert diagnostics[..i] == diagnostics;
    }

    /** Reports one diagnostic through the overload its shape calls for. */
    method ReportDiagnostic(diagnostic: Diagnostic, sys: System)
      requires Valid()
      modifies this
      ensures Valid()
      ensures reported == old(reported) + [diagnostic.level]
      ensures stderr == old(stderr) + Shows(minLevel, diagnostic, sys).lines
      ensures faulted == (old(faulted) || Shows(minLevel, diagnostic, sys).faulted)
    {
      match diagnostic {
        case Located(level, location, message) => Report(level, location, message, sys);
        case Unlocated(level, message) => ReportMessage(level, message, sys);
      }
    }
  }

  /** `count(WARNING)` is the errors plus the warnings; `count(ERROR)` the errors alone. */
  lemma TallyWarningsAndErrors(levels: seq<Level>)
    ensures Tally(levels, Error) == |set i | 0 <= i < |levels| && levels[i] == Error|
    ensures Tally(levels, Warning) == Tally(levels, Error) + |set i | 0 <= i < |levels| && levels[i] == Warning|
  {
    Positions(levels, Error);
    Positions(levels, Warning);
  }

  /** The number of positions holding `level`, in terms of the error tally. */
  lemma {:induction false} Positions(levels: seq<Level>, level: Level)
    ensures |set i | 0 <= i < |levels| && levels[i] == level| ==
            if level == Error then Tally(levels, Error) else |levels| - Tally(levels, Error)
  {
    if levels != [] {
      var init := levels[..|levels| - 1];
      Positions(init, level);
      PositionsSplit(levels, level);
    }
  }

  lemma PositionsSplit(levels: seq<Level>, level: Level)
    requires levels != []
    ensures var init := levels[..|levels| - 1];
            var n := |levels| - 1;
            (set i | 0 <= i < |levels| && levels[i] == level) ==
            (set i | 0 <= i < |init| && init[i] == level) + (if levels[n] == level then {n} else {})
  {
  }
}
