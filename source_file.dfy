/**
 * Source files, the spans the syntax tree carries (start/end line and column),
 * span merging, and the two path helpers that split a path at its last separator.
 */
module SourceFile {

  import opened Wrappers

  /** A source file: its path and its full text, read once. */
  datatype File = File(path: string, contents: string)

  /** The span of a segment of a source file; lines and columns are C++ `int`s. */
  datatype Location = Location(
    file: File,
    startLine: int,
    startColumn: int,
    endLine: int,
    endColumn: int)

  /** Lexicographic (line, column) order. */
  predicate PositionLe(line1: int, column1: int, line2: int, column2: int) {
    line1 < line2 || (line1 == line2 && column1 <= column2)
  }

  /**
   * The union of `receiver` with `other`: the smaller of the two starts and the larger of the
   * two ends, in (line, column) order. On a tie the receiver's values are kept, and the
   * file is always the receiver's. Both inputs are values, so neither is changed.
   */
  function Merge(receiver: Location, other: Location): (merged: Location)
    ensures merged.file == receiver.file
    // the merged start is at or before both starts, the merged end at or after both ends
    ensures PositionLe(merged.startLine, merged.startColumn, receiver.startLine, receiver.startColumn)
    ensures PositionLe(merged.startLine, merged.startColumn, other.startLine, other.startColumn)
    ensures PositionLe(receiver.endLine, receiver.endColumn, merged.endLine, merged.endColumn)
    ensures PositionLe(other.endLine, other.endColumn, merged.endLine, merged.endColumn)
    // the merged start is one of the two starts, the receiver's unless the other is strictly earlier
    ensures (merged.startLine, merged.startColumn) ==
            if PositionLe(receiver.startLine, receiver.startColumn, other.startLine, other.startColumn)
            then (receiver.startLine, receiver.startColumn) else (other.startLine, other.startColumn)
    // the merged end is one of the two ends, the receiver's unless the other is strictly later
    ensures (merged.endLine, merged.endColumn) ==
            if PositionLe(other.endLine, other.endColumn, receiver.endLine, receiver.endColumn)
            then (receiver.endLine, receiver.endColumn) else (other.endLine, other.endColumn)
  {
    var withStart :=
      if other.startLine < receiver.startLine ||
         (other.startLine == receiver.startLine && other.startColumn < receiver.startColumn)
      then receiver.(startLine := other.startLine, startColumn := other.startColumn)
      else receiver;
    if other.endLine > receiver.endLine ||
       (other.endLine == receiver.endLine && other.endColumn > receiver.endColumn)
    then withStart.(endLine := other.endLine, endColumn := other.endColumn)
    else withStart
  }

  /** The four span fields of a location, without its file. */
  function Span(l: Location): (int, int, int, int) {
    (l.startLine, l.startColumn, l.endLine, l.endColumn)
  }

  lemma MergeSelf(a: Location)
    ensures Merge(a, a) == a
  {
  }

  /** The span of a merge does not depend on the order of its arguments. */
  lemma MergeCommutative(a: Location, b: Location)
    ensures Span(Merge(a, b)) == Span(Merge(b, a))
  {
  }

  /** Chained merges cover the same span whichever way they are grouped. */
  lemma MergeAssociative(a: Location, b: Location, c: Location)
    ensures Merge(Merge(a, b), c) == Merge(a, Merge(b, c))
  {
  }

  /** The index of the last occurrence of `c` in `s`, if any (`rfind`). */
  function RFind(s: string, c: char): (r: Option<nat>)
    ensures r.Some? ==> r.value < |s| && s[r.value] == c &&
                        forall k :: r.value < k < |s| ==> s[k] != c
    ensures r.None? ==> forall k :: 0 <= k < |s| ==> s[k] != c
  {
    if |s| == 0 then None
    else if s[|s| - 1] == c then Some(|s| - 1)
    else RFind(s[..|s| - 1], c)
  }

  /**
   * The file name portion of `path`: what follows its last separator, or the whole path
   * when it has no separator or the separator is its last character.
   */
  function FileName(path: string, separator: char): (name: string)
  {
    match RFind(path, separator)
    case None => path
    case Some(pos) => if pos + 1 == |path| then path else path[pos + 1..]
  }

  /**
   * Everything before the last separator of `path`, or the whole path when it has no
   * separator or the separator is its last character.
   */
  function DirectoryName(path: string, separator: char): (directory: string)
  {
    match RFind(path, separator)
    case None => path
    case Some(pos) => if pos + 1 == |path| then path else path[..pos]
  }

  /** A path whose last separator is followed by at least one character. */
  predicate HasInnerSeparator(path: string, separator: char) {
    exists k :: 0 <= k < |path| - 1 && path[k] == separator && path[|path| - 1] != separator
  }

  /** The file name is the whole path exactly when the path has no separator or ends with one. */
  lemma FileNameWhole(path: string, separator: char)
    ensures FileName(path, separator) == path <==> !HasInnerSeparator(path, separator)
    ensures DirectoryName(path, separator) == path <==> !HasInnerSeparator(path, separator)
  {
    match RFind(path, separator)
    case None =>
    case Some(pos) =>
      if pos + 1 != |path| {
        assert path[pos] == separator && path[|path| - 1] != separator;
        assert |path[pos + 1..]| < |path|;
        assert |path[..pos]| < |path|;
      }
  }

  /** When the path has an inner separator, the file name contains no separator. */
  lemma FileNameHasNoSeparator(path: string, separator: char)
    requires HasInnerSeparator(path, separator)
    ensures separator !in FileName(path, separator)
    ensures |FileName(path, separator)| > 0
  {
    var k :| 0 <= k < |path| - 1 && path[k] == separator && path[|path| - 1] != separator;
    var pos := RFind(path, separator).value;
    var name := path[pos + 1..];
    forall j | 0 <= j < |name| ensures name[j] != separator {
      assert name[j] == path[pos + 1 + j];
    }
  }

  /** Splitting at an inner separator and joining the halves back gives the path. */
  lemma SplitJoin(path: string, separator: char)
    requires HasInnerSeparator(path, separator)
    ensures DirectoryName(path, separator) + [separator] + FileName(path, separator) == path
  {
    var pos := RFind(path, separator).value;
    assert pos + 1 != |path|;
    assert path == path[..pos] + [path[pos]] + path[pos + 1..];
  }
}
