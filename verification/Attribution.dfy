/** Charging a failed build to a member row: what the failure's text names, and which row that is. */
module Attribution {
  import opened Text
  import opened Numerals
  import opened Wrappers
  import opened SourceMap

  /** What a failed build's message names: a map line, an archive path, or no member. */
  datatype Failure = MapLine(number: int) | WriterDigest(path: string) | Unattributed

  /** `_identify_member_failure`, past the match: the row of the sorted snapshot a failure is charged to. */
  function Identify(failure: Failure, paths: seq<string>): (row: Option<nat>)
    ensures row.Some? ==> row.value < |paths|
  {
    match failure
    case MapLine(n) => if 0 <= n - 2 < |paths| then Some(n - 2) else None
    case WriterDigest(path) => FirstAt(path, paths, 0)
    case Unattributed => None
  }

  function FirstAt(path: string, paths: seq<string>, from: nat): (row: Option<nat>)
    requires from <= |paths|
    ensures row.Some? ==> from <= row.value < |paths| && paths[row.value] == path
    ensures row.None? ==> path !in paths[from..]
    decreases |paths| - from
  {
    if from == |paths| then None
    else if paths[from] == path then Some(from)
    else FirstAt(path, paths, from + 1)
  }

  // ----- Which row a map line is -----

  function ArchivePaths(entries: seq<MapEntry>): (paths: seq<string>)
    ensures |paths| == |entries| && forall i :: 0 <= i < |entries| ==> paths[i] == entries[i].archivePath
  {
    seq(|entries|, i requires 0 <= i < |entries| => entries[i].archivePath)
  }

  /** Line `n` of the map, counting from 1. */
  function LineNumber(entries: seq<MapEntry>, n: int): (line: Option<string>)
    ensures line.Some? ==> '\n' !in line.value
  {
    var lines := Split(Render(entries), '\n');
    if 1 <= n <= |lines| then Some(lines[n - 1]) else None
  }

  /** `row` is the entry whose line is line `n`, reading `line`; only data lines are some entry's. */
  predicate Charged(row: Option<nat>, rows: seq<string>, n: int, line: Option<string>) {
    && (row.Some? <==> line.Some? && n != 1 && line.value != "")
    && (row.Some? ==> row.value < |rows| && line.value == rows[row.value])
  }

  /** Every line number is charged to the row that the line describes: each data line to its own entry,
      and the header, the final newline and lines past the end to nobody. */
  ghost predicate AllCharged(entries: seq<MapEntry>) {
    forall n :: Charged(Identify(MapLine(n), ArchivePaths(entries)), Each(entries, Line), n, LineNumber(entries, n))
  }

  lemma AttributionOf(header: string, rows: seq<string>, paths: seq<string>, n: int, line: Option<string>)
    requires |paths| == |rows| && (forall k :: 0 <= k < |rows| ==> rows[k] != "") && line == NthLine(header, rows, n)
    ensures Charged(Identify(MapLine(n), paths), rows, n, line)
  {
  }

  /** The header, then the rows, then the empty tail. */
  function NthLine(header: string, rows: seq<string>, n: int): Option<string> {
    if 2 <= n <= |rows| + 1 then Some(rows[n - 2])
    else if n == 1 then Some(header) else if n == |rows| + 2 then Some("") else None
  }

  lemma NumberedLine(entries: seq<MapEntry>, n: int)
    requires NewlineFree(entries)
    ensures LineNumber(entries, n) == NthLine(Header(), Each(entries, Line), n)
  {
    LinesOfText(entries);
  }

  lemma LineIsNotEmpty(e: MapEntry)
    ensures Line(e) != ""
  {
  }

  /** Line failures are charged to the right row, for every line number, if and only if no path holds a
      newline. Arrangement entries guarantee that; the flush-time map refuses only paths that are not
      UTF-8, so there the condition is the producer's to keep. */
  lemma LineAttributionExactly(entries: seq<MapEntry>)
    ensures AllCharged(entries) <==> NewlineFree(entries)
  {
    if NewlineFree(entries) {
      forall n
        ensures Charged(Identify(MapLine(n), ArchivePaths(entries)), Each(entries, Line), n, LineNumber(entries, n))
      {
        LineAttribution(entries, n);
      }
    }
    if AllCharged(entries) {
      forall i | 0 <= i < |entries|
        ensures OneLine(entries[i])
      {
        ChargedIsOneLine(entries, i);
      }
    }
  }

  lemma LineAttribution(entries: seq<MapEntry>, n: int)
    requires NewlineFree(entries)
    ensures Charged(Identify(MapLine(n), ArchivePaths(entries)), Each(entries, Line), n, LineNumber(entries, n))
  {
    var rows := Each(entries, Line);
    forall k | 0 <= k < |rows| ensures rows[k] != "" { LineIsNotEmpty(entries[k]); }
    NumberedLine(entries, n);
    AttributionOf(Header(), rows, ArchivePaths(entries), n, LineNumber(entries, n));
  }

  lemma ChargedIsOneLine(entries: seq<MapEntry>, i: nat)
    requires i < |entries| && AllCharged(entries)
    ensures OneLine(entries[i])
  {
    var line := LineNumber(entries, i + 2);
    assert Charged(Identify(MapLine(i + 2), ArchivePaths(entries)), Each(entries, Line), i + 2, line);
    LineNewline(entries[i]);
  }

  /** With a newline in the first row's path, line 3 is the tail of that row's own line, and a failure
      there is charged to the second row: the innocent row is the one quarantined. */
  lemma NewlineBlamesTheNextRow(head: string, tail: string, first: MapEntry, second: MapEntry)
    requires first.archivePath == head + "\n" + tail && '\n' !in head && '\n' !in tail
    requires '\n' !in first.sourcePath && OneLine(second)
    ensures LineNumber([first, second], 3) == Some(Line(first.(archivePath := tail)))
    ensures Line(first) == head + "\n" + Line(first.(archivePath := tail))
    ensures Identify(MapLine(3), ArchivePaths([first, second])) == Some(1)
  {
    var rest := first.(archivePath := tail);
    SplitFirstLine(head, rest, first);
    TextOfTwo(head, rest, first, second);
    HeaderIsOneLine();
    LineNewline(second);
    LineNewline(rest);
    SplitFour(Header(), head, Line(rest), Line(second));
  }

  lemma TextOfTwo(head: string, rest: MapEntry, first: MapEntry, second: MapEntry)
    requires first == rest.(archivePath := head + "\n" + rest.archivePath)
    ensures Render([first, second]) == Join([Header(), head, Line(rest), Line(second)], '\n') + ['\n'] + ""
  {
    SplitFirstLine(head, rest, first);
    RenderTwo(first, second);
    JoinFour(Header(), head, Line(rest), Line(second));
  }

  lemma SplitFour(a: string, b: string, c: string, d: string)
    requires '\n' !in a && '\n' !in b && '\n' !in c && '\n' !in d
    ensures Split(Join([a, b, c, d], '\n') + ['\n'] + "", '\n') == [a, b, c, d, ""]
  {
    SplitConcat(Join([a, b, c, d], '\n'), "", '\n');
    SplitJoin([a, b, c, d], '\n');
  }

  lemma RenderTwo(first: MapEntry, second: MapEntry)
    ensures Render([first, second]) == Header() + "\n" + Line(first) + "\n" + Line(second) + "\n"
  {
    assert Lines([first, second]) == [Header(), Line(first), Line(second)];
    JoinThree(Header(), Line(first), Line(second));
  }

  lemma JoinThree(a: string, b: string, c: string)
    ensures Join([a, b, c], '\n') == a + "\n" + b + "\n" + c
  {
    assert [a, b, c][1..] == [b, c] && [b, c][1..] == [c];
    assert Join([b, c], '\n') == b + "\n" + c;
  }

  lemma SplitFirstLine(head: string, rest: MapEntry, first: MapEntry)
    requires first == rest.(archivePath := head + "\n" + rest.archivePath)
    ensures Line(first) == head + "\n" + Line(rest)
  {
  }

  lemma JoinFour(a: string, b: string, c: string, d: string)
    ensures Join([a, b, c, d], '\n') == a + "\n" + (b + "\n" + c) + "\n" + d
  {
    assert [a, b, c, d][1..] == [b, c, d] && [b, c, d][1..] == [c, d] && [c, d][1..] == [d];
    assert Join([c, d], '\n') == c + "\n" + d;
    assert Join([b, c, d], '\n') == b + "\n" + Join([c, d], '\n');
  }
}
