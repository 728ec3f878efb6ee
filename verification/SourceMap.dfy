/** The source map: a TSV a builder reads, and the attribution of a failed line to its row. */
module SourceMap {
  import opened Text
  import opened Numerals
  import opened Wrappers

  /** One row of the map; `item` is the submission lineage, absent for members without one. */
  datatype MapEntry = MapEntry(archivePath: string, sourcePath: string, sha256: Digest, size: nat, item: Option<nat>)

  const COLUMNS := ["archive_path", "source_path", "sha256", "size", "ingest_item_id"]

  function Lineage(item: Option<nat>): string {
    if item.None? then "" else Decimal(item.value)
  }

  function Fields(e: MapEntry): seq<string> {
    [e.archivePath, e.sourcePath, Hex(e.sha256), Decimal(e.size), Lineage(e.item)]
  }

  function Line(e: MapEntry): string { Join(Fields(e), '\t') }

  function Each(entries: seq<MapEntry>, write: MapEntry -> string): (lines: seq<string>)
    ensures |lines| == |entries| && forall i :: 0 <= i < |entries| ==> lines[i] == write(entries[i])
  {
    seq(|entries|, i requires 0 <= i < |entries| => write(entries[i]))
  }

  function Header(): string { Join(COLUMNS, '\t') }

  function Lines(entries: seq<MapEntry>): seq<string> { [Header()] + Each(entries, Line) }

  function Render(entries: seq<MapEntry>): string { Join(Lines(entries), '\n') + "\n" }

  method RenderSourceMap(entries: seq<MapEntry>) returns (text: string)
    ensures text == Render(entries)
  {
    var lines := AppendLines(Header(), entries, Line);
    text := Join(lines, '\n') + "\n";
  }

  method AppendLines(header: string, entries: seq<MapEntry>, write: MapEntry -> string) returns (lines: seq<string>)
    ensures lines == [header] + Each(entries, write)
  {
    lines := [header];
    for i := 0 to |entries|
      invariant lines == [header] + Each(entries[..i], write)
    {
      lines := lines + [write(entries[i])];
    }
    assert entries[..|entries|] == entries;
  }

  // ----- Reading it back -----

  function ReadLine(line: string): Option<MapEntry> {
    var fields := Split(line, '\t');
    if |fields| != 5 || |ReadHex(fields[2])| != 32 then None
    else Some(MapEntry(fields[0], fields[1], ReadHex(fields[2]), ReadDecimal(fields[3]),
                       if fields[4] == "" then None else Some(ReadDecimal(fields[4]))))
  }

  function ReadEach(lines: seq<string>, read: string -> Option<MapEntry>): Option<seq<MapEntry>> {
    if lines == [] then Some([])
    else
      var front, last := ReadEach(lines[..|lines| - 1], read), read(lines[|lines| - 1]);
      if front.None? || last.None? then None else Some(front.value + [last.value])
  }

  /** The rows between the header and the final newline. */
  function ReadMap(text: string): Option<seq<MapEntry>> {
    var lines := Split(text, '\n');
    if |lines| < 2 || lines[|lines| - 1] != "" then None else ReadEach(lines[1..|lines| - 1], ReadLine)
  }

  predicate Separators(text: string) { '\t' !in text && '\n' !in text }

  /** The free-text fields hold neither separator of the format. */
  predicate Clean(e: MapEntry) { Separators(e.archivePath) && Separators(e.sourcePath) }

  predicate AllClean(entries: seq<MapEntry>) {
    forall i :: 0 <= i < |entries| ==> Clean(entries[i])
  }

  lemma DigitsSeparate(e: MapEntry)
    ensures Separators(Hex(e.sha256)) && Separators(Decimal(e.size)) && Separators(Lineage(e.item))
  {
  }

  lemma FieldsSeparate(e: MapEntry)
    requires Clean(e)
    ensures forall i :: 0 <= i < 5 ==> Separators(Fields(e)[i])
  {
    DigitsSeparate(e);
  }

  lemma LineRoundTrip(e: MapEntry)
    requires Clean(e)
    ensures ReadLine(Line(e)) == Some(e)
  {
    FieldsSeparate(e);
    SplitJoin(Fields(e), '\t');
    HexRoundTrip(e.sha256);
    DecimalRoundTrip(e.size);
    if e.item.Some? { DecimalRoundTrip(e.item.value); }
  }

  lemma {:induction false} JoinAvoids(parts: seq<string>, separator: char, c: char)
    requires c != separator && forall i :: 0 <= i < |parts| ==> c !in parts[i]
    ensures c !in Join(parts, separator)
  {
    if |parts| > 1 {
      JoinAvoids(parts[1..], separator, c);
    }
  }

  predicate NewlineFree(entries: seq<MapEntry>) {
    forall i :: 0 <= i < |entries| ==> OneLine(entries[i])
  }

  predicate OneLine(e: MapEntry) { '\n' !in e.archivePath && '\n' !in e.sourcePath }

  lemma {:induction false} JoinHolds(parts: seq<string>, separator: char, i: nat, c: char)
    requires i < |parts| && c in parts[i]
    ensures c in Join(parts, separator)
    decreases |parts|
  {
    if i > 0 {
      JoinHolds(parts[1..], separator, i - 1, c);
    }
  }

  /** An entry renders to one line exactly when its paths hold no newline. */
  lemma LineNewline(e: MapEntry)
    ensures '\n' !in Line(e) <==> OneLine(e)
  {
    var fields := Fields(e);
    if '\n' in e.archivePath {
      JoinHolds(fields, '\t', 0, '\n');
    } else if '\n' in e.sourcePath {
      JoinHolds(fields, '\t', 1, '\n');
    } else {
      DigitsSeparate(e);
      JoinAvoids(fields, '\t', '\n');
    }
  }

  lemma HeaderIsOneLine()
    ensures '\n' !in Header()
  {
    JoinAvoids(COLUMNS, '\t', '\n');
  }

  /** The text splits into the header, one line per entry in order, and an empty tail. */
  lemma LinesOfText(entries: seq<MapEntry>)
    requires NewlineFree(entries)
    ensures Split(Render(entries), '\n') == Lines(entries) + [""]
  {
    var lines := Lines(entries);
    HeaderIsOneLine();
    forall i | 0 <= i < |lines|
      ensures '\n' !in lines[i]
    {
      if i > 0 { LineNewline(entries[i - 1]); }
    }
    SplitConcat(Join(lines, '\n'), "", '\n');
    SplitJoin(lines, '\n');
    assert Render(entries) == Join(lines, '\n') + ['\n'] + "";
  }

  lemma {:induction false} ReadEachBack(entries: seq<MapEntry>, lines: seq<string>, read: string -> Option<MapEntry>)
    requires |lines| == |entries| && forall i :: 0 <= i < |entries| ==> read(lines[i]) == Some(entries[i])
    ensures ReadEach(lines, read) == Some(entries)
    decreases |entries|
  {
    if entries != [] {
      var n := |entries| - 1;
      ReadEachBack(entries[..n], lines[..n], read);
      assert entries == entries[..n] + [entries[n]];
    }
  }

  lemma {:induction false} ReadEachElements(lines: seq<string>, read: string -> Option<MapEntry>)
    requires ReadEach(lines, read).Some?
    ensures var entries := ReadEach(lines, read).value;
            |entries| == |lines| && forall i :: 0 <= i < |lines| ==> read(lines[i]) == Some(entries[i])
    decreases |lines|
  {
    if lines != [] {
      ReadEachElements(lines[..|lines| - 1], read);
    }
  }

  lemma ReadLineClean(line: string)
    requires '\n' !in line && ReadLine(line).Some?
    ensures Clean(ReadLine(line).value)
  {
    SplitAvoids(line, '\t', '\n');
  }

  lemma {:induction false} SplitAvoids(text: string, separator: char, c: char)
    requires c !in text
    ensures forall i :: 0 <= i < |Split(text, separator)| ==> c !in Split(text, separator)[i]
  {
    if text != "" {
      SplitAvoids(text[1..], separator, c);
    }
  }

  /** The rendered map reads back as exactly its entries, absent lineage included, if and only if
      no archive or source path holds a tab or a newline. */
  lemma MapRoundTripsExactly(entries: seq<MapEntry>)
    ensures ReadMap(Render(entries)) == Some(entries) <==> AllClean(entries)
  {
    var lines := Split(Render(entries), '\n');
    if AllClean(entries) {
      LinesOfText(entries);
      var rows := Each(entries, Line);
      assert lines[1..|lines| - 1] == rows;
      forall i | 0 <= i < |entries| ensures ReadLine(rows[i]) == Some(entries[i]) { LineRoundTrip(entries[i]); }
      ReadEachBack(entries, rows, ReadLine);
    } else if ReadMap(Render(entries)) == Some(entries) {
      var rows := lines[1..|lines| - 1];
      ReadEachElements(rows, ReadLine);
      forall i | 0 <= i < |entries| ensures Clean(entries[i]) { ReadLineClean(rows[i]); }
    }
  }
}
