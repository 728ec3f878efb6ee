/** Arrangement members to source-map entries: path validation and the entry builder. */
module Arrangement {
  import opened Text
  import opened Numerals
  import opened Wrappers
  import opened Ordering
  import opened SourceMap

  datatype Row = Row(path: string, excluded: bool, item: nat)

  /** What the catalog records of an ingest item; `live` says it is a master of an open intake. */
  datatype Item = Item(artifactclass: string, live: bool, sourcePath: Option<string>, logical: Digest, size: nat)

  datatype File = File(digest: Digest, size: nat)

  /** What an entry is built from: the catalog's items, the files present, the class, and Unicode NFC. */
  datatype World = World(items: map<nat, Item>, files: map<string, File>, artifactclass: string, nfc: string -> string)

  datatype Refusal = EmptyPath | ControlCharacter | Backslash | NotNfc | Absolute | NotAFileName | NotNormalized | BadSegment
                   | DuplicatePath | MissingItem | NotLive | WrongClass | NoSourcePath | NotAFile | WrongDigest | WrongSize

  predicate IsControl(c: char) { c as int < 32 || 127 <= c as int <= 159 }

  /** `_reject_control_chars`: an accepted value holds no control character, so neither separator of the map. */
  method RejectControlChars(value: string) returns (accepted: bool)
    ensures accepted <==> forall i :: 0 <= i < |value| ==> !IsControl(value[i])
    ensures accepted <==> forall c :: c in value ==> 32 <= c as int < 127 || 160 <= c as int
    ensures accepted ==> Separators(value)
  {
    for i := 0 to |value|
      invariant forall k :: 0 <= k < i ==> !IsControl(value[k])
    {
      if IsControl(value[i]) {
        assert value[i] in value;
        return false;
      }
    }
    return true;
  }

  predicate ControlFree(value: string) { forall i :: 0 <= i < |value| ==> !IsControl(value[i]) }

  // ----- Canonical member paths -----

  /** One component of `posixpath.normpath` on a relative path. */
  function Push(stack: seq<string>, component: string): seq<string> {
    if component == "" || component == "." then stack
    else if component != ".." || stack == [] || stack[|stack| - 1] == ".." then stack + [component]
    else stack[..|stack| - 1]
  }

  function NormalSegments(components: seq<string>): seq<string> {
    if components == [] then []
    else Push(NormalSegments(components[..|components| - 1]), components[|components| - 1])
  }

  function NormPath(value: string): string {
    var joined := Join(NormalSegments(Split(value, '/')), '/');
    if joined == "" then "." else joined
  }

  predicate ProperSegment(segment: string) { segment != "" && segment != "." && segment != ".." }

  predicate ProperSegments(value: string) {
    var parts := Split(value, '/');
    forall i :: 0 <= i < |parts| ==> ProperSegment(parts[i])
  }

  /** `canonical_member_path`, check by check. */
  function CanonicalMemberPath(value: string, nfc: string -> string): Result<string, Refusal> {
    if value == "" then Err(EmptyPath)
    else if !ControlFree(value) then Err(ControlCharacter)
    else if '\\' in value then Err(Backslash)
    else if nfc(value) != value then Err(NotNfc)
    else if value[0] == '/' then Err(Absolute)
    else if NormPath(value) == "." then Err(NotAFileName)
    else if NormPath(value) != value then Err(NotNormalized)
    else if !ProperSegments(value) then Err(BadSegment)
    else Ok(value)
  }

  lemma {:induction false} ProperSegmentsStay(components: seq<string>)
    requires forall i :: 0 <= i < |components| ==> ProperSegment(components[i])
    ensures NormalSegments(components) == components
    decreases |components|
  {
    if components != [] {
      ProperSegmentsStay(components[..|components| - 1]);
    }
  }

  /** A path is accepted, and returned unchanged, exactly when it is printable, NFC, free of
      backslashes, and every slash-separated segment names something. */
  lemma CanonicalExactly(value: string, nfc: string -> string)
    ensures CanonicalMemberPath(value, nfc) == Ok(value) <==>
              value != "" && ControlFree(value) && '\\' !in value && nfc(value) == value && ProperSegments(value)
    ensures CanonicalMemberPath(value, nfc).Ok? ==> CanonicalMemberPath(value, nfc) == Ok(value)
  {
    if value != "" && ProperSegments(value) {
      var parts := Split(value, '/');
      ProperSegmentsStay(parts);
      JoinSplit(value, '/');
      assert value[0] != '/' by { assert ProperSegment(parts[0]); }
      assert value != "." by { SplitWhole(".", '/'); assert ProperSegment(parts[0]); }
    }
  }

  // ----- Entries -----

  /** The entry one active row becomes, with its checks in the source's order. */
  function EntryFor(row: Row, world: World): Result<MapEntry, Refusal> {
    var path := CanonicalMemberPath(row.path, world.nfc);
    if path.Err? then Err(path.error)
    else if row.item !in world.items then Err(MissingItem)
    else
      var item := world.items[row.item];
      if !item.live then Err(NotLive)
      else if item.artifactclass != world.artifactclass then Err(WrongClass)
      else if item.sourcePath.None? || item.sourcePath.value == "" then Err(NoSourcePath)
      else if !ControlFree(item.sourcePath.value) then Err(ControlCharacter)
      else if item.sourcePath.value !in world.files then Err(NotAFile)
      else if world.files[item.sourcePath.value].digest != item.logical then Err(WrongDigest)
      else if world.files[item.sourcePath.value].size != item.size then Err(WrongSize)
      else Ok(MapEntry(path.value, item.sourcePath.value, item.logical, item.size, Some(row.item)))
  }

  /** What an accepted entry guarantees: clean paths, and the digest and size of the file it names. */
  lemma EntryIsClean(row: Row, world: World)
    requires EntryFor(row, world).Ok?
    ensures var e := EntryFor(row, world).value;
            && Clean(e) && e.archivePath == row.path
            && e.sourcePath in world.files && world.files[e.sourcePath] == File(e.sha256, e.size)
  {
  }

  /** A row is accepted exactly when its path is canonical and its item is a live one of the class whose named
      file has the item's digest and size; the entry then says just that, with the item for lineage. */
  lemma EntryAcceptedExactly(row: Row, world: World)
    ensures EntryFor(row, world).Ok? <==>
              && CanonicalMemberPath(row.path, world.nfc).Ok? && row.item in world.items
              && var item := world.items[row.item];
                 && item.live && item.artifactclass == world.artifactclass && item.sourcePath.Some? && item.sourcePath.value != ""
                 && ControlFree(item.sourcePath.value) && item.sourcePath.value in world.files
                 && world.files[item.sourcePath.value] == File(item.logical, item.size)
    ensures EntryFor(row, world).Ok? ==>
              var item := world.items[row.item];
              EntryFor(row, world).value == MapEntry(row.path, item.sourcePath.value, item.logical, item.size, Some(row.item))
  {
    CanonicalExactly(row.path, world.nfc);
  }

  /** The active rows are the rows that are not excluded, each as often. */
  lemma {:induction false} ActiveExactly(rows: seq<Row>, row: Row)
    ensures multiset(Active(rows))[row] == if row.excluded then 0 else multiset(rows)[row]
    decreases |rows|
  {
    if rows != [] {
      var n := |rows| - 1;
      ActiveExactly(rows[..n], row);
      assert rows == rows[..n] + [rows[n]];
    }
  }

  function Active(rows: seq<Row>): seq<Row> {
    if rows == [] then []
    else
      var front, last := Active(rows[..|rows| - 1]), rows[|rows| - 1];
      if last.excluded then front else front + [last]
  }

  function PathOf(row: Row): string { row.path }

  /** The loop over the rows in path order, for a path check and an entry builder that includes it. */
  method EntriesInOrder(ordered: seq<Row>, canonical: string -> Result<string, Refusal>, entry: Row -> Result<MapEntry, Refusal>)
    returns (r: Result<seq<MapEntry>, Refusal>)
    requires forall row: Row :: canonical(row.path).Err? ==> entry(row).Err?
    requires forall path :: canonical(path).Ok? ==> canonical(path).value == path
    ensures r.Ok? ==> |r.value| == |ordered| && forall i :: 0 <= i < |ordered| ==> entry(ordered[i]) == Ok(r.value[i])
    ensures r.Ok? ==> DistinctKeys(ordered, PathOf)
    ensures r.Err? ==> (exists k :: 0 <= k < |ordered| && entry(ordered[k]).Err?) || !DistinctKeys(ordered, PathOf)
  {
    var entries: seq<MapEntry> := [];
    var seen: set<string> := {};
    for k := 0 to |ordered|
      invariant |entries| == k && forall i :: 0 <= i < k ==> entry(ordered[i]) == Ok(entries[i])
      invariant forall path :: path in seen <==> exists i :: 0 <= i < k && PathOf(ordered[i]) == path
      invariant forall i, j :: 0 <= i < j < k ==> PathOf(ordered[i]) != PathOf(ordered[j])
    {
      var path := canonical(ordered[k].path);
      if path.Err? { return Err(path.error); }
      if path.value in seen { return Err(DuplicatePath); }
      seen := seen + {path.value};
      var made := entry(ordered[k]);
      if made.Err? { return Err(made.error); }
      entries := entries + [made.value];
    }
    return Ok(entries);
  }

  /** `_build_source_map_entries`: it succeeds exactly when every active row is acceptable and no two
      share a path; then it returns one entry per active row, in path order, each clean and true to
      its file, so the rendered map reads back. */
  method BuildSourceMapEntries(rows: seq<Row>, world: World) returns (r: Result<seq<MapEntry>, Refusal>)
    ensures r.Ok? <==> (forall row :: row in Active(rows) ==> EntryFor(row, world).Ok?) && DistinctKeys(Active(rows), PathOf)
    ensures r.Ok? ==> AllClean(r.value) && ReadMap(Render(r.value)) == Some(r.value)
    ensures r.Ok? ==> Rendered(SortBy(Active(rows), PathOf), r.value, world)
  {
    var active := Active(rows);
    var ordered := SortBy(active, PathOf);
    SortByCorrect(active, PathOf);
    forall path
      ensures CanonicalMemberPath(path, world.nfc).Ok? ==> CanonicalMemberPath(path, world.nfc).value == path
    {
      CanonicalExactly(path, world.nfc);
    }
    r := EntriesInOrder(ordered, (path: string) => CanonicalMemberPath(path, world.nfc), (row: Row) => EntryFor(row, world));
    if r.Ok? {
      RenderedIsClean(ordered, r.value, world);
      MapRoundTripsExactly(r.value);
      AllAccepted(active, ordered, r.value, world);
    } else {
      SomeRefused(active, ordered, world);
    }
  }

  lemma SomeRefused(active: seq<Row>, ordered: seq<Row>, world: World)
    requires multiset(ordered) == multiset(active)
    requires (exists k :: 0 <= k < |ordered| && EntryFor(ordered[k], world).Err?) || !DistinctKeys(ordered, PathOf)
    ensures (exists row :: row in active && EntryFor(row, world).Err?) || !DistinctKeys(active, PathOf)
  {
    if DistinctKeys(active, PathOf) {
      DistinctKeysPermute(active, ordered, PathOf);
      var k :| 0 <= k < |ordered| && EntryFor(ordered[k], world).Err?;
      assert ordered[k] in multiset(active);
    }
  }

  /** One entry per row, in order. */
  ghost predicate Rendered(rows: seq<Row>, entries: seq<MapEntry>, world: World) {
    |entries| == |rows| && forall i :: 0 <= i < |rows| ==> EntryFor(rows[i], world) == Ok(entries[i])
  }

  lemma RenderedIsClean(rows: seq<Row>, entries: seq<MapEntry>, world: World)
    requires Rendered(rows, entries, world)
    ensures AllClean(entries)
  {
  }

  lemma AllAccepted(active: seq<Row>, ordered: seq<Row>, entries: seq<MapEntry>, world: World)
    requires multiset(ordered) == multiset(active) && Rendered(ordered, entries, world)
    requires DistinctKeys(ordered, PathOf)
    ensures (forall row :: row in active ==> EntryFor(row, world).Ok?) && DistinctKeys(active, PathOf)
  {
    MultisetElements(ordered, active);
    forall row | row in active
      ensures EntryFor(row, world).Ok?
    {
      assert row in ordered;
    }
    DistinctKeysPermute(ordered, active, PathOf);
  }
}
