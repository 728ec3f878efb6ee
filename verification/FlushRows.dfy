/** The member snapshot of a flush: the bundle's rows in archive-path order, and what they become. */
module FlushRows {
  import opened Wrappers
  import opened Numerals
  import opened Ordering
  import opened BundleCatalog
  import opened BundleInvariant
  import opened Fanout
  import opened FanoutPhases

  function RowIds(members: seq<Member>, id: string): (ids: seq<nat>)
    ensures |ids| == CountIn(members, id)
    ensures forall k :: 0 <= k < |ids| ==> ids[k] < |members| && members[ids[k]].bundle == id
    ensures forall j, k :: 0 <= j < k < |ids| ==> ids[j] < ids[k]
  {
    if members == [] then []
    else
      var front := RowIds(members[..|members| - 1], id);
      if members[|members| - 1].bundle == id then front + [|members| - 1] else front
  }

  lemma {:induction false} RowIdsComplete(members: seq<Member>, id: string, i: nat)
    requires i < |members| && members[i].bundle == id
    ensures i in RowIds(members, id)
    decreases |members|
  {
    var n := |members| - 1;
    if i < n {
      RowIdsComplete(members[..n], id, i);
    }
  }

  function PathKey(members: seq<Member>): nat -> string {
    (i: nat) => if i < |members| then members[i].path else ""
  }

  /** `_member_rows_for_flush`: row ids in codepoint order of their archive path. */
  function SortedRows(members: seq<Member>, id: string): (rows: seq<nat>)
    ensures forall k :: 0 <= k < |rows| ==> rows[k] < |members| && members[rows[k]].bundle == id
  {
    var ids, key := RowIds(members, id), PathKey(members);
    var sorted := SortBy(ids, key);
    RowsInRange(members, id, ids, key, sorted);
    sorted
  }

  lemma RowsInRange(members: seq<Member>, id: string, ids: seq<nat>, key: nat -> string, rows: seq<nat>)
    requires ids == RowIds(members, id) && rows == SortBy(ids, key)
    ensures forall k :: 0 <= k < |rows| ==> rows[k] < |members| && members[rows[k]].bundle == id
  {
    SortByCorrect(ids, key);
    MultisetElements(rows, ids);
    forall k | 0 <= k < |rows|
      ensures rows[k] < |members| && members[rows[k]].bundle == id
    {
      assert rows[k] in ids;
    }
  }

  /** The snapshot lists every row of the bundle once, and nothing else. */
  lemma SortedRowsExact(s: State, id: string)
    requires PathsUnique(s)
    ensures var rows := SortedRows(s.members, id);
            && |rows| == CountIn(s.members, id) && Sorted(rows, PathKey(s.members)) && DistinctKeys(rows, PathKey(s.members))
            && (forall k :: 0 <= k < |rows| ==> rows[k] < |s.members| && s.members[rows[k]].bundle == id)
            && (forall i :: 0 <= i < |s.members| && s.members[i].bundle == id ==> i in rows)
  {
    var ids, key := RowIds(s.members, id), PathKey(s.members);
    SortByCorrect(ids, key);
    var rows := SortedRows(s.members, id);
    MultisetElements(rows, ids);
    forall i | 0 <= i < |s.members| && s.members[i].bundle == id
      ensures i in rows
    {
      RowIdsComplete(s.members, id, i);
    }
    assert DistinctKeys(ids, key);
    DistinctKeysPermute<nat>(ids, rows, key);
  }

  function InputOf(row: Member, lineage: Option<nat>): Input {
    Input(row.path, row.logical, row.digest, row.size, lineage)
  }

  function InputsOf(members: seq<Member>, rows: seq<nat>, lineage: nat -> Option<nat>): (inputs: seq<Input>)
    requires forall k :: 0 <= k < |rows| ==> rows[k] < |members|
    ensures |inputs| == |rows| && forall k :: 0 <= k < |rows| ==> inputs[k] == InputOf(members[rows[k]], lineage(rows[k]))
  {
    seq(|rows|, k requires 0 <= k < |rows| => InputOf(members[rows[k]], lineage(rows[k])))
  }

  lemma InputsDistinct(members: seq<Member>, rows: seq<nat>, lineage: nat -> Option<nat>)
    requires forall k :: 0 <= k < |rows| ==> rows[k] < |members|
    requires DistinctKeys(rows, PathKey(members))
    ensures NoDup(InputPaths(InputsOf(members, rows, lineage)))
  {
  }

  function RowLocator(row: Member): Locator { Locator(row.path, row.logical, row.digest, row.size) }

  /** Exactly one locator has the row's path, and it carries the row's hashes and size. */
  ghost predicate LocatedOnce(locators: seq<Locator>, row: Member) {
    exists j :: 0 <= j < |locators| && locators[j] == RowLocator(row) && forall k :: 0 <= k < |locators| && locators[k].path == row.path ==> k == j
  }

  /** One locator per row of the bundle, no more and no fewer. */
  ghost predicate Covers(locators: seq<Locator>, members: seq<Member>, id: string) {
    && |locators| == CountIn(members, id)
    && forall i :: 0 <= i < |members| && members[i].bundle == id ==> LocatedOnce(locators, members[i])
  }

  lemma CarriedIsLocated(built: seq<Built>, row: Member, lineage: Option<nat>)
    requires CarriedOnce(built, InputOf(row, lineage))
    ensures LocatedOnce(Locators(built), row)
  {
  }

  /** An artifact that carries each input once yields one locator per row of the bundle. */
  lemma ArtifactCovers(s: State, id: string, lineage: nat -> Option<nat>, built: seq<Built>)
    requires PathsUnique(s)
    requires ExactlyOnce(built, InputsOf(s.members, SortedRows(s.members, id), lineage))
    ensures Covers(Locators(built), s.members, id)
  {
    var rows := SortedRows(s.members, id);
    SortedRowsExact(s, id);
    var inputs := InputsOf(s.members, rows, lineage);
    forall i | 0 <= i < |s.members| && s.members[i].bundle == id
      ensures LocatedOnce(Locators(built), s.members[i])
    {
      var k :| 0 <= k < |rows| && rows[k] == i;
      assert CarriedOnce(built, inputs[k]);
      CarriedIsLocated(built, s.members[i], lineage(i));
    }
  }
}
