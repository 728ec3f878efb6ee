/** What the identity gate means for a sealed bundle: each link on each of its rows was checked. */
module FlushIdentity {
  import opened Wrappers
  import opened Numerals
  import opened BundleCatalog
  import opened BundleInvariant
  import opened SubmissionLinks
  import opened FanoutPhases
  import opened FlushRows
  import opened FlushPlan
  import opened Flush
  import IdentityGate

  /** Submission member ids are primary keys: no two submissions share one. */
  ghost predicate MemberIdsUnique(table: Table) {
    forall a, b :: a in table && b in table && a.member == b.member ==> a == b
  }

  lemma CarriesLink(s: State, i: nat, pid: int) returns (link: Link)
    requires IdentityGate.Carries(s.members, i, pid)
    ensures LinkedAt(s, link, i) && link.member == pid
  {
    var k :| 0 <= k < |s.members[i].metadata.links| && s.members[i].metadata.links[k].member == pid;
    link := s.members[i].metadata.links[k];
  }

  /** Links keyed by submission and member are single, so links keyed by member alone are too: of any
      distinct rows at most one carries a member. */
  lemma LinksCarriedOnce(s: State, table: Table, rows: seq<nat>)
    requires LinksSound(s, table) && MemberIdsUnique(table)
    requires forall i, j :: 0 <= i < j < |rows| ==> rows[i] != rows[j]
    ensures IdentityGate.CarriedOnce(s.members, rows)
  {
    forall pid, i, j | 0 <= i < j < |rows| && IdentityGate.Carries(s.members, rows[i], pid)
      ensures !IdentityGate.Carries(s.members, rows[j], pid)
    {
      if IdentityGate.Carries(s.members, rows[j], pid) {
        OneCarrier(s, table, rows[i], rows[j], pid);
      }
    }
  }

  lemma OneCarrier(s: State, table: Table, i: nat, j: nat, pid: int)
    requires LinksSound(s, table) && MemberIdsUnique(table)
    requires IdentityGate.Carries(s.members, i, pid) && IdentityGate.Carries(s.members, j, pid)
    ensures i == j
  {
    var a := CarriesLink(s, i, pid);
    var b := CarriesLink(s, j, pid);
    assert a in table && b in table;
  }

  /** Moving rows between bundles moves no link. */
  lemma MovedKeepsLinks(s: State, t: State, id: string, qid: string, table: Table)
    requires Moved(s, t, id, qid) && LinksSound(s, table)
    ensures LinksSound(t, table)
  {
    forall link, i: nat
      ensures LinkedAt(t, link, i) <==> LinkedAt(s, link, i)
      ensures LinkedAt(t, link, i) ==> t.members[i].logical == s.members[i].logical
    {
    }
  }

  lemma RowsDistinct(t: State, id: string)
    requires PathsUnique(t)
    ensures var rows := SortedRows(t.members, id); forall i, j :: 0 <= i < j < |rows| ==> rows[i] != rows[j]
  {
    SortedRowsExact(t, id);
    var rows, key := SortedRows(t.members, id), PathKey(t.members);
    forall i, j | 0 <= i < j < |rows|
      ensures rows[i] != rows[j]
    {
      assert key(rows[i]) != key(rows[j]);
    }
  }

  /** Every submission link on every row of a sealed bundle matches its submission member on content
      hash, staged digest, size and lineage: the gate skipped none of them. */
  lemma SealedLinksMatch(s: State, t: State, id: string, qid: string, targets: seq<Target>, f: Flushed, media: seq<string>,
                         records: map<int, IdentityGate.Record>, table: Table, link: Link, i: nat)
    requires Inv(t) && SealedFlush(s, t, id, qid, targets, f, media) && Identified(t.members, id, records)
    requires LinksSound(s, table) && MemberIdsUnique(table)
    requires LinkedAt(t, link, i) && t.members[i].bundle == id
    ensures var row := t.members[i];
            && link.member in records && records[link.member].item.Some?
            && row.logical == records[link.member].sha256 && row.digest == records[link.member].sha256
            && row.size == records[link.member].size
  {
    MovedKeepsLinks(s, t, id, qid, table);
    RowsDistinct(t, id);
    SortedRowsExact(t, id);
    var rows := SortedRows(t.members, id);
    LinksCarriedOnce(t, table, rows);
    IdentityGate.GateChecksEveryLink(t.members, rows, records);
    var j :| 0 <= j < |rows| && rows[j] == i;
    var k :| 0 <= k < |t.members[i].metadata.links| && t.members[i].metadata.links[k] == link;
    assert IdentityGate.Carries(t.members, rows[j], link.member);
  }
}
