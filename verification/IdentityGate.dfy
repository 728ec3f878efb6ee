/** The pre-write identity gate: every submission-linked row still matches its submission member. */
module IdentityGate {
  import opened Wrappers
  import opened Numerals
  import opened BundleCatalog

  /** A submission member on record. */
  datatype Record = Record(sha256: Digest, size: nat, item: Option<nat>)

  /** Row `i` carries a link to member `pid`. */
  predicate Carries(members: seq<Member>, i: nat, pid: int) {
    i < |members| && exists k :: 0 <= k < |members[i].metadata.links| && members[i].metadata.links[k].member == pid
  }

  predicate Matches(row: Member, pid: int, records: map<int, Record>) {
    && pid in records && row.logical == records[pid].sha256 && row.digest == records[pid].sha256
    && row.size == records[pid].size && records[pid].item.Some?
  }

  /** Row `rows[j]` is the last of the first `k` rows that carries `pid`. */
  predicate LastCarrier(members: seq<Member>, rows: seq<nat>, k: nat, pid: int, j: nat) {
    j < k <= |rows| && Carries(members, rows[j], pid) && forall i :: j < i < k ==> !Carries(members, rows[i], pid)
  }

  /** The gate looks members up by id, so of several rows that carry one member it checks the last. */
  ghost predicate GatePasses(members: seq<Member>, rows: seq<nat>, records: map<int, Record>) {
    forall pid, j :: 0 <= j && LastCarrier(members, rows, |rows|, pid, j) && rows[j] < |members| ==> Matches(members[rows[j]], pid, records)
  }

  /** `linked` maps each member carried by the first `k` rows to its last carrier. */
  ghost predicate LinkedBy(linked: map<int, nat>, members: seq<Member>, rows: seq<nat>, k: nat) {
    && (forall pid, j :: 0 <= j && LastCarrier(members, rows, k, pid, j) ==> pid in linked && linked[pid] == rows[j])
    && (forall pid :: pid in linked ==> CarriedBy(members, rows, k, pid))
  }

  ghost predicate CarriedBy(members: seq<Member>, rows: seq<nat>, k: nat, pid: int) {
    exists j :: 0 <= j && LastCarrier(members, rows, k, pid, j)
  }

  /** Record one row's links. */
  method AddLinks(linked: map<int, nat>, links: seq<Link>, row: nat) returns (after: map<int, nat>)
    ensures forall k :: 0 <= k < |links| ==> links[k].member in after
    ensures forall pid :: pid in after <==> pid in linked || exists k :: 0 <= k < |links| && links[k].member == pid
    ensures forall pid :: pid in after ==>
              after[pid] == if exists k :: 0 <= k < |links| && links[k].member == pid then row else linked[pid]
  {
    after := linked;
    for i := 0 to |links|
      invariant forall k :: 0 <= k < i ==> links[k].member in after
      invariant forall pid :: pid in after <==> pid in linked || exists k :: 0 <= k < i && links[k].member == pid
      invariant forall pid :: pid in after ==>
                  after[pid] == if exists k :: 0 <= k < i && links[k].member == pid then row else linked[pid]
    {
      after := after[links[i].member := row];
    }
  }

  /** The last carrier among `k + 1` rows is row `k` if it carries the member, else the one among `k`. */
  lemma LastCarrierNext(members: seq<Member>, rows: seq<nat>, k: nat, pid: int, j: nat)
    requires k < |rows|
    ensures LastCarrier(members, rows, k + 1, pid, j) <==>
              if Carries(members, rows[k], pid) then j == k else LastCarrier(members, rows, k, pid, j)
  {
  }

  lemma NextLinked(linked: map<int, nat>, after: map<int, nat>, members: seq<Member>, rows: seq<nat>, k: nat)
    requires k < |rows| && rows[k] < |members| && LinkedBy(linked, members, rows, k)
    requires forall pid :: pid in after <==> pid in linked || Carries(members, rows[k], pid)
    requires forall pid :: pid in after ==> after[pid] == if Carries(members, rows[k], pid) then rows[k] else linked[pid]
    ensures LinkedBy(after, members, rows, k + 1)
  {
    forall pid, j | 0 <= j && LastCarrier(members, rows, k + 1, pid, j)
      ensures pid in after && after[pid] == rows[j]
    {
      LastCarrierNext(members, rows, k, pid, j);
    }
    forall pid | pid in after
      ensures CarriedBy(members, rows, k + 1, pid)
    {
      NextCarried(linked, members, rows, k, pid);
    }
  }

  lemma NextCarried(linked: map<int, nat>, members: seq<Member>, rows: seq<nat>, k: nat, pid: int)
    requires k < |rows| && LinkedBy(linked, members, rows, k) && (pid in linked || Carries(members, rows[k], pid))
    ensures CarriedBy(members, rows, k + 1, pid)
  {
    if Carries(members, rows[k], pid) {
      LastCarrierNext(members, rows, k, pid, k);
    } else {
      var j :| 0 <= j && LastCarrier(members, rows, k, pid, j);
      LastCarrierNext(members, rows, k, pid, j);
    }
  }

  /** `validate_submission_member_identity`. */
  method ValidateIdentity(members: seq<Member>, rows: seq<nat>, records: map<int, Record>) returns (ok: bool)
    requires forall k :: 0 <= k < |rows| ==> rows[k] < |members|
    ensures ok <==> GatePasses(members, rows, records)
  {
    var linked: map<int, nat> := map[];
    for k := 0 to |rows|
      invariant LinkedBy(linked, members, rows, k)
    {
      var after := AddLinks(linked, members[rows[k]].metadata.links, rows[k]);
      NextLinked(linked, after, members, rows, k);
      linked := after;
    }
    LinkedInRange(linked, members, rows);
    ok := AllMatch(linked, members, rows, records);
    GateOfLinked(linked, members, rows, records);
  }

  lemma LinkedInRange(linked: map<int, nat>, members: seq<Member>, rows: seq<nat>)
    requires LinkedBy(linked, members, rows, |rows|)
    ensures forall pid :: pid in linked ==> linked[pid] < |members|
  {
  }

  /** Every linked member, found through the rows that carry it, matches its row on record. */
  method AllMatch(linked: map<int, nat>, members: seq<Member>, rows: seq<nat>, records: map<int, Record>) returns (ok: bool)
    requires forall k :: 0 <= k < |rows| ==> rows[k] < |members|
    requires LinkedBy(linked, members, rows, |rows|) && forall pid :: pid in linked ==> linked[pid] < |members|
    ensures ok <==> forall pid :: pid in linked ==> Matches(members[linked[pid]], pid, records)
  {
    for k := 0 to |rows|
      invariant forall j, pid :: 0 <= j < k && Carries(members, rows[j], pid) && pid in linked ==> Matches(members[linked[pid]], pid, records)
    {
      var links := members[rows[k]].metadata.links;
      for i := 0 to |links|
        invariant forall h :: 0 <= h < i && links[h].member in linked ==> Matches(members[linked[links[h].member]], links[h].member, records)
      {
        var pid := links[i].member;
        if pid in linked && !Matches(members[linked[pid]], pid, records) { return false; }
      }
    }
    forall pid | pid in linked
      ensures Matches(members[linked[pid]], pid, records)
    {
      var j :| 0 <= j && LastCarrier(members, rows, |rows|, pid, j);
      assert Carries(members, rows[j], pid);
    }
    return true;
  }

  lemma GateOfLinked(linked: map<int, nat>, members: seq<Member>, rows: seq<nat>, records: map<int, Record>)
    requires LinkedBy(linked, members, rows, |rows|) && forall pid :: pid in linked ==> linked[pid] < |members|
    ensures GatePasses(members, rows, records) <==> forall pid :: pid in linked ==> Matches(members[linked[pid]], pid, records)
  {
  }

  /** No member is carried by two of the rows. */
  ghost predicate CarriedOnce(members: seq<Member>, rows: seq<nat>) {
    forall pid, i, j :: 0 <= i < j < |rows| && Carries(members, rows[i], pid) ==> !Carries(members, rows[j], pid)
  }

  /** When links are single, the gate passes exactly when every linked row matches every member it
      carries on content hash, staged digest, size and lineage. */
  lemma GateChecksEveryLink(members: seq<Member>, rows: seq<nat>, records: map<int, Record>)
    requires CarriedOnce(members, rows) && forall k :: 0 <= k < |rows| ==> rows[k] < |members|
    ensures GatePasses(members, rows, records) <==>
              forall pid, j :: 0 <= j < |rows| && Carries(members, rows[j], pid) ==> Matches(members[rows[j]], pid, records)
  {
  }

  /** When two rows carry one member, a mismatch on the earlier row goes unseen. */
  lemma GateSkipsEarlierRow(first: Member, second: Member, pid: int, submission: string, records: map<int, Record>)
    requires first.metadata.links == [Link(submission, pid)] && second.metadata.links == [Link(submission, pid)]
    requires Matches(second, pid, records)
    ensures GatePasses([first, second], [0, 1], records)
  {
    var members := [first, second];
    assert members[1].metadata.links[0].member == pid && Carries(members, 1, pid);
    forall other, j | 0 <= j && LastCarrier(members, [0, 1], 2, other, j)
      ensures j == 1 && other == pid
    {
      assert Carries(members, [0, 1][j], other);
      assert other == pid;
      assert Carries(members, [0, 1][1], other);
    }
  }
}
