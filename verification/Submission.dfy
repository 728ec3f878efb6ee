/** `archive_submission`: append a submission's members that no row links yet. */
module Submission {
  import opened Wrappers
  import opened Numerals
  import opened MemberNaming
  import opened BundleCatalog
  import opened BundleInvariant
  import opened BundleRuns
  import opened BundleNames
  import opened BundleOrigins
  import opened BundleStore
  import opened SubmissionLinks

  datatype Part = Part(id: int, path: string, sha256: Digest, size: nat)

  datatype Status = PendingArchive | Accumulated | Archived | OtherStatus

  datatype Job = Job(id: string, artifactclass: string, status: Status, parts: seq<Part>)

  datatype SubmissionError = WrongStatus | NoParts | SourcesDrifted | EnqueueFailed(error: BundleError)

  /** What a completed call reports: whether it was a pure re-entry, and the submission's new status. */
  datatype Receipt = Receipt(noop: bool, status: Status)

  /** Where the class's members go: its derived group, the group's thresholds, and ids to mint. */
  datatype Route = Route(group: string, targetBytes: int, maxAge: int, newId: nat -> string, now: int)

  /** The submission's parts are its rows of the member table, under distinct ids. */
  ghost predicate OnRecord(job: Job, table: Table) {
    && (forall j, k :: 0 <= j < k < |job.parts| ==> job.parts[j].id != job.parts[k].id)
    && (forall k :: 0 <= k < |job.parts| ==> LinkOf(job, k) in table && table[LinkOf(job, k)] == job.parts[k].sha256)
    && (forall link :: link in table && link.submission == job.id ==> exists k :: 0 <= k < |job.parts| && job.parts[k].id == link.member)
  }

  function LinkOf(job: Job, k: nat): Link
    requires k < |job.parts|
  {
    Link(job.id, job.parts[k].id)
  }

  ghost predicate AllLinked(s: State, job: Job) {
    forall k :: 0 <= k < |job.parts| ==> Linked(s, LinkOf(job, k))
  }

  function Digests(job: Job): set<Digest> { set k | 0 <= k < |job.parts| :: job.parts[k].sha256 }

  /** The scan finds row `i` for member `pid`: the row's content is among the submission's, and it carries the link. */
  predicate FoundAt(s: State, job: Job, pid: int, i: nat) {
    i < |s.members| && s.members[i].logical in Digests(job) && Link(job.id, pid) in s.members[i].metadata.links
  }

  /** `submission_bundle_members`. */
  method SubmissionBundleMembers(catalog: Catalog, job: Job) returns (found: map<int, nat>)
    ensures forall pid :: pid in found <==> exists i: nat :: FoundAt(catalog.View(), job, pid, i)
    ensures forall pid :: pid in found ==> FoundAt(catalog.View(), job, pid, found[pid])
  {
    found := map[];
    for i := 0 to |catalog.members|
      invariant forall pid :: pid in found ==> FoundAt(catalog.View(), job, pid, found[pid])
      invariant forall pid, k: nat :: k < i && FoundAt(catalog.View(), job, pid, k) ==> pid in found
    {
      var row := catalog.members[i];
      if row.logical in Digests(job) {
        var links := row.metadata.links;
        for j := 0 to |links|
          invariant forall pid :: pid in found ==> FoundAt(catalog.View(), job, pid, found[pid])
          invariant forall pid, k: nat :: k < i && FoundAt(catalog.View(), job, pid, k) ==> pid in found
          invariant forall k :: 0 <= k < j && links[k].submission == job.id ==> links[k].member in found
        {
          if links[j].submission == job.id {
            assert links[j] == Link(job.id, links[j].member);
            found := found[links[j].member := i];
          }
        }
        forall pid | Link(job.id, pid) in links ensures pid in found {
          var k :| 0 <= k < |links| && links[k] == Link(job.id, pid);
        }
      }
    }
  }

  /** The scan by content hash misses no link: it finds exactly the submission's linked members. */
  lemma ScanFindsLinked(s: State, job: Job, table: Table, pid: int)
    requires LinksSound(s, table) && OnRecord(job, table)
    ensures (exists i: nat :: FoundAt(s, job, pid, i)) <==> Linked(s, Link(job.id, pid))
  {
    var link := Link(job.id, pid);
    if i: nat :| FoundAt(s, job, pid, i) {
      assert LinkedAt(s, link, i);
    }
    if i: nat :| LinkedAt(s, link, i) {
      var k :| 0 <= k < |job.parts| && job.parts[k].id == link.member;
      assert LinkOf(job, k) == link && job.parts[k].sha256 in Digests(job);
      assert FoundAt(s, job, pid, i);
    }
  }

  function Ids(parts: seq<Part>): set<int> { set k | 0 <= k < |parts| :: parts[k].id }

  /** `already` holds every part exactly when it is as large as the submission. */
  lemma AlreadyIsAll(s: State, job: Job, table: Table, found: map<int, nat>)
    requires LinksSound(s, table) && OnRecord(job, table)
    requires forall pid :: pid in found <==> Linked(s, Link(job.id, pid))
    ensures |found| == |job.parts| <==> AllLinked(s, job)
  {
    forall pid | pid in found
      ensures pid in Ids(job.parts)
    {
      LinkedIsPart(s, job, table, pid);
    }
    PartIds(job.parts);
    AllLinkedByIds(s, job, found);
    assert |found.Keys| == |found|;
    if |found| == |job.parts| { SubsetSameSize(found.Keys, Ids(job.parts)); }
  }

  lemma LinkedIsPart(s: State, job: Job, table: Table, pid: int)
    requires LinksSound(s, table) && OnRecord(job, table) && Linked(s, Link(job.id, pid))
    ensures pid in Ids(job.parts)
  {
    var i: nat :| LinkedAt(s, Link(job.id, pid), i);
    assert Link(job.id, pid) in table;
  }

  lemma AllLinkedByIds(s: State, job: Job, found: map<int, nat>)
    requires forall pid :: pid in found <==> Linked(s, Link(job.id, pid))
    requires found.Keys <= Ids(job.parts)
    ensures AllLinked(s, job) <==> found.Keys == Ids(job.parts)
  {
    forall k | 0 <= k < |job.parts|
      ensures Linked(s, LinkOf(job, k)) <==> job.parts[k].id in found
    {
    }
    forall k | 0 <= k < |job.parts|
      ensures job.parts[k].id in Ids(job.parts)
    {
    }
  }

  lemma {:induction false} PartIds(parts: seq<Part>)
    requires forall j, k :: 0 <= j < k < |parts| ==> parts[j].id != parts[k].id
    ensures |Ids(parts)| == |parts|
    decreases |parts|
  {
    if parts != [] {
      var n := |parts| - 1;
      var front := parts[..n];
      PartIds(front);
      assert Ids(parts) == Ids(front) + {parts[n].id};
    }
  }

  lemma SubsetSameSize(small: set<int>, large: set<int>)
    requires small <= large && |small| == |large|
    ensures small == large
  {
    assert |large - small| == |large| - |small|;
  }

  function PartItem(job: Job, k: nat): Item
    requires k < |job.parts|
  {
    var p := job.parts[k];
    Item(Request(p.path, job.artifactclass, p.sha256, p.sha256), p.size, Metadata([LinkOf(job, k)], map[]))
  }

  function PartStep(job: Job, k: nat, route: Route, probe: Option<string>): Step
    requires k < |job.parts|
  {
    Enqueued(route.group, route.targetBytes, route.maxAge, route.newId(k), route.now, PartItem(job, k), probe)
  }

  lemma HistoryAppend(sha: string -> Digest, s: State, events: seq<Event>, e: Event)
    ensures History(sha, s, events + [e]) == Happen(sha, History(sha, s, events), e)
  {
  }

  /** One part's append links that part and no other. */
  lemma PartLinks(sha: string -> Digest, s: State, job: Job, k: nat, route: Route, probe: Option<string>, other: Link)
    requires Inv(s) && k < |job.parts|
    requires Enqueue(sha, s, route.group, route.targetBytes, route.maxAge, route.newId(k), route.now, PartItem(job, k), probe).Ok?
    ensures var t := Apply(sha, s, PartStep(job, k, route, probe)); Linked(t, other) <==> other == LinkOf(job, k) || Linked(s, other)
  {
    var step := PartStep(job, k, route, probe);
    var t := Apply(sha, s, step);
    var row := EnqueueGains(sha, s, step);
    assert LinkedAt(t, LinkOf(job, k), row.value);
    if i: nat :| LinkedAt(t, other, i) {
      assert other == LinkOf(job, k) || LinkedAt(s, other, i);
    }
    if i: nat :| LinkedAt(s, other, i) {
      assert LinkedAt(t, other, i);
    }
  }

  // ----- What a call appends, and where it lands -----

  /** The event is the append of part `j`: its path, class, hash and size, to the class's group, with the
      part's own link and nothing else. */
  ghost predicate Submits(e: Event, job: Job, j: nat, route: Route) {
    && j < |job.parts| && e.Submit? && e.link == Link(job.id, job.parts[j].id) && e.step.Enqueued?
    && e.step.group == route.group && e.step.targetBytes == route.targetBytes && e.step.maxAge == route.maxAge
    && e.step.id == route.newId(j) && e.step.now == route.now && e.step.item.metadata == Metadata([e.link], map[])
    && var request, part := e.step.item.request, job.parts[j];
       && request.path == part.path && request.artifactclass == job.artifactclass && request.logical == part.sha256
       && request.digest == part.sha256 && e.step.item.size == part.size
  }

  ghost predicate Mine(events: seq<Event>, job: Job, route: Route, table: Table) {
    forall k :: 0 <= k < |events| ==> WellFormed(events[k], table) && exists j: nat :: Submits(events[k], job, j, route)
  }

  /** The rows of `s` are still there, in place, with at most more metadata and no link lost. */
  ghost predicate RowsStand(s: State, t: State) {
    && |s.members| <= |t.members|
    && (forall i :: 0 <= i < |s.members| ==> t.members[i] == s.members[i].(metadata := t.members[i].metadata)
                                             && s.members[i].metadata.links <= t.members[i].metadata.links)
  }

  /** A row part `j` can share: its class and content, under a name off its ladder. */
  ghost predicate LandsFor(sha: string -> Digest, row: Member, job: Job, j: nat) {
    && j < |job.parts| && row.artifactclass == job.artifactclass && row.logical == job.parts[j].sha256
    && row.path in NameLadder(sha, Request(job.parts[j].path, job.artifactclass, job.parts[j].sha256, job.parts[j].sha256))
  }

  /** A row made for part `j`: also of its size, staged under its own digest. */
  ghost predicate MadeFor(sha: string -> Digest, row: Member, job: Job, j: nat) {
    LandsFor(sha, row, job, j) && row.size == job.parts[j].size && row.digest == job.parts[j].sha256
  }

  ghost predicate Landed(sha: string -> Digest, s: State, job: Job, j: nat)
    requires j < |job.parts|
  {
    exists i: nat :: LinkedAt(s, LinkOf(job, j), i) && LandsFor(sha, s.members[i], job, j)
  }

  lemma LandedStays(sha: string -> Digest, s: State, t: State, job: Job, j: nat)
    requires j < |job.parts| && Landed(sha, s, job, j) && RowsStand(s, t)
    ensures Landed(sha, t, job, j)
  {
    var i: nat :| LinkedAt(s, LinkOf(job, j), i) && LandsFor(sha, s.members[i], job, j);
    assert LinkedAt(t, LinkOf(job, j), i);
  }

  /** An append that goes through lands its part. */
  lemma PartLands(sha: string -> Digest, s: State, job: Job, k: nat, route: Route, probe: Option<string>)
    requires Inv(s) && k < |job.parts|
    requires Enqueue(sha, s, route.group, route.targetBytes, route.maxAge, route.newId(k), route.now, PartItem(job, k), probe).Ok?
    ensures Landed(sha, Apply(sha, s, PartStep(job, k, route, probe)), job, k)
  {
    var item := PartItem(job, k);
    var d := Destination(s, route.group, route.targetBytes, route.maxAge, route.newId(k), route.now, item.size, probe);
    DestinationOpens(s, route.group, route.targetBytes, route.maxAge, route.newId(k), route.now, item.size, probe);
    var a := Append(sha, d.value.0, d.value.1, item).value;
    AppendedRow(sha, d.value.0, d.value.1, item);
    AppendGains(sha, d.value.0, d.value.1, item);
    assert LinkedAt(a.state, LinkOf(job, k), a.row);
    assert LandsFor(sha, a.state.members[a.row], job, k);
  }

  /** In this state part `k` cannot be appended, whatever the crash-retry lookup found. */
  ghost predicate Blocked(sha: string -> Digest, s: State, job: Job, k: nat, route: Route, probe: Option<string>) {
    && k < |job.parts| && !Linked(s, LinkOf(job, k))
    && !CanEnqueue(sha, s, route.group, route.targetBytes, route.maxAge, route.newId(k), PartItem(job, k), probe)
  }

  /** Why an append failed: a lost name, or a part that cannot be appended. */
  ghost predicate Explained(sha: string -> Digest, s: State, job: Job, route: Route, error: BundleError) {
    error == NameLost || exists k: nat, probe :: Blocked(sha, s, job, k, route, probe)
  }

  /** Append one part that is not linked yet; the two ladder runs may see any of the rows. */
  method AppendPart(catalog: Catalog, job: Job, k: nat, route: Route, ghost table: Table, ghost s: State,
                    ghost before: seq<Event>)
    returns (error: Option<BundleError>, ghost events: seq<Event>)
    requires Inv(catalog.View()) && k < |job.parts| && OnRecord(job, table) && Mine(before, job, route, table)
    requires !Linked(catalog.View(), LinkOf(job, k)) && catalog.View() == History(catalog.sha, s, before)
    modifies catalog
    ensures Inv(catalog.View()) && Mine(events, job, route, table) && catalog.View() == History(catalog.sha, s, events)
    ensures error.None? ==> forall other :: Linked(catalog.View(), other) <==> other == LinkOf(job, k) || Linked(old(catalog.View()), other)
    ensures error.None? ==> Landed(catalog.sha, catalog.View(), job, k)
    ensures error.Some? ==> Explained(catalog.sha, catalog.View(), job, route, error.value)
    ensures RowsStand(old(catalog.View()), catalog.View())
  {
    ghost var now := catalog.View();
    var seen: nat, again: nat :| seen <= again <= |catalog.members|;
    var r, created, probe := catalog.EnqueueArtifact(route.group, route.targetBytes, route.maxAge, route.newId(k), route.now, PartItem(job, k),
                                                     catalog.bundles.Keys, seen, again);
    if r == Err(NameLost) { return Some(NameLost), before; }
    events := before + [Submit(LinkOf(job, k), PartStep(job, k, route, probe))];
    OneMorePart(catalog.sha, s, now, before, job, k, route, probe, table);
    error := if r.Err? then Some(r.error) else None;
  }

  lemma OneMorePart(sha: string -> Digest, s: State, now: State, before: seq<Event>, job: Job, k: nat, route: Route,
                    probe: Option<string>, table: Table)
    requires Inv(now) && k < |job.parts| && OnRecord(job, table) && Mine(before, job, route, table)
    requires !Linked(now, LinkOf(job, k)) && now == History(sha, s, before)
    ensures var step := PartStep(job, k, route, probe);
            var t, events := Apply(sha, now, step), before + [Submit(LinkOf(job, k), step)];
            && Inv(t) && Mine(events, job, route, table) && t == History(sha, s, events) && RowsStand(now, t)
            && if Enqueue(sha, now, route.group, route.targetBytes, route.maxAge, route.newId(k), route.now, PartItem(job, k), probe).Ok?
               then Landed(sha, t, job, k) && forall other :: Linked(t, other) <==> other == LinkOf(job, k) || Linked(now, other)
               else t == now && Blocked(sha, now, job, k, route, probe)
  {
    var step := PartStep(job, k, route, probe);
    StepKeepsInv(sha, now, step);
    StepStands(sha, now, step);
    OneMoreMine(before, job, k, route, probe, table);
    HistoryAppend(sha, s, before, Submit(LinkOf(job, k), step));
    PartSettles(sha, now, job, k, route, probe);
  }

  /** An append links and lands its part, or the part cannot be appended. */
  lemma PartSettles(sha: string -> Digest, s: State, job: Job, k: nat, route: Route, probe: Option<string>)
    requires Inv(s) && k < |job.parts| && !Linked(s, LinkOf(job, k))
    ensures var t := Apply(sha, s, PartStep(job, k, route, probe));
            if Enqueue(sha, s, route.group, route.targetBytes, route.maxAge, route.newId(k), route.now, PartItem(job, k), probe).Ok?
            then Landed(sha, t, job, k) && forall other :: Linked(t, other) <==> other == LinkOf(job, k) || Linked(s, other)
            else t == s && Blocked(sha, s, job, k, route, probe)
  {
    EnqueueSucceedsExactly(sha, s, route.group, route.targetBytes, route.maxAge, route.newId(k), route.now, PartItem(job, k), probe);
    if Enqueue(sha, s, route.group, route.targetBytes, route.maxAge, route.newId(k), route.now, PartItem(job, k), probe).Ok? {
      forall other
        ensures Linked(Apply(sha, s, PartStep(job, k, route, probe)), other) <==> other == LinkOf(job, k) || Linked(s, other)
      {
        PartLinks(sha, s, job, k, route, probe, other);
      }
      PartLands(sha, s, job, k, route, probe);
    }
  }

  lemma OneMoreMine(before: seq<Event>, job: Job, k: nat, route: Route, probe: Option<string>, table: Table)
    requires Mine(before, job, route, table) && k < |job.parts| && OnRecord(job, table)
    ensures Mine(before + [Submit(LinkOf(job, k), PartStep(job, k, route, probe))], job, route, table)
  {
    var e := Submit(LinkOf(job, k), PartStep(job, k, route, probe));
    assert Submits(e, job, k, route);
    assert WellFormed(e, table);
  }

  ghost predicate FromPart(sha: string -> Digest, row: Member, job: Job) {
    exists j: nat :: MadeFor(sha, row, job, j)
  }

  ghost predicate NewFromParts(sha: string -> Digest, s: State, t: State, job: Job) {
    forall i :: |s.members| <= i < |t.members| ==> FromPart(sha, t.members[i], job)
  }

  /** Over a call's appends the rows that were there keep all but their metadata, and each new row was
      made for one of the parts. */
  lemma {:induction false} CallRows(sha: string -> Digest, s: State, events: seq<Event>, job: Job, route: Route, table: Table)
    requires Mine(events, job, route, table)
    ensures RowsStand(s, History(sha, s, events)) && NewFromParts(sha, s, History(sha, s, events), job)
    decreases |events|
  {
    if events == [] {
    } else {
      var n := |events| - 1;
      var front := events[..n];
      CallRows(sha, s, front, job, route, table);
      var t := History(sha, s, front);
      if !Linked(t, events[n].link) {
        var u := Apply(sha, t, events[n].step);
        StepStands(sha, t, events[n].step);
        forall i | |t.members| <= i < |u.members|
          ensures FromPart(sha, u.members[i], job)
        {
          NewRowFromPart(sha, t, events[n], job, route, i);
        }
        NextRows(sha, s, t, u, job);
      }
    }
  }

  lemma StepStands(sha: string -> Digest, s: State, step: Step)
    requires step.Enqueued?
    ensures RowsStand(s, Apply(sha, s, step))
  {
    var t := Apply(sha, s, step);
    EnqueueRows(sha, s, step);
    assert forall i :: 0 <= i < |s.members| ==> RowKept(s, t, i);
    assert s.members != [] ==> RowKept(s, t, |s.members| - 1);
  }

  lemma NewRowFromPart(sha: string -> Digest, t: State, e: Event, job: Job, route: Route, i: nat)
    requires (exists j: nat :: Submits(e, job, j, route)) && |t.members| <= i < |Apply(sha, t, e.step).members|
    ensures FromPart(sha, Apply(sha, t, e.step).members[i], job)
  {
    var j: nat :| Submits(e, job, j, route);
    NewRowIsItem(sha, t, e.step, i);
    RowOfItem(sha, Apply(sha, t, e.step).members[i], e, job, j, route);
  }

  lemma RowOfItem(sha: string -> Digest, row: Member, e: Event, job: Job, j: nat, route: Route)
    requires Submits(e, job, j, route) && IsRowOf(sha, row, e.step.item)
    ensures MadeFor(sha, row, job, j)
  {
    var part := job.parts[j];
    assert e.step.item.request == Request(part.path, job.artifactclass, part.sha256, part.sha256);
  }

  lemma NextRows(sha: string -> Digest, s: State, t: State, u: State, job: Job)
    requires RowsStand(s, t) && RowsStand(t, u) && NewFromParts(sha, s, t, job) && NewFromParts(sha, t, u, job)
    ensures RowsStand(s, u) && NewFromParts(sha, s, u, job)
  {
    forall i | |s.members| <= i < |u.members|
      ensures FromPart(sha, u.members[i], job)
    {
      if i < |t.members| {
        var j: nat :| MadeFor(sha, t.members[i], job, j);
        assert MadeFor(sha, u.members[i], job, j);
      }
    }
  }

  function Refreshed(archived: bool): Status { if archived then Archived else Accumulated }

  predicate Eligible(job: Job) {
    job.status == PendingArchive || job.status == Accumulated || job.status == Archived
  }

  /** The members already accumulated: exactly the linked ones. */
  method Already(catalog: Catalog, job: Job, ghost table: Table) returns (already: map<int, nat>)
    requires LinksSound(catalog.View(), table) && OnRecord(job, table)
    ensures forall pid :: pid in already <==> Linked(catalog.View(), Link(job.id, pid))
    ensures |already| == |job.parts| <==> AllLinked(catalog.View(), job)
  {
    already := SubmissionBundleMembers(catalog, job);
    forall pid
      ensures pid in already <==> Linked(catalog.View(), Link(job.id, pid))
    {
      ScanFindsLinked(catalog.View(), job, table, pid);
    }
    AlreadyIsAll(catalog.View(), job, table, already);
  }

  /** The append loop: skip what is linked, append the rest, stop at the first error. */
  method AppendMissing(catalog: Catalog, job: Job, already: map<int, nat>, route: Route, ghost table: Table)
    returns (error: Option<BundleError>, ghost events: seq<Event>)
    requires Inv(catalog.View()) && OnRecord(job, table)
    requires forall pid :: pid in already <==> Linked(catalog.View(), Link(job.id, pid))
    modifies catalog
    ensures Inv(catalog.View()) && Mine(events, job, route, table) && catalog.View() == History(catalog.sha, old(catalog.View()), events)
    ensures error.None? ==> AllLinked(catalog.View(), job) && LandedUpTo(catalog.sha, catalog.View(), job, already, |job.parts|)
    ensures error.Some? ==> Explained(catalog.sha, catalog.View(), job, route, error.value)
  {
    ghost var s := catalog.View();
    events := [];
    NoneYet(s, job, already);
    for k := 0 to |job.parts|
      invariant Inv(catalog.View()) && Mine(events, job, route, table) && catalog.View() == History(catalog.sha, s, events)
      invariant LinkedUpTo(catalog.View(), job, already, k) && LandedUpTo(catalog.sha, catalog.View(), job, already, k)
    {
      if job.parts[k].id !in already {
        error, events := AppendNext(catalog, job, already, k, route, table, s, events);
        if error.Some? { return; }
      } else {
        NextSkipped(catalog.View(), job, already, k);
      }
    }
    AllUpTo(catalog.View(), job, already);
    error := None;
  }

  /** One turn of the loop, for a part that is not linked. */
  method AppendNext(catalog: Catalog, job: Job, already: map<int, nat>, k: nat, route: Route, ghost table: Table, ghost s: State,
                    ghost before: seq<Event>)
    returns (error: Option<BundleError>, ghost events: seq<Event>)
    requires Inv(catalog.View()) && k < |job.parts| && OnRecord(job, table) && Mine(before, job, route, table)
    requires catalog.View() == History(catalog.sha, s, before) && job.parts[k].id !in already
    requires LinkedUpTo(catalog.View(), job, already, k) && LandedUpTo(catalog.sha, catalog.View(), job, already, k)
    modifies catalog
    ensures Inv(catalog.View()) && Mine(events, job, route, table) && catalog.View() == History(catalog.sha, s, events)
    ensures error.None? ==> LinkedUpTo(catalog.View(), job, already, k + 1) && LandedUpTo(catalog.sha, catalog.View(), job, already, k + 1)
    ensures error.Some? ==> Explained(catalog.sha, catalog.View(), job, route, error.value)
  {
    ghost var now := catalog.View();
    assert LinkedPart(now, job, already, k, k);
    error, events := AppendPart(catalog, job, k, route, table, s, before);
    if error.None? {
      NextAppended(now, catalog.View(), job, already, k);
      NextLanded(catalog.sha, now, catalog.View(), job, already, k);
    }
  }

  /** Every part before `k` that was not linked has landed. */
  ghost predicate LandedUpTo(sha: string -> Digest, s: State, job: Job, already: map<int, nat>, k: nat)
    requires k <= |job.parts|
  {
    forall j :: 0 <= j < k && job.parts[j].id !in already ==> Landed(sha, s, job, j)
  }

  lemma NextLanded(sha: string -> Digest, s: State, t: State, job: Job, already: map<int, nat>, k: nat)
    requires k < |job.parts| && LandedUpTo(sha, s, job, already, k) && Landed(sha, t, job, k)
    requires RowsStand(s, t)
    ensures LandedUpTo(sha, t, job, already, k + 1)
  {
    forall j | 0 <= j < k && job.parts[j].id !in already
      ensures Landed(sha, t, job, j)
    {
      LandedStays(sha, s, t, job, j);
    }
  }

  /** Part `j` is linked exactly when it was before the loop or comes before part `k`. */
  ghost predicate LinkedPart(s: State, job: Job, already: map<int, nat>, k: nat, j: nat)
    requires j < |job.parts|
  {
    Linked(s, LinkOf(job, j)) <==> j < k || job.parts[j].id in already
  }

  ghost predicate LinkedUpTo(s: State, job: Job, already: map<int, nat>, k: nat) {
    forall j :: 0 <= j < |job.parts| ==> LinkedPart(s, job, already, k, j)
  }

  lemma NextAppended(s: State, t: State, job: Job, already: map<int, nat>, k: nat)
    requires k < |job.parts| && LinkedUpTo(s, job, already, k)
    requires forall i, j :: 0 <= i < j < |job.parts| ==> job.parts[i].id != job.parts[j].id
    requires forall other :: Linked(t, other) <==> other == LinkOf(job, k) || Linked(s, other)
    ensures LinkedUpTo(t, job, already, k + 1)
  {
    var next := k + 1;
    forall j | 0 <= j < |job.parts|
      ensures LinkedPart(t, job, already, next, j)
    {
      assert LinkedPart(s, job, already, k, j);
    }
  }

  lemma NextSkipped(s: State, job: Job, already: map<int, nat>, k: nat)
    requires k < |job.parts| && LinkedUpTo(s, job, already, k) && job.parts[k].id in already
    ensures LinkedUpTo(s, job, already, k + 1)
  {
    var next := k + 1;
    forall j | 0 <= j < |job.parts|
      ensures LinkedPart(s, job, already, next, j)
    {
      assert LinkedPart(s, job, already, k, j);
    }
  }

  lemma AllUpTo(s: State, job: Job, already: map<int, nat>)
    requires LinkedUpTo(s, job, already, |job.parts|)
    ensures AllLinked(s, job)
  {
    forall j | 0 <= j < |job.parts|
      ensures Linked(s, LinkOf(job, j))
    {
      assert LinkedPart(s, job, already, |job.parts|, j);
    }
  }

  lemma NoneYet(s: State, job: Job, already: map<int, nat>)
    requires forall pid :: pid in already <==> Linked(s, Link(job.id, pid))
    ensures LinkedUpTo(s, job, already, 0)
  {
    forall j | 0 <= j < |job.parts|
      ensures LinkedPart(s, job, already, 0, j)
    {
    }
  }

  /** A call's early refusals, each exactly when. */
  ghost predicate RefusedEarly(r: Result<Receipt, SubmissionError>, s: State, job: Job, sourcesOk: bool) {
    var open := job.status in {PendingArchive, Accumulated, Archived};
    && (r == Err(WrongStatus) <==> !open)
    && (r == Err(NoParts) <==> open && job.parts == [])
    && (r == Err(SourcesDrifted) <==> open && job.parts != [] && !AllLinked(s, job) && !sourcesOk)
  }

  /** Each part that was not linked has landed on a row it can share; the rows that were there keep all but
      their links, and each new row was made for one of the parts. */
  ghost predicate Accumulates(sha: string -> Digest, s: State, t: State, job: Job) {
    && (forall j :: 0 <= j < |job.parts| && !Linked(s, LinkOf(job, j)) ==> Landed(sha, t, job, j))
    && RowsStand(s, t) && NewFromParts(sha, s, t, job)
  }

  /** `archive_submission`. It only ever makes guarded appends of its own members; a call that
      completes leaves every member linked, each where it belongs; once they all are, a call appends
      nothing; and a call fails only for its status, its sources, a lost name, or a member that cannot
      be appended. */
  method ArchiveSubmission(catalog: Catalog, job: Job, route: Route, sourcesOk: bool, archived: bool, ghost table: Table)
    returns (r: Result<Receipt, SubmissionError>, ghost events: seq<Event>)
    requires Inv(catalog.View()) && LinksSound(catalog.View(), table) && OnRecord(job, table)
    modifies catalog
    ensures Mine(events, job, route, table) && catalog.View() == History(catalog.sha, old(catalog.View()), events)
    ensures Inv(catalog.View()) && LinksSound(catalog.View(), table)
    ensures r.Ok? ==> AllLinked(catalog.View(), job) && Accumulates(catalog.sha, old(catalog.View()), catalog.View(), job)
    ensures r.Ok? ==> r.value == Receipt(AllLinked(old(catalog.View()), job), if archived then Archived else Accumulated)
    ensures Eligible(job) && job.parts != [] && AllLinked(old(catalog.View()), job) ==> r.Ok? && catalog.View() == old(catalog.View())
    ensures RefusedEarly(r, old(catalog.View()), job, sourcesOk)
    ensures r.Err? && r.error.EnqueueFailed? ==> Explained(catalog.sha, catalog.View(), job, route, r.error.error)
  {
    ghost var s := catalog.View();
    events := [];
    if !Eligible(job) { return Err(WrongStatus), []; }
    if job.parts == [] { return Err(NoParts), []; }
    var already := Already(catalog, job, table);
    if |already| == |job.parts| {
      CallRows(catalog.sha, s, [], job, route, table);
      return Ok(Receipt(true, Refreshed(archived))), [];
    }
    if !sourcesOk { return Err(SourcesDrifted), []; }
    var error;
    error, events := AppendMissing(catalog, job, already, route, table);
    LinksStaySound(catalog.sha, s, events, table);
    if error.Some? { return Err(EnqueueFailed(error.value)), events; }
    CallRows(catalog.sha, s, events, job, route, table);
    return Ok(Receipt(false, Refreshed(archived))), events;
  }
}
