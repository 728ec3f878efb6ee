/** Where rows and columns come from: every bundle's columns are those of the step that opened it, and
    every member row carries the item of the append that made it, over every run. */
module BundleOrigins {
  import opened Wrappers
  import opened Numerals
  import opened MemberNaming
  import opened BundleCatalog
  import opened BundleInvariant
  import opened BundleRuns
  import opened BundleNames

  // ----- Opening -----

  /** A bundle as `open_accumulator_row` and the funnel mint store it: empty, unclaimed, never flushed,
      with the group and thresholds it was opened for. */
  predicate OpenedAs(b: Bundle, group: string, targetBytes: int, maxAge: int, now: int) {
    && b.status == Open && b.group == group && b.targetBytes == targetBytes && b.maxAge == maxAge && b.openedAt == now
    && b.memberCount == 0 && b.totalBytes == 0 && b.claimedBy.None? && b.flushedAt.None?
  }

  /** Only bundle `id` may be new, and no other bundle, row or copy changes. */
  ghost predicate OpensOnly(s: State, t: State, id: string) {
    && t == s.(bundles := t.bundles) && t.bundles.Keys <= s.bundles.Keys + {id}
    && forall other :: other in s.bundles ==> other in t.bundles && t.bundles[other] == s.bundles[other]
  }

  /** An adopted accumulator is of the group; an opened one has the given thresholds and no archive id. */
  lemma AccumulatorColumns(s: State, group: string, targetBytes: int, maxAge: int, id: string, now: int)
    ensures var r := GetOrCreate(s, group, targetBytes, maxAge, id, now);
            r.Ok? ==>
              && OpensOnly(s, r.value.0, id) && IsAccumulator(r.value.0, r.value.1, group)
              && (r.value.1 !in s.bundles ==> r.value.1 == id && OpenedAs(r.value.0.bundles[id], group, targetBytes, maxAge, now))
    ensures GetOrCreate(s, group, targetBytes, maxAge, id, now).Ok? <==> id !in s.bundles || exists other :: IsAccumulator(s, other, group)
  {
  }

  /** A minted funnel has the given thresholds, and an archive id from the start. */
  lemma FunnelColumns(s: State, group: string, targetBytes: int, maxAge: int, id: string, now: int, probe: Option<string>)
    ensures var r := FunnelFor(s, group, targetBytes, maxAge, id, now, probe);
            r.Ok? ==>
              && OpensOnly(s, r.value.0, id) && r.value.1 == (if probe.Some? then probe.value else id)
              && (probe.None? ==> id in r.value.0.bundles && r.value.0.bundles[id].group == group
                                  && r.value.0.bundles[id].status == Open && r.value.0.bundles[id].archiveId.Some?)
              && (probe.None? && id !in s.bundles ==>
                    OpenedAs(r.value.0.bundles[id], group, targetBytes, maxAge, now) && r.value.0.bundles[id].archiveId == Some("archive-" + id))
  {
  }

  // ----- Routing -----

  /** The bundle an enqueue of `size` bytes goes to: below the target, the group's accumulator, opened as
      `id` if there is none; from the target on, the funnel found by the crash-retry lookup, or funnel `id`. */
  ghost predicate Takes(s: State, group: string, targetBytes: int, id: string, size: nat, probe: Option<string>, target: string) {
    if size < targetBytes then
      IsAccumulator(s, target, group) || (target == id && id !in s.bundles && forall other :: !IsAccumulator(s, other, group))
    else if probe.Some? then target == probe.value && target in s.bundles
    else target == id && (id in s.bundles ==> s.bundles[id].status == Open && s.bundles[id].group == group && s.bundles[id].archiveId.Some?)
  }

  lemma DestinationTakes(s: State, group: string, targetBytes: int, maxAge: int, id: string, now: int, size: nat, probe: Option<string>)
    requires OneAccumulator(s)
    ensures var d := Destination(s, group, targetBytes, maxAge, id, now, size, probe);
            && (d.Ok? ==> OpensOnly(s, d.value.0, id))
            && (d.Ok? && d.value.1 in d.value.0.bundles ==> Takes(s, group, targetBytes, id, size, probe, d.value.1))
            && (forall target :: Takes(s, group, targetBytes, id, size, probe, target) ==> d.Ok? && d.value.1 == target && target in d.value.0.bundles)
            && (d.Ok? && d.value.1 !in s.bundles && d.value.1 in d.value.0.bundles ==>
                  d.value.1 == id && OpenedAs(d.value.0.bundles[id], group, targetBytes, maxAge, now))
  {
    if size < targetBytes {
      AccumulatorColumns(s, group, targetBytes, maxAge, id, now);
    } else {
      FunnelColumns(s, group, targetBytes, maxAge, id, now, probe);
    }
  }

  /** The bundle has a name left for the request: some rung is free or the request's own. */
  ghost predicate NameLeft(sha: string -> Digest, s: State, id: string, r: Request) {
    exists k :: 0 <= k < 7 && RungOpen(NamesIn(s.members, id), r, NameLadder(sha, r)[k])
  }

  predicate RungOpen(names: Names, r: Request, rung: string) { rung in names ==> IsOwn(names[rung], r) }

  lemma NameLeftExactly(sha: string -> Digest, s: State, id: string, r: Request)
    ensures NameLeft(sha, s, id, r) <==> !Resolve(sha, NamesIn(s.members, id), r).Exhausted?
  {
    var names, ladder := NamesIn(s.members, id), NameLadder(sha, r);
    var found := ResolveFrom(ladder, names, r, 0);
    if !found.Exhausted? { assert RungOpen(names, r, ladder[found.rung]); }
    if NameLeft(sha, s, id, r) {
      var k :| 0 <= k < 7 && RungOpen(names, r, ladder[k]);
    }
  }

  lemma AppendSucceedsExactly(sha: string -> Digest, s: State, id: string, item: Item)
    ensures Append(sha, s, id, item).Ok? <==>
              id in s.bundles && s.bundles[id].status == Open && item.request.logical in s.assets && NameLeft(sha, s, id, item.request)
  {
    NameLeftExactly(sha, s, id, item.request);
    if !Resolve(sha, NamesIn(s.members, id), item.request).Exhausted? { AppendNotExhausted(sha, s, id, item); }
  }

  /** What an enqueue needs, in columns and rows. */
  ghost predicate CanEnqueue(sha: string -> Digest, s: State, group: string, targetBytes: int, maxAge: int, id: string,
                             item: Item, probe: Option<string>) {
    && item.request.logical in s.assets && targetBytes > 0 && maxAge > 0
    && exists target :: Takes(s, group, targetBytes, id, item.size, probe, target) && Receives(sha, s, target, id, item)
  }

  ghost predicate Receives(sha: string -> Digest, s: State, target: string, id: string, item: Item) {
    if target in s.bundles then s.bundles[target].status == Open && NameLeft(sha, s, target, item.request) else target == id
  }

  /** A new bundle has the whole ladder free. */
  lemma NewBundleHasNames(sha: string -> Digest, s: State, id: string, r: Request)
    requires MembersHomed(s) && id !in s.bundles
    ensures NameLeft(sha, s, id, r)
  {
    CountZero(s.members, id);
    assert RungOpen(NamesIn(s.members, id), r, NameLadder(sha, r)[0]);
  }

  lemma EnqueueIsAppend(sha: string -> Digest, s: State, group: string, targetBytes: int, maxAge: int, id: string, now: int,
                        item: Item, probe: Option<string>)
    requires item.request.logical in s.assets && targetBytes > 0 && maxAge > 0
    ensures var d := Destination(s, group, targetBytes, maxAge, id, now, item.size, probe);
            Enqueue(sha, s, group, targetBytes, maxAge, id, now, item, probe)
            == if d.Ok? then Append(sha, d.value.0, d.value.1, item) else Err(d.error)
  {
  }

  /** An enqueue succeeds exactly when the asset is known, the thresholds are positive, and the bundle it
      goes to is open, or can be opened, with a name left. */
  lemma EnqueueSucceedsExactly(sha: string -> Digest, s: State, group: string, targetBytes: int, maxAge: int, id: string,
                               now: int, item: Item, probe: Option<string>)
    requires Inv(s)
    ensures Enqueue(sha, s, group, targetBytes, maxAge, id, now, item, probe).Ok?
            <==> CanEnqueue(sha, s, group, targetBytes, maxAge, id, item, probe)
  {
    if item.request.logical in s.assets && targetBytes > 0 && maxAge > 0 {
      EnqueueIsAppend(sha, s, group, targetBytes, maxAge, id, now, item, probe);
      DestinationTakes(s, group, targetBytes, maxAge, id, now, item.size, probe);
      var d := Destination(s, group, targetBytes, maxAge, id, now, item.size, probe);
      if d.Ok? && d.value.1 in d.value.0.bundles {
        LandsWhere(sha, s, d.value.0, d.value.1, group, targetBytes, maxAge, id, now, item);
      }
    }
  }

  lemma LandsWhere(sha: string -> Digest, s: State, ready: State, target: string, group: string, targetBytes: int, maxAge: int,
                   id: string, now: int, item: Item)
    requires MembersHomed(s) && OpensOnly(s, ready, id) && item.request.logical in s.assets
    requires target in ready.bundles
    requires target !in s.bundles ==> target == id && OpenedAs(ready.bundles[target], group, targetBytes, maxAge, now)
    ensures Append(sha, ready, target, item).Ok? <==> Receives(sha, s, target, id, item)
  {
    AppendSucceedsExactly(sha, ready, target, item);
    assert NameLeft(sha, ready, target, item.request) <==> NameLeft(sha, s, target, item.request);
    if target !in s.bundles { NewBundleHasNames(sha, s, target, item.request); }
  }

  // ----- The crash-retry of a funnel -----

  /** A funnel the lookup finds already holds the member: the enqueue lands on that row, under the
      requested name, and makes neither row nor bundle. */
  lemma FunnelRetryFindsRow(sha: string -> Digest, s: State, group: string, targetBytes: int, maxAge: int, id: string, now: int,
                            item: Item, probe: string)
    requires Inv(s) && IsFunnelHit(s, probe, group, item) && item.size >= targetBytes > 0 && maxAge > 0
    requires item.request.logical in s.assets
    ensures var r := Enqueue(sha, s, group, targetBytes, maxAge, id, now, item, Some(probe));
            && r.Ok? && !r.value.created && r.value.state.bundles == s.bundles && |r.value.state.members| == |s.members|
            && HoldsName(r.value.state.members, probe, item.request.path, r.value.row)
  {
    var i :| 0 <= i < |s.members| && HoldsName(s.members, probe, item.request.path, i)
             && s.members[i].artifactclass == item.request.artifactclass && s.members[i].logical == item.request.logical;
    NamesComplete(s.members, probe, i);
    OccupantOf(s, probe, i);
    assert IsOwn(NamesIn(s.members, probe)[item.request.path], item.request);
    EnqueueIsAppend(sha, s, group, targetBytes, maxAge, id, now, item, Some(probe));
    assert Resolve(sha, NamesIn(s.members, probe), item.request) == Own(0);
    AppendNotExhausted(sha, s, probe, item);
  }

  /** And a funnel minted for a member is one the lookup finds. */
  lemma MintedFunnelIsFound(sha: string -> Digest, s: State, group: string, targetBytes: int, maxAge: int, id: string, now: int,
                            item: Item)
    requires Inv(s) && id !in s.bundles && item.size >= targetBytes > 0 && maxAge > 0 && item.request.logical in s.assets
    ensures var r := Enqueue(sha, s, group, targetBytes, maxAge, id, now, item, None);
            r.Ok? && r.value.created && IsFunnelHit(r.value.state, id, group, item)
  {
    EnqueueIsAppend(sha, s, group, targetBytes, maxAge, id, now, item, None);
    var ready := FunnelFor(s, group, targetBytes, maxAge, id, now, None).value.0;
    FunnelColumns(s, group, targetBytes, maxAge, id, now, None);
    CountZero(s.members, id);
    var t := Append(sha, ready, id, item).value;
    assert HoldsName(t.state.members, id, item.request.path, |s.members|);
  }

  // ----- The row an append leaves -----

  /** The row is the item's: its class, hashes and size, under a name off its ladder. */
  predicate IsRowOf(sha: string -> Digest, row: Member, item: Item) {
    && row.artifactclass == item.request.artifactclass && row.logical == item.request.logical
    && row.digest == item.request.digest && row.size == item.size && row.path in NameLadder(sha, item.request)
  }

  /** The row's metadata has everything `metadata` brought. */
  predicate Brings(row: Member, metadata: Metadata) {
    && metadata.links <= row.metadata.links
    && forall key :: key in metadata.extra ==> key in row.metadata.extra && row.metadata.extra[key] == metadata.extra[key]
  }

  lemma CreatedRowIsItem(sha: string -> Digest, s: State, id: string, item: Item)
    requires Append(sha, s, id, item).Ok? && Append(sha, s, id, item).value.created
    ensures var r := Append(sha, s, id, item).value;
            && r.row == |s.members| && r.state.members == s.members + [r.state.members[r.row]]
            && r.state.members[r.row].bundle == id && IsRowOf(sha, r.state.members[r.row], item)
            && r.state.members[r.row].metadata == item.metadata
  {
    var found := Resolve(sha, NamesIn(s.members, id), item.request);
    assert found.Free?;
    assert NameLadder(sha, item.request)[found.rung] in NameLadder(sha, item.request);
  }

  /** A staging step is recorded exactly when it fits its member (a final one stores the member's path and
      digest, a first one starts from its logical hash) and neither that step of the member, nor that
      step of that stored path in the bundle, is recorded already. */
  lemma StagingRecordedExactly(s: State, m: nat, step: Staging)
    ensures RecordTransform(s, m, step).Ok? <==>
              && m < |s.members|
              && (step.final ==> step.storedPath == s.members[m].path && step.stored == s.members[m].digest)
              && (step.order == 0 ==> step.original == s.members[m].logical)
              && (forall k :: 0 <= k < |s.transforms| && s.transforms[k].step.order == step.order ==>
                    && s.transforms[k].member != m
                    && !(s.transforms[k].bundle == s.members[m].bundle && s.transforms[k].step.storedPath == step.storedPath))
    ensures RecordTransform(s, m, step).Ok? ==>
              RecordTransform(s, m, step).value == s.(transforms := s.transforms + [Transform(m, s.members[m].bundle, step)])
  {
  }

  // ----- Over runs -----

  /** What a step does to the columns of a bundle that is there: group, thresholds and opening time stay;
      an archive id stays, and is minted only by a claim; the flush stamp is the claim's time; the claim
      token is the claim's, until a reap clears it. */
  ghost predicate ColumnsFollow(s: State, t: State, step: Step, id: string)
    requires id in s.bundles
  {
    && id in t.bundles
    && var b, c := s.bundles[id], t.bundles[id];
       && c.group == b.group && c.targetBytes == b.targetBytes && c.maxAge == b.maxAge && c.openedAt == b.openedAt
       && (c.archiveId != b.archiveId ==> b.archiveId.None? && step.Claimed? && step.id == id && c.archiveId == Some("archive-" + id))
       && (c.flushedAt != b.flushedAt ==> step.Claimed? && step.id == id && c.flushedAt == Some(step.now))
       && (c.claimedBy != b.claimedBy ==>
             || (step.Claimed? && step.id == id && c.claimedBy == Some(step.token))
             || (step.Reaped? && step.id == id && c.claimedBy == None))
  }

  /** A bundle that differs only in its counters. */
  predicate SameColumns(b: Bundle, c: Bundle) { c == b.(totalBytes := c.totalBytes, memberCount := c.memberCount) }

  lemma AppendColumns(sha: string -> Digest, s: State, id: string, item: Item, other: string)
    requires Append(sha, s, id, item).Ok? && other in s.bundles
    ensures var t := Append(sha, s, id, item).value.state;
            other in t.bundles && SameColumns(s.bundles[other], t.bundles[other]) && t.bundles.Keys == s.bundles.Keys
  {
  }

  lemma EnqueueColumns(sha: string -> Digest, s: State, step: Step, id: string)
    requires step.Enqueued? && id in s.bundles
    ensures var t := Apply(sha, s, step); id in t.bundles && SameColumns(s.bundles[id], t.bundles[id])
  {
    var d := Destination(s, step.group, step.targetBytes, step.maxAge, step.id, step.now, step.item.size, step.probe);
    DestinationOpens(s, step.group, step.targetBytes, step.maxAge, step.id, step.now, step.item.size, step.probe);
    if d.Ok? && Append(sha, d.value.0, d.value.1, step.item).Ok? { AppendColumns(sha, d.value.0, d.value.1, step.item, id); }
  }

  lemma GuardColumns(sha: string -> Digest, s: State, step: Step, id: string)
    requires id in s.bundles && !step.Enqueued? && !step.Added?
    ensures ColumnsFollow(s, Apply(sha, s, step), step, id)
  {
  }

  lemma StepColumns(sha: string -> Digest, s: State, step: Step, id: string)
    requires id in s.bundles
    ensures ColumnsFollow(s, Apply(sha, s, step), step, id)
  {
    if step.Enqueued? {
      EnqueueColumns(sha, s, step, id);
    } else if step.Added? {
      if Append(sha, s, step.id, step.item).Ok? { AppendColumns(sha, s, step.id, step.item, id); }
    } else {
      GuardColumns(sha, s, step, id);
    }
  }

  /** Step `step` at state `s` opened bundle `id`, and `b` still has the columns it was opened with: those
      of the enqueue, or, for a quarantine bundle, those of the bundle being flushed. */
  ghost predicate OpenedBy(s: State, step: Step, id: string, b: Bundle) {
    && id !in s.bundles
    && (|| (step.Enqueued? && step.id == id && b.group == step.group && b.targetBytes == step.targetBytes
            && b.maxAge == step.maxAge && b.openedAt == step.now)
        || (step.Quarantined? && step.qid == id && step.id in s.bundles && b.group == s.bundles[step.id].group
            && b.targetBytes == s.bundles[step.id].targetBytes && b.maxAge == s.bundles[step.id].maxAge && b.openedAt == step.now))
  }

  lemma StepOpens(sha: string -> Digest, s: State, step: Step, id: string)
    requires id !in s.bundles && id in Apply(sha, s, step).bundles
    ensures OpenedBy(s, step, id, Apply(sha, s, step).bundles[id])
  {
    if step.Enqueued? {
      EnqueueOpens(sha, s, step, id);
    } else if step.Added? {
    }
  }

  lemma EnqueueOpens(sha: string -> Digest, s: State, step: Step, id: string)
    requires step.Enqueued? && id !in s.bundles && id in Apply(sha, s, step).bundles
    ensures OpenedBy(s, step, id, Apply(sha, s, step).bundles[id])
  {
    var d := Destination(s, step.group, step.targetBytes, step.maxAge, step.id, step.now, step.item.size, step.probe);
    if step.item.size < step.targetBytes {
      AccumulatorColumns(s, step.group, step.targetBytes, step.maxAge, step.id, step.now);
    } else {
      FunnelColumns(s, step.group, step.targetBytes, step.maxAge, step.id, step.now, step.probe);
    }
    AppendedKeys(sha, d.value.0, d.value.1, step.item);
    AppendColumns(sha, d.value.0, d.value.1, step.item, id);
  }

  lemma AppendedKeys(sha: string -> Digest, s: State, id: string, item: Item)
    ensures var r := Append(sha, s, id, item); r.Ok? ==> r.value.state.bundles.Keys == s.bundles.Keys
  {
  }

  /** In every run, each bundle that is not there at the start was opened by some step of it, and has
      that step's group, thresholds and time for good. */
  lemma {:induction false} OpeningOf(sha: string -> Digest, s: State, steps: seq<Step>, id: string) returns (k: nat)
    requires id !in s.bundles && id in Run(sha, s, steps).bundles
    ensures k < |steps| && OpenedBy(Run(sha, s, steps[..k]), steps[k], id, Run(sha, s, steps).bundles[id])
    decreases |steps|
  {
    var n := |steps| - 1;
    var front := steps[..n];
    if id in Run(sha, s, front).bundles {
      k := OpeningOf(sha, s, front, id);
      assert front[..k] == steps[..k];
      StepColumns(sha, Run(sha, s, front), steps[n], id);
    } else {
      k := n;
      StepOpens(sha, Run(sha, s, front), steps[n], id);
    }
  }

  /** Nothing in a run changes what a bundle was opened with, or takes away its archive id. */
  lemma {:induction false} ColumnsStay(sha: string -> Digest, s: State, steps: seq<Step>, id: string)
    requires id in s.bundles
    ensures var t := Run(sha, s, steps);
            && id in t.bundles && t.bundles[id].group == s.bundles[id].group && t.bundles[id].targetBytes == s.bundles[id].targetBytes
            && t.bundles[id].maxAge == s.bundles[id].maxAge && t.bundles[id].openedAt == s.bundles[id].openedAt
            && (s.bundles[id].archiveId.Some? ==> t.bundles[id].archiveId == s.bundles[id].archiveId)
    decreases |steps|
  {
    if steps != [] {
      var n := |steps| - 1;
      ColumnsStay(sha, s, steps[..n], id);
      StepColumns(sha, Run(sha, s, steps[..n]), steps[n], id);
    }
  }

  /** A flush stamp is the time of a claim of the bundle. */
  lemma {:induction false} FlushStampIsClaim(sha: string -> Digest, s: State, steps: seq<Step>, id: string) returns (k: nat)
    requires id in s.bundles && s.bundles[id].flushedAt.None?
    requires id in Run(sha, s, steps).bundles && Run(sha, s, steps).bundles[id].flushedAt.Some?
    ensures k < |steps| && steps[k].Claimed? && steps[k].id == id && Run(sha, s, steps).bundles[id].flushedAt == Some(steps[k].now)
    decreases |steps|
  {
    var n := |steps| - 1;
    var front := steps[..n];
    ColumnsStay(sha, s, front, id);
    StepColumns(sha, Run(sha, s, front), steps[n], id);
    if Run(sha, s, steps).bundles[id].flushedAt == Run(sha, s, front).bundles[id].flushedAt {
      k := FlushStampIsClaim(sha, s, front, id);
    } else {
      k := n;
    }
  }

  // ----- Rows -----

  lemma MergeBrings(existing: Metadata, incoming: Metadata, metadata: Metadata, row: Member)
    requires Brings(row, metadata) && row.metadata == existing
    ensures Brings(row.(metadata := Merge(existing, incoming)), metadata)
  {
    MergeKeepsAndAdds(existing, incoming);
  }

  lemma AppendKeepsBrought(sha: string -> Digest, s: State, id: string, item: Item, i: nat, metadata: Metadata)
    requires Append(sha, s, id, item).Ok? && i < |s.members| && Brings(s.members[i], metadata)
    ensures var t := Append(sha, s, id, item).value.state; i < |t.members| && Brings(t.members[i], metadata)
  {
    var r := Append(sha, s, id, item).value;
    if !r.created && r.row == i { MergeBrings(s.members[i].metadata, item.metadata, metadata, s.members[i]); }
  }

  lemma StepKeepsBrought(sha: string -> Digest, s: State, step: Step, i: nat, metadata: Metadata)
    requires i < |s.members| && Brings(s.members[i], metadata)
    ensures var t := Apply(sha, s, step); i < |t.members| && Brings(t.members[i], metadata)
  {
    match step {
      case Enqueued(group, targetBytes, maxAge, id, now, item, probe) =>
        var d := Destination(s, group, targetBytes, maxAge, id, now, item.size, probe);
        DestinationOpens(s, group, targetBytes, maxAge, id, now, item.size, probe);
        if d.Ok? && Append(sha, d.value.0, d.value.1, item).Ok? { AppendKeepsBrought(sha, d.value.0, d.value.1, item, i, metadata); }
      case Added(id, item) => if Append(sha, s, id, item).Ok? { AppendKeepsBrought(sha, s, id, item, i, metadata); }
      case _ =>
    }
  }

  lemma NewRowIsItem(sha: string -> Digest, s: State, step: Step, i: nat)
    requires |s.members| <= i < |Apply(sha, s, step).members|
    ensures Appends(step) && i == |s.members|
    ensures var row := Apply(sha, s, step).members[i]; IsRowOf(sha, row, step.item) && Brings(row, step.item.metadata)
  {
    StepNewRows(sha, s, step, i);
    if step.Added? {
      CreatedRowIsItem(sha, s, step.id, step.item);
    } else {
      var d := Destination(s, step.group, step.targetBytes, step.maxAge, step.id, step.now, step.item.size, step.probe);
      DestinationOpens(s, step.group, step.targetBytes, step.maxAge, step.id, step.now, step.item.size, step.probe);
      CreatedRowIsItem(sha, d.value.0, d.value.1, step.item);
    }
  }

  /** In every run, each new row was made by one of its appends, and still has that item's class, hashes,
      size, name and metadata. */
  lemma {:induction false} RowOrigin(sha: string -> Digest, s: State, steps: seq<Step>, i: nat) returns (k: nat)
    requires |s.members| <= i < |Run(sha, s, steps).members|
    ensures k < |steps| && Appends(steps[k]) && |Run(sha, s, steps[..k]).members| == i
    ensures var row := Run(sha, s, steps).members[i]; IsRowOf(sha, row, steps[k].item) && Brings(row, steps[k].item.metadata)
    decreases |steps|
  {
    var n := |steps| - 1;
    var front := steps[..n];
    var t := Run(sha, s, front);
    if i < |t.members| {
      k := RowOrigin(sha, s, front, i);
      assert front[..k] == steps[..k];
      StepKeepsRows(sha, t, steps[n]);
      assert RowKept(t, Apply(sha, t, steps[n]), i);
      StepKeepsBrought(sha, t, steps[n], i, steps[k].item.metadata);
    } else {
      k := n;
      NewRowIsItem(sha, t, steps[n], i);
    }
  }
}
