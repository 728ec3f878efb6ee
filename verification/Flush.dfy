/** `flush_bundle`: claim, build and validate with quarantine and retry, write, seal. */
module Flush {
  import opened Wrappers
  import opened Numerals
  import opened BundleCatalog
  import opened BundleInvariant
  import opened BundleRuns
  import opened BundleStore
  import opened Fanout
  import opened FanoutPhases
  import opened FlushRows
  import opened FlushPlan
  import opened Ordering
  import IdentityGate

  /** Copy rows belong to sealed bundles: a flush stores them in the transaction that seals. */
  ghost predicate CopiesSealed(s: State) {
    forall c :: 0 <= c < |s.copies| ==> s.copies[c].bundle in s.bundles && s.bundles[s.copies[c].bundle].status == Sealed
  }

  datatype Flushed = Flushed(copyIds: seq<nat>, failedPools: seq<string>)

  // ----- Quarantine -----

  /** `t` differs from `s`, outside bundle `id` and the copy rows, only by rows moved from bundle `id`
      to bundle `qid`. */
  ghost predicate Moved(s: State, t: State, id: string, qid: string) {
    && |t.members| == |s.members|
    && (forall i :: 0 <= i < |s.members| ==>
          t.members[i] == s.members[i] || (s.members[i].bundle == id && t.members[i] == s.members[i].(bundle := qid)))
    && (forall other :: other in s.bundles && other != id ==> other in t.bundles && t.bundles[other] == s.bundles[other])
    && t.bundles.Keys <= s.bundles.Keys + {qid}
    && t.assets == s.assets
  }

  /** A claimed bundle mid-flush: `attempt` of its rows have been quarantined into the flush's own
      held bundle. */
  ghost predicate InFlight(s: State, t: State, id: string, token: string, qid: string, attempt: nat) {
    && Inv(t) && HeldBy(t, id, token) && Moved(s, t, id, qid)
    && Inv(s) && id in s.bundles && s.bundles[id].status == Open && t.copies == s.copies
    && attempt + CountIn(t.members, id) == CountIn(s.members, id)
    && (if attempt == 0 then t.bundles.Keys == s.bundles.Keys && t.members == s.members
        else qid !in s.bundles && qid in t.bundles && t.bundles[qid].status == Held)
  }

  lemma QuarantineFits(s: State, t: State, id: string, token: string, qid: string, attempt: nat, m: nat, now: int)
    requires InFlight(s, t, id, token, qid, attempt) && m < |t.members| && t.members[m].bundle == id
    requires attempt == 0 ==> qid !in t.bundles
    ensures Quarantine(t, id, token, m, qid, now).Ok?
  {
    forall i | 0 <= i < |t.members| && t.members[i].bundle == qid
      ensures t.members[i].path != t.members[m].path
    {
      assert s.members[i].bundle in s.bundles;
      assert s.members[i].bundle == id && s.members[i].path == t.members[i].path;
      assert i != m && s.members[m].bundle == id && s.members[m].path == t.members[m].path;
    }
  }

  lemma QuarantineMoves(s: State, t: State, id: string, token: string, qid: string, attempt: nat, m: nat, now: int)
    requires InFlight(s, t, id, token, qid, attempt) && m < |t.members| && t.members[m].bundle == id
    requires attempt == 0 ==> qid !in t.bundles
    requires Quarantine(t, id, token, m, qid, now).Ok?
    ensures Moved(s, Quarantine(t, id, token, m, qid, now).value, id, qid)
  {
  }

  lemma QuarantineKeepsFlight(s: State, t: State, id: string, token: string, qid: string, attempt: nat, m: nat, now: int)
    requires InFlight(s, t, id, token, qid, attempt) && m < |t.members| && t.members[m].bundle == id
    requires attempt == 0 ==> qid !in t.bundles
    ensures Quarantine(t, id, token, m, qid, now).Ok?
    ensures InFlight(s, Quarantine(t, id, token, m, qid, now).value, id, token, qid, attempt + 1)
  {
    QuarantineFits(s, t, id, token, qid, attempt, m, now);
    QuarantineKeeps(t, id, token, m, qid, now);
    QuarantineMoves(s, t, id, token, qid, attempt, m, now);
    CountUpdate(t.members, m, t.members[m].(bundle := qid), id);
  }

  // ----- One attempt -----

  /** How one attempt ended. */
  datatype Try = Written(phase: Phase) | Bad(member: nat) | Refuse(error: FlushError)

  /** Every target was built from the current rows and carries each of them once; `phase` is what
      writing them did. */
  ghost predicate WrittenFrom(s: State, id: string, plan: Plan, targets: seq<Target>, artifacts: seq<seq<Built>>,
                              phase: Phase)
    requires |plan.writes| == |targets|
  {
    && |artifacts| == |targets|
    && (forall k :: 0 <= k < |targets| ==> Covers(Locators(artifacts[k]), s.members, id))
    && phase == WriteFirst(s.copies, id, targets, artifacts, plan.writes, |targets|)
  }

  lemma ReadyCovers(s: State, id: string, plan: Plan, targets: seq<Target>, reports: seq<Report>, inputs: seq<Input>,
                    artifacts: seq<seq<Built>>)
    requires PathsUnique(s) && |reports| == |targets| && inputs == FlushInputs(s.members, id, plan)
    requires PreparedFrom(Ready(artifacts), targets, reports, inputs)
    ensures forall k :: 0 <= k < |targets| ==> Covers(Locators(artifacts[k]), s.members, id)
  {
    SortedRowsExact(s, id);
    InputsDistinct(s.members, SortedRows(s.members, id), plan.lineage);
    forall k | 0 <= k < |targets|
      ensures Covers(Locators(artifacts[k]), s.members, id)
    {
      AcceptedCarriesOnce(targets[k], reports[k], inputs, artifacts[k]);
      ArtifactCovers(s, id, plan.lineage, artifacts[k]);
    }
  }

  /** The first row, in map order, whose paths the map cannot carry. */
  method FirstUnmappable(rows: seq<nat>, mappable: nat -> bool) returns (bad: Option<nat>)
    ensures bad.Some? ==> exists k :: 0 <= k < |rows| && bad.value == rows[k] && !mappable(rows[k]) && forall j :: 0 <= j < k ==> mappable(rows[j])
    ensures bad.None? ==> forall k :: 0 <= k < |rows| ==> mappable(rows[k])
  {
    for k := 0 to |rows|
      invariant forall j :: 0 <= j < k ==> mappable(rows[j])
    {
      if !mappable(rows[k]) { return Some(rows[k]); }
    }
    return None;
  }

  method AnyOversize(members: seq<Member>, rows: seq<nat>, capacity: nat) returns (found: bool)
    requires forall k :: 0 <= k < |rows| ==> rows[k] < |members|
    ensures found <==> exists k :: 0 <= k < |rows| && members[rows[k]].size > capacity
  {
    for k := 0 to |rows|
      invariant forall j :: 0 <= j < k ==> members[rows[j]].size <= capacity
    {
      if members[rows[k]].size > capacity { return true; }
    }
    return false;
  }

  /** What an attempt over the rows of `cur` leaves: the copy rows, and the media it wrote. */
  ghost predicate Tried(cur: State, copies: seq<BundleCopy>, id: string, plan: Plan, targets: seq<Target>, attempt: nat,
                        artifacts: seq<seq<Built>>, t: Try, media: seq<string>) {
    && |plan.writes| == |targets| && cur.copies <= copies
    && (t.Written? ==> WrittenFrom(cur, id, plan, targets, artifacts, t.phase) && !t.phase.escaped
                       && copies == t.phase.copies && media == t.phase.media && ReadyToWrite(cur.members, id, plan, targets, attempt))
    && (t.Bad? ==> ChargedTo(cur.members, id, plan, targets, attempt, t.member))
    && (!t.Written? && t != Refuse(WriteEscaped) ==> media == [] && copies == cur.copies)
    && (t.Refuse? ==> RefusedFor(cur.members, cur.copies, id, plan, targets, attempt, t.error))
  }

  /** The rows in path order speak for all of them. */
  lemma RowsSpeak(s: State, id: string, plan: Plan)
    requires PathsUnique(s)
    ensures var rows := SortedRows(s.members, id);
            && (rows == [] <==> CountIn(s.members, id) == 0)
            && (RowsFit(s.members, id, plan) <==>
                  plan.tapeCapacity.Some? ==> forall k :: 0 <= k < |rows| ==> s.members[rows[k]].size <= plan.tapeCapacity.value)
            && (AllMappable(s.members, id, plan) <==> forall k :: 0 <= k < |rows| ==> plan.mappable(rows[k]))
  {
    SortedRowsExact(s, id);
  }

  lemma FirstInOrder(s: State, id: string, plan: Plan, k: nat)
    requires PathsUnique(s) && k < |SortedRows(s.members, id)| && !plan.mappable(SortedRows(s.members, id)[k])
    requires forall j :: 0 <= j < k ==> plan.mappable(SortedRows(s.members, id)[j])
    ensures FirstBad(s.members, id, plan, SortedRows(s.members, id)[k])
  {
    SortedRowsExact(s, id);
    var rows, key := SortedRows(s.members, id), PathKey(s.members);
    forall i | 0 <= i < |s.members| && s.members[i].bundle == id && !plan.mappable(i)
      ensures AtMost(s.members[rows[k]].path, s.members[i].path)
    {
      var j :| 0 <= j < |rows| && rows[j] == i;
      AtMostReflexive(s.members[i].path);
      assert j > k ==> AtMost(key(rows[k]), key(rows[j]));
    }
  }

  /** The checks before any build: size against tape capacity, submission identity, and map encoding. */
  method Screen(members: seq<Member>, id: string, plan: Plan, ghost s: State) returns (refusal: Option<Try>)
    requires PathsUnique(s) && s.members == members && CountIn(members, id) > 0
    ensures refusal.None? ==> Screened(members, id, plan) && AllMappable(members, id, plan)
    ensures refusal.Some? ==>
              || (refusal == Some(Refuse(Oversize)) && !RowsFit(members, id, plan))
              || (refusal == Some(Refuse(IdentityMismatch)) && RowsFit(members, id, plan) && !Identified(members, id, plan.records))
              || (refusal.value.Bad? && refusal.value.member < |members| && members[refusal.value.member].bundle == id
                  && Screened(members, id, plan) && !AllMappable(members, id, plan) && FirstBad(members, id, plan, refusal.value.member))
  {
    RowsSpeak(s, id, plan);
    var rows := SortedRows(members, id);
    if plan.tapeCapacity.Some? {
      var over := AnyOversize(members, rows, plan.tapeCapacity.value);
      if over { return Some(Refuse(Oversize)); }
    }
    var identified := IdentityGate.ValidateIdentity(members, rows, plan.records);
    if !identified { return Some(Refuse(IdentityMismatch)); }
    var bad := FirstUnmappable(rows, plan.mappable);
    if bad.None? { return None; }
    ghost var k :| 0 <= k < |rows| && bad.value == rows[k] && !plan.mappable(rows[k]) && forall j :: 0 <= j < k ==> plan.mappable(rows[j]);
    FirstInOrder(s, id, plan, k);
    return Some(Bad(bad.value));
  }

  /** A failed build phase, told in rows. */
  lemma StoppedIsAbort(members: seq<Member>, id: string, plan: Plan, targets: seq<Target>, attempt: nat, t: nat)
    requires |plan.reports(attempt)| == |targets|
    requires PreparedFrom(Stopped(t), targets, plan.reports(attempt), FlushInputs(members, id, plan))
    ensures AbortsAt(members, id, plan, targets, attempt, t)
  {
  }

  lemma FailedIsNamed(members: seq<Member>, id: string, plan: Plan, targets: seq<Target>, attempt: nat, t: nat, row: nat)
    requires |plan.reports(attempt)| == |targets|
    requires PreparedFrom(MemberFailed(t, row), targets, plan.reports(attempt), FlushInputs(members, id, plan))
    ensures row < |SortedRows(members, id)| && NamedBy(members, id, plan, targets, attempt, t, SortedRows(members, id)[row])
  {
  }

  lemma ReadyBuildsAll(members: seq<Member>, id: string, plan: Plan, targets: seq<Target>, attempt: nat, artifacts: seq<seq<Built>>)
    requires |plan.reports(attempt)| == |targets|
    requires PreparedFrom(Ready(artifacts), targets, plan.reports(attempt), FlushInputs(members, id, plan))
    ensures BuildsUpTo(members, id, plan, targets, attempt, |targets|)
  {
    forall k | 0 <= k < |targets|
      ensures Builds(targets[k], plan.reports(attempt)[k], FlushInputs(members, id, plan))
    {
      assert Accepted(targets[k], plan.reports(attempt)[k], FlushInputs(members, id, plan), artifacts[k]);
    }
  }

  /** One pass of the build loop over the current rows. Only the write phase touches the catalog or
      the media, and it starts only when every target has a validated artifact. */
  method Attempt(catalog: Catalog, id: string, plan: Plan, targets: seq<Target>, attempt: nat)
    returns (t: Try, media: seq<string>, ghost artifacts: seq<seq<Built>>)
    requires Inv(catalog.View()) && id in catalog.bundles && Answers(plan, targets) && Unplaced(catalog.copies, id, targets)
    modifies catalog`copies
    ensures Tried(old(catalog.View()), catalog.copies, id, plan, targets, attempt, artifacts, t, media)
  {
    ghost var before := catalog.View();
    RowsSpeak(before, id, plan);
    var rows := SortedRows(catalog.members, id);
    if rows == [] {
      RefusalTried(before, id, plan, targets, attempt, AllQuarantined);
      return Refuse(AllQuarantined), [], [];
    }
    var screened := Screen(catalog.members, id, plan, before);
    if screened.Some? {
      ScreenTried(before, id, plan, targets, attempt, screened.value);
      return screened.value, [], [];
    }
    t, media, artifacts := BuildAndWrite(catalog, id, plan, targets, attempt);
  }

  /** Build every target; write them all if every one has a validated artifact. */
  method BuildAndWrite(catalog: Catalog, id: string, plan: Plan, targets: seq<Target>, attempt: nat)
    returns (t: Try, media: seq<string>, ghost artifacts: seq<seq<Built>>)
    requires PathsUnique(catalog.View()) && Answers(plan, targets) && Unplaced(catalog.copies, id, targets)
    requires Screened(catalog.members, id, plan) && AllMappable(catalog.members, id, plan)
    modifies catalog`copies
    ensures Tried(old(catalog.View()), catalog.copies, id, plan, targets, attempt, artifacts, t, media)
  {
    ghost var before := catalog.View();
    var rows := SortedRows(catalog.members, id);
    var inputs := InputsOf(catalog.members, rows, plan.lineage);
    var prepared := PrepareTargets(targets, plan.reports(attempt), inputs);
    match prepared {
      case MemberFailed(k, row) =>
        ChargeTried(before, id, plan, targets, attempt, k, row);
        return Bad(rows[row]), [], [];
      case Stopped(k) =>
        StoppedIsAbort(before.members, id, plan, targets, attempt, k);
        RefusalTried(before, id, plan, targets, attempt, BuildFailed);
        return Refuse(BuildFailed), [], [];
      case Ready(built) =>
        ReadyBuildsAll(before.members, id, plan, targets, attempt, built);
        ReadyCovers(before, id, plan, targets, plan.reports(attempt), inputs, built);
        var phase; ghost var done;
        phase, done := WriteTargets(catalog, id, targets, built, plan.writes);
        WriteTried(before, id, plan, targets, attempt, built, phase, done);
        return if phase.escaped then Refuse(WriteEscaped) else Written(phase), phase.media, built;
    }
  }

  lemma RefusalTried(cur: State, id: string, plan: Plan, targets: seq<Target>, attempt: nat, error: FlushError)
    requires |plan.writes| == |targets| && error != WriteEscaped && RefusedFor(cur.members, cur.copies, id, plan, targets, attempt, error)
    ensures Tried(cur, cur.copies, id, plan, targets, attempt, [], Refuse(error), [])
  {
  }

  lemma ScreenTried(cur: State, id: string, plan: Plan, targets: seq<Target>, attempt: nat, t: Try)
    requires |plan.writes| == |targets| && CountIn(cur.members, id) > 0
    requires || (t == Refuse(Oversize) && !RowsFit(cur.members, id, plan))
             || (t == Refuse(IdentityMismatch) && RowsFit(cur.members, id, plan) && !Identified(cur.members, id, plan.records))
             || (t.Bad? && t.member < |cur.members| && cur.members[t.member].bundle == id
                 && Screened(cur.members, id, plan) && !AllMappable(cur.members, id, plan) && FirstBad(cur.members, id, plan, t.member))
    ensures Tried(cur, cur.copies, id, plan, targets, attempt, [], t, [])
  {
  }

  lemma ChargeTried(cur: State, id: string, plan: Plan, targets: seq<Target>, attempt: nat, k: nat, row: nat)
    requires |plan.writes| == |targets| == |plan.reports(attempt)| && Screened(cur.members, id, plan) && AllMappable(cur.members, id, plan)
    requires PreparedFrom(MemberFailed(k, row), targets, plan.reports(attempt), FlushInputs(cur.members, id, plan))
    ensures row < |SortedRows(cur.members, id)|
    ensures Tried(cur, cur.copies, id, plan, targets, attempt, [], Bad(SortedRows(cur.members, id)[row]), [])
  {
    FailedIsNamed(cur.members, id, plan, targets, attempt, k, row);
  }

  lemma WriteTried(cur: State, id: string, plan: Plan, targets: seq<Target>, attempt: nat, built: seq<seq<Built>>, phase: Phase, done: nat)
    requires |plan.writes| == |targets| == |built| && Unplaced(cur.copies, id, targets) && ReadyToWrite(cur.members, id, plan, targets, attempt)
    requires done <= |targets| && phase == WriteFirst(cur.copies, id, targets, built, plan.writes, done) && (!phase.escaped ==> done == |targets|)
    requires forall k :: 0 <= k < |targets| ==> Covers(Locators(built[k]), cur.members, id)
    ensures Tried(cur, phase.copies, id, plan, targets, attempt, built, if phase.escaped then Refuse(WriteEscaped) else Written(phase), phase.media)
  {
    WritesSound(cur.copies, id, targets, built, plan.writes, done);
    if phase.escaped { EscapeCause(cur.copies, id, targets, built, plan.writes, done); }
  }

  // ----- The whole flush -----

  function PlacedSteps(copies: seq<BundleCopy>): (steps: seq<Step>)
    ensures |steps| == |copies| && forall k :: 0 <= k < |copies| ==> steps[k] == Step.Placed(copies[k])
  {
    seq(|copies|, k requires 0 <= k < |copies| => Step.Placed(copies[k]))
  }

  lemma RunAppend(sha: string -> Digest, s: State, steps: seq<Step>, step: Step)
    ensures Run(sha, s, steps + [step]) == Apply(sha, Run(sha, s, steps), step)
  {
  }

  lemma PlacedStepsSnoc(steps: seq<Step>, copies: seq<BundleCopy>)
    requires copies != []
    ensures var n := |copies| - 1;
            steps + PlacedSteps(copies) == (steps + PlacedSteps(copies[..n])) + [Step.Placed(copies[n])]
  {
  }

  lemma {:induction false} RunPlaced(sha: string -> Digest, s: State, steps: seq<Step>, copies: seq<BundleCopy>)
    ensures var t := Run(sha, s, steps); Run(sha, s, steps + PlacedSteps(copies)) == t.(copies := t.copies + copies)
    decreases |copies|
  {
    if copies == [] {
      assert steps + PlacedSteps(copies) == steps;
    } else {
      var n := |copies| - 1;
      RunPlaced(sha, s, steps, copies[..n]);
      PlacedStepsSnoc(steps, copies);
      PlaceOne(sha, s, steps + PlacedSteps(copies[..n]), Run(sha, s, steps), copies[..n], copies[n], copies);
    }
  }

  lemma PlaceOne(sha: string -> Digest, s: State, trace: seq<Step>, t: State, front: seq<BundleCopy>, copy: BundleCopy, copies: seq<BundleCopy>)
    requires Run(sha, s, trace) == t.(copies := t.copies + front) && copies == front + [copy]
    ensures Run(sha, s, trace + [Step.Placed(copy)]) == t.(copies := t.copies + copies)
  {
    RunAppend(sha, s, trace, Step.Placed(copy));
    assert t.copies + front + [copy] == t.copies + copies;
  }

  /** A sealed flush: the bundle is sealed over a non-empty part of the claimed rows, the rest of them
      sit in the flush's held bundle, every target was written exactly once in order, every new copy row
      has exactly one locator per sealed row, the reported copies are exactly the new rows that are not
      suspect, and reported and failed pools partition the targets. */
  ghost predicate SealedFlush(s: State, t: State, id: string, qid: string, targets: seq<Target>, f: Flushed,
                              media: seq<string>) {
    && Splits(s, t, id, qid) && id in t.bundles && t.bundles[id].status == Sealed && CountIn(t.members, id) > 0
    && media == Pools(targets)
    && s.copies <= t.copies && (forall c :: |s.copies| <= c < |t.copies| ==> SealedCopy(t, id, t.copies[c]))
    && (forall i :: 0 <= i < |f.copyIds| ==> |s.copies| <= f.copyIds[i] < |t.copies|)
    && (forall c :: |s.copies| <= c < |t.copies| ==> (t.copies[c].suspect <==> c !in f.copyIds))
    && multiset(PoolsOf(t.copies, f.copyIds)) + multiset(f.failedPools) == multiset(Pools(targets))
  }

  ghost predicate SealedCopy(t: State, id: string, copy: BundleCopy) {
    copy.bundle == id && Covers(copy.locators, t.members, id)
  }

  lemma WrittenPartitions(s: State, id: string, plan: Plan, targets: seq<Target>, artifacts: seq<seq<Built>>, phase: Phase)
    requires |plan.writes| == |targets| && WrittenFrom(s, id, plan, targets, artifacts, phase) && !phase.escaped
    requires Unplaced(s.copies, id, targets)
    ensures Partitions(s.copies, id, artifacts, phase, Pools(targets))
    ensures forall c :: |s.copies| <= c < |phase.copies| ==> SealedCopy(s, id, phase.copies[c])
  {
    WritesPartitionTargets(s.copies, id, targets, artifacts, plan.writes, |targets|);
    assert targets[..|targets|] == targets;
    forall c | |s.copies| <= c < |phase.copies|
      ensures SealedCopy(s, id, phase.copies[c])
    {
      assert WrittenRow(phase.copies[c], id, artifacts, Pools(targets));
    }
  }

  lemma CloseMoves(s: State, cur: State, t: State, id: string, token: string, qid: string, copies: seq<BundleCopy>)
    requires Moved(s, cur, id, qid) && Close(cur.(copies := copies), id, token) == Ok(t)
    ensures Moved(s, t, id, qid) && t.members == cur.members && t.copies == copies && t.bundles.Keys == cur.bundles.Keys
    ensures id in t.bundles && t.bundles[id].status == Sealed
    ensures forall other :: other in cur.bundles && other != id ==> t.bundles[other] == cur.bundles[other]
  {
  }

  /** The rows of an open bundle, split between it and the flush's own held bundle. */
  ghost predicate Splits(s: State, t: State, id: string, qid: string) {
    && id in s.bundles && s.bundles[id].status == Open && Moved(s, t, id, qid)
    && (if qid in s.bundles then t.members == s.members else qid in t.bundles ==> t.bundles[qid].status == Held)
  }

  lemma FlightSplits(s: State, t: State, id: string, token: string, qid: string, attempt: nat)
    requires InFlight(s, t, id, token, qid, attempt)
    ensures Splits(s, t, id, qid) && t.copies == s.copies
  {
  }

  lemma SealCompletes(s: State, cur: State, t: State, id: string, token: string, qid: string, plan: Plan,
                      targets: seq<Target>, artifacts: seq<seq<Built>>, phase: Phase)
    requires Splits(s, cur, id, qid) && cur.copies == s.copies && CountIn(cur.members, id) > 0 && Unplaced(s.copies, id, targets)
    requires |plan.writes| == |targets| && WrittenFrom(cur, id, plan, targets, artifacts, phase) && !phase.escaped
    requires Close(cur.(copies := phase.copies), id, token) == Ok(t)
    ensures SealedFlush(s, t, id, qid, targets, Flushed(phase.placed, phase.transient + phase.failed), phase.media)
    ensures t.members == cur.members
  {
    WrittenPartitions(cur, id, plan, targets, artifacts, phase);
    CloseMoves(s, cur, t, id, token, qid, phase.copies);
    forall c | |s.copies| <= c < |t.copies|
      ensures SealedCopy(t, id, t.copies[c])
    {
      assert SealedCopy(cur, id, phase.copies[c]);
    }
  }

  /** The stored copies as steps of the protocol. */
  lemma PlacedTrace(sha: string -> Digest, s: State, cur: State, copies: seq<BundleCopy>, before: seq<Step>) returns (trace: seq<Step>)
    requires Inv(s) && cur == Run(sha, s, before) && cur.copies <= copies
    ensures cur.(copies := copies) == Run(sha, s, trace) && Inv(cur.(copies := copies)) && before <= trace
  {
    var extra := copies[|cur.copies|..];
    RunPlaced(sha, s, before, extra);
    trace := before + PlacedSteps(extra);
    assert cur.copies + extra == copies;
    RunKeepsInv(sha, s, trace);
  }

  lemma QuarantineTraced(sha: string -> Digest, s: State, t: State, id: string, token: string, m: nat, qid: string, now: int, trace: seq<Step>)
    requires t == Run(sha, s, trace) && Quarantine(t, id, token, m, qid, now).Ok?
    ensures Quarantine(t, id, token, m, qid, now).value == Run(sha, s, trace + [Quarantined(id, token, m, qid, now)])
  {
    RunAppend(sha, s, trace, Quarantined(id, token, m, qid, now));
  }

  lemma CloseApplies(s: State, cur: State, copies: seq<BundleCopy>, id: string, token: string, qid: string, attempt: nat)
    requires InFlight(s, cur, id, token, qid, attempt)
    ensures Close(cur.(copies := copies), id, token).Ok?
  {
  }

  lemma CloseTraced(sha: string -> Digest, s: State, cur: State, id: string, token: string, trace: seq<Step>)
    requires Inv(s) && cur == Run(sha, s, trace) && Close(cur, id, token).Ok?
    ensures Close(cur, id, token).value == Run(sha, s, trace + [Closed(id, token)]) && Inv(Close(cur, id, token).value)
  {
    RunAppend(sha, s, trace, Closed(id, token));
    RunKeepsInv(sha, s, trace);
    CloseKeeps(cur, id, token);
  }

  /** The flush gets as far as its claim: the bundle is open and non-empty, it has targets, and the work
      directory has room for the bundle once per target. */
  ghost predicate Admitted(s: State, id: string, plan: Plan) {
    && id in s.bundles && s.bundles[id].status == Open && CountIn(s.members, id) > 0 && plan.targets.Some?
    && plan.freeBytes >= Needed(s, id, plan.targets.value)
  }

  function Needed(s: State, id: string, targets: seq<Target>): int {
    BytesIn(s.members, id) * (if |targets| > 1 then |targets| else 1)
  }

  /** Each early refusal is given exactly for its own reason. */
  ghost predicate RefusedEarly(s: State, id: string, plan: Plan, r: Result<Flushed, FlushError>) {
    && (r == Err(NoSuchBundle) <==> id !in s.bundles)
    && (r == Err(NotOpenForFlush) <==> id in s.bundles && s.bundles[id].status != Open)
    && (r == Err(NoMembers) <==> IsOpen(s, id) && CountIn(s.members, id) == 0)
    && (r == Err(NoTargets) <==> IsOpen(s, id) && CountIn(s.members, id) > 0 && plan.targets.None?)
    && (r == Err(PreflightShort) <==> IsOpen(s, id) && CountIn(s.members, id) > 0 && plan.targets.Some?
                                      && plan.freeBytes < Needed(s, id, plan.targets.value))
  }

  predicate IsOpen(s: State, id: string) { id in s.bundles && s.bundles[id].status == Open }

  /** The steps of an admitted flush so far: the claim, then `n` quarantines, each of the row that the
      attempt before it failed for. */
  ghost predicate Course(sha: string -> Digest, s: State, id: string, token: string, qid: string, now: int, plan: Plan,
                         targets: seq<Target>, trace: seq<Step>, n: nat) {
    && n < |trace| && trace[0] == Claimed(id, token, now)
    && forall k :: 1 <= k <= n ==> QuarantinedAt(sha, s, id, token, qid, now, plan, targets, trace, k)
  }

  ghost predicate QuarantinedAt(sha: string -> Digest, s: State, id: string, token: string, qid: string, now: int, plan: Plan,
                                targets: seq<Target>, trace: seq<Step>, k: nat)
    requires 1 <= k < |trace|
  {
    && trace[k].Quarantined? && trace[k] == Quarantined(id, token, trace[k].member, qid, now)
    && ChargedTo(Run(sha, s, trace[..k]).members, id, plan, targets, k - 1, trace[k].member)
  }

  /** How the last attempt, the one after `n` quarantines, ended the flush. */
  ghost predicate Ended(s: State, cur: State, t: State, id: string, qid: string, plan: Plan, targets: seq<Target>, n: nat,
                        r: Result<Flushed, FlushError>) {
    match r
    case Ok(_) => ReadyToWrite(cur.members, id, plan, targets, n) && t.members == cur.members
    case Err(error) =>
      if error == QuarantineClash then n == 0 && qid in s.bundles && exists m: nat :: ChargedTo(cur.members, id, plan, targets, 0, m)
      else RefusedFor(cur.members, s.copies, id, plan, targets, n, error)
  }

  /** What every way out of a flush leaves. */
  ghost predicate FlushEnds(sha: string -> Digest, s: State, t: State, id: string, token: string, qid: string, now: int,
                            plan: Plan, r: Result<Flushed, FlushError>, media: seq<string>, trace: seq<Step>, n: nat) {
    && Inv(t) && t == Run(sha, s, trace)
    && (r.Ok? ==> plan.targets.Some? && SealedFlush(s, t, id, qid, plan.targets.value, r.value, media))
    && (r.Err? && r.error != WriteEscaped ==> media == [] && t.copies == s.copies)
    && RefusedEarly(s, id, plan, r)
    && (if Admitted(s, id, plan)
        then
          && Course(sha, s, id, token, qid, now, plan, plan.targets.value, trace, n)
          && Ended(s, Run(sha, s, trace[..n + 1]), t, id, qid, plan, plan.targets.value, n, r)
        else trace == [])
  }

  lemma CourseStarts(sha: string -> Digest, s: State, id: string, token: string, qid: string, now: int, plan: Plan, targets: seq<Target>)
    ensures Course(sha, s, id, token, qid, now, plan, targets, [Claimed(id, token, now)], 0)
  {
  }

  lemma CourseNext(sha: string -> Digest, s: State, id: string, token: string, qid: string, now: int, plan: Plan,
                   targets: seq<Target>, trace: seq<Step>, m: nat)
    requires trace != [] && Course(sha, s, id, token, qid, now, plan, targets, trace, |trace| - 1)
    requires ChargedTo(Run(sha, s, trace).members, id, plan, targets, |trace| - 1, m)
    ensures Course(sha, s, id, token, qid, now, plan, targets, trace + [Quarantined(id, token, m, qid, now)], |trace|)
  {
    var after := trace + [Quarantined(id, token, m, qid, now)];
    CourseExtends(sha, s, id, token, qid, now, plan, targets, trace, |trace| - 1, after);
    assert after[..|trace|] == trace;
    assert QuarantinedAt(sha, s, id, token, qid, now, plan, targets, after, |trace|);
  }

  lemma CourseExtends(sha: string -> Digest, s: State, id: string, token: string, qid: string, now: int, plan: Plan,
                      targets: seq<Target>, trace: seq<Step>, n: nat, more: seq<Step>)
    requires Course(sha, s, id, token, qid, now, plan, targets, trace, n) && trace <= more
    ensures Course(sha, s, id, token, qid, now, plan, targets, more, n) && more[..n + 1] == trace[..n + 1]
  {
    forall k | 1 <= k <= n
      ensures QuarantinedAt(sha, s, id, token, qid, now, plan, targets, more, k)
    {
      assert more[..k] == trace[..k] && QuarantinedAt(sha, s, id, token, qid, now, plan, targets, trace, k);
    }
  }

  /** An admitted flush whose rows are ready on the first attempt, and whose writes can all be stored. */
  ghost predicate CanSeal(s: State, id: string, plan: Plan) {
    && Admitted(s, id, plan) && ReadyToWrite(s.members, id, plan, plan.targets.value, 0)
    && forall k :: 0 <= k < |plan.writes| ==> !Unstorable(s.copies, plan.writes, k)
  }

  lemma ClaimKeepsMembers(sha: string -> Digest, s: State, id: string, token: string, now: int)
    ensures Run(sha, s, [Claimed(id, token, now)]).members == s.members
  {
    RunAppend(sha, s, [], Claimed(id, token, now));
  }

  /** Then the flush seals, with every row it claimed. */
  lemma FlushSucceeds(sha: string -> Digest, s: State, t: State, id: string, token: string, qid: string, now: int,
                      plan: Plan, r: Result<Flushed, FlushError>, media: seq<string>, trace: seq<Step>, n: nat)
    requires FlushEnds(sha, s, t, id, token, qid, now, plan, r, media, trace, n) && CanSeal(s, id, plan)
    ensures r.Ok? && t.members == s.members && media == Pools(plan.targets.value)
  {
    var targets := plan.targets.value;
    assert trace[..1] == [Claimed(id, token, now)];
    ClaimKeepsMembers(sha, s, id, token, now);
    forall m: nat
      ensures !ChargedTo(s.members, id, plan, targets, 0, m)
    {
      ReadyIsFinal(s.members, s.copies, id, plan, targets, 0, m, NoMembers);
    }
    NoneQuarantined(sha, s, id, token, qid, now, plan, targets, trace, n);
    FirstAttemptSeals(s, Run(sha, s, trace[..1]), t, id, qid, plan, targets, r);
  }

  lemma FirstAttemptSeals(s: State, cur: State, t: State, id: string, qid: string, plan: Plan, targets: seq<Target>,
                          r: Result<Flushed, FlushError>)
    requires ReadyToWrite(s.members, id, plan, targets, 0) && cur.members == s.members
    requires forall k :: 0 <= k < |plan.writes| ==> !Unstorable(s.copies, plan.writes, k)
    requires Ended(s, cur, t, id, qid, plan, targets, 0, r)
    ensures r.Ok? && t.members == s.members
  {
    forall m: nat, error
      ensures !ChargedTo(s.members, id, plan, targets, 0, m)
      ensures RefusedFor(s.members, s.copies, id, plan, targets, 0, error) ==> error == WriteEscaped
    {
      ReadyIsFinal(s.members, s.copies, id, plan, targets, 0, m, error);
    }
  }

  lemma NoneQuarantined(sha: string -> Digest, s: State, id: string, token: string, qid: string, now: int, plan: Plan,
                        targets: seq<Target>, trace: seq<Step>, n: nat)
    requires Course(sha, s, id, token, qid, now, plan, targets, trace, n)
    requires forall m: nat :: !ChargedTo(Run(sha, s, trace[..1]).members, id, plan, targets, 0, m)
    ensures n == 0
  {
    assert n >= 1 ==> QuarantinedAt(sha, s, id, token, qid, now, plan, targets, trace, 1);
  }

  /** An admitted flush in its build loop, `attempt` quarantines in. */
  ghost predicate Flying(sha: string -> Digest, s: State, cur: State, id: string, token: string, qid: string, now: int,
                         plan: Plan, trace: seq<Step>, attempt: nat) {
    && Admitted(s, id, plan) && Answers(plan, plan.targets.value) && Unplaced(s.copies, id, plan.targets.value)
    && InFlight(s, cur, id, token, qid, attempt) && cur == Run(sha, s, trace) && |trace| == attempt + 1
    && Course(sha, s, id, token, qid, now, plan, plan.targets.value, trace, attempt)
  }

  lemma FlyingFacts(sha: string -> Digest, s: State, cur: State, id: string, token: string, qid: string, now: int,
                    plan: Plan, trace: seq<Step>, attempt: nat)
    requires Flying(sha, s, cur, id, token, qid, now, plan, trace, attempt)
    ensures Inv(s) && Inv(cur) && id in cur.bundles && cur.copies == s.copies && attempt + CountIn(cur.members, id) == CountIn(s.members, id)
    ensures attempt == 0 ==> cur.bundles.Keys == s.bundles.Keys
  {
  }

  /** A flush that was admitted got none of the early refusals. */
  lemma NotEarly(s: State, id: string, plan: Plan, r: Result<Flushed, FlushError>)
    requires Admitted(s, id, plan) && (r.Err? ==> r.error !in {NoSuchBundle, NotOpenForFlush, NoMembers, NoTargets, PreflightShort})
    ensures RefusedEarly(s, id, plan, r)
  {
  }

  /** The course of an admitted flush up to its last attempt, seen from any later point of the trace. */
  ghost predicate CameTo(sha: string -> Digest, s: State, cur: State, id: string, token: string, qid: string, now: int,
                         plan: Plan, trace: seq<Step>, n: nat) {
    && Admitted(s, id, plan) && Course(sha, s, id, token, qid, now, plan, plan.targets.value, trace, n)
    && cur == Run(sha, s, trace[..n + 1])
  }

  lemma FlyingCameTo(sha: string -> Digest, s: State, cur: State, id: string, token: string, qid: string, now: int,
                     plan: Plan, before: seq<Step>, attempt: nat, trace: seq<Step>)
    requires Flying(sha, s, cur, id, token, qid, now, plan, before, attempt) && before <= trace
    ensures CameTo(sha, s, cur, id, token, qid, now, plan, trace, attempt)
  {
    assert before[..attempt + 1] == before;
    CourseExtends(sha, s, id, token, qid, now, plan, plan.targets.value, before, attempt, trace);
  }

  /** A refusal after the claim. */
  lemma RefusalEnds(sha: string -> Digest, s: State, cur: State, t: State, id: string, token: string, qid: string, now: int,
                    plan: Plan, n: nat, error: FlushError, media: seq<string>, trace: seq<Step>)
    requires CameTo(sha, s, cur, id, token, qid, now, plan, trace, n)
    requires Inv(t) && t == Run(sha, s, trace) && (error != WriteEscaped ==> media == [] && t.copies == s.copies)
    requires Ended(s, cur, t, id, qid, plan, plan.targets.value, n, Err(error))
    ensures FlushEnds(sha, s, t, id, token, qid, now, plan, Err(error), media, trace, n)
  {
    NotEarly(s, id, plan, Err(error));
  }

  lemma SealEnds(sha: string -> Digest, s: State, cur: State, t: State, id: string, token: string, qid: string, now: int,
                 plan: Plan, n: nat, f: Flushed, media: seq<string>, trace: seq<Step>)
    requires CameTo(sha, s, cur, id, token, qid, now, plan, trace, n)
    requires Inv(t) && t == Run(sha, s, trace) && t.members == cur.members
    requires SealedFlush(s, t, id, qid, plan.targets.value, f, media) && ReadyToWrite(cur.members, id, plan, plan.targets.value, n)
    ensures FlushEnds(sha, s, t, id, token, qid, now, plan, Ok(f), media, trace, n)
  {
    NotEarly(s, id, plan, Ok(f));
  }

  /** The close after the writes applies, and completes the seal. */
  lemma SealState(s: State, cur: State, id: string, token: string, qid: string, attempt: nat, plan: Plan, targets: seq<Target>,
                  artifacts: seq<seq<Built>>, phase: Phase)
    requires InFlight(s, cur, id, token, qid, attempt) && CountIn(cur.members, id) > 0 && Unplaced(s.copies, id, targets)
    requires |plan.writes| == |targets| && WrittenFrom(cur, id, plan, targets, artifacts, phase) && !phase.escaped
    ensures var r := Close(cur.(copies := phase.copies), id, token);
            && r.Ok? && r.value.members == cur.members
            && SealedFlush(s, r.value, id, qid, targets, Flushed(phase.placed, phase.transient + phase.failed), phase.media)
  {
    CloseApplies(s, cur, phase.copies, id, token, qid, attempt);
    FlightSplits(s, cur, id, token, qid, attempt);
    SealCompletes(s, cur, Close(cur.(copies := phase.copies), id, token).value, id, token, qid, plan, targets, artifacts, phase);
  }

  lemma SealFinishes(sha: string -> Digest, s: State, cur: State, id: string, token: string, qid: string, now: int, plan: Plan,
                     before: seq<Step>, attempt: nat, artifacts: seq<seq<Built>>, phase: Phase)
    returns (trace: seq<Step>)
    requires Flying(sha, s, cur, id, token, qid, now, plan, before, attempt)
    requires ReadyToWrite(cur.members, id, plan, plan.targets.value, attempt) && cur.copies <= phase.copies
    requires WrittenFrom(cur, id, plan, plan.targets.value, artifacts, phase) && !phase.escaped
    ensures var r := Close(cur.(copies := phase.copies), id, token);
            r.Ok? && FlushEnds(sha, s, r.value, id, token, qid, now, plan, Ok(Flushed(phase.placed, phase.transient + phase.failed)),
                               phase.media, trace, attempt)
  {
    SealState(s, cur, id, token, qid, attempt, plan, plan.targets.value, artifacts, phase);
    trace := SealTrace(sha, s, cur, id, token, before, phase.copies);
    FlyingCameTo(sha, s, cur, id, token, qid, now, plan, before, attempt, trace);
    SealEnds(sha, s, cur, Close(cur.(copies := phase.copies), id, token).value, id, token, qid, now, plan, attempt,
             Flushed(phase.placed, phase.transient + phase.failed), phase.media, trace);
  }

  lemma SealTrace(sha: string -> Digest, s: State, cur: State, id: string, token: string, before: seq<Step>, copies: seq<BundleCopy>)
    returns (trace: seq<Step>)
    requires Inv(s) && cur == Run(sha, s, before) && cur.copies <= copies && Close(cur.(copies := copies), id, token).Ok?
    ensures before <= trace && var t := Close(cur.(copies := copies), id, token).value; t == Run(sha, s, trace) && Inv(t)
  {
    var placed := PlacedTrace(sha, s, cur, copies, before);
    CloseTraced(sha, s, cur.(copies := copies), id, token, placed);
    trace := placed + [Closed(id, token)];
  }

  lemma RefusalFinishes(sha: string -> Digest, s: State, cur: State, copies: seq<BundleCopy>, id: string, token: string, qid: string,
                        now: int, plan: Plan, before: seq<Step>, attempt: nat, error: FlushError, media: seq<string>)
    returns (trace: seq<Step>)
    requires Flying(sha, s, cur, id, token, qid, now, plan, before, attempt) && cur.copies <= copies
    requires RefusedFor(cur.members, cur.copies, id, plan, plan.targets.value, attempt, error)
    requires error != WriteEscaped ==> media == [] && copies == cur.copies
    ensures FlushEnds(sha, s, cur.(copies := copies), id, token, qid, now, plan, Err(error), media, trace, attempt)
  {
    FlyingFacts(sha, s, cur, id, token, qid, now, plan, before, attempt);
    trace := PlacedTrace(sha, s, cur, copies, before);
    FlyingCameTo(sha, s, cur, id, token, qid, now, plan, before, attempt, trace);
    RefusalEnds(sha, s, cur, cur.(copies := copies), id, token, qid, now, plan, attempt, error, media, trace);
  }

  lemma FlightGoesOn(sha: string -> Digest, s: State, cur: State, id: string, token: string, qid: string, now: int,
                     plan: Plan, before: seq<Step>, attempt: nat, m: nat)
    requires Flying(sha, s, cur, id, token, qid, now, plan, before, attempt)
    requires ChargedTo(cur.members, id, plan, plan.targets.value, attempt, m) && (attempt == 0 ==> qid !in cur.bundles)
    ensures Quarantine(cur, id, token, m, qid, now).Ok?
    ensures Flying(sha, s, Quarantine(cur, id, token, m, qid, now).value, id, token, qid, now, plan,
                   before + [Quarantined(id, token, m, qid, now)], attempt + 1)
  {
    QuarantineKeepsFlight(s, cur, id, token, qid, attempt, m, now);
    QuarantineTraced(sha, s, cur, id, token, m, qid, now, before);
    CourseNext(sha, s, id, token, qid, now, plan, plan.targets.value, before, m);
  }

  /** A failure charged to row `m`: count the attempt against the bound and quarantine the row. The
      bound holds by construction; only a clash of the minted id can stop it. */
  method Retry(catalog: Catalog, ghost s: State, id: string, token: string, qid: string, now: int, ghost plan: Plan, attempt: nat,
               maxAttempts: nat, m: nat, ghost before: seq<Step>)
    returns (answer: Option<Result<Flushed, FlushError>>, ghost trace: seq<Step>)
    requires Flying(catalog.sha, s, catalog.View(), id, token, qid, now, plan, before, attempt) && maxAttempts == CountIn(s.members, id)
    requires ChargedTo(catalog.members, id, plan, plan.targets.value, attempt, m)
    modifies catalog
    ensures answer.None? ==> attempt < maxAttempts
    ensures answer.None? ==> Flying(catalog.sha, s, catalog.View(), id, token, qid, now, plan, trace, attempt + 1)
    ensures answer.Some? ==> answer == Some(Err(QuarantineClash))
                             && FlushEnds(catalog.sha, s, catalog.View(), id, token, qid, now, plan, answer.value, [], trace, attempt)
  {
    ghost var cur := catalog.View();
    FlyingFacts(catalog.sha, s, cur, id, token, qid, now, plan, before, attempt);
    CountPositive(catalog.members, id, m);
    if attempt + 1 > maxAttempts { return Some(Err(QuarantineBound)), before; }
    if attempt == 0 && qid in catalog.bundles {
      FlyingCameTo(catalog.sha, s, cur, id, token, qid, now, plan, before, attempt, before);
      RefusalEnds(catalog.sha, s, cur, cur, id, token, qid, now, plan, attempt, QuarantineClash, [], before);
      return Some(Err(QuarantineClash)), before;
    }
    FlightGoesOn(catalog.sha, s, cur, id, token, qid, now, plan, before, attempt, m);
    catalog.QuarantineMember(id, token, m, qid, now);
    return None, before + [Quarantined(id, token, m, qid, now)];
  }

  /** Seal what was written: the claim is still held, so the close applies. */
  method SealWritten(catalog: Catalog, ghost s: State, ghost cur: State, id: string, token: string, ghost qid: string,
                     ghost now: int, ghost attempt: nat, ghost plan: Plan, ghost artifacts: seq<seq<Built>>, phase: Phase,
                     ghost before: seq<Step>)
    returns (r: Result<Flushed, FlushError>, ghost trace: seq<Step>)
    requires Flying(catalog.sha, s, cur, id, token, qid, now, plan, before, attempt)
    requires ReadyToWrite(cur.members, id, plan, plan.targets.value, attempt) && cur.copies <= phase.copies
    requires WrittenFrom(cur, id, plan, plan.targets.value, artifacts, phase) && !phase.escaped
    requires catalog.View() == cur.(copies := phase.copies)
    modifies catalog
    ensures FlushEnds(catalog.sha, s, catalog.View(), id, token, qid, now, plan, r, phase.media, trace, attempt)
  {
    trace := SealFinishes(catalog.sha, s, cur, id, token, qid, now, plan, before, attempt, artifacts, phase);
    var sealed := catalog.CloseBundle(id, token);
    r := if sealed then Ok(Flushed(phase.placed, phase.transient + phase.failed)) else Err(SealLost);
  }

  /** One pass of the loop: an answer, or one more row quarantined. */
  method Pass(catalog: Catalog, ghost s: State, id: string, token: string, qid: string, now: int, plan: Plan,
              targets: seq<Target>, attempt: nat, maxAttempts: nat, ghost before: seq<Step>)
    returns (answer: Option<Result<Flushed, FlushError>>, media: seq<string>, ghost trace: seq<Step>)
    requires Flying(catalog.sha, s, catalog.View(), id, token, qid, now, plan, before, attempt) && plan.targets == Some(targets)
    requires maxAttempts == CountIn(s.members, id)
    modifies catalog
    ensures answer.None? ==> Flying(catalog.sha, s, catalog.View(), id, token, qid, now, plan, trace, attempt + 1)
    ensures answer.None? ==> attempt < maxAttempts && media == []
    ensures answer.Some? ==> FlushEnds(catalog.sha, s, catalog.View(), id, token, qid, now, plan, answer.value, media, trace, attempt)
  {
    ghost var cur := catalog.View();
    FlyingFacts(catalog.sha, s, cur, id, token, qid, now, plan, before, attempt);
    var t; ghost var artifacts;
    t, media, artifacts := Attempt(catalog, id, plan, targets, attempt);
    answer, trace := Settle(catalog, s, cur, id, token, qid, now, attempt, maxAttempts, plan, artifacts, t, media, before);
  }

  /** What one attempt leads to: a charged row is quarantined, anything else ends the flush. */
  method Settle(catalog: Catalog, ghost s: State, ghost cur: State, id: string, token: string, qid: string, now: int,
                attempt: nat, maxAttempts: nat, ghost plan: Plan, ghost artifacts: seq<seq<Built>>, t: Try,
                ghost media: seq<string>, ghost before: seq<Step>)
    returns (answer: Option<Result<Flushed, FlushError>>, ghost trace: seq<Step>)
    requires Flying(catalog.sha, s, cur, id, token, qid, now, plan, before, attempt) && maxAttempts == CountIn(s.members, id)
    requires catalog.View() == cur.(copies := catalog.copies)
    requires Tried(cur, catalog.copies, id, plan, plan.targets.value, attempt, artifacts, t, media)
    modifies catalog
    ensures answer.None? ==> Flying(catalog.sha, s, catalog.View(), id, token, qid, now, plan, trace, attempt + 1)
    ensures answer.None? ==> attempt < maxAttempts && media == []
    ensures answer.Some? ==> FlushEnds(catalog.sha, s, catalog.View(), id, token, qid, now, plan, answer.value, media, trace, attempt)
  {
    if t.Bad? {
      assert catalog.View() == cur;
      answer, trace := Retry(catalog, s, id, token, qid, now, plan, attempt, maxAttempts, t.member, before);
    } else {
      var r;
      r, trace := Conclude(catalog, s, cur, id, token, qid, now, attempt, plan, artifacts, t, media, before);
      answer := Some(r);
    }
  }

  /** An attempt that charged no row ends the flush. */
  method Conclude(catalog: Catalog, ghost s: State, ghost cur: State, id: string, token: string, ghost qid: string,
                  ghost now: int, ghost attempt: nat, ghost plan: Plan, ghost artifacts: seq<seq<Built>>, t: Try,
                  ghost media: seq<string>, ghost before: seq<Step>)
    returns (r: Result<Flushed, FlushError>, ghost trace: seq<Step>)
    requires Flying(catalog.sha, s, cur, id, token, qid, now, plan, before, attempt) && !t.Bad?
    requires catalog.View() == cur.(copies := catalog.copies)
    requires Tried(cur, catalog.copies, id, plan, plan.targets.value, attempt, artifacts, t, media)
    modifies catalog
    ensures FlushEnds(catalog.sha, s, catalog.View(), id, token, qid, now, plan, r, media, trace, attempt)
  {
    if t.Refuse? {
      trace := RefusalFinishes(catalog.sha, s, cur, catalog.copies, id, token, qid, now, plan, before, attempt, t.error, media);
      return Err(t.error), trace;
    }
    r, trace := SealWritten(catalog, s, cur, id, token, qid, now, attempt, plan, artifacts, t.phase, before);
  }

  /** The build loop over a claimed bundle. Each pass that does not end it has written nothing and leaves
      one row fewer. */
  method FlushClaimed(catalog: Catalog, ghost s: State, id: string, token: string, qid: string, now: int, plan: Plan,
                      targets: seq<Target>, ghost claim: seq<Step>)
    returns (r: Result<Flushed, FlushError>, media: seq<string>, ghost trace: seq<Step>, ghost n: nat)
    requires Flying(catalog.sha, s, catalog.View(), id, token, qid, now, plan, claim, 0) && plan.targets == Some(targets)
    modifies catalog
    ensures FlushEnds(catalog.sha, s, catalog.View(), id, token, qid, now, plan, r, media, trace, n)
  {
    trace := claim;
    FlyingFacts(catalog.sha, s, catalog.View(), id, token, qid, now, plan, trace, 0);
    var attempt: nat := 0;
    var maxAttempts := |RowIds(catalog.members, id)|;
    while true
      invariant Flying(catalog.sha, s, catalog.View(), id, token, qid, now, plan, trace, attempt)
      invariant attempt <= maxAttempts == CountIn(s.members, id)
      decreases maxAttempts - attempt
    {
      var answer;
      answer, media, trace := Pass(catalog, s, id, token, qid, now, plan, targets, attempt, maxAttempts, trace);
      if answer.Some? { return answer.value, media, trace, attempt; }
      attempt := attempt + 1;
    }
  }

  lemma ClaimStartsFlight(sha: string -> Digest, s: State, id: string, token: string, qid: string, now: int)
    requires Inv(s) && Claim(s, id, token, now).Ok?
    ensures InFlight(s, Claim(s, id, token, now).value, id, token, qid, 0)
    ensures Run(sha, s, [Claimed(id, token, now)]) == Claim(s, id, token, now).value
  {
    ClaimKeeps(s, id, token, now);
    RunAppend(sha, s, [], Claimed(id, token, now));
  }

  lemma OpenIsUnplaced(s: State, id: string, plan: Plan, targets: seq<Target>)
    requires CopiesSealed(s) && id in s.bundles && s.bundles[id].status == Open && Answers(plan, targets)
    ensures Unplaced(s.copies, id, targets)
  {
  }

  lemma FlightStarts(sha: string -> Digest, s: State, id: string, token: string, qid: string, now: int, plan: Plan)
    requires Inv(s) && CopiesSealed(s) && Admitted(s, id, plan) && Answers(plan, plan.targets.value)
    ensures Claim(s, id, token, now).Ok?
    ensures Flying(sha, s, Claim(s, id, token, now).value, id, token, qid, now, plan, [Claimed(id, token, now)], 0)
  {
    OpenIsUnplaced(s, id, plan, plan.targets.value);
    ClaimStartsFlight(sha, s, id, token, qid, now);
    CourseStarts(sha, s, id, token, qid, now, plan, plan.targets.value);
  }

  /** The flush. Whatever the builder, the checks and the media answer, it ends; what it did is a run
      of the protocol's steps, with one quarantine per charged failure; each refusal is given for its own
      reason, and a bundle that can be sealed is; it writes nothing unless every target was built and
      validated and the identity gate passed over the rows it seals; and it either seals, or fails with
      no write made, or an exception escaped the write phase. Its quarantine bound, its claim and its seal
      cannot fail. */
  method FlushBundle(catalog: Catalog, id: string, token: string, qid: string, now: int, plan: Plan)
    returns (r: Result<Flushed, FlushError>, media: seq<string>, ghost trace: seq<Step>, ghost n: nat)
    requires Inv(catalog.View()) && CopiesSealed(catalog.View()) && (plan.targets.Some? ==> Answers(plan, plan.targets.value))
    modifies catalog
    ensures FlushEnds(catalog.sha, old(catalog.View()), catalog.View(), id, token, qid, now, plan, r, media, trace, n)
    ensures CanSeal(old(catalog.View()), id, plan) ==> r.Ok?
  {
    media, trace, n := [], [], 0;
    var refusal := Preflight(catalog, id, plan);
    if refusal.Some? { return Err(refusal.value), [], [], 0; }
    ghost var s := catalog.View();
    FlightStarts(catalog.sha, s, id, token, qid, now, plan);
    var claimed := catalog.ClaimForFlush(id, token, now);
    if !claimed { return Err(ClaimTaken), media, trace, n; }
    r, media, trace, n := FlushClaimed(catalog, s, id, token, qid, now, plan, plan.targets.value, [Claimed(id, token, now)]);
    if CanSeal(s, id, plan) { FlushSucceeds(catalog.sha, s, catalog.View(), id, token, qid, now, plan, r, media, trace, n); }
  }

  /** The refusals before the claim. */
  method Preflight(catalog: Catalog, id: string, plan: Plan) returns (refusal: Option<FlushError>)
    requires Inv(catalog.View())
    ensures refusal.None? <==> Admitted(catalog.View(), id, plan)
    ensures refusal.Some? ==> RefusedEarly(catalog.View(), id, plan, Err(refusal.value)) && refusal.value != WriteEscaped
  {
    if id !in catalog.bundles { return Some(NoSuchBundle); }
    if catalog.bundles[id].status != Open { return Some(NotOpenForFlush); }
    if catalog.bundles[id].memberCount == 0 { return Some(NoMembers); }
    if plan.targets.None? { return Some(NoTargets); }
    var targets := plan.targets.value;
    if plan.freeBytes < catalog.bundles[id].totalBytes * (if |targets| > 1 then |targets| else 1) { return Some(PreflightShort); }
    return None;
  }

  lemma {:induction false} CountsSplit(before: seq<Member>, after: seq<Member>, id: string, qid: string)
    requires |after| == |before| && id != qid && forall i :: 0 <= i < |before| ==> before[i].bundle != qid
    requires forall i :: 0 <= i < |before| ==>
               after[i] == before[i] || (before[i].bundle == id && after[i] == before[i].(bundle := qid))
    ensures CountIn(after, id) + CountIn(after, qid) == CountIn(before, id)
    ensures BytesIn(after, id) + BytesIn(after, qid) == BytesIn(before, id)
    decreases |before|
  {
    if before != [] {
      CountsSplit(before[..|before| - 1], after[..|after| - 1], id, qid);
    }
  }

  /** A flush that seals splits the claimed rows: each of them is either a row of the sealed bundle or
      a row of the held one, unchanged but for that, the two parts add up to what was claimed in rows
      and bytes, and rows of every other bundle are untouched. */
  lemma SealedSplitsClaimed(s: State, t: State, id: string, qid: string, targets: seq<Target>, f: Flushed,
                            media: seq<string>)
    requires Inv(s) && Inv(t) && SealedFlush(s, t, id, qid, targets, f, media) && qid !in s.bundles && id in s.bundles
    ensures forall i :: 0 <= i < |s.members| ==>
              if s.members[i].bundle == id
              then t.members[i] == s.members[i] || t.members[i] == s.members[i].(bundle := qid)
              else t.members[i] == s.members[i]
    ensures CountIn(t.members, id) + CountIn(t.members, qid) == CountIn(s.members, id) && CountIn(t.members, id) > 0
    ensures t.bundles[id].memberCount + (if qid in t.bundles then t.bundles[qid].memberCount else 0) == s.bundles[id].memberCount
    ensures t.bundles[id].totalBytes + (if qid in t.bundles then t.bundles[qid].totalBytes else 0) == s.bundles[id].totalBytes
  {
    CountsSplit(s.members, t.members, id, qid);
    if qid !in t.bundles { CountZero(t.members, qid); }
  }
}
