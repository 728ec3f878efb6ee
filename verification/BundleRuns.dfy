/** Safety of the accumulator protocol over every run of its catalog steps. */
module BundleRuns {
  import opened Wrappers
  import opened Numerals
  import opened MemberNaming
  import opened BundleCatalog
  import opened BundleInvariant

  datatype Step =
    | Enqueued(group: string, targetBytes: int, maxAge: int, id: string, now: int, item: Item, probe: Option<string>)
    | Added(id: string, item: Item)
    | Transformed(member: nat, staging: Staging)
    | Claimed(id: string, token: string, now: int)
    | Quarantined(id: string, token: string, member: nat, qid: string, now: int)
    | Placed(copy: BundleCopy)
    | Closed(id: string, token: string)
    | Reaped(id: string)
    | Voided(id: string, live: set<string>)

  function OrElse(r: Result<State, BundleError>, s: State): State {
    if r.Ok? then r.value else s
  }

  function OrElseAppended(r: Result<Appended, BundleError>, s: State): State {
    if r.Ok? then r.value.state else s
  }

  /** The state after one step; a step whose guard fails changes nothing. */
  ghost function Apply(sha: string -> Digest, s: State, step: Step): State {
    match step
    case Enqueued(group, targetBytes, maxAge, id, now, item, probe) =>
      OrElseAppended(Enqueue(sha, s, group, targetBytes, maxAge, id, now, item, probe), s)
    case Added(id, item) => OrElseAppended(Append(sha, s, id, item), s)
    case Transformed(m, staging) => OrElse(RecordTransform(s, m, staging), s)
    case Claimed(id, token, now) => OrElse(Claim(s, id, token, now), s)
    case Quarantined(id, token, m, qid, now) => OrElse(Quarantine(s, id, token, m, qid, now), s)
    case Placed(copy) => PlaceCopy(s, copy)
    case Closed(id, token) => OrElse(Close(s, id, token), s)
    case Reaped(id) => OrElse(Reap(s, id), s)
    case Voided(id, live) => OrElse(VoidSeal(s, id, live), s)
  }

  ghost function Run(sha: string -> Digest, s: State, steps: seq<Step>): State
    decreases |steps|
  {
    if steps == [] then s else Apply(sha, Run(sha, s, steps[..|steps| - 1]), steps[|steps| - 1])
  }

  lemma StepKeepsInv(sha: string -> Digest, s: State, step: Step)
    requires Inv(s)
    ensures Inv(Apply(sha, s, step))
  {
    match step {
      case Enqueued(group, targetBytes, maxAge, id, now, item, probe) =>
        EnqueueKeeps(sha, s, group, targetBytes, maxAge, id, now, item, probe);
      case Added(id, item) => AppendKeeps(sha, s, id, item);
      case Transformed(m, staging) => RecordTransformKeeps(s, m, staging);
      case Claimed(id, token, now) => ClaimKeeps(s, id, token, now);
      case Quarantined(id, token, m, qid, now) =>
        if Quarantine(s, id, token, m, qid, now).Ok? { QuarantineKeeps(s, id, token, m, qid, now); }
      case Placed(copy) => PlaceCopyKeeps(s, copy);
      case Closed(id, token) => CloseKeeps(s, id, token);
      case Reaped(id) => ReapKeeps(s, id);
      case Voided(id, live) => VoidKeeps(s, id, live);
    }
  }

  /** Every reachable catalog has exact counters, unique paths, at most one open accumulator per
      group, coherent lifecycle columns, and transforms that follow their member. */
  lemma {:induction false} RunKeepsInv(sha: string -> Digest, s: State, steps: seq<Step>)
    requires Inv(s)
    ensures Inv(Run(sha, s, steps))
    decreases |steps|
  {
    if steps != [] {
      RunKeepsInv(sha, s, steps[..|steps| - 1]);
      StepKeepsInv(sha, Run(sha, s, steps[..|steps| - 1]), steps[|steps| - 1]);
    }
  }

  // ----- What one step does to rows and bundles -----

  /** `t` keeps every row of `s`; a row differs at most in metadata and, when quarantined, in its
      bundle, which is then a held one. */
  ghost predicate RowKept(s: State, t: State, i: nat)
    requires i < |s.members|
  {
    && i < |t.members|
    && t.members[i] == s.members[i].(bundle := t.members[i].bundle, metadata := t.members[i].metadata)
    && (t.members[i].bundle != s.members[i].bundle ==>
          t.members[i].bundle in t.bundles && t.bundles[t.members[i].bundle].status == Held)
    && s.members[i].metadata.links <= t.members[i].metadata.links
  }

  /** What an append to open bundle `id` does: it grows that bundle by at most one row, or merges
      metadata into one of its rows, and touches nothing else. */
  ghost predicate Grown(s: State, t: State, id: string) {
    && id in s.bundles && s.bundles[id].status == Open && t.bundles.Keys == s.bundles.Keys
    && (forall other :: other in s.bundles && other != id ==> t.bundles[other] == s.bundles[other])
    && t.bundles[id].status == Open && t.bundles[id].claimedBy == s.bundles[id].claimedBy
    && (forall i :: 0 <= i < |s.members| ==> RowKept(s, t, i) && t.members[i].bundle == s.members[i].bundle)
    && (forall i :: 0 <= i < |s.members| && s.members[i].bundle != id ==> t.members[i] == s.members[i])
    && (forall i :: |s.members| <= i < |t.members| ==> t.members[i].bundle == id)
  }

  lemma WithMemberGrows(s: State, id: string, row: Member)
    requires id in s.bundles && s.bundles[id].status == Open && row.bundle == id
    ensures Grown(s, WithMember(s, id, row), id)
  {
  }

  lemma MergeGrows(s: State, id: string, i: nat, incoming: Metadata)
    requires id in s.bundles && s.bundles[id].status == Open && i < |s.members| && s.members[i].bundle == id
    ensures Grown(s, s.(members := s.members[i := s.members[i].(metadata := Merge(s.members[i].metadata, incoming))]), id)
  {
  }

  lemma AppendRows(sha: string -> Digest, s: State, id: string, item: Item)
    requires Append(sha, s, id, item).Ok?
    ensures Grown(s, Append(sha, s, id, item).value.state, id)
  {
    var r := Append(sha, s, id, item).value;
    if r.created {
      WithMemberGrows(s, id, r.state.members[|s.members|]);
    } else {
      MergeGrows(s, id, r.row, item.metadata);
    }
  }

  /** What every step does to bundle `id` when that bundle is not open: rows leave it only by
      quarantine, none enter, and only its own claim, close and reap touch its status. */
  ghost predicate ClosedToAppends(s: State, t: State, id: string) {
    && id in t.bundles
    && (forall i :: 0 <= i < |t.members| && t.members[i].bundle == id ==>
          i < |s.members| && s.members[i].bundle == id && t.members[i] == s.members[i])
    && (forall i :: 0 <= i < |s.members| ==> RowKept(s, t, i))
  }

  /** What an enqueue does: at most one new open bundle, then an append to an open bundle. */
  ghost predicate Enlarged(s: State, t: State) {
    && (forall other :: other in s.bundles ==> other in t.bundles && t.bundles[other].status == s.bundles[other].status)
    && (forall other :: other in s.bundles && s.bundles[other].status != Open ==> t.bundles[other] == s.bundles[other])
    && (forall other :: other in t.bundles && other !in s.bundles ==> t.bundles[other].status == Open)
    && (forall i :: 0 <= i < |s.members| ==> RowKept(s, t, i) && t.members[i].bundle == s.members[i].bundle)
    && (forall i :: 0 <= i < |t.members| && t.members[i].bundle in s.bundles && s.bundles[t.members[i].bundle].status != Open ==>
          i < |s.members| && t.members[i] == s.members[i])
  }

  lemma GrownEnlarges(s: State, ready: State, t: State, id: string)
    requires OpensAtMostOne(s, ready) && Grown(ready, t, id)
    ensures Enlarged(s, t)
  {
  }

  lemma DestinationOpens(s: State, group: string, targetBytes: int, maxAge: int, id: string, now: int, size: nat,
                         probe: Option<string>)
    ensures var d := Destination(s, group, targetBytes, maxAge, id, now, size, probe);
            d.Ok? ==> OpensAtMostOne(s, d.value.0)
  {
  }

  ghost predicate OpensAtMostOne(s: State, t: State) {
    && t.members == s.members
    && (forall other :: other in s.bundles ==> other in t.bundles && t.bundles[other] == s.bundles[other])
    && (forall other :: other in t.bundles && other !in s.bundles ==> t.bundles[other].status == Open)
  }

  lemma EnqueueRows(sha: string -> Digest, s: State, step: Step)
    requires step.Enqueued?
    ensures Enlarged(s, Apply(sha, s, step))
  {
    var r := Enqueue(sha, s, step.group, step.targetBytes, step.maxAge, step.id, step.now, step.item, step.probe);
    if r.Ok? {
      var d := Destination(s, step.group, step.targetBytes, step.maxAge, step.id, step.now, step.item.size, step.probe);
      DestinationOpens(s, step.group, step.targetBytes, step.maxAge, step.id, step.now, step.item.size, step.probe);
      AppendEnlarges(sha, s, d.value.0, d.value.1, step.item);
    }
  }

  lemma AppendEnlarges(sha: string -> Digest, s: State, ready: State, id: string, item: Item)
    requires OpensAtMostOne(s, ready) && Append(sha, ready, id, item).Ok?
    ensures Enlarged(s, Append(sha, ready, id, item).value.state)
  {
    AppendRows(sha, ready, id, item);
    GrownEnlarges(s, ready, Append(sha, ready, id, item).value.state, id);
  }

  lemma SameRowsClosed(s: State, t: State, id: string)
    requires t.members == s.members && id in t.bundles
    ensures ClosedToAppends(s, t, id)
  {
  }

  lemma QuarantineClosed(s: State, other: string, token: string, m: nat, qid: string, now: int, id: string)
    requires Quarantine(s, other, token, m, qid, now).Ok? && id in s.bundles && s.bundles[id].status != Held
    ensures ClosedToAppends(s, Quarantine(s, other, token, m, qid, now).value, id)
  {
  }

  /** No step appends to, rewrites or drops a row of a bundle that is not open. */
  lemma StepClosed(sha: string -> Digest, s: State, step: Step, id: string)
    requires Inv(s) && id in s.bundles && s.bundles[id].status != Open && s.bundles[id].status != Held
    ensures ClosedToAppends(s, Apply(sha, s, step), id)
  {
    match step {
      case Enqueued(_, _, _, _, _, _, _) => EnqueueRows(sha, s, step);
      case Added(other, item) => if Append(sha, s, other, item).Ok? { AppendRows(sha, s, other, item); }
      case Quarantined(other, token, m, qid, now) =>
        if Quarantine(s, other, token, m, qid, now).Ok? { QuarantineClosed(s, other, token, m, qid, now, id); }
      case _ => SameRowsClosed(s, Apply(sha, s, step), id);
    }
  }

  // ----- Terminal states -----

  predicate Terminal(s: State, id: string) {
    id in s.bundles && (s.bundles[id].status == Sealed || s.bundles[id].status == Void)
  }

  /** The bundle row and its member rows are the same in both states. */
  ghost predicate Frozen(s: State, t: State, id: string) {
    && id in s.bundles && id in t.bundles && t.bundles[id] == s.bundles[id]
    && (forall i :: 0 <= i < |s.members| && s.members[i].bundle == id ==> i < |t.members| && t.members[i] == s.members[i])
    && (forall i :: 0 <= i < |t.members| && t.members[i].bundle == id ==> i < |s.members| && s.members[i].bundle == id)
  }

  lemma QuarantineFreezes(s: State, other: string, token: string, m: nat, qid: string, now: int, id: string)
    requires Quarantine(s, other, token, m, qid, now).Ok? && Terminal(s, id)
    ensures Frozen(s, Quarantine(s, other, token, m, qid, now).value, id)
  {
  }

  lemma StepFreezesTerminal(sha: string -> Digest, s: State, step: Step, id: string)
    requires Inv(s) && Terminal(s, id)
    ensures Frozen(s, Apply(sha, s, step), id)
  {
    match step {
      case Enqueued(_, _, _, _, _, _, _) => EnqueueFreezes(sha, s, step, id);
      case Added(other, item) => if Append(sha, s, other, item).Ok? { AppendFreezes(sha, s, other, item, id); }
      case Quarantined(other, token, m, qid, now) =>
        if Quarantine(s, other, token, m, qid, now).Ok? { QuarantineFreezes(s, other, token, m, qid, now, id); }
      case _ => GuardFreezes(sha, s, step, id);
    }
  }

  lemma EnqueueFreezes(sha: string -> Digest, s: State, step: Step, id: string)
    requires Inv(s) && Terminal(s, id) && step.Enqueued?
    ensures Frozen(s, Apply(sha, s, step), id)
  {
    EnqueueRows(sha, s, step);
  }

  lemma AppendFreezes(sha: string -> Digest, s: State, other: string, item: Item, id: string)
    requires Terminal(s, id) && Append(sha, s, other, item).Ok?
    ensures Frozen(s, Append(sha, s, other, item).value.state, id)
  {
    AppendRows(sha, s, other, item);
  }

  /** The steps that touch no member row are refused by a terminal bundle. */
  lemma GuardFreezes(sha: string -> Digest, s: State, step: Step, id: string)
    requires Terminal(s, id) && !step.Enqueued? && !step.Added? && !step.Quarantined?
    ensures Frozen(s, Apply(sha, s, step), id)
  {
  }

  /** Sealed and void are terminal: no run changes the bundle row or any of its member rows. */
  lemma {:induction false} TerminalIsForever(sha: string -> Digest, s: State, steps: seq<Step>, id: string)
    requires Inv(s) && Terminal(s, id)
    ensures Frozen(s, Run(sha, s, steps), id)
    decreases |steps|
  {
    if steps != [] {
      var front := steps[..|steps| - 1];
      TerminalIsForever(sha, s, front, id);
      RunKeepsInv(sha, s, front);
      StepFreezesTerminal(sha, Run(sha, s, front), steps[|steps| - 1], id);
    }
  }

  // ----- Claim and seal -----

  predicate HeldBy(s: State, id: string, token: string) {
    id in s.bundles && s.bundles[id].status == Flushing && s.bundles[id].claimedBy == Some(token)
  }

  /** Only a claim with that token puts a bundle under it. */
  lemma ClaimStartsHere(sha: string -> Digest, s: State, step: Step, id: string, token: string)
    requires Inv(s) && !HeldBy(s, id, token) && HeldBy(Apply(sha, s, step), id, token)
    ensures step.Claimed? && step.id == id && step.token == token
  {
    match step {
      case Enqueued(_, _, _, _, _, _, _) => EnqueueRows(sha, s, step);
      case Added(other, item) => if Append(sha, s, other, item).Ok? { AppendRows(sha, s, other, item); }
      case _ =>
    }
  }

  /** The run never claims the bundle with this token. */
  predicate NoClaim(steps: seq<Step>, id: string, token: string) {
    forall k :: 0 <= k < |steps| ==> !(steps[k].Claimed? && steps[k].id == id && steps[k].token == token)
  }

  /** If the token is not reused, a claim that is still there at the end was there all along. */
  lemma {:induction false} ClaimHeldThroughout(sha: string -> Digest, s: State, steps: seq<Step>, id: string,
                                               token: string, j: nat)
    requires Inv(s) && NoClaim(steps, id, token) && j <= |steps|
    requires HeldBy(Run(sha, s, steps), id, token)
    ensures HeldBy(Run(sha, s, steps[..j]), id, token)
    decreases |steps|
  {
    if j == |steps| {
      assert steps[..j] == steps;
    } else {
      var n := |steps| - 1;
      var front := steps[..n];
      RunKeepsInv(sha, s, front);
      if !HeldBy(Run(sha, s, front), id, token) {
        ClaimStartsHere(sha, Run(sha, s, front), steps[n], id, token);
      }
      assert front[..j] == steps[..j];
      ClaimHeldThroughout(sha, s, front, id, token, j);
    }
  }

  /** `t` holds of bundle `id` exactly the rows `s` held, less rows now in held bundles. */
  ghost predicate SplitFrom(s: State, t: State, id: string) {
    && (forall i :: 0 <= i < |t.members| && t.members[i].bundle == id ==>
          i < |s.members| && s.members[i].bundle == id && t.members[i] == s.members[i])
    && (forall i :: 0 <= i < |s.members| && s.members[i].bundle == id ==>
          i < |t.members| && (t.members[i] == s.members[i] || MovedToHeld(s, t, i)))
  }

  ghost predicate MovedToHeld(s: State, t: State, i: nat)
    requires i < |s.members| && i < |t.members|
  {
    && t.members[i] == s.members[i].(bundle := t.members[i].bundle)
    && t.members[i].bundle in t.bundles && t.bundles[t.members[i].bundle].status == Held
  }

  /** A held bundle stays held and keeps its rows: nothing appends to it or moves rows out. */
  lemma StepKeepsHeld(sha: string -> Digest, s: State, step: Step, i: nat)
    requires Inv(s) && i < |s.members| && s.bundles[s.members[i].bundle].status == Held
    ensures var t := Apply(sha, s, step);
            i < |t.members| && t.members[i] == s.members[i]
            && s.members[i].bundle in t.bundles && t.bundles[s.members[i].bundle].status == Held
  {
    match step {
      case Enqueued(_, _, _, _, _, _, _) => EnqueueRows(sha, s, step);
      case Added(other, item) => if Append(sha, s, other, item).Ok? { AppendRows(sha, s, other, item); }
      case Quarantined(other, token, m, qid, now) =>
        if Quarantine(s, other, token, m, qid, now).Ok? { QuarantineKeepsHeld(s, other, token, m, qid, now, i); }
      case _ => GuardKeepsHeld(sha, s, step, i);
    }
  }

  ghost predicate HeldRow(s: State, t: State, i: nat)
    requires i < |s.members|
  {
    && i < |t.members| && t.members[i] == s.members[i]
    && s.members[i].bundle in t.bundles && t.bundles[s.members[i].bundle].status == Held
  }

  lemma QuarantineKeepsHeld(s: State, other: string, token: string, m: nat, qid: string, now: int, i: nat)
    requires i < |s.members| && s.members[i].bundle in s.bundles && s.bundles[s.members[i].bundle].status == Held
    requires Quarantine(s, other, token, m, qid, now).Ok?
    ensures HeldRow(s, Quarantine(s, other, token, m, qid, now).value, i)
  {
  }

  /** The steps that touch no member row leave a held bundle held. */
  lemma GuardKeepsHeld(sha: string -> Digest, s: State, step: Step, i: nat)
    requires i < |s.members| && s.members[i].bundle in s.bundles && s.bundles[s.members[i].bundle].status == Held
    requires !step.Enqueued? && !step.Added? && !step.Quarantined?
    ensures HeldRow(s, Apply(sha, s, step), i)
  {
  }

  lemma StepSplits(sha: string -> Digest, s: State, t: State, step: Step, id: string)
    requires Inv(t) && id in t.bundles && t.bundles[id].status == Flushing && SplitFrom(s, t, id)
    ensures SplitFrom(s, Apply(sha, t, step), id)
  {
    var u := Apply(sha, t, step);
    StepClosed(sha, t, step, id);
    forall i | 0 <= i < |s.members| && s.members[i].bundle == id
      ensures i < |u.members| && (u.members[i] == s.members[i] || MovedToHeld(s, u, i))
    {
      assert RowKept(t, u, i);
      if t.members[i] == s.members[i] {
        StepRowInFlight(sha, t, step, id, i);
      } else {
        StepKeepsHeld(sha, t, step, i);
      }
    }
  }

  /** A row of a bundle in flight stays put or is quarantined. */
  lemma StepRowInFlight(sha: string -> Digest, t: State, step: Step, id: string, i: nat)
    requires Inv(t) && id in t.bundles && t.bundles[id].status == Flushing
    requires i < |t.members| && t.members[i].bundle == id
    ensures var u := Apply(sha, t, step); i < |u.members| && (u.members[i] == t.members[i] || MovedToHeld(t, u, i))
  {
    match step {
      case Enqueued(_, _, _, _, _, _, _) => EnqueueRows(sha, t, step);
      case Added(other, item) => if Append(sha, t, other, item).Ok? { AppendRows(sha, t, other, item); }
      case _ =>
    }
  }

  lemma {:induction false} RunSplits(sha: string -> Digest, s: State, steps: seq<Step>, id: string, token: string)
    requires Inv(s) && NoClaim(steps, id, token) && HeldBy(Run(sha, s, steps), id, token)
    ensures SplitFrom(s, Run(sha, s, steps), id)
    decreases |steps|
  {
    if steps != [] {
      var n := |steps| - 1;
      var front := steps[..n];
      ClaimHeldThroughout(sha, s, steps, id, token, n);
      RunSplits(sha, s, front, id, token);
      RunKeepsInv(sha, s, front);
      StepSplits(sha, s, Run(sha, s, front), steps[n], id);
    }
  }

  /** A flusher that claims with a token no later claim of the bundle reuses, and later closes with
      it, seals exactly the member rows it claimed, less those now in held quarantine bundles; and no
      run after the seal changes them. */
  lemma SealedContentIsClaimedContent(sha: string -> Digest, s: State, id: string, token: string, now: int,
                                      steps: seq<Step>, afterwards: seq<Step>)
    requires Inv(s) && Claim(s, id, token, now).Ok?
    requires NoClaim(steps, id, token)
    requires Close(Run(sha, Claim(s, id, token, now).value, steps), id, token).Ok?
    ensures var sealed := Close(Run(sha, Claim(s, id, token, now).value, steps), id, token).value;
            && sealed.bundles[id].status == Sealed
            && SplitFrom(s, sealed, id)
            && Frozen(sealed, Run(sha, sealed, afterwards), id)
  {
    var claimed := Claim(s, id, token, now).value;
    var last := Run(sha, claimed, steps);
    var sealed := Close(last, id, token).value;
    ClaimKeeps(s, id, token, now);
    RunSplits(sha, claimed, steps, id, token);
    RunKeepsInv(sha, claimed, steps);
    CloseKeeps(last, id, token);
    TerminalIsForever(sha, sealed, afterwards, id);
    forall i | 0 <= i < |s.members| && s.members[i].bundle == id
      ensures i < |sealed.members| && (sealed.members[i] == s.members[i] || MovedToHeld(s, sealed, i))
    {
      if last.members[i] != claimed.members[i] { assert MovedToHeld(claimed, last, i); }
    }
  }

  /** Why the token must not be reused: a process that claims, is reaped, and claims again under the
      same identity can close with the first claim's token after a row was added in between. The bundle
      is sealed, and not over the rows the first claim took less quarantined ones. */
  lemma ReusedTokenSealsMore(sha: string -> Digest, s: State, id: string, token: string, now: int, item: Item)
    requires Inv(s) && id in s.bundles && s.bundles[id].status == Open
    requires var r := Append(sha, s, id, item); r.Ok? && r.value.created
    ensures var t := Run(sha, s, [Claimed(id, token, now), Reaped(id), Added(id, item), Claimed(id, token, now), Closed(id, token)]);
            id in t.bundles && t.bundles[id].status == Sealed && !SplitFrom(s, t, id)
  {
    var steps := [Claimed(id, token, now), Reaped(id), Added(id, item), Claimed(id, token, now), Closed(id, token)];
    RunFive(sha, s, steps);
    var reaped := Apply(sha, Apply(sha, s, steps[0]), steps[1]);
    ClaimThenReap(sha, s, id, token, now);
    SameNamesAppend(sha, s, reaped, id, item);
    CreatedRow(sha, reaped, id, item);
    var added := Apply(sha, reaped, steps[2]);
    ClaimThenClose(sha, added, id, token, now);
    LateRowSplits(s, Apply(sha, Apply(sha, added, steps[3]), steps[4]), id);
  }

  lemma ClaimThenReap(sha: string -> Digest, s: State, id: string, token: string, now: int)
    requires id in s.bundles && s.bundles[id].status == Open
    ensures var t := Apply(sha, Apply(sha, s, Claimed(id, token, now)), Reaped(id));
            id in t.bundles && t.bundles[id].status == Open && t.members == s.members && t.assets == s.assets
  {
  }

  lemma ClaimThenClose(sha: string -> Digest, s: State, id: string, token: string, now: int)
    requires id in s.bundles && s.bundles[id].status == Open
    ensures var t := Apply(sha, Apply(sha, s, Claimed(id, token, now)), Closed(id, token));
            id in t.bundles && t.bundles[id].status == Sealed && t.members == s.members
  {
  }

  lemma LateRowSplits(s: State, t: State, id: string)
    requires |t.members| > |s.members| && t.members[|s.members|].bundle == id
    ensures !SplitFrom(s, t, id)
  {
  }

  /** An append depends on the bundle's status and rows, not on its other columns. */
  lemma SameNamesAppend(sha: string -> Digest, s: State, t: State, id: string, item: Item)
    requires id in s.bundles && id in t.bundles && s.bundles[id].status == t.bundles[id].status == Open
    requires t.members == s.members && t.assets == s.assets
    requires Append(sha, s, id, item).Ok? && Append(sha, s, id, item).value.created
    ensures Append(sha, t, id, item).Ok? && Append(sha, t, id, item).value.created
  {
  }

  lemma CreatedRow(sha: string -> Digest, s: State, id: string, item: Item)
    requires Append(sha, s, id, item).Ok? && Append(sha, s, id, item).value.created
    ensures var t := Append(sha, s, id, item).value.state;
            |t.members| == |s.members| + 1 && t.members[|s.members|].bundle == id && t.bundles.Keys == s.bundles.Keys
            && t.bundles[id].status == Open
  {
  }

  lemma RunFive(sha: string -> Digest, s: State, steps: seq<Step>)
    requires |steps| == 5
    ensures Run(sha, s, steps)
            == Apply(sha, Apply(sha, Apply(sha, Apply(sha, Apply(sha, s, steps[0]), steps[1]), steps[2]), steps[3]), steps[4])
  {
    assert steps[..5] == steps;
    RunNext(sha, s, steps, 0);
    RunNext(sha, s, steps, 1);
    RunNext(sha, s, steps, 2);
    RunNext(sha, s, steps, 3);
    RunNext(sha, s, steps, 4);
  }

  lemma RunNext(sha: string -> Digest, s: State, steps: seq<Step>, k: nat)
    requires k < |steps|
    ensures Run(sha, s, steps[..k + 1]) == Apply(sha, Run(sha, s, steps[..k]), steps[k])
  {
    assert steps[..k + 1][..k] == steps[..k];
  }
}
