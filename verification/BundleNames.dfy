/** What a run does to the rows it holds: every row lasts, names stay available, and a repeated
    append finds the row it made. */
module BundleNames {
  import opened Wrappers
  import opened Numerals
  import opened MemberNaming
  import opened BundleCatalog
  import opened BundleInvariant
  import opened BundleRuns

  // ----- Rows last -----

  predicate Appends(step: Step) { step.Enqueued? || step.Added? }

  lemma StepKeepsRows(sha: string -> Digest, s: State, step: Step)
    ensures forall i :: 0 <= i < |s.members| ==> RowKept(s, Apply(sha, s, step), i)
    ensures !Appends(step) ==> |Apply(sha, s, step).members| == |s.members|
  {
    match step {
      case Enqueued(_, _, _, _, _, _, _) => EnqueueRows(sha, s, step);
      case Added(id, item) => if Append(sha, s, id, item).Ok? { AppendRows(sha, s, id, item); }
      case _ =>
    }
  }

  /** No run deletes a member row or changes what it names: its class, logical hash, path, size and
      staged digest are fixed, its submission links only grow, and its bundle changes only by
      quarantine into a held bundle. */
  lemma {:induction false} RowLasts(sha: string -> Digest, s: State, steps: seq<Step>, i: nat)
    requires Inv(s) && i < |s.members|
    ensures RowKept(s, Run(sha, s, steps), i)
    decreases |steps|
  {
    if steps != [] {
      var n := |steps| - 1;
      var front := steps[..n];
      var t := Run(sha, s, front);
      RowLasts(sha, s, front, i);
      RunKeepsInv(sha, s, front);
      StepKeepsRows(sha, t, steps[n]);
      assert RowKept(t, Apply(sha, t, steps[n]), i);
      if t.members[i].bundle != s.members[i].bundle {
        StepKeepsHeld(sha, t, steps[n], i);
      }
    }
  }

  // ----- Staging steps -----

  /** Every recorded staging step fits its member's row, and no member has one step twice. */
  ghost predicate StagingSound(s: State) {
    && (forall k :: 0 <= k < |s.transforms| ==>
          s.transforms[k].member < |s.members| && StagingFits(s.members[s.transforms[k].member], s.transforms[k].step))
    && (forall j, k :: 0 <= j < k < |s.transforms| && s.transforms[j].member == s.transforms[k].member ==>
          s.transforms[j].step.order != s.transforms[k].step.order)
  }

  /** The transform rows after a step: at most one more, and none changes its member or its step. */
  ghost predicate StagingGrows(s: State, t: State) {
    && |s.transforms| <= |t.transforms| <= |s.transforms| + 1
    && (forall k :: 0 <= k < |s.transforms| ==>
          t.transforms[k].member == s.transforms[k].member && t.transforms[k].step == s.transforms[k].step)
    && (|t.transforms| > |s.transforms| ==>
          var row := t.transforms[|s.transforms|];
          row.member < |s.members| && StagingFits(s.members[row.member], row.step) && !StagingTaken(s, row.member, row.step))
  }

  lemma AppendKeepsStaging(sha: string -> Digest, s: State, id: string, item: Item)
    requires Append(sha, s, id, item).Ok?
    ensures Append(sha, s, id, item).value.state.transforms == s.transforms
  {
  }

  lemma StepStaging(sha: string -> Digest, s: State, step: Step)
    ensures StagingGrows(s, Apply(sha, s, step))
  {
    match step {
      case Enqueued(group, targetBytes, maxAge, id, now, item, probe) =>
        var d := Destination(s, group, targetBytes, maxAge, id, now, item.size, probe);
        if d.Ok? && Append(sha, d.value.0, d.value.1, item).Ok? { AppendKeepsStaging(sha, d.value.0, d.value.1, item); }
      case Added(id, item) => if Append(sha, s, id, item).Ok? { AppendKeepsStaging(sha, s, id, item); }
      case _ =>
    }
  }

  lemma GrownStagingSound(s: State, t: State)
    requires StagingSound(s) && StagingGrows(s, t) && forall i :: 0 <= i < |s.members| ==> RowKept(s, t, i)
    ensures StagingSound(t)
  {
    forall k | 0 <= k < |t.transforms|
      ensures t.transforms[k].member < |t.members| && StagingFits(t.members[t.transforms[k].member], t.transforms[k].step)
    {
      assert RowKept(s, t, t.transforms[k].member);
    }
    forall j, k | 0 <= j < k < |t.transforms| && t.transforms[j].member == t.transforms[k].member
      ensures t.transforms[j].step.order != t.transforms[k].step.order
    {
      assert j < |s.transforms|;
    }
  }

  /** In every run each recorded staging step stays true of its member: the final one names the
      archived path and digest, the first one the logical hash, and the steps are numbered apart. */
  lemma {:induction false} RunKeepsStaging(sha: string -> Digest, s: State, steps: seq<Step>)
    requires StagingSound(s)
    ensures StagingSound(Run(sha, s, steps))
    decreases |steps|
  {
    if steps != [] {
      var n := |steps| - 1;
      RunKeepsStaging(sha, s, steps[..n]);
      var t := Run(sha, s, steps[..n]);
      StepStaging(sha, t, steps[n]);
      StepKeepsRows(sha, t, steps[n]);
      GrownStagingSound(t, Apply(sha, t, steps[n]));
    }
  }

  lemma AppendKeepsAssets(sha: string -> Digest, s: State, id: string, item: Item)
    requires Append(sha, s, id, item).Ok?
    ensures Append(sha, s, id, item).value.state.assets == s.assets
  {
  }

  lemma StepKeepsAssets(sha: string -> Digest, s: State, step: Step)
    ensures Apply(sha, s, step).assets == s.assets
  {
    match step {
      case Enqueued(group, targetBytes, maxAge, id, now, item, probe) =>
        var d := Destination(s, group, targetBytes, maxAge, id, now, item.size, probe);
        if d.Ok? && Append(sha, d.value.0, d.value.1, item).Ok? { AppendKeepsAssets(sha, d.value.0, d.value.1, item); }
      case Added(id, item) => if Append(sha, s, id, item).Ok? { AppendKeepsAssets(sha, s, id, item); }
      case _ =>
    }
  }

  lemma {:induction false} RunKeepsAssets(sha: string -> Digest, s: State, steps: seq<Step>)
    ensures Run(sha, s, steps).assets == s.assets
    decreases |steps|
  {
    if steps != [] {
      RunKeepsAssets(sha, s, steps[..|steps| - 1]);
      StepKeepsAssets(sha, Run(sha, s, steps[..|steps| - 1]), steps[|steps| - 1]);
    }
  }

  // ----- Names never run out -----

  /** Row `i` is named off the ladder of request `q`, for `q`'s own class and logical hash. */
  predicate NamedFor(sha: string -> Digest, row: Member, q: Request) {
    row.path in NameLadder(sha, q) && row.artifactclass == q.artifactclass && row.logical == q.logical
  }

  ghost predicate Sourced(sha: string -> Digest, s: State, requests: set<Request>) {
    forall i :: 0 <= i < |s.members| ==> RowSourced(sha, s.members[i], requests)
  }

  ghost predicate RowSourced(sha: string -> Digest, row: Member, requests: set<Request>) {
    exists q :: q in requests && NamedFor(sha, row, q)
  }

  /** Every append of the run asks for one of `requests`. */
  predicate Offers(steps: seq<Step>, requests: set<Request>) {
    forall k :: 0 <= k < |steps| && Appends(steps[k]) ==> steps[k].item.request in requests
  }

  lemma NewRowNamed(sha: string -> Digest, s: State, id: string, item: Item)
    requires Append(sha, s, id, item).Ok?
    ensures var t := Append(sha, s, id, item).value.state;
            forall i :: |s.members| <= i < |t.members| ==> NamedFor(sha, t.members[i], item.request)
  {
    var r := Append(sha, s, id, item).value;
    if r.created {
      var ladder := NameLadder(sha, item.request);
      var found := Resolve(sha, NamesIn(s.members, id), item.request);
      assert r.state.members[|s.members|] == NewMember(id, ladder[found.rung], item);
    }
  }

  lemma KeptRowSourced(sha: string -> Digest, s: State, t: State, i: nat, requests: set<Request>)
    requires i < |s.members| && RowKept(s, t, i) && RowSourced(sha, s.members[i], requests)
    ensures RowSourced(sha, t.members[i], requests)
  {
    var q :| q in requests && NamedFor(sha, s.members[i], q);
    assert NamedFor(sha, t.members[i], q);
  }

  lemma StepNewRows(sha: string -> Digest, s: State, step: Step, i: nat)
    requires |s.members| <= i < |Apply(sha, s, step).members|
    ensures Appends(step) && NamedFor(sha, Apply(sha, s, step).members[i], step.item.request)
  {
    StepKeepsRows(sha, s, step);
    if step.Added? {
      NewRowNamed(sha, s, step.id, step.item);
    } else if step.Enqueued? {
      var d := Destination(s, step.group, step.targetBytes, step.maxAge, step.id, step.now, step.item.size, step.probe);
      DestinationOpens(s, step.group, step.targetBytes, step.maxAge, step.id, step.now, step.item.size, step.probe);
      NewRowNamed(sha, d.value.0, d.value.1, step.item);
    }
  }

  lemma StepSourced(sha: string -> Digest, s: State, step: Step, requests: set<Request>)
    requires Sourced(sha, s, requests) && (Appends(step) ==> step.item.request in requests)
    ensures Sourced(sha, Apply(sha, s, step), requests)
  {
    var t := Apply(sha, s, step);
    StepKeepsRows(sha, s, step);
    forall i | 0 <= i < |t.members|
      ensures RowSourced(sha, t.members[i], requests)
    {
      if i < |s.members| {
        KeptRowSourced(sha, s, t, i, requests);
      } else {
        StepNewRows(sha, s, step, i);
      }
    }
  }

  lemma {:induction false} RunSourced(sha: string -> Digest, s: State, steps: seq<Step>, requests: set<Request>)
    requires Sourced(sha, s, requests) && Offers(steps, requests)
    ensures Sourced(sha, Run(sha, s, steps), requests)
    decreases |steps|
  {
    if steps != [] {
      RunSourced(sha, s, steps[..|steps| - 1], requests);
      StepSourced(sha, Run(sha, s, steps[..|steps| - 1]), steps[|steps| - 1], requests);
    }
  }

  lemma SourcedNames(sha: string -> Digest, s: State, id: string, requests: set<Request>)
    requires Sourced(sha, s, requests)
    ensures NamedBy(sha, NamesIn(s.members, id), requests)
  {
    var names := NamesIn(s.members, id);
    forall name | name in names
      ensures exists q :: q in requests && name in NameLadder(sha, q) && IsOwn(names[name], q)
    {
      var i := NamesWitness(s.members, id, name);
      var q :| q in requests && NamedFor(sha, s.members[i], q);
      assert name in NameLadder(sha, q) && IsOwn(names[name], q);
    }
  }

  lemma AppendNotExhausted(sha: string -> Digest, s: State, id: string, item: Item)
    requires !Resolve(sha, NamesIn(s.members, id), item.request).Exhausted?
    ensures Append(sha, s, id, item) != Err(NamingExhausted)
  {
    var found := Resolve(sha, NamesIn(s.members, id), item.request);
    if found.Own? {
      var path := NameLadder(sha, item.request)[found.rung];
      var i := NamesWitness(s.members, id, path);
      assert HoldsName(s.members, id, path, i);
    }
  }

  /** In every run whose appends all come from an admissible set of requests, no append of such a
      request ever runs out of names, into any bundle. */
  lemma RunNeverExhaustsNames(sha: string -> Digest, s: State, steps: seq<Step>, requests: set<Request>, id: string,
                              item: Item)
    requires Admissible(sha, requests) && Sourced(sha, s, requests)
    requires Offers(steps, requests) && item.request in requests
    ensures Append(sha, Run(sha, s, steps), id, item) != Err(NamingExhausted)
  {
    var t := Run(sha, s, steps);
    RunSourced(sha, s, steps, requests);
    SourcedNames(sha, t, id, requests);
    LadderNeverExhausted(sha, NamesIn(t.members, id), requests, item.request);
    AppendNotExhausted(sha, t, id, item);
  }

  // ----- Re-adding -----

  /** The run quarantines nothing out of bundle `id`. */
  predicate NoQuarantineOf(steps: seq<Step>, id: string) {
    forall k :: 0 <= k < |steps| ==> !(steps[k].Quarantined? && steps[k].id == id)
  }

  lemma StepRowStays(sha: string -> Digest, s: State, step: Step, i: nat)
    requires i < |s.members| && !(step.Quarantined? && step.id == s.members[i].bundle)
    ensures var t := Apply(sha, s, step);
            i < |t.members| && t.members[i] == s.members[i].(metadata := t.members[i].metadata)
  {
    match step {
      case Enqueued(_, _, _, _, _, _, _) =>
        EnqueueRows(sha, s, step);
        assert RowKept(s, Apply(sha, s, step), i);
      case Added(id, item) =>
        if Append(sha, s, id, item).Ok? {
          AppendRows(sha, s, id, item);
          assert RowKept(s, Append(sha, s, id, item).value.state, i);
        }
      case _ =>
    }
  }

  lemma {:induction false} RunRowStays(sha: string -> Digest, s: State, steps: seq<Step>, i: nat)
    requires i < |s.members| && NoQuarantineOf(steps, s.members[i].bundle)
    ensures var t := Run(sha, s, steps);
            i < |t.members| && t.members[i] == s.members[i].(metadata := t.members[i].metadata)
    decreases |steps|
  {
    if steps != [] {
      RunRowStays(sha, s, steps[..|steps| - 1], i);
      StepRowStays(sha, Run(sha, s, steps[..|steps| - 1]), steps[|steps| - 1], i);
    }
  }

  /** Names follow rows: rows that stay put keep their bundle's names and occupants. */
  lemma NamesFollowRows(s: State, t: State, id: string)
    requires PathsUnique(t) && |s.members| <= |t.members|
    requires forall i :: 0 <= i < |s.members| && s.members[i].bundle == id ==>
               t.members[i] == s.members[i].(metadata := t.members[i].metadata)
    ensures Extends(NamesIn(s.members, id), NamesIn(t.members, id))
  {
    var names := NamesIn(s.members, id);
    forall name | name in names
      ensures name in NamesIn(t.members, id) && NamesIn(t.members, id)[name] == names[name]
    {
      var i := NamesWitness(s.members, id, name);
      NamesComplete(t.members, id, i);
      OccupantOf(t, id, i);
    }
  }

  lemma OccupantOf(t: State, id: string, i: nat)
    requires PathsUnique(t) && i < |t.members| && t.members[i].bundle == id
    requires t.members[i].path in NamesIn(t.members, id)
    ensures NamesIn(t.members, id)[t.members[i].path] == Occupant(t.members[i].artifactclass, t.members[i].logical)
    ensures RowAt(t.members, id, t.members[i].path) == Some(i)
  {
    var j := NamesWitness(t.members, id, t.members[i].path);
    assert HoldsName(t.members, id, t.members[i].path, i);
  }

  /** What an append leaves behind: its row, on the rung it resolved to, for its own class and hash. */
  lemma AppendedRow(sha: string -> Digest, s: State, id: string, item: Item)
    requires PathsUnique(s) && Append(sha, s, id, item).Ok?
    ensures var r := Append(sha, s, id, item).value;
            var found := Resolve(sha, NamesIn(s.members, id), item.request);
            && !found.Exhausted? && r.row < |r.state.members| && r.state.members[r.row].bundle == id
            && r.state.members[r.row].path == NameLadder(sha, item.request)[found.rung]
            && NamedFor(sha, r.state.members[r.row], item.request)
  {
    var r := Append(sha, s, id, item).value;
    var found := Resolve(sha, NamesIn(s.members, id), item.request);
    if found.Own? {
      var path := NameLadder(sha, item.request)[found.rung];
      NamesComplete(s.members, id, r.row);
      OccupantOf(s, id, r.row);
    }
  }

  /** Re-adding the same request to a bundle that is open again or still, after any run that
      quarantined nothing out of it, lands on the very row the first append made or found. No
      bundle's counters change, and no row but that one, whose metadata alone merges. */
  lemma ReAddFindsTheRow(sha: string -> Digest, s: State, id: string, item: Item, steps: seq<Step>, again: Item)
    requires Inv(s) && Append(sha, s, id, item).Ok? && NoQuarantineOf(steps, id) && again.request == item.request
    requires var t := Run(sha, Append(sha, s, id, item).value.state, steps); id in t.bundles && t.bundles[id].status == Open
    ensures var first := Append(sha, s, id, item).value;
            var t := Run(sha, first.state, steps);
            && first.row < |t.members|
            && Append(sha, t, id, again)
               == Ok(Appended(t.(members := t.members[first.row := t.members[first.row].(
                                   metadata := Merge(t.members[first.row].metadata, again.metadata))]), first.row, false))
  {
    var first := Append(sha, s, id, item).value;
    var t := Run(sha, first.state, steps);
    AppendKeeps(sha, s, id, item);
    AppendedRow(sha, s, id, item);
    RunKeepsInv(sha, first.state, steps);
    RunRowStays(sha, first.state, steps, first.row);
    NamesComplete(t.members, id, first.row);
    OccupantOf(t, id, first.row);
    AppendExtendsNames(sha, s, id, item);
    forall i | 0 <= i < |first.state.members| && first.state.members[i].bundle == id
      ensures i < |t.members| && t.members[i] == first.state.members[i].(metadata := t.members[i].metadata)
    {
      RunRowStays(sha, first.state, steps, i);
    }
    RunGrows(sha, first.state, steps);
    NamesFollowRows(first.state, t, id);
    ResolveStable(sha, NamesIn(s.members, id), NamesIn(t.members, id), item.request);
    AppendKeepsAssets(sha, s, id, item);
    RunKeepsAssets(sha, first.state, steps);
    OwnAppend(sha, t, id, again, first.row);
  }

  lemma OwnAppend(sha: string -> Digest, t: State, id: string, again: Item, row: nat)
    requires id in t.bundles && t.bundles[id].status == Open && again.request.logical in t.assets && row < |t.members|
    requires var found := Resolve(sha, NamesIn(t.members, id), again.request);
             found.Own? && RowAt(t.members, id, NameLadder(sha, again.request)[found.rung]) == Some(row)
    ensures Append(sha, t, id, again)
            == Ok(Appended(t.(members := t.members[row := t.members[row].(
                                metadata := Merge(t.members[row].metadata, again.metadata))]), row, false))
  {
  }

  lemma AppendExtendsNames(sha: string -> Digest, s: State, id: string, item: Item)
    requires Inv(s) && Append(sha, s, id, item).Ok?
    ensures Extends(NamesIn(s.members, id), NamesIn(Append(sha, s, id, item).value.state.members, id))
  {
    var t := Append(sha, s, id, item).value.state;
    AppendKeeps(sha, s, id, item);
    AppendRows(sha, s, id, item);
    assert forall i :: 0 <= i < |s.members| ==> RowKept(s, t, i);
    NamesFollowRows(s, t, id);
  }

  lemma {:induction false} RunGrows(sha: string -> Digest, s: State, steps: seq<Step>)
    ensures |s.members| <= |Run(sha, s, steps).members|
    decreases |steps|
  {
    if steps != [] {
      var t := Run(sha, s, steps[..|steps| - 1]);
      RunGrows(sha, s, steps[..|steps| - 1]);
      StepGrows(sha, t, steps[|steps| - 1]);
    }
  }

  lemma StepGrows(sha: string -> Digest, s: State, step: Step)
    ensures |s.members| <= |Apply(sha, s, step).members|
  {
  }
}
