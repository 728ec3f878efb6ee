/** What every catalog step of the accumulator protocol keeps. */
module BundleInvariant {
  import opened Wrappers
  import opened Numerals
  import opened MemberNaming
  import opened BundleCatalog

  /** Every bundle's counters are the count and byte sum of its own member rows. */
  ghost predicate CountersExact(s: State) {
    forall id :: id in s.bundles ==>
      s.bundles[id].memberCount == CountIn(s.members, id) && s.bundles[id].totalBytes == BytesIn(s.members, id)
  }

  ghost predicate MembersHomed(s: State) {
    forall i :: 0 <= i < |s.members| ==> s.members[i].bundle in s.bundles
  }

  /** Paths are unique within a bundle. */
  ghost predicate PathsUnique(s: State) {
    forall i, j :: 0 <= i < j < |s.members| && s.members[i].bundle == s.members[j].bundle ==> s.members[i].path != s.members[j].path
  }

  /** The partial unique index: at most one open accumulator per group. */
  ghost predicate OneAccumulator(s: State) {
    forall a, b, group :: IsAccumulator(s, a, group) && IsAccumulator(s, b, group) ==> a == b
  }

  /** The columns a status implies. An open bundle that carries an archive id but was never claimed
      is an include-alone funnel, and holds at least its target. */
  predicate Coherent(b: Bundle) {
    && b.targetBytes > 0 && b.maxAge > 0
    && (b.status == Open ==> b.claimedBy.None?)
    && (b.status == Flushing ==> b.archiveId.Some? && b.claimedBy.Some? && b.flushedAt.Some?)
    && (b.status == Held ==> b.archiveId.Some?)
    && (b.status == Sealed ==> b.archiveId.Some? && b.claimedBy.Some?)
    && (b.status == Void ==> b.archiveId.None? && b.memberCount == 0)
    && (b.status == Open && b.archiveId.Some? && b.flushedAt.None? ==> b.totalBytes >= b.targetBytes)
  }

  ghost predicate AllCoherent(s: State) {
    forall id :: id in s.bundles ==> Coherent(s.bundles[id])
  }

  /** Transform rows carry the bundle of their member. */
  ghost predicate TransformsFollow(s: State) {
    forall t :: 0 <= t < |s.transforms| ==>
      s.transforms[t].member < |s.members| && s.transforms[t].bundle == s.members[s.transforms[t].member].bundle
  }

  ghost predicate Inv(s: State) {
    CountersExact(s) && MembersHomed(s) && PathsUnique(s) && OneAccumulator(s) && AllCoherent(s) && TransformsFollow(s)
  }

  lemma SameBundles(s: State, after: State)
    requires OneAccumulator(s) && after.bundles == s.bundles
    ensures OneAccumulator(after)
  {
    forall x, y, group | IsAccumulator(after, x, group) && IsAccumulator(after, y, group)
      ensures x == y
    {
      assert IsAccumulator(s, x, group) && IsAccumulator(s, y, group);
    }
  }

  /** Steps that only rewrite one bundle row's lifecycle columns. */
  lemma RelabelKeeps(s: State, id: string, b: Bundle)
    requires Inv(s) && id in s.bundles && Coherent(b)
    requires b.memberCount == s.bundles[id].memberCount && b.totalBytes == s.bundles[id].totalBytes && b.group == s.bundles[id].group
    requires b.status == Open && b.archiveId.None? ==> s.bundles[id].status == Open && s.bundles[id].archiveId.None?
    ensures Inv(s.(bundles := s.bundles[id := b]))
  {
    var after := s.(bundles := s.bundles[id := b]);
    forall x, y, group | IsAccumulator(after, x, group) && IsAccumulator(after, y, group)
      ensures x == y
    {
      assert IsAccumulator(s, x, group) && IsAccumulator(s, y, group);
    }
  }

  lemma ClaimKeeps(s: State, id: string, token: string, now: int)
    requires Inv(s)
    ensures Claim(s, id, token, now).Ok? ==> Inv(Claim(s, id, token, now).value)
  {
    if id in s.bundles && s.bundles[id].status == Open {
      RelabelKeeps(s, id, Claim(s, id, token, now).value.bundles[id]);
    }
  }

  lemma CloseKeeps(s: State, id: string, token: string)
    requires Inv(s)
    ensures Close(s, id, token).Ok? ==> Inv(Close(s, id, token).value)
  {
    if Close(s, id, token).Ok? {
      RelabelKeeps(s, id, s.bundles[id].(status := Sealed));
    }
  }

  /** Reaping never makes a second accumulator: a claimed bundle always carries an archive id. */
  lemma ReapKeeps(s: State, id: string)
    requires Inv(s)
    ensures Reap(s, id).Ok? ==> Inv(Reap(s, id).value) && forall group :: !IsAccumulator(Reap(s, id).value, id, group)
  {
    if Reap(s, id).Ok? {
      RelabelKeeps(s, id, s.bundles[id].(status := Open, claimedBy := None));
    }
  }

  lemma VoidKeeps(s: State, id: string, live: set<string>)
    requires Inv(s)
    ensures VoidSeal(s, id, live).Ok? ==> Inv(VoidSeal(s, id, live).value)
  {
    if VoidSeal(s, id, live).Ok? {
      RelabelKeeps(s, id, s.bundles[id].(status := Void));
    }
  }

  /** A fresh bundle row, open or held, keeps everything unless it makes a second accumulator. */
  lemma FreshBundleKeeps(s: State, id: string, b: Bundle)
    requires Inv(s) && id !in s.bundles && b.memberCount == 0 && b.totalBytes == 0
    requires b.status == Open && b.archiveId.None? ==> forall other :: !IsAccumulator(s, other, b.group)
    ensures var after := s.(bundles := s.bundles[id := b]);
            CountersExact(after) && MembersHomed(after) && PathsUnique(after) && OneAccumulator(after) && TransformsFollow(after)
    ensures Coherent(b) ==> Inv(s.(bundles := s.bundles[id := b]))
  {
    var after := s.(bundles := s.bundles[id := b]);
    CountZero(s.members, id);
    forall x, y, group | IsAccumulator(after, x, group) && IsAccumulator(after, y, group)
      ensures x == y
    {
      assert x == id || IsAccumulator(s, x, group);
      assert y == id || IsAccumulator(s, y, group);
    }
  }

  lemma GetOrCreateKeeps(s: State, group: string, targetBytes: int, maxAge: int, id: string, now: int)
    requires Inv(s) && targetBytes > 0 && maxAge > 0
    ensures var r := GetOrCreate(s, group, targetBytes, maxAge, id, now);
            r.Ok? ==> Inv(r.value.0) && IsAccumulator(r.value.0, r.value.1, group) && r.value.0.members == s.members
                      && r.value.0.assets == s.assets && s.bundles.Keys <= r.value.0.bundles.Keys
  {
    if OpenAccumulator(s, group).None? && id !in s.bundles {
      FreshBundleKeeps(s, id, NewBundle(group, targetBytes, maxAge, None, now));
    }
  }

  // ----- Appends -----

  lemma WithMemberCounters(s: State, id: string, row: Member)
    requires CountersExact(s) && id in s.bundles && row.bundle == id
    ensures CountersExact(WithMember(s, id, row))
  {
  }

  lemma WithMemberPaths(s: State, id: string, row: Member)
    requires PathsUnique(s) && id in s.bundles && row.bundle == id && row.path !in NamesIn(s.members, id)
    ensures PathsUnique(WithMember(s, id, row))
  {
    forall i | 0 <= i < |s.members| && s.members[i].bundle == id
      ensures s.members[i].path != row.path
    {
      NamesComplete(s.members, id, i);
    }
  }

  /** Growing a bundle by one freshly named row keeps everything but, for a funnel, needs its target met. */
  lemma WithMemberKeeps(s: State, id: string, row: Member)
    requires CountersExact(s) && MembersHomed(s) && PathsUnique(s) && OneAccumulator(s) && TransformsFollow(s)
    requires forall other :: other in s.bundles && other != id ==> Coherent(s.bundles[other])
    requires id in s.bundles && row.bundle == id && row.path !in NamesIn(s.members, id)
    requires s.bundles[id].status == Open
    requires Coherent(WithMember(s, id, row).bundles[id])
    ensures Inv(WithMember(s, id, row))
  {
    var after := WithMember(s, id, row);
    WithMemberCounters(s, id, row);
    WithMemberPaths(s, id, row);
    forall x, y, group | IsAccumulator(after, x, group) && IsAccumulator(after, y, group)
      ensures x == y
    {
      assert IsAccumulator(s, x, group) && IsAccumulator(s, y, group);
    }
  }

  lemma MergeRowKeeps(s: State, i: nat, metadata: Metadata)
    requires Inv(s) && i < |s.members|
    ensures Inv(s.(members := s.members[i := s.members[i].(metadata := metadata)]))
  {
    var row := s.members[i].(metadata := metadata);
    forall id | id in s.bundles
      ensures s.bundles[id].memberCount == CountIn(s.members[i := row], id) && s.bundles[id].totalBytes == BytesIn(s.members[i := row], id)
    {
      CountUpdate(s.members, i, row, id);
    }
    SameBundles(s, s.(members := s.members[i := row]));
  }

  lemma AppendKeeps(sha: string -> Digest, s: State, id: string, item: Item)
    requires Inv(s)
    ensures Append(sha, s, id, item).Ok? ==> Inv(Append(sha, s, id, item).value.state)
  {
    var r := Append(sha, s, id, item);
    if r.Ok? {
      var found := Resolve(sha, NamesIn(s.members, id), item.request);
      if found.Free? {
        WithMemberKeeps(s, id, NewMember(id, NameLadder(sha, item.request)[found.rung], item));
      } else {
        var row := s.members[r.value.row];
        MergeRowKeeps(s, r.value.row, Merge(row.metadata, item.metadata));
      }
    }
  }

  /** The first member of a fresh funnel meets the funnel's target. */
  lemma FunnelAppendKeeps(sha: string -> Digest, s: State, id: string, b: Bundle, item: Item)
    requires Inv(s) && id !in s.bundles
    requires b == NewBundle(b.group, b.targetBytes, b.maxAge, Some(ArchiveName(id)), b.openedAt)
    requires b.targetBytes > 0 && b.maxAge > 0 && item.size >= b.targetBytes
    ensures var r := Append(sha, s.(bundles := s.bundles[id := b]), id, item); r.Ok? ==> Inv(r.value.state)
  {
    var minted := s.(bundles := s.bundles[id := b]);
    FreshBundleKeeps(s, id, b);
    assert NamesIn(s.members, id) == map[] by { CountZero(s.members, id); }
    FirstRung(sha, item.request);
    if item.request.logical in s.assets {
      WithMemberKeeps(minted, id, NewMember(id, item.request.path, item));
    }
  }

  lemma FirstRung(sha: string -> Digest, r: Request)
    ensures Resolve(sha, map[], r) == Free(0)
  {
  }

  lemma EnqueueKeeps(sha: string -> Digest, s: State, group: string, targetBytes: int, maxAge: int, id: string, now: int,
                     item: Item, probe: Option<string>)
    requires Inv(s)
    ensures var r := Enqueue(sha, s, group, targetBytes, maxAge, id, now, item, probe); r.Ok? ==> Inv(r.value.state)
  {
    if targetBytes > 0 && maxAge > 0 {
      if item.size < targetBytes {
        GetOrCreateKeeps(s, group, targetBytes, maxAge, id, now);
        var r := GetOrCreate(s, group, targetBytes, maxAge, id, now);
        if r.Ok? { AppendKeeps(sha, r.value.0, r.value.1, item); }
      } else if probe.None? && id !in s.bundles {
        FunnelAppendKeeps(sha, s, id, NewBundle(group, targetBytes, maxAge, Some(ArchiveName(id)), now), item);
      } else {
        AppendKeeps(sha, s, if probe.Some? then probe.value else id, item);
      }
    }
  }

  // ----- Quarantine -----

  lemma QuarantineCounters(s: State, id: string, token: string, m: nat, qid: string, now: int)
    requires Inv(s) && Quarantine(s, id, token, m, qid, now).Ok?
    ensures CountersExact(Quarantine(s, id, token, m, qid, now).value)
  {
    var after := Quarantine(s, id, token, m, qid, now).value;
    var row := s.members[m].(bundle := qid);
    if qid !in s.bundles { CountZero(s.members, qid); }
    forall other | other in after.bundles
      ensures after.bundles[other].memberCount == CountIn(after.members, other)
      ensures after.bundles[other].totalBytes == BytesIn(after.members, other)
    {
      CountUpdate(s.members, m, row, other);
    }
  }

  lemma QuarantineKeeps(s: State, id: string, token: string, m: nat, qid: string, now: int)
    requires Inv(s) && Quarantine(s, id, token, m, qid, now).Ok?
    ensures Inv(Quarantine(s, id, token, m, qid, now).value)
  {
    var after := Quarantine(s, id, token, m, qid, now).value;
    QuarantineCounters(s, id, token, m, qid, now);
    assert PathsUnique(after);
    forall x, y, group | IsAccumulator(after, x, group) && IsAccumulator(after, y, group)
      ensures x == y
    {
      assert IsAccumulator(s, x, group) && IsAccumulator(s, y, group);
    }
    forall other | other in after.bundles
      ensures Coherent(after.bundles[other])
    {
      if other != id && other != qid { assert Coherent(s.bundles[other]); }
    }
  }

  /** Quarantine conserves: no row or transform appears or disappears, the moved row takes exactly its
      own transforms with it, the two bundles' counters together stay what they were, and no other
      bundle changes. */
  lemma QuarantineConserves(s: State, id: string, token: string, m: nat, qid: string, now: int)
    requires Inv(s) && Quarantine(s, id, token, m, qid, now).Ok?
    ensures var t := Quarantine(s, id, token, m, qid, now).value;
            && id != qid && |t.members| == |s.members| && |t.transforms| == |s.transforms|
            && (forall i :: 0 <= i < |s.members| ==> t.members[i] == s.members[i].(bundle := if i == m then qid else s.members[i].bundle))
            && (forall k :: 0 <= k < |s.transforms| ==>
                  t.transforms[k] == s.transforms[k].(bundle := t.members[s.transforms[k].member].bundle))
            && CountIn(t.members, id) + CountIn(t.members, qid) == CountIn(s.members, id) + CountIn(s.members, qid)
            && BytesIn(t.members, id) + BytesIn(t.members, qid) == BytesIn(s.members, id) + BytesIn(s.members, qid)
            && (forall other :: other in s.bundles && other != id && other != qid ==> t.bundles[other] == s.bundles[other])
  {
    var t := Quarantine(s, id, token, m, qid, now).value;
    CountUpdate(s.members, m, s.members[m].(bundle := qid), id);
    CountUpdate(s.members, m, s.members[m].(bundle := qid), qid);
    forall k | 0 <= k < |s.transforms|
      ensures t.transforms[k] == s.transforms[k].(bundle := t.members[s.transforms[k].member].bundle)
    {
      assert s.transforms[k].member < |s.members|;
    }
  }

  lemma RecordTransformKeeps(s: State, m: nat, step: Staging)
    requires Inv(s)
    ensures RecordTransform(s, m, step).Ok? ==> Inv(RecordTransform(s, m, step).value)
  {
    if RecordTransform(s, m, step).Ok? {
      SameBundles(s, RecordTransform(s, m, step).value);
    }
  }

  lemma PlaceCopyKeeps(s: State, copy: BundleCopy)
    requires Inv(s)
    ensures Inv(PlaceCopy(s, copy))
  {
    SameBundles(s, PlaceCopy(s, copy));
  }
}
