/** The accumulator catalog as an object: each operation, loops and races included, refines one atomic step. */
module BundleStore {
  import opened Wrappers
  import opened Numerals
  import opened Ordering
  import opened MemberNaming
  import opened BundleCatalog
  import opened BundleInvariant
  import opened BundleNames

  /** Rows of a stale read: a prefix of today's rows names a subset of today's names. */
  lemma StaleNames(s: State, seen: nat, id: string)
    requires PathsUnique(s) && seen <= |s.members|
    ensures Extends(NamesIn(s.members[..seen], id), NamesIn(s.members, id))
  {
    NamesFollowRows(s.(members := s.members[..seen]), s, id);
  }

  lemma StaleRowAt(s: State, seen: nat, id: string, path: string)
    requires PathsUnique(s) && seen <= |s.members| && path in NamesIn(s.members[..seen], id)
    ensures RowAt(s.members[..seen], id, path).Some?
    ensures RowAt(s.members, id, path) == RowAt(s.members[..seen], id, path)
  {
    var i := NamesWitness(s.members[..seen], id, path);
    assert HoldsName(s.members[..seen], id, path, i);
    assert HoldsName(s.members, id, path, i);
    var r := RowAt(s.members[..seen], id, path);
    assert HoldsName(s.members, id, path, r.value);
  }

  /** What a ladder run on the first `seen` rows says about an append to today's rows: it is right,
      unless the free rung it found has been taken since. */
  lemma StaleAppend(sha: string -> Digest, s: State, id: string, item: Item, seen: nat)
    requires PathsUnique(s) && seen <= |s.members| && id in s.bundles && s.bundles[id].status == Open && item.request.logical in s.assets
    ensures StaleOutcome(NameLadder(sha, item.request), s, id, item, seen, Resolve(sha, NamesIn(s.members[..seen], id), item.request),
                         Append(sha, s, id, item))
  {
    var visible := NamesIn(s.members[..seen], id);
    StaleNames(s, seen, id);
    StaleResolve(sha, visible, NamesIn(s.members, id), item.request);
    var found := Resolve(sha, visible, item.request);
    if found.Own? {
      StaleRowAt(s, seen, id, NameLadder(sha, item.request)[found.rung]);
    } else if found.Free? && seen == |s.members| {
      assert s.members[..seen] == s.members;
    }
  }

  predicate StaleOutcome(ladder: seq<string>, s: State, id: string, item: Item, seen: nat, found: Resolution,
                         append: Result<Appended, BundleError>)
    requires seen <= |s.members| && id in s.bundles
  {
    && (found.Exhausted? ==> append == Err(NamingExhausted))
    && (found.Own? ==>
          && found.rung < |ladder| && RowAt(s.members[..seen], id, ladder[found.rung]).Some?
          && var row := RowAt(s.members[..seen], id, ladder[found.rung]).value;
             append == Ok(Appended(Merged(s, row, item.metadata), row, false)))
    && (found.Free? ==>
          && found.rung < |ladder|
          && if ladder[found.rung] in NamesIn(s.members, id) then seen < |s.members|
             else append == Ok(Appended(WithMember(s, id, NewMember(id, ladder[found.rung], item)), |s.members|, true)))
  }

  /** A ladder run on the first `seen` rows picks a free rung that a later row holds. */
  predicate NameTaken(sha: string -> Digest, s: State, id: string, item: Item, seen: nat) {
    seen <= |s.members| && TakenSince(NameLadder(sha, item.request), s, id, Resolve(sha, NamesIn(s.members[..seen], id), item.request))
  }

  predicate TakenSince(ladder: seq<string>, s: State, id: string, found: Resolution) {
    found.Free? && found.rung < |ladder| && ladder[found.rung] in NamesIn(s.members, id)
  }

  /** Both ladder runs of an append lose their name: each to a row its view did not reach. */
  predicate LosesTwice(sha: string -> Digest, s: State, id: string, item: Item, seen: nat, again: nat) {
    && id in s.bundles && s.bundles[id].status == Open && item.request.logical in s.assets
    && NameTaken(sha, s, id, item, seen) && NameTaken(sha, s, id, item, again)
  }

  /** A run that sees every row loses nothing, so a retry that sees today's rows settles. */
  lemma FullViewKeepsName(sha: string -> Digest, s: State, id: string, item: Item, seen: nat)
    ensures !LosesTwice(sha, s, id, item, seen, |s.members|)
  {
    assert s.members[..|s.members|] == s.members;
  }

  function Merged(s: State, row: nat, incoming: Metadata): State
    requires row < |s.members|
  {
    s.(members := s.members[row := s.members[row].(metadata := Merge(s.members[row].metadata, incoming))])
  }

  /** The order `opened_at, id` of the funnel lookup. */
  predicate Earlier(s: State, a: string, b: string)
    requires a in s.bundles && b in s.bundles
  {
    s.bundles[a].openedAt < s.bundles[b].openedAt || (s.bundles[a].openedAt == s.bundles[b].openedAt && AtMost(a, b))
  }

  lemma EarlierOrders(s: State, a: string, b: string, c: string)
    requires a in s.bundles && b in s.bundles && c in s.bundles
    ensures Earlier(s, a, a) && (Earlier(s, a, b) || Earlier(s, b, a))
    ensures Earlier(s, a, b) && Earlier(s, b, c) ==> Earlier(s, a, c)
  {
    AtMostReflexive(a);
    AtMostTotal(a, b);
    if AtMost(a, b) && AtMost(b, c) { AtMostTransitive(a, b, c); }
  }

  /** Row `i` makes bundle `id` a funnel hit for the item. */
  predicate HitAt(s: State, i: nat, group: string, item: Item) {
    && i < |s.members| && s.members[i].bundle in s.bundles
    && s.bundles[s.members[i].bundle].group == group && s.bundles[s.members[i].bundle].status == Open
    && s.bundles[s.members[i].bundle].archiveId.Some?
    && s.members[i].path == item.request.path && s.members[i].artifactclass == item.request.artifactclass
    && s.members[i].logical == item.request.logical
  }

  lemma HitRows(s: State, id: string, group: string, item: Item) returns (i: nat)
    requires IsFunnelHit(s, id, group, item)
    ensures HitAt(s, i, group, item) && s.members[i].bundle == id
  {
    i :| 0 <= i < |s.members| && HoldsName(s.members, id, item.request.path, i)
         && s.members[i].artifactclass == item.request.artifactclass && s.members[i].logical == item.request.logical;
  }

  /** What an operation that returns `r` left behind, against the step it refines. */
  predicate Lands(r: Result<nat, BundleError>, created: bool, before: State, after: State, step: Result<Appended,
                  BundleError>) {
    match step
    case Ok(a) => r == Ok(a.row) && created == a.created && after == a.state
    case Err(error) => r == Err(error) && !created && after == before
  }

  /** The same for an enqueue: its destination is prepared before the append runs. */
  ghost predicate EnqueueLands(r: Result<nat, BundleError>, created: bool, before: State, after: State,
                               sha: string -> Digest, group: string, targetBytes: int, maxAge: int, id: string, now: int,
                               item: Item, probe: Option<string>) {
    match Enqueue(sha, before, group, targetBytes, maxAge, id, now, item, probe)
    case Ok(a) => r == Ok(a.row) && created == a.created && after == a.state
    case Err(error) => r == Err(error) && !created && after == before
  }

  /** A bundle opened for an append receives it: its first rung is free. */
  lemma FreshAppendSucceeds(sha: string -> Digest, s: State, id: string, b: Bundle, item: Item)
    requires MembersHomed(s) && id !in s.bundles && b.status == Open && item.request.logical in s.assets
    ensures Append(sha, s.(bundles := s.bundles[id := b]), id, item).Ok?
  {
    CountZero(s.members, id);
    FirstRung(sha, item.request);
  }

  /** A destination opened for this enqueue holds no name yet: the append there neither fails nor loses
      its name. */
  lemma OpenedForAppend(sha: string -> Digest, s: State, ready: State, target: string, item: Item, seen: nat, again: nat)
    requires MembersHomed(s) && item.request.logical in s.assets && target !in s.bundles
    requires target in ready.bundles && ready.bundles[target].status == Open && ready == s.(bundles := s.bundles[target := ready.bundles[target]])
    ensures Append(sha, ready, target, item).Ok? && !LosesTwice(sha, ready, target, item, seen, again)
  {
    FreshAppendSucceeds(sha, s, target, ready.bundles[target], item);
    CountZero(s.members, target);
  }

  lemma DestinationIsNew(s: State, group: string, targetBytes: int, maxAge: int, id: string, now: int, size: nat,
                         probe: Option<string>, ready: State, target: string)
    requires Destination(s, group, targetBytes, maxAge, id, now, size, probe) == Ok((ready, target)) && ready != s
    ensures target !in s.bundles && target in ready.bundles && ready.bundles[target].status == Open
    ensures ready == s.(bundles := s.bundles[target := ready.bundles[target]])
  {
  }

  class Catalog {
    const sha: string -> Digest
    var bundles: map<string, Bundle>
    var members: seq<Member>
    var transforms: seq<Transform>
    var copies: seq<BundleCopy>
    var assets: set<Digest>

    function View(): State
      reads this
    {
      State(bundles, members, transforms, copies, assets)
    }

    constructor (sha: string -> Digest, assets: set<Digest>)
      ensures this.sha == sha && View() == State(map[], [], [], [], assets) && Inv(View())
    {
      this.sha := sha;
      this.bundles, this.members, this.transforms, this.copies, this.assets := map[], [], [], [], assets;
    }

    method FindOpenAccumulator(group: string, visible: set<string>) returns (found: Option<string>)
      ensures found.Some? ==> found.value in visible && IsAccumulator(View(), found.value, group)
      ensures found.None? ==> forall id :: id in visible ==> !IsAccumulator(View(), id, group)
    {
      var rest := visible;
      while rest != {}
        invariant rest <= visible
        invariant forall id :: id in visible - rest ==> !IsAccumulator(View(), id, group)
        decreases |rest|
      {
        var id :| id in rest;
        if IsAccumulator(View(), id, group) { return Some(id); }
        rest := rest - {id};
      }
      return None;
    }

    /** `get_or_create_open_bundle`: the first read sees only `visible`; a lost insert race adopts the
        winner. Whatever was visible, the outcome is the atomic step's. */
    method GetOrCreateOpenBundle(group: string, targetBytes: int, maxAge: int, id: string, now: int, visible: set<string>)
      returns (r: Result<string, BundleError>)
      requires OneAccumulator(View())
      modifies this`bundles
      ensures match GetOrCreate(old(View()), group, targetBytes, maxAge, id, now)
              case Ok((after, target)) => r == Ok(target) && View() == after
              case Err(error) => r == Err(error) && View() == old(View())
    {
      var existing := FindOpenAccumulator(group, visible);
      if existing.Some? { return Ok(existing.value); }
      var holder := FindOpenAccumulator(group, bundles.Keys);
      if id !in bundles && holder.None? {
        bundles := bundles[id := NewBundle(group, targetBytes, maxAge, None, now)];
        return Ok(id);
      }
      var winner := FindOpenAccumulator(group, bundles.Keys);
      if winner.None? { return Err(CouldNotOpen); }
      return Ok(winner.value);
    }

    /** `merge_member_source_metadata`: links accumulate, every other key is first-writer-wins. */
    method MergeMetadata(row: nat, incoming: Metadata) returns (changed: bool)
      requires row < |members|
      modifies this`members
      ensures members == old(members)[row := old(members)[row].(metadata := Merge(old(members)[row].metadata, incoming))]
      ensures changed <==> members != old(members)
    {
      var existing := members[row].metadata;
      var added: seq<Link> := [];
      for i := 0 to |incoming.links|
        invariant added == NewLinks(existing.links, incoming.links[..i])
      {
        assert incoming.links[..i + 1][..i] == incoming.links[..i];
        if incoming.links[i] !in existing.links { added := added + [incoming.links[i]]; }
      }
      assert incoming.links[..|incoming.links|] == incoming.links;
      var extra := MergeKeys(existing.extra, incoming.extra);
      var merged := Metadata(existing.links + added, extra);
      changed := added != [] || extra != existing.extra;
      if changed {
        members := members[row := members[row].(metadata := merged)];
        assert members[row].metadata != old(members)[row].metadata by {
          assert merged.links == existing.links ==> added == [] by { assert |merged.links| == |existing.links| + |added|; }
        }
      } else {
        assert merged == existing;
        assert members == members[row := members[row]];
      }
    }

    static method MergeKeys(existing: map<string, string>, incoming: map<string, string>) returns (merged: map<string,
                            string>)
      ensures merged == incoming + existing
    {
      merged := existing;
      var rest := incoming.Keys;
      while rest != {}
        invariant rest <= incoming.Keys
        invariant merged == (incoming - rest) + existing
        decreases |rest|
      {
        var key :| key in rest;
        if key !in merged { merged := merged[key := incoming[key]]; }
        rest := rest - {key};
      }
      assert incoming - {} == incoming;
    }

    /** `add_bundle_member`: the first ladder run sees only the first `seen` rows; a lost insert race
        re-runs it once, on the first `again` rows. It fails, changing nothing, exactly when both runs lose
        their name; otherwise the outcome is the atomic append. */
    method AddBundleMember(id: string, item: Item, seen: nat, again: nat) returns (r: Result<nat, BundleError>, created: bool)
      requires PathsUnique(View()) && seen <= again <= |members|
      modifies this`bundles, this`members
      ensures if LosesTwice(sha, old(View()), id, item, seen, again) then r == Err(NameLost) && !created && View() == old(View())
              else Lands(r, created, old(View()), View(), Append(sha, old(View()), id, item))
    {
      if id !in bundles || bundles[id].status != Open { return Err(NotOpen), false; }
      if item.request.logical !in assets { return Err(UnknownAsset), false; }
      var attempt := 0;
      while attempt < 2
        invariant attempt <= 2 && View() == old(View())
        invariant attempt >= 1 ==> NameTaken(sha, old(View()), id, item, seen)
        invariant attempt == 2 ==> NameTaken(sha, old(View()), id, item, again)
        decreases 2 - attempt
      {
        var view := if attempt == 0 then seen else again;
        StaleAppend(sha, View(), id, item, view);
        var settled;
        settled, r, created := TryAppend(NameLadder(sha, item.request), id, item, view, Append(sha, View(), id, item));
        if settled { return; }
        attempt := attempt + 1;
      }
      return Err(NameLost), false;
    }

    /** One ladder run on the first `seen` rows and the insert it asks for; unsettled when the insert
        lost its name to a row the run did not see. */
    method TryAppend(ladder: seq<string>, id: string, item: Item, seen: nat, ghost append: Result<Appended, BundleError>)
      returns (settled: bool, r: Result<nat, BundleError>, created: bool)
      requires seen <= |members| && id in bundles
      requires StaleOutcome(ladder, View(), id, item, seen, ResolveFrom(ladder, NamesIn(members[..seen], id), item.request, 0), append)
      modifies this`bundles, this`members
      ensures settled ==> Lands(r, created, old(View()), View(), append)
      ensures !settled ==> View() == old(View())
      ensures !settled <==> TakenSince(ladder, old(View()), id, ResolveFrom(ladder, NamesIn(old(members)[..seen], id), item.request, 0))
    {
      var found := WalkLadder(ladder, NamesIn(members[..seen], id), item.request);
      if found.Exhausted? { return true, Err(NamingExhausted), false; }
      if found.Own? {
        var row := RowAt(members[..seen], id, ladder[found.rung]);
        var _ := MergeMetadata(row.value, item.metadata);
        return true, Ok(row.value), false;
      }
      if ladder[found.rung] in NamesIn(members, id) { return false, Err(NameLost), false; }
      InsertMember(id, NewMember(id, ladder[found.rung], item));
      return true, Ok(|members| - 1), true;
    }

    /** The row insert and the two counter bumps. */
    method InsertMember(id: string, row: Member)
      requires id in bundles
      modifies this`bundles, this`members
      ensures View() == WithMember(old(View()), id, row)
    {
      members := members + [row];
      bundles := bundles[id := bundles[id].(totalBytes := bundles[id].totalBytes + row.size, memberCount := bundles[id].memberCount + 1)];
    }

    /** The crash-retry lookup: the earliest open funnel of the group that already holds this member. */
    method FunnelProbe(group: string, item: Item) returns (hit: Option<string>)
      requires MembersHomed(View())
      ensures hit.Some? ==> IsFunnelHit(View(), hit.value, group, item)
      ensures forall id :: IsFunnelHit(View(), id, group, item) ==> hit.Some? && Earlier(View(), hit.value, id)
      ensures forall id :: IsFunnelHit(View(), id, group, item) ==> hit.Some? && bundles[hit.value].openedAt <= bundles[id].openedAt
    {
      hit := None;
      for i := 0 to |members|
        invariant hit.Some? ==> IsFunnelHit(View(), hit.value, group, item)
        invariant forall k :: 0 <= k < i && HitAt(View(), k, group, item) ==> hit.Some? && Earlier(View(), hit.value, members[k].bundle)
      {
        if HitAt(View(), i, group, item) {
          var id := members[i].bundle;
          assert HoldsName(members, id, item.request.path, i);
          assert IsFunnelHit(View(), id, group, item);
          if hit.None? || !Earlier(View(), hit.value, id) {
            forall k | 0 <= k < i && HitAt(View(), k, group, item)
              ensures Earlier(View(), id, members[k].bundle)
            {
              EarlierOrders(View(), id, hit.value, members[k].bundle);
            }
            EarlierOrders(View(), id, id, id);
            hit := Some(id);
          }
        }
      }
      forall id | IsFunnelHit(View(), id, group, item)
        ensures hit.Some? && Earlier(View(), hit.value, id)
      {
        var i := HitRows(View(), id, group, item);
      }
    }

    /** The bundle an enqueue appends to, opened if need be. */
    method PrepareDestination(group: string, targetBytes: int, maxAge: int, id: string, now: int, item: Item, visible: set<string>)
      returns (d: Result<string, BundleError>, probe: Option<string>)
      requires Inv(View())
      modifies this`bundles
      ensures probe.Some? ==> IsFunnelHit(old(View()), probe.value, group, item)
      ensures forall other :: IsFunnelHit(old(View()), other, group, item) && item.size >= targetBytes ==>
                probe.Some? && Earlier(old(View()), probe.value, other)
      ensures match Destination(old(View()), group, targetBytes, maxAge, id, now, item.size, probe)
              case Ok((ready, target)) => d == Ok(target) && View() == ready
              case Err(error) => d == Err(error) && View() == old(View())
    {
      probe := None;
      if item.size < targetBytes {
        d := GetOrCreateOpenBundle(group, targetBytes, maxAge, id, now, visible);
        return;
      }
      probe := FunnelProbe(group, item);
      if probe.Some? { return Ok(probe.value), probe; }
      ghost var before := View();
      if id !in bundles {
        bundles := bundles[id := NewBundle(group, targetBytes, maxAge, Some(ArchiveName(id)), now)];
        assert FunnelFor(before, group, targetBytes, maxAge, id, now, None) == Ok((View(), id));
        return Ok(id), None;
      }
      if !(bundles[id].status == Open && bundles[id].group == group && bundles[id].archiveId.Some?) { return Err(CouldNotMint), None; }
      return Ok(id), None;
    }

    /** `enqueue_artifact`, for the group and thresholds the class derives: the outcome is the atomic
        enqueue's, on the funnel the crash-retry lookup found, unless the append loses its name twice. */
    method EnqueueArtifact(group: string, targetBytes: int, maxAge: int, id: string, now: int, item: Item,
                           visible: set<string>, seen: nat, again: nat)
      returns (r: Result<nat, BundleError>, created: bool, probe: Option<string>)
      requires Inv(View()) && seen <= again <= |members|
      modifies this`bundles, this`members
      ensures probe.Some? ==> IsFunnelHit(old(View()), probe.value, group, item)
      ensures forall other :: IsFunnelHit(old(View()), other, group, item) && item.size >= targetBytes && r.Ok? ==>
                probe.Some? && Earlier(old(View()), probe.value, other)
      ensures r != Err(NameLost) ==>
                EnqueueLands(r, created, old(View()), View(), sha, group, targetBytes, maxAge, id, now, item, probe)
      ensures r == Err(NameLost) ==>
                !created && View() == old(View()) && exists target :: LosesTwice(sha, old(View()), target, item, seen, again)
    {
      if item.request.logical !in assets { return Err(UnknownAsset), false, None; }
      if targetBytes <= 0 || maxAge <= 0 { return Err(ZeroThresholds), false, None; }
      var d;
      d, probe := PrepareDestination(group, targetBytes, maxAge, id, now, item, visible);
      if d.Err? { return Err(d.error), false, probe; }
      ghost var ready := View();
      if ready != old(View()) {
        DestinationIsNew(old(View()), group, targetBytes, maxAge, id, now, item.size, probe, ready, d.value);
        OpenedForAppend(sha, old(View()), ready, d.value, item, seen, again);
      }
      r, created := AddBundleMember(d.value, item, seen, again);
      if r == Err(NameLost) { assert LosesTwice(sha, old(View()), d.value, item, seen, again); }
    }

    /** `claim_bundle_for_flush` and the archive-id mint. */
    method ClaimForFlush(id: string, token: string, now: int) returns (won: bool)
      modifies this`bundles
      ensures won <==> Claim(old(View()), id, token, now).Ok?
      ensures View() == if won then Claim(old(View()), id, token, now).value else old(View())
    {
      if id !in bundles || bundles[id].status != Open { return false; }
      bundles := bundles[id := bundles[id].(status := Flushing, claimedBy := Some(token), flushedAt := Some(now))];
      if bundles[id].archiveId.None? {
        bundles := bundles[id := bundles[id].(archiveId := Some(ArchiveName(id)))];
      }
      return true;
    }

    /** `close_bundle`. */
    method CloseBundle(id: string, token: string) returns (won: bool)
      modifies this`bundles
      ensures won <==> Close(old(View()), id, token).Ok?
      ensures View() == if won then Close(old(View()), id, token).value else old(View())
    {
      if id !in bundles || bundles[id].status != Flushing || bundles[id].claimedBy != Some(token) { return false; }
      bundles := bundles[id := bundles[id].(status := Sealed)];
      return true;
    }

    /** `_quarantine_member`, update by update, for the flusher that holds the claim. */
    method QuarantineMember(id: string, token: string, m: nat, qid: string, now: int)
      requires Quarantine(View(), id, token, m, qid, now).Ok?
      modifies this`bundles, this`members, this`transforms
      ensures View() == Quarantine(old(View()), id, token, m, qid, now).value
    {
      if qid !in bundles { bundles := bundles[qid := QuarantineBundle(bundles[id], qid, now)]; }
      var row := members[m];
      members := members[m := row.(bundle := qid)];
      var before := transforms;
      for i := 0 to |before|
        modifies this`transforms
        invariant |transforms| == |before|
        invariant forall k :: 0 <= k < |before| ==>
                    transforms[k] == if k < i && before[k].member == m then before[k].(bundle := qid) else before[k]
      {
        if transforms[i].member == m { transforms := transforms[i := transforms[i].(bundle := qid)]; }
      }
      assert transforms == RetargetTransforms(before, m, qid);
      bundles := bundles[id := bundles[id].(totalBytes := bundles[id].totalBytes - row.size, memberCount := bundles[id].memberCount - 1)];
      bundles := bundles[qid := bundles[qid].(totalBytes := bundles[qid].totalBytes + row.size, memberCount := bundles[qid].memberCount + 1)];
      assert bundles == Quarantine(old(View()), id, token, m, qid, now).value.bundles;
    }

    /** `record_staging_transform`: the checks against the member, then an insert the table's two unique
        indexes may refuse. */
    method RecordStagingTransform(m: nat, step: Staging) returns (ok: bool)
      requires m < |members|
      modifies this`transforms
      ensures ok <==> RecordTransform(old(View()), m, step).Ok?
      ensures View() == if ok then RecordTransform(old(View()), m, step).value else old(View())
    {
      if step.final && step.storedPath != members[m].path { return false; }
      if step.order == 0 && step.original != members[m].logical { return false; }
      if step.final && step.stored != members[m].digest { return false; }
      for k := 0 to |transforms|
        invariant forall j :: 0 <= j < k ==> !SameStaging(transforms[j], m, members[m].bundle, step)
      {
        if SameStaging(transforms[k], m, members[m].bundle, step) { return false; }
      }
      transforms := transforms + [Transform(m, members[m].bundle, step)];
      return true;
    }
  }
}
