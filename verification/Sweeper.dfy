/** The sweeper: reap dead claims, void empty orphans, flush what is drained or due. */
module Sweeper {
  import opened Wrappers
  import opened Numerals
  import opened Ordering
  import opened BundleCatalog
  import opened BundleInvariant
  import opened BundleRuns
  import opened BundleStore
  import opened FanoutPhases
  import opened FlushRows
  import opened FlushPlan
  import opened Flush

  // ----- Selection -----

  /** `bundle_due`. */
  predicate BundleDue(b: Bundle, now: int, force: bool) {
    && b.status == Open
    && (if force then b.memberCount > 0
        else
          && b.memberCount != 0
          && ((b.targetBytes != 0 && b.totalBytes >= b.targetBytes) || (b.maxAge != 0 && now - b.openedAt >= b.maxAge)))
  }

  predicate WasReaped(b: Bundle) {
    b.status == Open && b.archiveId.Some? && b.flushedAt.Some? && b.claimedBy.None? && b.memberCount > 0
  }

  predicate Drains(b: Bundle, live: set<string>) {
    b.status == Open && b.archiveId.None? && b.memberCount > 0 && b.group !in live
  }

  predicate Due(b: Bundle, now: int) { WasReaped(b) || BundleDue(b, now, false) }

  /** What a sweep at `now` flushes. */
  predicate Selected(b: Bundle, live: set<string>, now: int) { Drains(b, live) || Due(b, now) }

  /** The next small enqueue of a class in this group lands in this bundle. */
  ghost predicate Adoptable(s: State, id: string) {
    && id in s.bundles
    && forall targetBytes, maxAge, newId, now :: GetOrCreate(s, s.bundles[id].group, targetBytes, maxAge, newId, now) == Ok((s, id))
  }

  lemma AccumulatorAdoptable(s: State, id: string)
    requires OneAccumulator(s) && id in s.bundles && IsAccumulator(s, id, s.bundles[id].group)
    ensures Adoptable(s, id)
  {
  }

  lemma OpenIsHandled(s: State, id: string, live: set<string>, now: int)
    requires Inv(s) && id in s.bundles && s.bundles[id].status == Open && s.bundles[id].memberCount > 0
    ensures Selected(s.bundles[id], live, now) || (Adoptable(s, id) && s.bundles[id].group in live)
    ensures now >= s.bundles[id].openedAt + s.bundles[id].maxAge ==> Selected(s.bundles[id], live, now)
  {
    assert Coherent(s.bundles[id]);
    if s.bundles[id].archiveId.None? { AccumulatorAdoptable(s, id); }
  }

  /** No stranding: in every reachable catalog, a non-empty open bundle is selected by the next sweep
      or is still adoptable by a live class; from `openedAt + maxAge` on, every sweep selects it. */
  lemma NoBundleStranded(sha: string -> Digest, s: State, steps: seq<Step>, id: string, live: set<string>, now: int)
    requires Inv(s)
    ensures var t := Run(sha, s, steps);
            id in t.bundles && t.bundles[id].status == Open && t.bundles[id].memberCount > 0 ==>
              var b := t.bundles[id];
              && (Selected(b, live, now) || (Adoptable(t, id) && b.group in live))
              && (now >= b.openedAt + b.maxAge ==> Selected(b, live, now))
  {
    RunKeepsInv(sha, s, steps);
    var t := Run(sha, s, steps);
    if id in t.bundles && t.bundles[id].status == Open && t.bundles[id].memberCount > 0 {
      OpenIsHandled(t, id, live, now);
    }
  }

  /** Why a reaped bundle is due without asking `bundle_due`: a drained accumulator is below its byte
      target, and before its age arm `bundle_due` alone would refuse it. */
  lemma ReapedIsDueAnyway(b: Bundle, now: int)
    requires WasReaped(b) && b.totalBytes < b.targetBytes && now < b.openedAt + b.maxAge
    ensures Due(b, now) && !BundleDue(b, now, false)
  {
  }

  // ----- Passes over bundle ids in order -----

  lemma OneMoreKey(found: seq<string>, id: string)
    requires DistinctKeys(found, (x: string) => x) && id !in found
    ensures DistinctKeys(found + [id], (x: string) => x)
  {
  }

  method InOrder(ids: set<string>) returns (ordered: seq<string>)
    ensures forall id :: id in ordered <==> id in ids
    ensures forall i, j :: 0 <= i < j < |ordered| ==> ordered[i] != ordered[j] && AtMost(ordered[i], ordered[j])
  {
    var key := (x: string) => x;
    var rest := ids;
    var found: seq<string> := [];
    while rest != {}
      invariant rest <= ids && (forall id :: id in found <==> id in ids - rest) && DistinctKeys(found, key)
      decreases |rest|
    {
      var id :| id in rest;
      OneMoreKey(found, id);
      rest := rest - {id};
      found := found + [id];
    }
    SortByCorrect(found, key);
    ordered := SortBy(found, key);
    MultisetElements(ordered, found);
    DistinctKeysPermute(found, ordered, key);
    assert forall i, j :: 0 <= i < j < |ordered| ==> key(ordered[i]) != key(ordered[j]) && AtMost(key(ordered[i]), key(ordered[j]));
  }

  /** A claim is alive when it names a process that still runs. */
  predicate ClaimLive(b: Bundle, alive: set<string>) {
    b.claimedBy.Some? && b.claimedBy.value != "" && b.claimedBy.value in alive
  }

  predicate Stuck(b: Bundle, alive: set<string>) { b.status == Flushing && !ClaimLive(b, alive) }

  function Reopened(b: Bundle): Bundle { b.(status := Open, claimedBy := None) }

  /** Every stuck bundle in `done` is open again; nothing else differs. */
  ghost predicate ReapedIn(s: State, t: State, done: set<string>, alive: set<string>) {
    && t == s.(bundles := t.bundles) && t.bundles.Keys == s.bundles.Keys
    && forall id :: id in s.bundles ==>
         t.bundles[id] == if id in done && Stuck(s.bundles[id], alive) then Reopened(s.bundles[id]) else s.bundles[id]
  }

  lemma ReapStep(s: State, t: State, done: set<string>, alive: set<string>, id: string)
    requires Inv(t) && ReapedIn(s, t, done, alive) && id in s.bundles && id !in done
    ensures var u := if Stuck(s.bundles[id], alive) then t.(bundles := t.bundles[id := Reopened(t.bundles[id])]) else t;
            Inv(u) && ReapedIn(s, u, done + {id}, alive)
  {
    ReapKeeps(t, id);
  }

  /** `reap_stuck_flushing`: exactly the bundles whose claim is dead go back to open, keeping their
      archive id, so none of them becomes a second accumulator. */
  method ReapStuckFlushing(catalog: Catalog, alive: set<string>) returns (reaped: seq<string>)
    requires Inv(catalog.View())
    modifies catalog`bundles
    ensures Inv(catalog.View()) && ReapedIn(old(catalog.View()), catalog.View(), old(catalog.bundles).Keys, alive)
    ensures forall id :: id in reaped <==> id in old(catalog.bundles) && Stuck(old(catalog.bundles)[id], alive)
  {
    ghost var s := catalog.View();
    var ids := InOrder(set id | id in catalog.bundles && catalog.bundles[id].status == Flushing);
    reaped := [];
    ghost var done := {};
    for k := 0 to |ids|
      invariant done == Prefix(ids, k)
      invariant Inv(catalog.View()) && ReapedIn(s, catalog.View(), done, alive)
      invariant forall id :: id in reaped <==> id in done && id in s.bundles && Stuck(s.bundles[id], alive)
    {
      var id := ids[k];
      assert id in ids;
      PrefixNext(ids, k);
      ReapStep(s, catalog.View(), done, alive, id);
      if !ClaimLive(catalog.bundles[id], alive) {
        catalog.bundles := catalog.bundles[id := Reopened(catalog.bundles[id])];
        reaped := reaped + [id];
      }
      done := done + {id};
    }
    PrefixWhole(ids);
    ReapedAll(s, catalog.View(), done, alive);
  }

  lemma ReapedAll(s: State, t: State, done: set<string>, alive: set<string>)
    requires ReapedIn(s, t, done, alive) && forall id :: id in s.bundles && s.bundles[id].status == Flushing ==> id in done
    ensures ReapedIn(s, t, s.bundles.Keys, alive)
  {
  }

  function Prefix(ids: seq<string>, k: nat): set<string>
    requires k <= |ids|
  {
    set i | 0 <= i < k :: ids[i]
  }

  lemma PrefixNext(ids: seq<string>, k: nat)
    requires k < |ids| && forall i, j :: 0 <= i < j < |ids| ==> ids[i] != ids[j]
    ensures ids[k] !in Prefix(ids, k) && Prefix(ids, k + 1) == Prefix(ids, k) + {ids[k]}
  {
  }

  lemma PrefixWhole(ids: seq<string>)
    ensures Prefix(ids, |ids|) == set id | id in ids
  {
  }

  predicate Orphan(b: Bundle, live: set<string>) {
    b.status == Open && b.archiveId.None? && b.memberCount == 0 && b.group !in live
  }

  ghost predicate VoidedIn(s: State, t: State, done: set<string>, live: set<string>) {
    && t == s.(bundles := t.bundles) && t.bundles.Keys == s.bundles.Keys
    && forall id :: id in s.bundles ==>
         t.bundles[id] == if id in done && Orphan(s.bundles[id], live) then s.bundles[id].(status := Void) else s.bundles[id]
  }

  lemma VoidStep(s: State, t: State, done: set<string>, live: set<string>, id: string)
    requires Inv(t) && VoidedIn(s, t, done, live) && id in s.bundles && id !in done
    ensures var u := if Orphan(s.bundles[id], live) then t.(bundles := t.bundles[id := t.bundles[id].(status := Void)]) else t;
            Inv(u) && VoidedIn(s, u, done + {id}, live)
  {
    VoidKeeps(t, id, live);
  }

  lemma EarlierFirst(s: State, ids: set<string>, first: string, id: string)
    requires ids <= s.bundles.Keys && first in s.bundles && id in s.bundles
    requires forall other :: other in ids ==> Earlier(s, first, other)
    requires !Earlier(s, first, id)
    ensures Earlier(s, id, id) && Earlier(s, id, first) && forall other :: other in ids ==> Earlier(s, id, other)
  {
    EarlierOrders(s, id, first, id);
    forall other | other in ids
      ensures Earlier(s, id, other)
    {
      EarlierOrders(s, id, first, other);
      EarlierOrders(s, first, id, first);
    }
    EarlierOrders(s, first, id, first);
  }

  /** The bundle opened first, the smaller id deciding a tie. */
  method EarliestOf(catalog: Catalog, ids: set<string>) returns (first: string)
    requires ids != {} && ids <= catalog.bundles.Keys
    ensures first in ids && forall other :: other in ids ==> Earlier(catalog.View(), first, other)
  {
    first :| first in ids;
    EarlierOrders(catalog.View(), first, first, first);
    var rest := ids - {first};
    while rest != {}
      invariant first in ids && rest <= ids && forall other :: other in ids - rest ==> Earlier(catalog.View(), first, other)
      decreases |rest|
    {
      var id :| id in rest;
      if !Earlier(catalog.View(), first, id) {
        EarlierFirst(catalog.View(), ids - rest, first, id);
        first := id;
      }
      rest := rest - {id};
    }
  }

  predicate InOpeningOrder(s: State, ids: seq<string>) {
    && (forall i :: 0 <= i < |ids| ==> ids[i] in s.bundles)
    && forall i, j :: 0 <= i < j < |ids| ==> ids[i] != ids[j] && Earlier(s, ids[i], ids[j])
  }

  /** `_open_bundles`: in the order `opened_at, id`. */
  method OpenBundles(catalog: Catalog) returns (ordered: seq<string>)
    ensures forall id :: id in ordered <==> id in catalog.bundles && catalog.bundles[id].status == Open
    ensures InOpeningOrder(catalog.View(), ordered)
  {
    ghost var all := set id | id in catalog.bundles && catalog.bundles[id].status == Open;
    var rest := set id | id in catalog.bundles && catalog.bundles[id].status == Open;
    ordered := [];
    while rest != {}
      invariant rest <= all && (forall id :: id in ordered <==> id in all - rest)
      invariant InOpeningOrder(catalog.View(), ordered)
      invariant forall i, id :: 0 <= i < |ordered| && id in rest ==> Earlier(catalog.View(), ordered[i], id)
      decreases |rest|
    {
      var id := EarliestOf(catalog, rest);
      assert forall i :: 0 <= i < |ordered| ==> ordered[i] in ordered;
      rest := rest - {id};
      ordered := ordered + [id];
    }
  }

  /** `void_seal_orphans`: exactly the empty accumulators no live class derives, in opening order. */
  method VoidSealOrphans(catalog: Catalog, live: set<string>) returns (voided: seq<string>)
    requires Inv(catalog.View())
    modifies catalog`bundles
    ensures Inv(catalog.View()) && VoidedIn(old(catalog.View()), catalog.View(), old(catalog.bundles).Keys, live)
    ensures forall id :: id in voided <==> id in old(catalog.bundles) && Orphan(old(catalog.bundles)[id], live)
    ensures InOpeningOrder(old(catalog.View()), voided)
  {
    ghost var s := catalog.View();
    var ids := OpenBundles(catalog);
    voided := [];
    ghost var done := {};
    for k := 0 to |ids|
      invariant done == Prefix(ids, k)
      invariant Inv(catalog.View()) && VoidedIn(s, catalog.View(), done, live)
      invariant forall id :: id in voided <==> id in done && id in s.bundles && Orphan(s.bundles[id], live)
      invariant InOpeningOrder(s, voided)
    {
      var id := ids[k];
      assert id in ids;
      PrefixNext(ids, k);
      NextInOrder(s, ids, k, voided);
      VoidStep(s, catalog.View(), done, live, id);
      if catalog.bundles[id].archiveId.None? && catalog.bundles[id].memberCount == 0 && catalog.bundles[id].group !in live {
        catalog.bundles := catalog.bundles[id := catalog.bundles[id].(status := Void)];
        voided := voided + [id];
      }
      done := done + {id};
    }
    PrefixWhole(ids);
    VoidedAll(s, catalog.View(), done, live);
  }

  lemma NextInOrder(s: State, ids: seq<string>, k: nat, listed: seq<string>)
    requires InOpeningOrder(s, ids) && k < |ids| && InOpeningOrder(s, listed)
    requires forall id :: id in listed ==> id in Prefix(ids, k)
    ensures InOpeningOrder(s, listed + [ids[k]])
  {
    forall i | 0 <= i < |listed|
      ensures listed[i] != ids[k] && Earlier(s, listed[i], ids[k])
    {
      assert listed[i] in listed;
      var j :| 0 <= j < k && ids[j] == listed[i];
    }
  }

  lemma VoidedAll(s: State, t: State, done: set<string>, live: set<string>)
    requires VoidedIn(s, t, done, live) && forall id :: id in s.bundles && s.bundles[id].status == Open ==> id in done
    ensures VoidedIn(s, t, s.bundles.Keys, live)
  {
  }

  // ----- The sweep -----

  datatype SweepResult = SweepResult(reaped: seq<string>, voided: seq<string>, drained: seq<string>, flushed: seq<string>,
                                     failed: seq<(string, FlushError)>)

  predicate FailureRecorded(failed: seq<(string, FlushError)>, id: string) {
    exists k :: 0 <= k < |failed| && failed[k].0 == id
  }

  /** What flushing the ids in `done`, one savepoint each, has made of the catalog `base`: each of them
      is sealed and reported, or exactly as it was with its failure recorded; every other bundle is as
      it was; anything new is a held quarantine bundle, or a copy of a bundle that sealed; and each id is
      reported once, with a failure of its own. */
  ghost predicate Swept(base: State, cur: State, done: set<string>, flushed: seq<string>, failed: seq<(string,
                        FlushError)>) {
    && (forall id :: id in base.bundles ==> id in cur.bundles)
    && (forall id :: id in base.bundles && id !in done ==> Frozen(base, cur, id))
    && (forall id :: id in done && id in base.bundles ==> SweptOne(base, cur, id, flushed, failed))
    && (forall id :: id in cur.bundles && id !in base.bundles ==> cur.bundles[id].status == Held)
    && base.copies <= cur.copies && (forall c :: |base.copies| <= c < |cur.copies| ==> cur.copies[c].bundle in flushed)
    && (forall k :: 0 <= k < |flushed| ==> flushed[k] in done && flushed[k] in base.bundles && !FailureRecorded(failed, flushed[k]))
    && (forall k :: 0 <= k < |failed| ==> GenuineFailure(base, done, failed[k]))
  }

  /** A recorded failure is of a bundle that was swept, and never that it was missing, not open or empty. */
  predicate GenuineFailure(base: State, done: set<string>, failure: (string, FlushError)) {
    failure.0 in done && failure.0 in base.bundles && failure.1 !in {NoSuchBundle, NotOpenForFlush, NoMembers}
  }

  /** A sealed bundle keeps a non-empty part of its rows, the others are held, and every copy stored for
      it has exactly one locator per row. */
  ghost predicate FlushedFrom(base: State, cur: State, id: string) {
    && id in cur.bundles && cur.bundles[id].status == Sealed && CountIn(cur.members, id) > 0 && SplitFrom(base, cur, id)
    && forall c :: |base.copies| <= c < |cur.copies| && cur.copies[c].bundle == id ==> Covers(cur.copies[c].locators, cur.members, id)
  }

  ghost predicate SweptOne(base: State, cur: State, id: string, flushed: seq<string>, failed: seq<(string, FlushError)>)
    requires id in cur.bundles
  {
    || (id in flushed && FlushedFrom(base, cur, id))
    || (FailureRecorded(failed, id) && Frozen(base, cur, id))
  }

  /** A flush that seals one bundle leaves every other bundle's row and member rows alone. */
  lemma SealFreezesOthers(s: State, t: State, id: string, qid: string, targets: seq<Target>, f: Flushed,
                          media: seq<string>, other: string)
    requires Inv(s) && SealedFlush(s, t, id, qid, targets, f, media) && other in s.bundles && other != id
    ensures Frozen(s, t, other)
  {
  }

  lemma FrozenTwice(a: State, b: State, c: State, id: string)
    requires Frozen(a, b, id) && Frozen(b, c, id)
    ensures Frozen(a, c, id)
  {
  }

  /** The sealed bundle itself, against the catalog the sweep started from. */
  lemma SealSplits(base: State, s: State, t: State, id: string, qid: string, targets: seq<Target>, f: Flushed, media: seq<string>)
    requires Frozen(base, s, id) && Inv(t) && SealedFlush(s, t, id, qid, targets, f, media)
    ensures SplitFrom(base, t, id)
  {
    forall i | 0 <= i < |base.members| && base.members[i].bundle == id
      ensures i < |t.members| && (t.members[i] == base.members[i] || MovedToHeld(base, t, i))
    {
      assert t.members[i].bundle in t.bundles;
    }
  }

  lemma SealCovers(base: State, s: State, t: State, id: string, qid: string, targets: seq<Target>, f: Flushed, media: seq<string>)
    requires SealedFlush(s, t, id, qid, targets, f, media) && base.copies <= s.copies && CopiesSealed(s)
    ensures forall c :: |base.copies| <= c < |t.copies| && t.copies[c].bundle == id ==> Covers(t.copies[c].locators, t.members, id)
  {
    forall c | |base.copies| <= c < |t.copies| && t.copies[c].bundle == id
      ensures Covers(t.copies[c].locators, t.members, id)
    {
      assert c >= |s.copies| ==> SealedCopy(t, id, t.copies[c]);
    }
  }

  /** A bundle sealed before stays as it was sealed. */
  lemma SplitStays(base: State, s: State, t: State, other: string, id: string, qid: string)
    requires SplitFrom(base, s, other) && Frozen(s, t, other) && Splits(s, t, id, qid) && id != other
    ensures SplitFrom(base, t, other)
  {
    forall i | 0 <= i < |base.members| && base.members[i].bundle == other
      ensures i < |t.members| && (t.members[i] == base.members[i] || MovedToHeld(base, t, i))
    {
      if s.members[i] != base.members[i] { assert MovedToHeld(base, s, i); }
    }
  }

  lemma CoversStay(s: State, t: State, id: string, locators: seq<Locator>)
    requires Inv(s) && Inv(t) && Frozen(s, t, id) && Covers(locators, s.members, id)
    ensures Covers(locators, t.members, id) && CountIn(t.members, id) == CountIn(s.members, id)
  {
  }

  lemma FlushedStays(base: State, s: State, t: State, other: string, id: string, qid: string, targets: seq<Target>,
                     f: Flushed, media: seq<string>)
    requires FlushedFrom(base, s, other) && Inv(s) && Inv(t) && SealedFlush(s, t, id, qid, targets, f, media) && id != other
    ensures FlushedFrom(base, t, other)
  {
    SealFreezesOthers(s, t, id, qid, targets, f, media, other);
    SplitStays(base, s, t, other, id, qid);
    forall c | |base.copies| <= c < |t.copies| && t.copies[c].bundle == other
      ensures Covers(t.copies[c].locators, t.members, other)
    {
      assert c >= |s.copies| ==> SealedCopy(t, id, t.copies[c]);
      CoversStay(s, t, other, s.copies[c].locators);
    }
    assert t.bundles[other].memberCount == s.bundles[other].memberCount;
  }

  lemma SealedStep(base: State, s: State, t: State, done: set<string>, flushed: seq<string>, failed: seq<(string,
                   FlushError)>,
                   id: string, qid: string, targets: seq<Target>, f: Flushed, media: seq<string>)
    requires Swept(base, s, done, flushed, failed) && Inv(s) && Inv(t) && CopiesSealed(s)
    requires SealedFlush(s, t, id, qid, targets, f, media) && id in base.bundles && id !in done
    ensures Swept(base, t, done + {id}, flushed + [id], failed)
  {
    forall other | other in base.bundles && other !in done + {id}
      ensures other in t.bundles && Frozen(base, t, other)
    {
      SealFreezesOthers(s, t, id, qid, targets, f, media, other);
      FrozenTwice(base, s, t, other);
    }
    forall other | other in done + {id} && other in base.bundles
      ensures other in t.bundles && SweptOne(base, t, other, flushed + [id], failed)
    {
      if other == id {
        SealSplits(base, s, t, id, qid, targets, f, media);
        SealCovers(base, s, t, id, qid, targets, f, media);
      } else {
        SweptStays(base, s, t, other, flushed, failed, id, qid, targets, f, media);
      }
    }
    SealGrows(base, s, t, done, flushed, failed, id, qid, targets, f, media);
  }

  lemma SweptStays(base: State, s: State, t: State, other: string, flushed: seq<string>, failed: seq<(string, FlushError)>,
                   id: string, qid: string, targets: seq<Target>, f: Flushed, media: seq<string>)
    requires other in s.bundles && SweptOne(base, s, other, flushed, failed) && Inv(s) && Inv(t)
    requires SealedFlush(s, t, id, qid, targets, f, media) && id != other
    ensures other in t.bundles && SweptOne(base, t, other, flushed + [id], failed)
  {
    if other in flushed && FlushedFrom(base, s, other) {
      FlushedStays(base, s, t, other, id, qid, targets, f, media);
    } else {
      SealFreezesOthers(s, t, id, qid, targets, f, media, other);
      FrozenTwice(base, s, t, other);
    }
  }

  lemma SealGrows(base: State, s: State, t: State, done: set<string>, flushed: seq<string>, failed: seq<(string, FlushError)>,
                  id: string, qid: string, targets: seq<Target>, f: Flushed, media: seq<string>)
    requires Swept(base, s, done, flushed, failed) && SealedFlush(s, t, id, qid, targets, f, media) && id in base.bundles && id !in done
    ensures base.copies <= t.copies && forall c :: |base.copies| <= c < |t.copies| ==> t.copies[c].bundle in flushed + [id]
    ensures forall k :: 0 <= k < |flushed + [id]| ==>
              (flushed + [id])[k] in done + {id} && (flushed + [id])[k] in base.bundles && !FailureRecorded(failed, (flushed + [id])[k])
    ensures forall k :: 0 <= k < |failed| ==> GenuineFailure(base, done + {id}, failed[k])
    ensures forall other :: other in t.bundles && other !in base.bundles ==> t.bundles[other].status == Held
  {
    forall c | |base.copies| <= c < |t.copies|
      ensures t.copies[c].bundle in flushed + [id]
    {
      assert c >= |s.copies| ==> SealedCopy(t, id, t.copies[c]);
      assert c < |s.copies| ==> t.copies[c] == s.copies[c];
    }
  }

  lemma FailedStep(base: State, s: State, done: set<string>, flushed: seq<string>, failed: seq<(string, FlushError)>,
                   id: string, error: FlushError)
    requires Swept(base, s, done, flushed, failed) && id in base.bundles && id !in done
    requires error !in {NoSuchBundle, NotOpenForFlush, NoMembers}
    ensures Swept(base, s, done + {id}, flushed, failed + [(id, error)])
  {
    var after := failed + [(id, error)];
    assert after[|failed|].0 == id;
    forall other | other in done && other in base.bundles
      ensures SweptOne(base, s, other, flushed, after)
    {
      if FailureRecorded(failed, other) {
        var k :| 0 <= k < |failed| && failed[k].0 == other;
        assert after[k].0 == other;
      }
    }
  }

  /** Flush one bundle inside its savepoint: a failure restores every table. */
  method FlushInSavepoint(catalog: Catalog, id: string, token: string, qid: string, now: int, plan: Plan)
    returns (r: Result<Flushed, FlushError>, media: seq<string>)
    requires Inv(catalog.View()) && CopiesSealed(catalog.View()) && (plan.targets.Some? ==> Answers(plan, plan.targets.value))
    modifies catalog
    ensures Inv(catalog.View()) && CopiesSealed(catalog.View())
    ensures r.Ok? ==> plan.targets.Some? && SealedFlush(old(catalog.View()), catalog.View(), id, qid, plan.targets.value, r.value, media)
    ensures r.Err? ==> catalog.View() == old(catalog.View())
    ensures r.Err? && r.error != WriteEscaped ==> media == []
    ensures RefusedEarly(old(catalog.View()), id, plan, r) && (CanSeal(old(catalog.View()), id, plan) ==> r.Ok?)
  {
    var savepoint := catalog.View();
    ghost var trace, n;
    r, media, trace, n := FlushBundle(catalog, id, token, qid, now, plan);
    if r.Err? {
      catalog.bundles, catalog.members, catalog.transforms := savepoint.bundles, savepoint.members, savepoint.transforms;
      catalog.copies, catalog.assets := savepoint.copies, savepoint.assets;
    } else {
      SealKeepsCopies(savepoint, catalog.View(), id, qid, plan.targets.value, r.value, media);
    }
  }

  /** Sealing keeps copy rows on sealed bundles. */
  lemma SealKeepsCopies(s: State, t: State, id: string, qid: string, targets: seq<Target>, f: Flushed, media: seq<string>)
    requires CopiesSealed(s) && SealedFlush(s, t, id, qid, targets, f, media)
    ensures CopiesSealed(t)
  {
    forall c | 0 <= c < |t.copies|
      ensures t.copies[c].bundle in t.bundles && t.bundles[t.copies[c].bundle].status == Sealed
    {
      assert c >= |s.copies| ==> SealedCopy(t, id, t.copies[c]);
      assert c < |s.copies| ==> t.copies[c] == s.copies[c];
    }
  }

  /** A selected bundle is still there, open and non-empty, when its turn comes. */
  lemma GenuinelyFailed(base: State, s: State, done: set<string>, flushed: seq<string>, failed: seq<(string, FlushError)>, id: string,
                        plan: Plan, r: Result<Flushed, FlushError>)
    requires Swept(base, s, done, flushed, failed) && Inv(s) && id in base.bundles && id !in done && RefusedEarly(s, id, plan, r)
    requires base.bundles[id].status == Open && base.bundles[id].memberCount > 0
    ensures r.Err? ==> r.error !in {NoSuchBundle, NotOpenForFlush, NoMembers}
  {
  }

  /** Flush one selected bundle and record how it went. */
  method FlushOne(catalog: Catalog, ghost base: State, ghost done: set<string>, id: string, token: string, qid: string,
                  now: int, plan: Plan, flushed: seq<string>, failed: seq<(string, FlushError)>)
    returns (flushedAfter: seq<string>, failedAfter: seq<(string, FlushError)>)
    requires Inv(catalog.View()) && CopiesSealed(catalog.View()) && Swept(base, catalog.View(), done, flushed, failed)
    requires id in base.bundles && id !in done && (plan.targets.Some? ==> Answers(plan, plan.targets.value))
    requires base.bundles[id].status == Open && base.bundles[id].memberCount > 0
    modifies catalog
    ensures Inv(catalog.View()) && CopiesSealed(catalog.View())
    ensures Swept(base, catalog.View(), done + {id}, flushedAfter, failedAfter)
  {
    ghost var s := catalog.View();
    var r, media := FlushInSavepoint(catalog, id, token, qid, now, plan);
    if r.Ok? {
      SealedStep(base, s, catalog.View(), done, flushed, failed, id, qid, plan.targets.value, r.value, media);
      return flushed + [id], failed;
    }
    GenuinelyFailed(base, s, done, flushed, failed, id, plan, r);
    FailedStep(base, s, done, flushed, failed, id, r.error);
    return flushed, failed + [(id, r.error)];
  }

  /** The flush loop of the sweep. */
  method FlushSelected(catalog: Catalog, ids: seq<string>, token: string, qids: string -> string, now: int,
                       plans: string -> Plan)
    returns (flushed: seq<string>, failed: seq<(string, FlushError)>)
    requires Inv(catalog.View()) && CopiesSealed(catalog.View())
    requires forall id :: id in ids ==> id in catalog.bundles && catalog.bundles[id].status == Open && catalog.bundles[id].memberCount > 0
    requires forall i, j :: 0 <= i < j < |ids| ==> ids[i] != ids[j]
    requires forall id :: plans(id).targets.Some? ==> Answers(plans(id), plans(id).targets.value)
    modifies catalog
    ensures Inv(catalog.View()) && CopiesSealed(catalog.View())
    ensures Swept(old(catalog.View()), catalog.View(), (set id | id in ids), flushed, failed)
  {
    ghost var base := catalog.View();
    flushed, failed := [], [];
    ghost var done: set<string> := {};
    for k := 0 to |ids|
      invariant done == Prefix(ids, k)
      invariant Inv(catalog.View()) && CopiesSealed(catalog.View()) && Swept(base, catalog.View(), done, flushed, failed)
    {
      assert ids[k] in base.bundles by { assert ids[k] in ids; }
      PrefixNext(ids, k);
      flushed, failed := FlushOne(catalog, base, done, ids[k], token, qids(ids[k]), now, plans(ids[k]), flushed, failed);
      done := done + {ids[k]};
    }
    PrefixWhole(ids);
  }

  /** What the reap and void passes, and the drain listing, did on the way to `base`. */
  ghost predicate MadeReady(before: State, middle: State, base: State, alive: set<string>, live: set<string>, reap: bool,
                            reaped: seq<string>, voided: seq<string>, drained: seq<string>) {
    && (if reap then ReapedIn(before, middle, before.bundles.Keys, alive) else middle == before)
    && VoidedIn(middle, base, middle.bundles.Keys, live)
    && (forall id :: id in reaped <==> reap && id in before.bundles && Stuck(before.bundles[id], alive))
    && (forall id :: id in voided <==> id in middle.bundles && Orphan(middle.bundles[id], live)) && InOpeningOrder(middle, voided)
    && (forall id :: id in drained <==> id in base.bundles && Drains(base.bundles[id], live))
  }

  method MakeReady(catalog: Catalog, alive: set<string>, live: set<string>, reap: bool)
    returns (reaped: seq<string>, voided: seq<string>, drained: seq<string>, ghost middle: State)
    requires Inv(catalog.View())
    modifies catalog`bundles
    ensures Inv(catalog.View()) && MadeReady(old(catalog.View()), middle, catalog.View(), alive, live, reap, reaped, voided, drained)
  {
    reaped := [];
    if reap { reaped := ReapStuckFlushing(catalog, alive); }
    middle := catalog.View();
    voided := VoidSealOrphans(catalog, live);
    drained := InOrder(set id | id in catalog.bundles && Drains(catalog.bundles[id], live));
  }

  lemma ReadyKeepsCopies(before: State, middle: State, base: State, alive: set<string>, live: set<string>, reap: bool,
                         reaped: seq<string>, voided: seq<string>, drained: seq<string>)
    requires CopiesSealed(before) && MadeReady(before, middle, base, alive, live, reap, reaped, voided, drained)
    ensures CopiesSealed(base)
  {
    forall c | 0 <= c < |base.copies|
      ensures base.copies[c].bundle in base.bundles && base.bundles[base.copies[c].bundle].status == Sealed
    {
      assert before.copies[c].bundle in middle.bundles;
    }
  }

  function SelectedIds(s: State, live: set<string>, now: int): set<string> {
    set id | id in s.bundles && Selected(s.bundles[id], live, now)
  }

  /** How a sweep over the prepared catalog `base` ends. Every selected bundle is sealed and reported,
      or exactly as it was, open and unclaimed, with its failure recorded; and a non-empty bundle still
      open is one the next enqueue of a live class adopts, or one whose failure is recorded. */
  ghost predicate SweepEnds(base: State, cur: State, live: set<string>, now: int, flushed: seq<string>,
                            failed: seq<(string, FlushError)>) {
    && Swept(base, cur, SelectedIds(base, live, now), flushed, failed)
    && (forall id :: id in SelectedIds(base, live, now) ==> base.bundles[id].status == Open && base.bundles[id].claimedBy.None?)
    && (forall id :: id in cur.bundles && cur.bundles[id].status == Open && cur.bundles[id].memberCount > 0 ==>
          FailureRecorded(failed, id) || (Adoptable(cur, id) && cur.bundles[id].group in live))
  }

  lemma SweepLeaves(base: State, cur: State, live: set<string>, now: int, flushed: seq<string>, failed: seq<(string,
                    FlushError)>)
    requires Inv(base) && Inv(cur) && Swept(base, cur, SelectedIds(base, live, now), flushed, failed)
    ensures SweepEnds(base, cur, live, now, flushed, failed)
  {
    forall id | id in SelectedIds(base, live, now)
      ensures base.bundles[id].status == Open && base.bundles[id].claimedBy.None?
    {
      assert Coherent(base.bundles[id]);
    }
    forall id | id in cur.bundles && cur.bundles[id].status == Open && cur.bundles[id].memberCount > 0
      ensures FailureRecorded(failed, id) || (Adoptable(cur, id) && cur.bundles[id].group in live)
    {
      assert id in base.bundles;
      if id in SelectedIds(base, live, now) {
        assert SweptOne(base, cur, id, flushed, failed);
      } else {
        assert Frozen(base, cur, id);
        OpenIsHandled(cur, id, live, now);
      }
    }
  }

  // ----- What a sweep does, in rows and columns -----

  /** The bundle is due, by its rows and columns: open and non-empty, and at its byte target, past its age,
      reaped from an earlier flush, or an accumulator whose group no live class derives. */
  ghost predicate WantsFlush(s: State, id: string, live: set<string>, now: int)
    requires id in s.bundles
  {
    var b := s.bundles[id];
    && b.status == Open && CountIn(s.members, id) > 0
    && (|| BytesIn(s.members, id) >= b.targetBytes
        || now >= b.openedAt + b.maxAge
        || (b.archiveId.Some? && b.flushedAt.Some?)
        || (b.archiveId.None? && b.group !in live))
  }

  lemma SelectedExactly(s: State, id: string, live: set<string>, now: int)
    requires Inv(s) && id in s.bundles
    ensures Selected(s.bundles[id], live, now) <==> WantsFlush(s, id, live, now)
  {
    assert Coherent(s.bundles[id]);
  }

  /** A sweep over the prepared catalog flushes, or records a failure of, exactly the bundles that are due;
      every other bundle it leaves as it was. */
  lemma SweepFlushesExactly(base: State, cur: State, live: set<string>, now: int, flushed: seq<string>,
                            failed: seq<(string, FlushError)>, id: string)
    requires Inv(base) && SweepEnds(base, cur, live, now, flushed, failed) && id in base.bundles
    ensures id in flushed || FailureRecorded(failed, id) <==> WantsFlush(base, id, live, now)
    ensures id in flushed ==> FlushedFrom(base, cur, id) && !FailureRecorded(failed, id)
    ensures id !in flushed ==> Frozen(base, cur, id)
  {
    SelectedExactly(base, id, live, now);
    ReportedIsDone(base, cur, SelectedIds(base, live, now), flushed, failed, id);
    if id in SelectedIds(base, live, now) { assert SweptOne(base, cur, id, flushed, failed); }
  }

  lemma ReportedIsDone(base: State, cur: State, done: set<string>, flushed: seq<string>, failed: seq<(string, FlushError)>, id: string)
    requires Swept(base, cur, done, flushed, failed)
    ensures id in flushed ==> id in done && id in base.bundles && !FailureRecorded(failed, id)
    ensures FailureRecorded(failed, id) ==> id in done
  {
    if id in flushed { var k :| 0 <= k < |flushed| && flushed[k] == id; }
    if FailureRecorded(failed, id) {
      var k :| 0 <= k < |failed| && failed[k].0 == id;
      assert GenuineFailure(base, done, failed[k]);
    }
  }

  predicate DeadClaim(b: Bundle, alive: set<string>) {
    b.claimedBy.None? || b.claimedBy.value == "" || b.claimedBy.value !in alive
  }

  /** The bundle's row as the reap and the void leave it. */
  ghost function MadeOf(before: State, id: string, alive: set<string>, live: set<string>, reap: bool): Bundle
    requires id in before.bundles
  {
    var b := before.bundles[id];
    if reap && b.status == Flushing && DeadClaim(b, alive) then b.(status := Open, claimedBy := None)
    else if b.status == Open && b.archiveId.None? && CountIn(before.members, id) == 0 && b.group !in live then b.(status := Void)
    else b
  }

  lemma ReadyRow(before: State, middle: State, base: State, alive: set<string>, live: set<string>, reap: bool,
                 reaped: seq<string>, voided: seq<string>, drained: seq<string>, id: string)
    requires Inv(before) && MadeReady(before, middle, base, alive, live, reap, reaped, voided, drained) && id in before.bundles
    ensures id in base.bundles && base.bundles[id] == MadeOf(before, id, alive, live, reap)
    ensures base == before.(bundles := base.bundles)
  {
    assert Coherent(before.bundles[id]);
  }

  /** What a whole sweep does to one bundle. A bundle that is due, by itself or because its dead claim was
      reaped, is flushed and split, or keeps its rows with a failure recorded; an empty accumulator of no
      live class is voided; every other bundle stays as it was, and is not reported. */
  ghost predicate SweptFrom(before: State, cur: State, alive: set<string>, live: set<string>, now: int, reap: bool,
                            flushed: seq<string>, failed: seq<(string, FlushError)>, id: string)
    requires id in before.bundles
  {
    var b := before.bundles[id];
    var wants := || (reap && b.status == Flushing && DeadClaim(b, alive) && CountIn(before.members, id) > 0)
                 || WantsFlush(before, id, live, now);
    && (id in flushed || FailureRecorded(failed, id) <==> wants)
    && (id in flushed ==> !FailureRecorded(failed, id) && FlushedFrom(before, cur, id))
    && (id !in flushed ==>
          id in cur.bundles && cur.bundles[id] == MadeOf(before, id, alive, live, reap) && RowsStay(before.members, cur.members, id))
  }

  /** The bundle has the same member rows, unchanged. */
  ghost predicate RowsStay(before: seq<Member>, after: seq<Member>, id: string) {
    && (forall i :: 0 <= i < |before| && before[i].bundle == id ==> i < |after| && after[i] == before[i])
    && (forall i :: 0 <= i < |after| && after[i].bundle == id ==> i < |before| && before[i].bundle == id)
  }

  lemma FrozenRowsStay(before: State, cur: State, id: string)
    requires Frozen(before, cur, id)
    ensures RowsStay(before.members, cur.members, id)
  {
  }

  lemma SameRowsFlushed(before: State, base: State, cur: State, id: string)
    requires base == before.(bundles := base.bundles) && FlushedFrom(base, cur, id)
    ensures FlushedFrom(before, cur, id)
  {
    forall i | 0 <= i < |before.members| && before.members[i].bundle == id
      ensures i < |cur.members| && (cur.members[i] == before.members[i] || MovedToHeld(before, cur, i))
    {
      assert i < |cur.members| && (cur.members[i] == base.members[i] || MovedToHeld(base, cur, i));
    }
  }

  lemma SweepFate(before: State, middle: State, base: State, cur: State, alive: set<string>, live: set<string>, now: int,
                  reap: bool, result: SweepResult, id: string)
    requires Inv(before) && Inv(base) && id in before.bundles
    requires MadeReady(before, middle, base, alive, live, reap, result.reaped, result.voided, result.drained)
    requires SweepEnds(base, cur, live, now, result.flushed, result.failed)
    ensures SweptFrom(before, cur, alive, live, now, reap, result.flushed, result.failed, id)
  {
    ReadyRow(before, middle, base, alive, live, reap, result.reaped, result.voided, result.drained, id);
    SweepFlushesExactly(base, cur, live, now, result.flushed, result.failed, id);
    ReadyWants(before, base, alive, live, now, reap, id);
    if id in result.flushed { SameRowsFlushed(before, base, cur, id); } else { FrozenRowsStay(base, cur, id); }
  }

  /** What a sweep reports of one bundle beside its flush: reaped for a dead claim, voided as an empty
      accumulator of no live class, drained as a non-empty one. */
  ghost predicate Reported(before: State, alive: set<string>, live: set<string>, reap: bool, result: SweepResult, id: string)
    requires id in before.bundles
  {
    var b, stray := before.bundles[id], IsStray(before.bundles[id], live);
    && (id in result.reaped <==> reap && b.status == Flushing && DeadClaim(b, alive))
    && (id in result.voided <==> stray && CountIn(before.members, id) == 0)
    && (id in result.drained <==> stray && CountIn(before.members, id) > 0)
  }

  predicate IsStray(b: Bundle, live: set<string>) { b.status == Open && b.archiveId.None? && b.group !in live }

  lemma ReportsAll(before: State, middle: State, base: State, alive: set<string>, live: set<string>, reap: bool,
                   result: SweepResult, id: string)
    requires Inv(before) && id in before.bundles
    requires MadeReady(before, middle, base, alive, live, reap, result.reaped, result.voided, result.drained)
    ensures Reported(before, alive, live, reap, result, id)
  {
    ReadyRow(before, middle, base, alive, live, reap, result.reaped, result.voided, result.drained, id);
    assert Coherent(before.bundles[id]);
  }

  /** What is due once the dead claims are reaped and the orphans voided. */
  lemma ReadyWants(before: State, base: State, alive: set<string>, live: set<string>, now: int, reap: bool, id: string)
    requires Inv(before) && id in before.bundles && id in base.bundles && base == before.(bundles := base.bundles)
    requires base.bundles[id] == MadeOf(before, id, alive, live, reap)
    ensures WantsFlush(base, id, live, now) <==>
              || (reap && before.bundles[id].status == Flushing && DeadClaim(before.bundles[id], alive) && CountIn(before.members, id) > 0)
              || WantsFlush(before, id, live, now)
  {
    assert Coherent(before.bundles[id]);
  }

  /** The ids a sweep flushes, in order. */
  method SelectDue(catalog: Catalog, live: set<string>, now: int) returns (ids: seq<string>)
    requires Inv(catalog.View())
    ensures (set id | id in ids) == SelectedIds(catalog.View(), live, now)
    ensures forall id :: id in ids ==> id in catalog.bundles && catalog.bundles[id].status == Open && catalog.bundles[id].memberCount > 0
    ensures forall i, j :: 0 <= i < j < |ids| ==> ids[i] != ids[j] && AtMost(ids[i], ids[j])
  {
    ids := InOrder(set id | id in catalog.bundles && Selected(catalog.bundles[id], live, now));
    forall id | id in ids
      ensures id in catalog.bundles && catalog.bundles[id].status == Open && catalog.bundles[id].memberCount > 0
    {
      SelectedExactly(catalog.View(), id, live, now);
    }
  }

  /** `sweep_bundles`. */
  method SweepBundles(catalog: Catalog, alive: set<string>, live: set<string>, token: string, qids: string -> string,
                      now: int, plans: string -> Plan, reap: bool)
    returns (result: SweepResult, ghost middle: State, ghost base: State)
    requires Inv(catalog.View()) && CopiesSealed(catalog.View())
    requires forall id :: plans(id).targets.Some? ==> Answers(plans(id), plans(id).targets.value)
    modifies catalog
    ensures Inv(catalog.View()) && CopiesSealed(catalog.View())
    ensures MadeReady(old(catalog.View()), middle, base, alive, live, reap, result.reaped, result.voided, result.drained)
    ensures SweepEnds(base, catalog.View(), live, now, result.flushed, result.failed)
    ensures forall id :: id in old(catalog.bundles) ==>
              SweptFrom(old(catalog.View()), catalog.View(), alive, live, now, reap, result.flushed, result.failed, id)
              && Reported(old(catalog.View()), alive, live, reap, result, id)
  {
    ghost var before := catalog.View();
    var reaped, voided, drained;
    reaped, voided, drained, middle := MakeReady(catalog, alive, live, reap);
    base := catalog.View();
    ReadyKeepsCopies(before, middle, base, alive, live, reap, reaped, voided, drained);
    var flushed, failed := FlushDue(catalog, live, token, qids, now, plans);
    result := SweepResult(reaped, voided, drained, flushed, failed);
    forall id | id in before.bundles
      ensures SweptFrom(before, catalog.View(), alive, live, now, reap, flushed, failed, id)
      ensures Reported(before, alive, live, reap, result, id)
    {
      ReportsAll(before, middle, base, alive, live, reap, result, id);
      SweepFate(before, middle, base, catalog.View(), alive, live, now, reap, result, id);
    }
  }

  /** Flush everything that is due in the prepared catalog. */
  method FlushDue(catalog: Catalog, live: set<string>, token: string, qids: string -> string, now: int, plans: string -> Plan)
    returns (flushed: seq<string>, failed: seq<(string, FlushError)>)
    requires Inv(catalog.View()) && CopiesSealed(catalog.View())
    requires forall id :: plans(id).targets.Some? ==> Answers(plans(id), plans(id).targets.value)
    modifies catalog
    ensures Inv(catalog.View()) && CopiesSealed(catalog.View())
    ensures SweepEnds(old(catalog.View()), catalog.View(), live, now, flushed, failed)
  {
    ghost var base := catalog.View();
    var ids := SelectDue(catalog, live, now);
    flushed, failed := FlushSelected(catalog, ids, token, qids, now, plans);
    SweepLeaves(base, catalog.View(), live, now, flushed, failed);
  }
}
