/** Submission links over runs: each submission member is linked from at most one row, for good. */
module SubmissionLinks {
  import opened Wrappers
  import opened Numerals
  import opened MemberNaming
  import opened BundleCatalog
  import opened BundleInvariant
  import opened BundleRuns
  import opened BundleNames

  /** The submission members on record, each with its content hash. */
  type Table = map<Link, Digest>

  predicate LinkedAt(s: State, link: Link, i: nat) {
    i < |s.members| && link in s.members[i].metadata.links
  }

  ghost predicate Linked(s: State, link: Link) {
    exists i: nat :: LinkedAt(s, link, i)
  }

  /** No submission member is linked from two rows, and every link is on record and sits on a row of
      its own content. */
  ghost predicate LinksSound(s: State, table: Table) {
    && (forall link, i: nat, j: nat :: LinkedAt(s, link, i) && LinkedAt(s, link, j) ==> i == j)
    && (forall link, i: nat :: LinkedAt(s, link, i) ==> link in table && s.members[i].logical == table[link])
  }

  /** A producer's step that links nothing, or one submission member's append, which the submission
      loop makes only while that member is not linked. */
  datatype Event = Other(step: Step) | Submit(link: Link, step: Step)

  predicate WellFormed(e: Event, table: Table) {
    match e
    case Other(step) => Appends(step) ==> step.item.metadata.links == []
    case Submit(link, step) =>
      link in table && step.Enqueued? && step.item.metadata.links == [link] && step.item.request.logical == table[link]
  }

  ghost function Happen(sha: string -> Digest, s: State, e: Event): State {
    match e
    case Other(step) => Apply(sha, s, step)
    case Submit(link, step) => if Linked(s, link) then s else Apply(sha, s, step)
  }

  ghost function History(sha: string -> Digest, s: State, events: seq<Event>): State
    decreases |events|
  {
    if events == [] then s else Happen(sha, History(sha, s, events[..|events| - 1]), events[|events| - 1])
  }

  // ----- What one step does to links -----

  function Links(step: Step): seq<Link> { if Appends(step) then step.item.metadata.links else [] }

  /** Only row `row`, if any, gains links, and it gains exactly `gained`. */
  ghost predicate Gains(s: State, t: State, row: Option<nat>, gained: seq<Link>) {
    && |s.members| <= |t.members|
    && (forall i :: 0 <= i < |t.members| && Some(i) != row ==>
          i < |s.members| && t.members[i].metadata == s.members[i].metadata && t.members[i].logical == s.members[i].logical)
    && (row.Some? ==>
          && row.value < |t.members|
          && (row.value < |s.members| ==> t.members[row.value].logical == s.members[row.value].logical)
          && forall link :: LinkedAt(t, link, row.value) <==> link in gained || LinkedAt(s, link, row.value))
  }

  lemma NewRowGains(s: State, id: string, row: Member)
    requires id in s.bundles
    ensures Gains(s, WithMember(s, id, row), Some(|s.members|), row.metadata.links)
  {
  }

  lemma MergeGains(s: State, i: nat, incoming: Metadata)
    requires i < |s.members|
    ensures Gains(s, s.(members := s.members[i := s.members[i].(metadata := Merge(s.members[i].metadata, incoming))]), Some(i), incoming.links)
  {
    MergeKeepsAndAdds(s.members[i].metadata, incoming);
  }

  lemma AppendGains(sha: string -> Digest, s: State, id: string, item: Item)
    requires PathsUnique(s) && Append(sha, s, id, item).Ok?
    ensures var r := Append(sha, s, id, item).value;
            Gains(s, r.state, Some(r.row), item.metadata.links) && r.state.members[r.row].logical == item.request.logical
  {
    var r := Append(sha, s, id, item).value;
    AppendedRow(sha, s, id, item);
    if r.created {
      NewRowGains(s, id, r.state.members[|s.members|]);
    } else {
      MergeGains(s, r.row, item.metadata);
    }
  }

  lemma EnqueueGains(sha: string -> Digest, s: State, step: Step) returns (row: Option<nat>)
    requires Inv(s) && step.Enqueued?
    ensures var t := Apply(sha, s, step);
            Gains(s, t, row, step.item.metadata.links) && (row.Some? ==> t.members[row.value].logical == step.item.request.logical)
    ensures row.Some? <==> Enqueue(sha, s, step.group, step.targetBytes, step.maxAge, step.id, step.now, step.item, step.probe).Ok?
  {
    row := None;
    var r := Enqueue(sha, s, step.group, step.targetBytes, step.maxAge, step.id, step.now, step.item, step.probe);
    if r.Ok? {
      var d := Destination(s, step.group, step.targetBytes, step.maxAge, step.id, step.now, step.item.size, step.probe);
      DestinationOpens(s, step.group, step.targetBytes, step.maxAge, step.id, step.now, step.item.size, step.probe);
      AppendGains(sha, d.value.0, d.value.1, step.item);
      row := Some(r.value.row);
      assert forall link, i: nat :: LinkedAt(s, link, i) == LinkedAt(d.value.0, link, i);
    }
  }

  lemma StepGains(sha: string -> Digest, s: State, step: Step) returns (row: Option<nat>)
    requires Inv(s)
    ensures var t := Apply(sha, s, step);
            Gains(s, t, row, Links(step)) && (row.Some? ==> Appends(step) && t.members[row.value].logical == step.item.request.logical)
  {
    row := None;
    if step.Enqueued? {
      row := EnqueueGains(sha, s, step);
    } else if step.Added? {
      if Append(sha, s, step.id, step.item).Ok? {
        AppendGains(sha, s, step.id, step.item);
        row := Some(Append(sha, s, step.id, step.item).value.row);
      }
    } else {
      StepKeepsRows(sha, s, step);
      OtherStepGains(sha, s, step);
    }
  }

  lemma OtherStepGains(sha: string -> Digest, s: State, step: Step)
    requires !Appends(step)
    ensures Gains(s, Apply(sha, s, step), None, [])
  {
  }

  lemma GainedLinksSound(s: State, t: State, table: Table, row: Option<nat>, gained: seq<Link>)
    requires LinksSound(s, table) && Gains(s, t, row, gained)
    requires forall link :: link in gained ==> link in table && !Linked(s, link)
    requires row.Some? ==> forall link :: link in gained ==> t.members[row.value].logical == table[link]
    ensures LinksSound(t, table)
  {
    forall link, i: nat | LinkedAt(t, link, i)
      ensures link in table && t.members[i].logical == table[link]
      ensures if link in gained then Some(i) == row else LinkedAt(s, link, i)
    {
      if Some(i) != row { assert LinkedAt(s, link, i); }
    }
  }

  lemma EventKeepsLinks(sha: string -> Digest, s: State, e: Event, table: Table)
    requires Inv(s) && LinksSound(s, table) && WellFormed(e, table)
    ensures Inv(Happen(sha, s, e)) && LinksSound(Happen(sha, s, e), table)
  {
    if e.Other? || !Linked(s, e.link) {
      StepKeepsInv(sha, s, e.step);
      var row := StepGains(sha, s, e.step);
      GainedLinksSound(s, Apply(sha, s, e.step), table, row, Links(e.step));
    }
  }

  /** Over any interleaving of other producers, seals, reaps, quarantines and submission appends, in
      whole calls or parts of calls, each submission member is linked from at most one row. */
  lemma {:induction false} LinksStaySound(sha: string -> Digest, s: State, events: seq<Event>, table: Table)
    requires Inv(s) && LinksSound(s, table) && forall k :: 0 <= k < |events| ==> WellFormed(events[k], table)
    ensures Inv(History(sha, s, events)) && LinksSound(History(sha, s, events), table)
    decreases |events|
  {
    if events != [] {
      var n := |events| - 1;
      LinksStaySound(sha, s, events[..n], table);
      EventKeepsLinks(sha, History(sha, s, events[..n]), events[n], table);
    }
  }

  lemma EventKeepsLink(sha: string -> Digest, s: State, e: Event, link: Link, i: nat)
    requires Inv(s) && LinkedAt(s, link, i)
    ensures LinkedAt(Happen(sha, s, e), link, i)
  {
    if e.Other? || !Linked(s, e.link) {
      StepKeepsRows(sha, s, e.step);
      var t := Apply(sha, s, e.step);
      assert RowKept(s, t, i);
      assert s.members[i].metadata.links <= t.members[i].metadata.links;
    }
  }

  /** A link is never lost: it stays on its row through merges, quarantine moves and everything else. */
  lemma {:induction false} LinkIsForever(sha: string -> Digest, s: State, events: seq<Event>, table: Table, link: Link,
                                         i: nat)
    requires Inv(s) && LinksSound(s, table) && LinkedAt(s, link, i) && forall k :: 0 <= k < |events| ==> WellFormed(events[k], table)
    ensures LinkedAt(History(sha, s, events), link, i)
    decreases |events|
  {
    if events != [] {
      var n := |events| - 1;
      LinkIsForever(sha, s, events[..n], table, link, i);
      LinksStaySound(sha, s, events[..n], table);
      EventKeepsLink(sha, History(sha, s, events[..n]), events[n], link, i);
    }
  }

  /** The guard is what keeps links single: the same append made twice, with the bundle sealed in
      between, puts the link on two rows. */
  lemma UnguardedAppendLinksTwice(sha: string -> Digest, s: State, group: string, targetBytes: int, maxAge: int,
                                  item: Item, link: Link,
                                  token: string, first: string, second: string, now: int)
    requires Inv(s) && targetBytes > item.size && maxAge > 0 && item.request.logical in s.assets && item.metadata.links == [link]
    requires first !in s.bundles && second !in s.bundles && first != second
    requires forall id :: !IsAccumulator(s, id, group)
    ensures var one := Apply(sha, s, Enqueued(group, targetBytes, maxAge, first, now, item, None));
            var sealed := Apply(sha, Apply(sha, one, Claimed(first, token, now)), Closed(first, token));
            var two := Apply(sha, sealed, Enqueued(group, targetBytes, maxAge, second, now, item, None));
            exists i: nat, j: nat :: i != j && LinkedAt(two, link, i) && LinkedAt(two, link, j)
  {
    var one := Apply(sha, s, Enqueued(group, targetBytes, maxAge, first, now, item, None));
    FreshEnqueue(sha, s, group, targetBytes, maxAge, first, now, item);
    var sealed := Apply(sha, Apply(sha, one, Claimed(first, token, now)), Closed(first, token));
    SealLeavesNoAccumulator(sha, s, one, group, first, token, now);
    assert Inv(sealed) by {
      StepKeepsInv(sha, s, Enqueued(group, targetBytes, maxAge, first, now, item, None));
      StepKeepsInv(sha, one, Claimed(first, token, now));
      StepKeepsInv(sha, Apply(sha, one, Claimed(first, token, now)), Closed(first, token));
    }
    FreshEnqueue(sha, sealed, group, targetBytes, maxAge, second, now, item);
    var two := Apply(sha, sealed, Enqueued(group, targetBytes, maxAge, second, now, item, None));
    assert LinkedAt(two, link, |s.members|) && LinkedAt(two, link, |s.members| + 1);
  }

  /** With no accumulator to adopt, a small enqueue opens one and appends there on its first rung. */
  lemma FreshEnqueue(sha: string -> Digest, s: State, group: string, targetBytes: int, maxAge: int, id: string, now: int,
                     item: Item)
    requires Inv(s) && targetBytes > item.size && maxAge > 0 && item.request.logical in s.assets && id !in s.bundles
    requires forall other :: !IsAccumulator(s, other, group)
    ensures var b := NewBundle(group, targetBytes, maxAge, None, now);
            Apply(sha, s, Enqueued(group, targetBytes, maxAge, id, now, item, None))
            == WithMember(s.(bundles := s.bundles[id := b]), id, NewMember(id, item.request.path, item))
  {
    var ready := s.(bundles := s.bundles[id := NewBundle(group, targetBytes, maxAge, None, now)]);
    FreshDestination(s, group, targetBytes, maxAge, id, now, item.size);
    EnqueueAppends(sha, s, group, targetBytes, maxAge, id, now, item, ready, id);
    assert NamesIn(ready.members, id) == map[] by { CountZero(s.members, id); }
    FreshAppend(sha, ready, id, item);
  }

  lemma FreshDestination(s: State, group: string, targetBytes: int, maxAge: int, id: string, now: int, size: nat)
    requires size < targetBytes && id !in s.bundles && forall other :: !IsAccumulator(s, other, group)
    ensures Destination(s, group, targetBytes, maxAge, id, now, size, None)
            == Ok((s.(bundles := s.bundles[id := NewBundle(group, targetBytes, maxAge, None, now)]), id))
  {
  }

  lemma EnqueueAppends(sha: string -> Digest, s: State, group: string, targetBytes: int, maxAge: int, id: string,
                       now: int, item: Item,
                       ready: State, target: string)
    requires item.request.logical in s.assets && targetBytes > 0 && maxAge > 0
    requires Destination(s, group, targetBytes, maxAge, id, now, item.size, None) == Ok((ready, target))
    ensures Enqueue(sha, s, group, targetBytes, maxAge, id, now, item, None) == Append(sha, ready, target, item)
  {
  }

  lemma FreshAppend(sha: string -> Digest, s: State, id: string, item: Item)
    requires id in s.bundles && s.bundles[id].status == Open && item.request.logical in s.assets && NamesIn(s.members, id) == map[]
    ensures Append(sha, s, id, item) == Ok(Appended(WithMember(s, id, NewMember(id, item.request.path, item)), |s.members|, true))
  {
  }

  lemma SealLeavesNoAccumulator(sha: string -> Digest, s: State, one: State, group: string, id: string, token: string,
                                now: int)
    requires forall other :: !IsAccumulator(s, other, group)
    requires id !in s.bundles && id in one.bundles && one.bundles[id].status == Open
    requires one.bundles.Keys == s.bundles.Keys + {id} && forall other :: other in s.bundles ==> one.bundles[other] == s.bundles[other]
    ensures var sealed := Apply(sha, Apply(sha, one, Claimed(id, token, now)), Closed(id, token));
            && sealed == one.(bundles := sealed.bundles) && sealed.bundles.Keys == one.bundles.Keys
            && forall other :: !IsAccumulator(sealed, other, group)
  {
    var sealed := Apply(sha, Apply(sha, one, Claimed(id, token, now)), Closed(id, token));
    forall other
      ensures !IsAccumulator(sealed, other, group)
    {
      assert !IsAccumulator(s, other, group);
    }
  }
}
