/** An append that loses its name in both of its attempts. */
module AppendRace {
  import opened Wrappers
  import opened Numerals
  import opened MemberNaming
  import opened BundleCatalog
  import opened BundleRuns
  import opened BundleStore
  import opened NamingLimits

  /** A rival's item: the same content under another class, asking for `path`. */
  function Rival(item: Item, other: string, path: string): Item {
    Item(Request(path, other, item.request.logical, item.request.digest), item.size, Metadata([], map[]))
  }

  lemma FirstNameFree(sha: string -> Digest, names: Names, r: Request)
    requires r.path !in names
    ensures Resolve(sha, names, r) == Free(0)
  {
  }

  /** An append whose requested name is free takes it. */
  lemma AddedByName(sha: string -> Digest, s: State, id: string, item: Item) returns (t: State)
    requires id in s.bundles && s.bundles[id].status == Open && item.request.logical in s.assets
    requires item.request.path !in NamesIn(s.members, id)
    ensures t == Apply(sha, s, Added(id, item)) && t.members == s.members + [NewMember(id, item.request.path, item)]
    ensures t.assets == s.assets && id in t.bundles && t.bundles[id].status == Open
  {
    FirstNameFree(sha, NamesIn(s.members, id), item.request);
    t := WithMember(s, id, NewMember(id, item.request.path, item));
  }

  lemma NamesOfTwo(id: string, one: Member, two: Member)
    requires one.bundle == id && two.bundle == id && one.path != two.path
    ensures NamesIn([], id) == map[]
    ensures NamesIn([one], id) == map[one.path := Occupant(one.artifactclass, one.logical)]
    ensures NamesIn([one, two], id) == NamesIn([one], id)[two.path := Occupant(two.artifactclass, two.logical)]
  {
    assert [one, two][..1] == [one] && [one][..0] == [];
  }

  /** The first rung is a rival's, the second is free. */
  lemma SecondRungFree(sha: string -> Digest, names: Names, r: Request)
    requires r.path in names && !IsOwn(names[r.path], r) && NameLadder(sha, r)[1] !in names
    ensures Resolve(sha, names, r) == Free(1)
  {
    ResolutionUnique(NameLadder(sha, r), names, r, 0, 1);
  }

  /** The retry can fail too: a rival takes the requested name after the first ladder run looked, and the
      name of the next rung after the second did. */
  lemma RetryLosesTwice(sha: string -> Digest, s: State, id: string, item: Item, other: string)
    requires id in s.bundles && s.bundles[id].status == Open && item.request.logical in s.assets
    requires s.members == [] && other != item.request.artifactclass
    ensures var t := Run(sha, s, [Added(id, Rival(item, other, item.request.path)), Added(id, Rival(item, other, Rung(sha, item.request, 1)))]);
            |t.members| == 2 && LosesTwice(sha, t, id, item, 0, 1)
  {
    var r := item.request;
    var a, b := Rival(item, other, r.path), Rival(item, other, Rung(sha, r, 1));
    RungTagged(sha, r, 1);
    var t := TwoAdded(sha, s, id, a, b);
    var one, two := NewMember(id, a.request.path, a), NewMember(id, b.request.path, b);
    LostAtFirst(sha, t, id, item, one, two);
    LostAtSecond(sha, t, id, item, one, two);
  }

  /** Two appends by name to a bundle with no rows. */
  lemma TwoAdded(sha: string -> Digest, s: State, id: string, a: Item, b: Item) returns (t: State)
    requires id in s.bundles && s.bundles[id].status == Open && a.request.logical in s.assets && b.request.logical in s.assets
    requires s.members == [] && a.request.path != b.request.path
    ensures t == Run(sha, s, [Added(id, a), Added(id, b)]) && t.assets == s.assets && id in t.bundles && t.bundles[id].status == Open
    ensures t.members == [NewMember(id, a.request.path, a), NewMember(id, b.request.path, b)]
  {
    var one, two := NewMember(id, a.request.path, a), NewMember(id, b.request.path, b);
    NamesOfTwo(id, one, two);
    var middle := AddedByName(sha, s, id, a);
    assert middle.members == [one];
    t := AddedByName(sha, middle, id, b);
    assert t.members == [one, two];
    RunTwoAdded(sha, s, Added(id, a), Added(id, b), middle, t);
  }

  lemma RunTwoAdded(sha: string -> Digest, s: State, first: Step, second: Step, middle: State, t: State)
    requires middle == Apply(sha, s, first) && t == Apply(sha, middle, second)
    ensures Run(sha, s, [first, second]) == t
  {
    var steps := [first, second];
    assert steps[..2] == steps && steps[..0] == [];
    RunNext(sha, s, steps, 0);
    RunNext(sha, s, steps, 1);
  }

  lemma LostAtFirst(sha: string -> Digest, t: State, id: string, item: Item, one: Member, two: Member)
    requires t.members == [one, two] && one.bundle == id && two.bundle == id && one.path != two.path && one.path == item.request.path
    ensures NameTaken(sha, t, id, item, 0)
  {
    NamesOfTwo(id, one, two);
    assert t.members[..0] == [];
    FirstNameFree(sha, NamesIn(t.members[..0], id), item.request);
  }

  lemma LostAtSecond(sha: string -> Digest, t: State, id: string, item: Item, one: Member, two: Member)
    requires t.members == [one, two] && one.bundle == id && two.bundle == id && one.path != two.path
    requires one.path == item.request.path && two.path == Rung(sha, item.request, 1) && one.artifactclass != item.request.artifactclass
    ensures NameTaken(sha, t, id, item, 1)
  {
    NamesOfTwo(id, one, two);
    assert t.members[..1] == [one];
    SecondRungFree(sha, NamesIn(t.members[..1], id), item.request);
  }
}
