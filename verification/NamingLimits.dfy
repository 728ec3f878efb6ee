/** Appends after which a request finds every rung of its ladder taken: what the base-name condition of
    an admissible set of requests rules out. */
module NamingLimits {
  import opened Text
  import Wrappers
  import opened Numerals
  import opened MemberPath
  import opened MemberNaming

  /** The two conditions of an admissible set that say nothing of requested names: distinct classes
      have distinct seeds, and equal staged digests mean equal logical hashes. */
  ghost predicate OthersHold(sha: string -> Digest, requests: seq<Request>) {
    forall i, j :: 0 <= i < |requests| && 0 <= j < |requests| ==> PairHolds(sha, requests[i], requests[j])
  }

  predicate PairHolds(sha: string -> Digest, r: Request, q: Request) {
    && (ClassSeed(sha, r.artifactclass) == ClassSeed(sha, q.artifactclass) ==> r.artifactclass == q.artifactclass)
    && (r.digest == q.digest ==> r.logical == q.logical)
  }

  /** Requests for given names outright, by one class, for the content `r` asks about. */
  function Literals(paths: seq<string>, artifactclass: string, r: Request): (requests: seq<Request>)
    ensures |requests| == |paths|
    ensures forall k :: 0 <= k < |paths| ==> requests[k] == Request(paths[k], artifactclass, r.logical, r.digest)
  {
    seq(|paths|, k requires 0 <= k < |paths| => Request(paths[k], artifactclass, r.logical, r.digest))
  }

  ghost predicate HeldBy(names: Names, occupant: Occupant) {
    forall name :: name in names ==> names[name] == occupant
  }

  lemma LiteralTakes(sha: string -> Digest, names: Names, q: Request)
    requires HeldBy(names, Occupant(q.artifactclass, q.logical))
    ensures AfterAppend(sha, names, q) == names[q.path := Occupant(q.artifactclass, q.logical)]
  {
  }

  /** Literal requests of one class take exactly the names they ask for. */
  lemma {:induction false} LiteralsTake(sha: string -> Digest, names: Names, paths: seq<string>, artifactclass: string, r: Request)
    requires HeldBy(names, Occupant(artifactclass, r.logical))
    ensures var later := AppendAll(sha, names, Literals(paths, artifactclass, r));
            HeldBy(later, Occupant(artifactclass, r.logical)) && forall name :: name in later <==> name in names || name in paths
    decreases |paths|
  {
    if paths != [] {
      var requests := Literals(paths, artifactclass, r);
      assert requests[1..] == Literals(paths[1..], artifactclass, r);
      LiteralTakes(sha, names, requests[0]);
      LiteralsTake(sha, AfterAppend(sha, names, requests[0]), paths[1..], artifactclass, r);
      assert forall name :: name in paths <==> name == paths[0] || name in paths[1..];
    }
  }

  lemma {:induction false} AppendAllSnoc(sha: string -> Digest, names: Names, requests: seq<Request>, last: Request)
    ensures AppendAll(sha, names, requests + [last]) == AfterAppend(sha, AppendAll(sha, names, requests), last)
    decreases |requests|
  {
    if requests == [] {
      assert requests + [last] == [last];
    } else {
      assert (requests + [last])[0] == requests[0] && (requests + [last])[1..] == requests[1..] + [last];
      AppendAllSnoc(sha, AfterAppend(sha, names, requests[0]), requests[1..], last);
    }
  }

  /** A ladder whose every rung is taken by others has run out. */
  lemma AllTaken(ladder: seq<string>, names: Names, r: Request)
    requires forall k :: 0 <= k < |ladder| ==> ladder[k] in names && !IsOwn(names[ladder[k]], r)
    ensures ResolveFrom(ladder, names, r, 0).Exhausted?
  {
    var found := ResolveFrom(ladder, names, r, 0);
  }

  /** Requests for one content, by classes with distinct seeds, meet the other two conditions. */
  lemma OneContentHolds(sha: string -> Digest, requests: seq<Request>, r: Request, classes: set<string>)
    requires forall i :: 0 <= i < |requests| ==>
               requests[i].artifactclass in classes && requests[i].digest == r.digest && requests[i].logical == r.logical
    requires forall a, b :: a in classes && b in classes && ClassSeed(sha, a) == ClassSeed(sha, b) ==> a == b
    ensures OthersHold(sha, requests)
  {
  }

  lemma LiteralsExhaust(sha: string -> Digest, ladder: seq<string>, r: Request, other: string)
    requires other != r.artifactclass
    ensures ResolveFrom(ladder, AppendAll(sha, map[], Literals(ladder, other, r)), r, 0).Exhausted?
  {
    LiteralsTake(sha, map[], ladder, other, r);
    AllTaken(ladder, AppendAll(sha, map[], Literals(ladder, other, r)), r);
  }

  /** Without the base-name condition the ladder can run out: from an empty bundle, seven appends by
      another class that ask for the seven rungs by name take all of them. */
  lemma LiteralLadderExhausts(sha: string -> Digest, r: Request, other: string)
    requires ClassSeed(sha, other) != ClassSeed(sha, r.artifactclass)
    ensures OthersHold(sha, Literals(NameLadder(sha, r), other, r) + [r])
    ensures Resolve(sha, AppendAll(sha, map[], Literals(NameLadder(sha, r), other, r)), r).Exhausted?
  {
    OneContentHolds(sha, Literals(NameLadder(sha, r), other, r) + [r], r, {other, r.artifactclass});
    LiteralsExhaust(sha, NameLadder(sha, r), r, other);
  }

  // ----- By a tagged name -----

  /** The request that reaches `r`'s terminal rung on its own 64-digit rung: its name already carries the
      class segment of `r`. */
  function Carrier(sha: string -> Digest, r: Request, other: string): Request {
    Request(TagMemberPath(r.path, ClassSegment(sha, r.artifactclass)), other, r.logical, r.digest)
  }

  lemma WholeDigestRung(r: Request)
    ensures PrefixRung(r, 64) == TagMemberPath(r.path, Hex(r.digest))
  {
    assert Hex(r.digest)[..64] == Hex(r.digest);
  }

  lemma CarrierReachesTerminal(sha: string -> Digest, r: Request, other: string)
    ensures Rung(sha, Carrier(sha, r, other), 5) == Rung(sha, r, 6)
  {
    var segment := ClassSegment(sha, r.artifactclass);
    assert PrefixRung(Carrier(sha, r, other), 64) == TagMemberPath(TagMemberPath(r.path, segment), Hex(r.digest)) by {
      WholeDigestRung(Carrier(sha, r, other));
    }
    assert '/' !in segment by { SegmentCharacters(sha, r.artifactclass); }
    TagPathTwice(r.path, segment, Hex(r.digest));
  }

  /** The tag rung `k` carries. */
  function RungTag(sha: string -> Digest, r: Request, k: nat): string
    requires 1 <= k <= 6
  {
    if k <= 5 then Hex(r.digest)[..PREFIXES[k - 1]] else TerminalTag(sha, r)
  }

  lemma RungTagged(sha: string -> Digest, r: Request, k: nat)
    requires 1 <= k <= 6
    ensures ExtractMemberTag(r.path, Rung(sha, r, k)) == Wrappers.Some(RungTag(sha, r, k))
    ensures Rung(sha, r, k) != r.path
  {
    if k <= 5 { RungReadsBack(sha, r, k, PREFIXES[k - 1]); } else { TerminalReadsBack(sha, r); }
  }

  lemma TagLengths(sha: string -> Digest, r: Request, i: nat, j: nat)
    requires 1 <= i < j <= 6
    ensures |RungTag(sha, r, i)| < |RungTag(sha, r, j)|
  {
    TagLength(sha, r, i);
    TagLength(sha, r, j);
    assert PREFIXES[i - 1] <= 64 && (j <= 5 ==> PREFIXES[i - 1] < PREFIXES[j - 1]);
  }

  lemma TagLength(sha: string -> Digest, r: Request, k: nat)
    requires 1 <= k <= 6
    ensures if k <= 5 then |RungTag(sha, r, k)| == PREFIXES[k - 1] else |RungTag(sha, r, k)| > 64
  {
    var hex := Hex(r.digest);
    assert |hex| == 64;
  }

  /** The seven rungs are seven names. */
  lemma RungsDistinct(sha: string -> Digest, r: Request, i: nat, j: nat)
    requires i < j < 7
    ensures Rung(sha, r, i) != Rung(sha, r, j)
  {
    RungTagged(sha, r, j);
    if i > 0 {
      RungTagged(sha, r, i);
      TagLengths(sha, r, i, j);
    }
  }

  lemma NotBelow(sha: string -> Digest, r: Request, k: nat)
    requires k < 7
    ensures Rung(sha, r, k) !in NameLadder(sha, r)[..k]
  {
    var below := NameLadder(sha, r)[..k];
    forall i | 0 <= i < k
      ensures below[i] != Rung(sha, r, k)
    {
      RungsDistinct(sha, r, i, k);
    }
  }

  /** The names that block every rung but the last of `r`, and every rung of its carrier below the one
      that is `r`'s last. */
  function Blocking(sha: string -> Digest, r: Request, q: Request): seq<string> {
    NameLadder(sha, q)[..5] + NameLadder(sha, r)[..6]
  }

  lemma TerminalNotBlocked(sha: string -> Digest, r: Request, q: Request)
    requires Rung(sha, q, 5) == Rung(sha, r, 6)
    ensures Rung(sha, r, 6) !in Blocking(sha, r, q)
  {
    NotBelow(sha, q, 5);
    NotBelow(sha, r, 6);
  }

  /** With its lower rungs blocked, a request takes the first rung that is free. */
  lemma PushedUp(ladder: seq<string>, names: Names, q: Request, occupant: Occupant, rung: nat)
    requires rung < |ladder| && HeldBy(names, occupant) && !IsOwn(occupant, q)
    requires ladder[rung] !in names && forall k :: 0 <= k < rung ==> ladder[k] in names
    ensures ResolveFrom(ladder, names, q, 0) == Free(rung)
  {
    ResolutionUnique(ladder, names, q, 0, rung);
  }

  lemma CarrierTakes(sha: string -> Digest, names: Names, q: Request, third: string, lower: seq<string>, terminal: string)
    requires HeldBy(names, Occupant(third, q.logical)) && third != q.artifactclass
    requires lower == NameLadder(sha, q)[..5] && terminal == Rung(sha, q, 5) && terminal !in names
    requires forall name :: name in lower ==> name in names
    ensures AfterAppend(sha, names, q) == names[terminal := Occupant(q.artifactclass, q.logical)]
  {
    var ladder := NameLadder(sha, q);
    forall k | 0 <= k < 5
      ensures ladder[k] in names
    {
      assert lower[k] in lower;
    }
    PushedUp(ladder, names, q, Occupant(third, q.logical), 5);
  }

  lemma ExhaustedAfter(ladder: seq<string>, r: Request, blocked: Names, third: string, other: string)
    requires third != r.artifactclass && other != r.artifactclass && HeldBy(blocked, Occupant(third, r.logical)) && |ladder| == 7
    requires forall name :: name in ladder[..6] ==> name in blocked
    ensures ResolveFrom(ladder, blocked[ladder[6] := Occupant(other, r.logical)], r, 0).Exhausted?
  {
    forall k | 0 <= k < 6
      ensures ladder[k] in blocked
    {
      assert ladder[..6][k] in ladder[..6];
    }
    AllTaken(ladder, blocked[ladder[6] := Occupant(other, r.logical)], r);
  }

  /** The names after the blocking appends and the carrier's. */
  lemma CarrierLandsOnTerminal(sha: string -> Digest, r: Request, q: Request, third: string, blocking: seq<string>, blocked: Names)
    requires blocking == Blocking(sha, r, q) && third != q.artifactclass && q.logical == r.logical && Rung(sha, q, 5) == Rung(sha, r, 6)
    requires blocked == AppendAll(sha, map[], Literals(blocking, third, r))
    ensures HeldBy(blocked, Occupant(third, r.logical)) && forall name :: name in blocked <==> name in blocking
    ensures AppendAll(sha, map[], Literals(blocking, third, r) + [q]) == blocked[Rung(sha, r, 6) := Occupant(q.artifactclass, q.logical)]
  {
    LiteralsTake(sha, map[], blocking, third, r);
    AppendAllSnoc(sha, map[], Literals(blocking, third, r), q);
    TerminalNotBlocked(sha, r, q);
    CarrierTakes(sha, blocked, q, third, NameLadder(sha, q)[..5], Rung(sha, r, 6));
  }

  lemma PushedRequestExhausts(sha: string -> Digest, r: Request, q: Request, third: string)
    requires third != r.artifactclass && third != q.artifactclass && q.artifactclass != r.artifactclass
    requires q.logical == r.logical && Rung(sha, q, 5) == Rung(sha, r, 6)
    ensures Resolve(sha, AppendAll(sha, map[], Literals(Blocking(sha, r, q), third, r) + [q]), r).Exhausted?
  {
    var ladder, blocking := NameLadder(sha, r), Blocking(sha, r, q);
    var blocked := AppendAll(sha, map[], Literals(blocking, third, r));
    CarrierLandsOnTerminal(sha, r, q, third, blocking, blocked);
    assert forall name :: name in ladder[..6] ==> name in blocking;
    ExhaustedAfter(ladder, r, blocked, third, q.artifactclass);
  }

  /** A tagged name, not only a literal one, can complete the exhaustion: eleven appends block the other
      rungs, and then a request whose base name carries the class segment of `r` is pushed up to its
      64-digit rung, which is `r`'s terminal rung and no name it or they asked for. Every class keeps a
      seed of its own and all requests are for one content, so only the base-name condition is broken. */
  lemma TaggedNameExhaustsLadder(sha: string -> Digest, r: Request, q: Request, third: string)
    requires q == Carrier(sha, r, q.artifactclass)
    requires ClassSeed(sha, q.artifactclass) != ClassSeed(sha, r.artifactclass)
    requires ClassSeed(sha, third) != ClassSeed(sha, r.artifactclass) && ClassSeed(sha, third) != ClassSeed(sha, q.artifactclass)
    ensures OthersHold(sha, Literals(Blocking(sha, r, q), third, r) + [q] + [r])
    ensures q.path != Rung(sha, r, 6) && Rung(sha, r, 6) !in Blocking(sha, r, q)
    ensures Resolve(sha, AppendAll(sha, map[], Literals(Blocking(sha, r, q), third, r) + [q]), r).Exhausted?
  {
    BlockersHold(sha, Blocking(sha, r, q), r, q, third);
    CarrierReachesTerminal(sha, r, q.artifactclass);
    assert q.path != Rung(sha, q, 5) by { RungsDistinct(sha, q, 0, 5); }
    TerminalNotBlocked(sha, r, q);
    PushedRequestExhausts(sha, r, q, third);
  }

  lemma BlockersHold(sha: string -> Digest, paths: seq<string>, r: Request, q: Request, third: string)
    requires q.digest == r.digest && q.logical == r.logical
    requires ClassSeed(sha, q.artifactclass) != ClassSeed(sha, r.artifactclass)
    requires ClassSeed(sha, third) != ClassSeed(sha, r.artifactclass) && ClassSeed(sha, third) != ClassSeed(sha, q.artifactclass)
    ensures OthersHold(sha, Literals(paths, third, r) + [q] + [r])
  {
    OneContentHolds(sha, Literals(paths, third, r) + [q] + [r], r, {q.artifactclass, third, r.artifactclass});
  }
}
