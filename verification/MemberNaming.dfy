/** The canonical collision ladder that names one member inside a bundle.

    SHA-256 is a parameter `sha`; nothing is assumed of it beyond its type. */
module MemberNaming {
  import opened Text
  import opened Numerals
  import opened MemberPath
  import opened Wrappers

  /** One append request: the requested name, the member's class, the hash of its logical asset
      and the digest of its staged bytes. */
  datatype Request = Request(path: string, artifactclass: string, logical: Digest, digest: Digest)

  /** What the ladder reads off the row that holds a name. */
  datatype Occupant = Occupant(artifactclass: string, logical: Digest)

  /** The names in use in one bundle. */
  type Names = map<string, Occupant>

  predicate IsSlugChar(c: char) {
    'A' <= c <= 'Z' || 'a' <= c <= 'z' || '0' <= c <= '9' || c == '_' || c == '-'
  }

  /** Every maximal run of other characters becomes one dash. */
  function CollapseRuns(text: string, inRun: bool): (slug: string)
    ensures forall i :: 0 <= i < |slug| ==> IsSlugChar(slug[i])
  {
    if text == "" then ""
    else if IsSlugChar(text[0]) then [text[0]] + CollapseRuns(text[1..], false)
    else if inRun then CollapseRuns(text[1..], true)
    else "-" + CollapseRuns(text[1..], true)
  }

  /** Text without other characters is its own slug. */
  lemma {:induction false} SlugKeepsSlugs(text: string)
    requires forall i :: 0 <= i < |text| ==> IsSlugChar(text[i])
    ensures CollapseRuns(text, false) == text
  {
    if text != "" { SlugKeepsSlugs(text[1..]); }
  }

  lemma {:induction false} SlugSplits(head: string, rest: string, inRun: bool)
    requires head != "" && IsSlugChar(head[|head| - 1])
    ensures CollapseRuns(head + rest, inRun) == CollapseRuns(head, inRun) + CollapseRuns(rest, false)
    decreases |head|
  {
    assert (head + rest)[1..] == head[1..] + rest;
    if |head| > 1 {
      SlugSplits(head[1..], rest, !IsSlugChar(head[0]));
    } else {
      assert head[1..] + rest == rest;
    }
  }

  lemma {:induction false} RunVanishes(run: string, rest: string)
    requires forall i :: 0 <= i < |run| ==> !IsSlugChar(run[i])
    requires rest == "" || IsSlugChar(rest[0])
    ensures CollapseRuns(run + rest, true) == CollapseRuns(rest, false)
  {
    if run == "" {
      assert run + rest == rest;
    } else {
      assert (run + rest)[1..] == run[1..] + rest;
      RunVanishes(run[1..], rest);
    }
  }

  lemma RunOpens(run: string, rest: string)
    requires run != "" && forall i :: 0 <= i < |run| ==> !IsSlugChar(run[i])
    requires rest == "" || IsSlugChar(rest[0])
    ensures CollapseRuns(run + rest, false) == "-" + CollapseRuns(rest, false)
  {
    assert (run + rest)[1..] == run[1..] + rest;
    RunVanishes(run[1..], rest);
  }

  /** Each maximal run of other characters becomes one dash. */
  lemma RunBecomesDash(head: string, run: string, rest: string, text: string)
    requires head == "" || IsSlugChar(head[|head| - 1])
    requires run != "" && forall i :: 0 <= i < |run| ==> !IsSlugChar(run[i])
    requires rest == "" || IsSlugChar(rest[0])
    requires text == head + (run + rest)
    ensures CollapseRuns(text, false) == CollapseRuns(head, false) + ("-" + CollapseRuns(rest, false))
  {
    RunOpens(run, rest);
    if head == "" { assert text == run + rest; } else { SlugSplits(head, run + rest, false); }
  }

  function ClassSlug(artifactclass: string): (slug: string)
    ensures slug != "" && forall i :: 0 <= i < |slug| ==> IsSlugChar(slug[i])
  {
    var slug := CollapseRuns(artifactclass, false);
    if slug == "" then "class" else slug
  }

  function ClassSeed(sha: string -> Digest, artifactclass: string): (seed: string)
    ensures |seed| == 12 && forall i :: 0 <= i < 12 ==> seed[i] in HEX_DIGITS
  {
    Hex(sha(artifactclass))[..12]
  }

  /** The dot segment that closes the terminal rung: class slug plus class seed. */
  function ClassSegment(sha: string -> Digest, artifactclass: string): string {
    ClassSlug(artifactclass) + "-" + ClassSeed(sha, artifactclass)
  }

  function TerminalTag(sha: string -> Digest, r: Request): string {
    Hex(r.digest) + "." + ClassSegment(sha, r.artifactclass)
  }

  const PREFIXES := [10, 20, 32, 48, 64]

  /** The requested name, the name tagged with ever longer digest prefixes, and the terminal rung. */
  function NameLadder(sha: string -> Digest, r: Request): (ladder: seq<string>)
    ensures |ladder| == 7 && ladder[0] == r.path
  {
    seq(7, k requires 0 <= k < 7 => Rung(sha, r, k))
  }

  function Rung(sha: string -> Digest, r: Request, k: nat): string
    requires k < 7
  {
    if k == 0 then r.path else if k <= 5 then PrefixRung(r, PREFIXES[k - 1]) else TerminalRung(sha, r)
  }

  /** The rung that inserts a prefix of the member's own staged digest. */
  function PrefixRung(r: Request, length: nat): string
    requires length <= 64
  {
    TagMemberPath(r.path, Hex(r.digest)[..length])
  }

  function TerminalRung(sha: string -> Digest, r: Request): string {
    TagMemberPath(r.path, TerminalTag(sha, r))
  }

  predicate IsOwn(occupant: Occupant, r: Request) {
    occupant.artifactclass == r.artifactclass && occupant.logical == r.logical
  }

  /** Where the ladder stops: at a free rung, at the caller's own row, or nowhere. */
  datatype Resolution = Free(rung: nat) | Own(rung: nat) | Exhausted

  /** Rungs below `k` hold other members' rows. */
  predicate ForeignBelow(ladder: seq<string>, names: Names, r: Request, k: nat) {
    k <= |ladder| && forall j :: 0 <= j < k ==> ladder[j] in names && !IsOwn(names[ladder[j]], r)
  }

  function ResolveFrom(ladder: seq<string>, names: Names, r: Request, k: nat): (found: Resolution)
    requires ForeignBelow(ladder, names, r, k)
    ensures found.Free? ==> found.rung < |ladder| && ladder[found.rung] !in names
                            && ForeignBelow(ladder, names, r, found.rung)
    ensures found.Own? ==> found.rung < |ladder| && ladder[found.rung] in names
                           && IsOwn(names[ladder[found.rung]], r) && ForeignBelow(ladder, names, r, found.rung)
    ensures found.Exhausted? ==> ForeignBelow(ladder, names, r, |ladder|)
    decreases |ladder| - k
  {
    if k == |ladder| then Exhausted
    else if ladder[k] !in names then Free(k)
    else if IsOwn(names[ladder[k]], r) then Own(k)
    else ResolveFrom(ladder, names, r, k + 1)
  }

  function Resolve(sha: string -> Digest, names: Names, r: Request): Resolution {
    ResolveFrom(NameLadder(sha, r), names, r, 0)
  }

  method WalkLadder(ladder: seq<string>, names: Names, r: Request) returns (found: Resolution)
    ensures found == ResolveFrom(ladder, names, r, 0)
  {
    var k := 0;
    while k < |ladder|
      invariant 0 <= k <= |ladder|
      invariant ForeignBelow(ladder, names, r, k)
      invariant ResolveFrom(ladder, names, r, 0) == ResolveFrom(ladder, names, r, k)
    {
      if ladder[k] !in names {
        return Free(k);
      }
      if IsOwn(names[ladder[k]], r) {
        return Own(k);
      }
      k := k + 1;
    }
    return Exhausted;
  }

  /** A resolution is the only rung with foreign rows below it that is itself free or own. */
  lemma {:induction false} ResolutionUnique(ladder: seq<string>, names: Names, r: Request, k: nat, rung: nat)
    requires k <= rung < |ladder|
    requires ForeignBelow(ladder, names, r, rung)
    requires ladder[rung] in names ==> IsOwn(names[ladder[rung]], r)
    ensures ResolveFrom(ladder, names, r, k) == if ladder[rung] in names then Own(rung) else Free(rung)
    decreases rung - k
  {
  }

  /** `later` keeps every name of `names`, with its occupant. */
  predicate Extends(names: Names, later: Names) {
    forall name :: name in names ==> name in later && later[name] == names[name]
  }

  /** Re-adding a request after any further appends lands on the row it made or found. */
  lemma ResolveStable(sha: string -> Digest, names: Names, later: Names, r: Request)
    requires !Resolve(sha, names, r).Exhausted?
    requires Extends(names, later)
    requires var name := NameLadder(sha, r)[Resolve(sha, names, r).rung];
             name in later && IsOwn(later[name], r)
    ensures Resolve(sha, later, r) == Own(Resolve(sha, names, r).rung)
  {
  }

  /** A ladder run on a stale view names the same rung as one on the current rows, unless the
      free rung it found has been taken meanwhile. */
  lemma StaleResolve(sha: string -> Digest, seen: Names, current: Names, r: Request)
    requires Extends(seen, current)
    ensures Resolve(sha, seen, r).Own? ==> Resolve(sha, current, r) == Resolve(sha, seen, r)
    ensures Resolve(sha, seen, r).Free? && NameLadder(sha, r)[Resolve(sha, seen, r).rung] !in current
            ==> Resolve(sha, current, r) == Resolve(sha, seen, r)
    ensures Resolve(sha, seen, r).Exhausted? ==> Resolve(sha, current, r).Exhausted?
  {
    StaleFrom(NameLadder(sha, r), seen, current, r);
  }

  lemma StaleFrom(ladder: seq<string>, seen: Names, current: Names, r: Request)
    requires Extends(seen, current)
    ensures var found := ResolveFrom(ladder, seen, r, 0);
            var now := ResolveFrom(ladder, current, r, 0);
            && (found.Own? ==> now == found)
            && (found.Free? && ladder[found.rung] !in current ==> now == found)
            && (found.Exhausted? ==> now.Exhausted?)
  {
    var found := ResolveFrom(ladder, seen, r, 0);
    if !found.Exhausted? && (found.Own? || ladder[found.rung] !in current) {
      ResolutionUnique(ladder, current, r, 0, found.rung);
    }
  }

  /** The pairwise conditions under which no ladder runs out: distinct classes have distinct
      seeds, equal staged digests mean equal logical hashes, and no requested base name carries a
      class segment of its own. */
  ghost predicate Admissible(sha: string -> Digest, requests: set<Request>) {
    forall r, q :: r in requests && q in requests ==>
      && (ClassSeed(sha, r.artifactclass) == ClassSeed(sha, q.artifactclass) ==> r.artifactclass == q.artifactclass)
      && (r.digest == q.digest ==> r.logical == q.logical)
      && ClassSegment(sha, r.artifactclass) !in Split(BaseName(q.path), '.')
  }

  lemma SegmentCharacters(sha: string -> Digest, artifactclass: string)
    ensures '/' !in ClassSegment(sha, artifactclass) && '.' !in ClassSegment(sha, artifactclass)
  {
    var slug, seed := ClassSlug(artifactclass), ClassSeed(sha, artifactclass);
    forall c | c in ClassSegment(sha, artifactclass)
      ensures c != '/' && c != '.'
    {
      assert c in slug || c in "-" || c in seed;
      if c in slug {
        assert IsSlugChar(c);
      }
    }
  }

  lemma HexCharacters(value: Bytes)
    ensures '/' !in Hex(value) && '.' !in Hex(value)
  {
  }

  /** A disambiguated name says how it was made: reading the tag back off rung `k` gives the first 10,
      20, 32, 48 or 64 digits of the member's digest. */
  lemma RungReadsBack(sha: string -> Digest, r: Request, k: nat, length: nat)
    requires 1 <= k <= 5 && length == [10, 20, 32, 48, 64][k - 1]
    ensures NameLadder(sha, r)[k] == PrefixRung(r, length)
    ensures ExtractMemberTag(r.path, PrefixRung(r, length)) == Some(Hex(r.digest)[..length])
  {
    PrefixReadsBack(r, length);
  }

  /** Off the last rung it gives the whole digest and the class segment. */
  lemma TerminalReadsBack(sha: string -> Digest, r: Request)
    ensures NameLadder(sha, r)[6] == TerminalRung(sha, r)
    ensures ExtractMemberTag(r.path, TerminalRung(sha, r)) == Some(Hex(r.digest) + "." + ClassSegment(sha, r.artifactclass))
  {
    TerminalIsLast(sha, r);
    var tag := TerminalTag(sha, r);
    assert tag != "" && '/' !in tag by { TerminalSegments(sha, r); }
    TagReadsBack(r.path, tag);
  }

  lemma TerminalIsLast(sha: string -> Digest, r: Request)
    ensures NameLadder(sha, r)[6] == TerminalRung(sha, r)
  {
  }

  lemma TagReadsBack(path: string, tag: string)
    requires tag != "" && '/' !in tag
    ensures ExtractMemberTag(path, TagMemberPath(path, tag)) == Some(tag)
  {
    ExtractUndoesTag(path, tag);
  }

  lemma PrefixReadsBack(r: Request, length: nat)
    requires 0 < length <= 64
    ensures ExtractMemberTag(r.path, PrefixRung(r, length)) == Some(Hex(r.digest)[..length])
  {
    var hex := Hex(r.digest);
    HexCharacters(r.digest);
    assert forall c :: c in hex[..length] ==> c in hex;
    TagReadsBack(r.path, hex[..length]);
  }

  lemma TerminalSegments(sha: string -> Digest, r: Request)
    ensures '/' !in TerminalTag(sha, r)
    ensures Split(TerminalTag(sha, r), '.') == [Hex(r.digest), ClassSegment(sha, r.artifactclass)]
  {
    var segment := ClassSegment(sha, r.artifactclass);
    SegmentCharacters(sha, r.artifactclass);
    HexCharacters(r.digest);
    SplitPeels(Hex(r.digest), segment, '.');
    SplitWhole(segment, '.');
  }

  /** The terminal name's base reads, segment by segment: stem, full digest, class segment, rest. */
  lemma TerminalNameSegments(sha: string -> Digest, r: Request)
    ensures var parts := Split(BaseName(TerminalRung(sha, r)), '.');
            |parts| >= 3 && parts[1] == Hex(r.digest) && parts[2] == ClassSegment(sha, r.artifactclass)
  {
    TerminalSegments(sha, r);
    TwoSegmentTag(r.path, TerminalTag(sha, r), Hex(r.digest), ClassSegment(sha, r.artifactclass));
  }

  lemma TwoSegmentTag(path: string, tag: string, first: string, second: string)
    requires '/' !in tag && Split(tag, '.') == [first, second]
    ensures var parts := Split(BaseName(TagMemberPath(path, tag)), '.');
            |parts| >= 3 && parts[1] == first && parts[2] == second
  {
    assert BaseName(TagMemberPath(path, tag)) == TagBase(BaseName(path), tag) by { TaggedCut(path, tag); }
    TwoSegmentBase(BaseName(path), tag, first, second);
  }

  lemma TwoSegmentBase(base: string, tag: string, first: string, second: string)
    requires Split(tag, '.') == [first, second]
    ensures var parts := Split(TagBase(base, tag), '.'); |parts| >= 3 && parts[1] == first && parts[2] == second
  {
    TaggedSegments(base, tag);
  }

  lemma SegmentsDetermineSeed(sha: string -> Digest, first: string, second: string)
    requires ClassSegment(sha, first) == ClassSegment(sha, second)
    ensures ClassSeed(sha, first) == ClassSeed(sha, second)
  {
    var segment := ClassSegment(sha, first);
    assert segment[|segment| - 12..] == ClassSeed(sha, first);
    assert ClassSegment(sha, second)[|segment| - 12..] == ClassSeed(sha, second);
  }

  lemma PrefixRungSegments(q: Request, length: nat)
    requires 0 < length <= 64
    ensures var parts := Split(BaseName(PrefixRung(q, length)), '.');
            forall i :: 2 <= i < |parts| ==> parts[i] in Split(BaseName(q.path), '.')
  {
    var tag := Hex(q.digest)[..length];
    HexCharacters(q.digest);
    assert forall c :: c in tag ==> c in Hex(q.digest);
    TaggedCut(q.path, tag);
    TaggedSegments(BaseName(q.path), tag);
    SplitWhole(tag, '.');
  }

  /** A row named by any rung of an admissible request sits on another request's terminal rung
      only if the two are one request in all but the logical hash. */
  lemma TerminalRungIsOwn(sha: string -> Digest, r: Request, q: Request)
    requires TerminalRung(sha, r) in NameLadder(sha, q)
    requires ClassSegment(sha, r.artifactclass) !in Split(BaseName(q.path), '.')
    requires ClassSeed(sha, r.artifactclass) == ClassSeed(sha, q.artifactclass) ==> r.artifactclass == q.artifactclass
    ensures q.artifactclass == r.artifactclass && q.digest == r.digest && q.path == r.path
  {
    assert TerminalRung(sha, r) == TerminalRung(sha, q) by { OnlyTheTopRung(sha, r, q, TerminalRung(sha, r)); }
    TerminalRungsAgree(sha, r, q);
  }

  lemma OnlyTheTopRung(sha: string -> Digest, r: Request, q: Request, name: string)
    requires name in NameLadder(sha, q) && name == TerminalRung(sha, r)
    requires ClassSegment(sha, r.artifactclass) !in Split(BaseName(q.path), '.')
    ensures name == TerminalRung(sha, q)
  {
    var k := RungOf(sha, q, name);
    if k <= 5 { NotALowerRung(sha, r, q, k); }
  }

  lemma NotALowerRung(sha: string -> Digest, r: Request, q: Request, k: nat)
    requires k <= 5 && ClassSegment(sha, r.artifactclass) !in Split(BaseName(q.path), '.')
    ensures Rung(sha, q, k) != TerminalRung(sha, r)
  {
    if k == 0 { NotTheRequest(sha, r, q); } else { NotAPrefixRung(sha, r, q, PREFIXES[k - 1]); }
  }

  lemma RungOf(sha: string -> Digest, q: Request, name: string) returns (k: nat)
    requires name in NameLadder(sha, q)
    ensures k < 7 && Rung(sha, q, k) == name
  {
    k :| 0 <= k < 7 && NameLadder(sha, q)[k] == name;
  }

  lemma NotTheRequest(sha: string -> Digest, r: Request, q: Request)
    requires ClassSegment(sha, r.artifactclass) !in Split(BaseName(q.path), '.')
    ensures TerminalRung(sha, r) != q.path
  {
    TerminalNameSegments(sha, r);
  }

  lemma NotAPrefixRung(sha: string -> Digest, r: Request, q: Request, length: nat)
    requires 0 < length <= 64
    requires ClassSegment(sha, r.artifactclass) !in Split(BaseName(q.path), '.')
    ensures TerminalRung(sha, r) != PrefixRung(q, length)
  {
    TerminalNameSegments(sha, r);
    PrefixRungSegments(q, length);
  }

  lemma TerminalRungsAgree(sha: string -> Digest, r: Request, q: Request)
    requires TerminalRung(sha, r) == TerminalRung(sha, q)
    requires ClassSeed(sha, r.artifactclass) == ClassSeed(sha, q.artifactclass) ==> r.artifactclass == q.artifactclass
    ensures q.artifactclass == r.artifactclass && q.digest == r.digest && q.path == r.path
  {
    TerminalNameSegments(sha, r);
    TerminalNameSegments(sha, q);
    HexInjective(r.digest, q.digest);
    SegmentsDetermineSeed(sha, r.artifactclass, q.artifactclass);
    TerminalSegments(sha, r);
    TagInjectiveInPath(r.path, q.path, TerminalTag(sha, r));
  }

  /** Every name in use came off the ladder of some request. */
  ghost predicate NamedBy(sha: string -> Digest, names: Names, requests: set<Request>) {
    forall name :: name in names ==>
      exists q :: q in requests && name in NameLadder(sha, q) && IsOwn(names[name], q)
  }

  /** The ladder never runs out for an admissible request. */
  lemma LadderNeverExhausted(sha: string -> Digest, names: Names, requests: set<Request>, r: Request)
    requires Admissible(sha, requests) && r in requests
    requires NamedBy(sha, names, requests)
    ensures !Resolve(sha, names, r).Exhausted?
  {
    var ladder := NameLadder(sha, r);
    if Resolve(sha, names, r).Exhausted? {
      var name := ladder[6];
      assert name in names && !IsOwn(names[name], r);
      var q :| q in requests && name in NameLadder(sha, q) && IsOwn(names[name], q);
      TerminalRungIsOwn(sha, r, q);
      assert false;
    }
  }

  /** The effect of one successful append on the names of a bundle. */
  function AfterAppend(sha: string -> Digest, names: Names, r: Request): Names {
    match Resolve(sha, names, r)
    case Free(rung) => names[NameLadder(sha, r)[rung] := Occupant(r.artifactclass, r.logical)]
    case Own(_) => names
    case Exhausted => names
  }

  function AppendAll(sha: string -> Digest, names: Names, requests: seq<Request>): Names
    decreases |requests|
  {
    if requests == [] then names
    else AppendAll(sha, AfterAppend(sha, names, requests[0]), requests[1..])
  }

  /** Names only accumulate, and a successful append leaves its own name behind. */
  lemma AppendExtends(sha: string -> Digest, names: Names, r: Request)
    ensures Extends(names, AfterAppend(sha, names, r))
    ensures !Resolve(sha, names, r).Exhausted? ==>
              var name := NameLadder(sha, r)[Resolve(sha, names, r).rung];
              name in AfterAppend(sha, names, r) && IsOwn(AfterAppend(sha, names, r)[name], r)
  {
  }

  lemma {:induction false} AppendAllExtends(sha: string -> Digest, names: Names, requests: seq<Request>)
    ensures Extends(names, AppendAll(sha, names, requests))
    decreases |requests|
  {
    if requests != [] {
      AppendAllExtends(sha, AfterAppend(sha, names, requests[0]), requests[1..]);
      AppendExtends(sha, names, requests[0]);
    }
  }

  /** Re-adding a request after any sequence of other appends finds its own row and changes no name. */
  lemma ReAddIsIdempotent(sha: string -> Digest, names: Names, r: Request, others: seq<Request>)
    requires !Resolve(sha, names, r).Exhausted?
    ensures var later := AppendAll(sha, AfterAppend(sha, names, r), others);
            Resolve(sha, later, r) == Own(Resolve(sha, names, r).rung) && AfterAppend(sha, later, r) == later
  {
    var once := AfterAppend(sha, names, r);
    AppendExtends(sha, names, r);
    AppendAllExtends(sha, once, others);
    ResolveStable(sha, names, AppendAll(sha, once, others), r);
  }

  lemma TagTwice(stem: Cut, inner: string, outer: string)
    requires '.' !in stem.head
    ensures TagStem(Partition(TagStem(stem, inner), '.'), outer) == TagStem(stem, outer + "." + inner)
  {
    var again := Cut(stem.head, ".", AfterHead(stem, inner));
    assert Partition(TagStem(stem, inner), '.') == again by {
      TagStemHead(stem, inner);
      PartitionUnique(stem.head, AfterHead(stem, inner), '.');
    }
    TagStemHead(again, outer);
    TagStemHead(stem, outer + "." + inner);
    AfterHeads(stem, inner, outer);
  }

  lemma AfterHeads(stem: Cut, inner: string, outer: string)
    ensures AfterHead(Cut(stem.head, ".", AfterHead(stem, inner)), outer) == AfterHead(stem, outer + "." + inner)
  {
  }

  /** Tagging twice is tagging once with both tags, the later one first. */
  lemma TagPathTwice(path: string, inner: string, outer: string)
    requires '/' !in inner
    ensures TagMemberPath(TagMemberPath(path, inner), outer) == TagMemberPath(path, outer + "." + inner)
  {
    TaggedCut(path, inner);
    TagTwice(Partition(BaseName(path), '.'), inner, outer);
  }
}
