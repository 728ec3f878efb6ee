/** Bundle, member and transform rows, and the atomic catalog steps of the accumulator protocol. */
module BundleCatalog {
  import opened Wrappers
  import opened Numerals
  import opened MemberNaming

  datatype Status = Open | Flushing | Held | Sealed | Void

  datatype Bundle = Bundle(group: string, status: Status, totalBytes: int, memberCount: int,
                           targetBytes: int, maxAge: int, archiveId: Option<string>, claimedBy: Option<string>,
                           openedAt: int, flushedAt: Option<int>)

  /** One submission member a bundle row serves. */
  datatype Link = Link(submission: string, member: int)

  /** `source_metadata`: the submission links and every other key. */
  datatype Metadata = Metadata(links: seq<Link>, extra: map<string, string>)

  datatype Member = Member(bundle: string, artifactclass: string, logical: Digest, path: string,
                           size: nat, digest: Digest, metadata: Metadata)

  /** One staging step: its place in the member's chain, the digests before and after it, the path it
      stored under, and whether it is the last. */
  datatype Staging = Staging(order: int, original: Digest, stored: Digest, storedPath: string, final: bool)

  /** A staging-transform row: the member it belongs to, the bundle column it carries, and its step. */
  datatype Transform = Transform(member: nat, bundle: string, step: Staging)

  /** Where one member sits inside a stored copy. */
  datatype Locator = Locator(path: string, logical: Digest, digest: Digest, size: nat)

  /** `key` stands for the backend and the locator key, which are unique together. */
  datatype BundleCopy = BundleCopy(bundle: string, pool: string, key: string, locators: seq<Locator>, suspect: bool)

  /** Member, transform and copy rows by row id: rows are never deleted. */
  datatype State = State(bundles: map<string, Bundle>, members: seq<Member>, transforms: seq<Transform>,
                         copies: seq<BundleCopy>, assets: set<Digest>)

  /** One append: the naming request, the member's size and the metadata it brings. */
  datatype Item = Item(request: Request, size: nat, metadata: Metadata)

  datatype BundleError = NotOpen | UnknownAsset | NamingExhausted | CouldNotOpen | CouldNotMint | ZeroThresholds | ClaimLost | NameLost | Refused

  // ----- Rows of one bundle -----

  function CountIn(members: seq<Member>, id: string): nat {
    if members == [] then 0
    else CountIn(members[..|members| - 1], id) + (if members[|members| - 1].bundle == id then 1 else 0)
  }

  function BytesIn(members: seq<Member>, id: string): nat {
    if members == [] then 0
    else BytesIn(members[..|members| - 1], id) + (if members[|members| - 1].bundle == id then members[|members| - 1].size else 0)
  }

  /** The names in use in one bundle. */
  function NamesIn(members: seq<Member>, id: string): Names {
    if members == [] then map[]
    else
      var names, last := NamesIn(members[..|members| - 1], id), members[|members| - 1];
      if last.bundle == id then names[last.path := Occupant(last.artifactclass, last.logical)] else names
  }

  predicate HoldsName(members: seq<Member>, id: string, path: string, i: nat) {
    i < |members| && members[i].bundle == id && members[i].path == path
  }

  /** Some row of the bundle carries each name in use, and says who occupies it. */
  lemma {:induction false} NamesWitness(members: seq<Member>, id: string, path: string) returns (i: nat)
    requires path in NamesIn(members, id)
    ensures HoldsName(members, id, path, i)
    ensures NamesIn(members, id)[path] == Occupant(members[i].artifactclass, members[i].logical)
    decreases |members|
  {
    var n := |members| - 1;
    if HoldsName(members, id, path, n) {
      i := n;
    } else {
      i := NamesWitness(members[..n], id, path);
    }
  }

  lemma {:induction false} NamesComplete(members: seq<Member>, id: string, i: nat)
    requires i < |members| && members[i].bundle == id
    ensures members[i].path in NamesIn(members, id)
    decreases |members|
  {
    var n := |members| - 1;
    if i < n {
      NamesComplete(members[..n], id, i);
    }
  }

  lemma {:induction false} CountUpdate(members: seq<Member>, i: nat, row: Member, id: string)
    requires i < |members|
    ensures CountIn(members[i := row], id)
            == CountIn(members, id) - (if members[i].bundle == id then 1 else 0) + (if row.bundle == id then 1 else 0)
    ensures BytesIn(members[i := row], id)
            == BytesIn(members, id) - (if members[i].bundle == id then members[i].size else 0) + (if row.bundle == id then row.size else 0)
    decreases |members|
  {
    var n := |members| - 1;
    if i == n {
      assert members[i := row][..n] == members[..n];
    } else {
      assert members[i := row][..n] == members[..n][i := row];
      CountUpdate(members[..n], i, row, id);
    }
  }

  lemma {:induction false} CountZero(members: seq<Member>, id: string)
    requires forall i :: 0 <= i < |members| ==> members[i].bundle != id
    ensures CountIn(members, id) == 0 && BytesIn(members, id) == 0 && NamesIn(members, id) == map[]
    decreases |members|
  {
    if members != [] {
      CountZero(members[..|members| - 1], id);
    }
  }

  lemma {:induction false} CountPositive(members: seq<Member>, id: string, i: nat)
    requires i < |members| && members[i].bundle == id
    ensures CountIn(members, id) > 0
    decreases |members|
  {
    if i < |members| - 1 {
      CountPositive(members[..|members| - 1], id, i);
    }
  }

  // ----- Metadata -----

  function NewLinks(existing: seq<Link>, incoming: seq<Link>): seq<Link> {
    if incoming == [] then []
    else
      var front := NewLinks(existing, incoming[..|incoming| - 1]);
      if incoming[|incoming| - 1] in existing then front else front + [incoming[|incoming| - 1]]
  }

  /** `merge_member_source_metadata`: links accumulate, every other key is first-writer-wins. */
  function Merge(existing: Metadata, incoming: Metadata): Metadata {
    Metadata(existing.links + NewLinks(existing.links, incoming.links), incoming.extra + existing.extra)
  }

  lemma {:induction false} NewLinksElements(existing: seq<Link>, incoming: seq<Link>, link: Link)
    ensures link in NewLinks(existing, incoming) <==> link in incoming && link !in existing
    decreases |incoming|
  {
    if incoming != [] {
      NewLinksElements(existing, incoming[..|incoming| - 1], link);
      assert incoming == incoming[..|incoming| - 1] + [incoming[|incoming| - 1]];
    }
  }

  /** A merge loses no link, adds exactly the incoming ones, and keeps the first writer's keys. */
  lemma MergeKeepsAndAdds(existing: Metadata, incoming: Metadata)
    ensures forall link :: link in Merge(existing, incoming).links <==> link in existing.links || link in incoming.links
    ensures existing.links <= Merge(existing, incoming).links
    ensures forall key :: key in existing.extra ==> Merge(existing, incoming).extra[key] == existing.extra[key]
    ensures forall key :: key in incoming.extra && key !in existing.extra ==> Merge(existing, incoming).extra[key] == incoming.extra[key]
  {
    forall link
      ensures link in Merge(existing, incoming).links <==> link in existing.links || link in incoming.links
    {
      NewLinksElements(existing.links, incoming.links, link);
    }
  }

  // ----- Steps -----

  predicate IsAccumulator(s: State, id: string, group: string) {
    id in s.bundles && s.bundles[id].group == group && s.bundles[id].status == Open && s.bundles[id].archiveId.None?
  }

  function ArchiveName(id: string): string { "archive-" + id }

  function NewBundle(group: string, targetBytes: int, maxAge: int, archiveId: Option<string>, now: int): Bundle {
    Bundle(group, Open, 0, 0, targetBytes, maxAge, archiveId, None, now, None)
  }

  /** Rows a member's rung resolves to when the caller's own row already holds it. */
  function RowAt(members: seq<Member>, id: string, path: string): (row: Option<nat>)
    ensures row.Some? ==> HoldsName(members, id, path, row.value)
    ensures row.None? ==> forall i :: 0 <= i < |members| ==> !HoldsName(members, id, path, i)
  {
    if members == [] then None
    else if HoldsName(members, id, path, |members| - 1) then Some(|members| - 1)
    else
      var front := members[..|members| - 1];
      assert forall i :: 0 <= i < |front| ==> HoldsName(front, id, path, i) == HoldsName(members, id, path, i);
      RowAt(front, id, path)
  }

  function NewMember(id: string, path: string, item: Item): Member {
    Member(id, item.request.artifactclass, item.request.logical, path, item.size, item.request.digest, item.metadata)
  }

  function WithMember(s: State, id: string, row: Member): State
    requires id in s.bundles
  {
    var b := s.bundles[id];
    s.(members := s.members + [row],
       bundles := s.bundles[id := b.(totalBytes := b.totalBytes + row.size, memberCount := b.memberCount + 1)])
  }

  /** A completed append: the new state, the row it landed on, and whether it made the row. */
  datatype Appended = Appended(state: State, row: nat, created: bool)

  /** `add_bundle_member` as one atomic step. */
  function Append(sha: string -> Digest, s: State, id: string, item: Item): Result<Appended, BundleError> {
    if id !in s.bundles || s.bundles[id].status != Open then Err(NotOpen)
    else if item.request.logical !in s.assets then Err(UnknownAsset)
    else
      var ladder := NameLadder(sha, item.request);
      match Resolve(sha, NamesIn(s.members, id), item.request)
      case Exhausted => Err(NamingExhausted)
      case Free(rung) => Ok(Appended(WithMember(s, id, NewMember(id, ladder[rung], item)), |s.members|, true))
      case Own(rung) =>
        match RowAt(s.members, id, ladder[rung])
        case None => Err(NamingExhausted)
        case Some(i) =>
          var row := s.members[i];
          Ok(Appended(s.(members := s.members[i := row.(metadata := Merge(row.metadata, item.metadata))]), i, false))
  }

  /** The open accumulator of a group, if there is one. */
  ghost function OpenAccumulator(s: State, group: string): (found: Option<string>)
    ensures found.Some? ==> IsAccumulator(s, found.value, group)
    ensures found.None? ==> forall id :: !IsAccumulator(s, id, group)
  {
    if exists id :: IsAccumulator(s, id, group) then
      var id :| IsAccumulator(s, id, group); Some(id)
    else None
  }

  /** `get_or_create_open_bundle` as one atomic step. */
  ghost function GetOrCreate(s: State, group: string, targetBytes: int, maxAge: int, id: string, now: int)
    : Result<(State, string), BundleError>
  {
    match OpenAccumulator(s, group)
    case Some(existing) => Ok((s, existing))
    case None =>
      if id in s.bundles then Err(CouldNotOpen)
      else Ok((s.(bundles := s.bundles[id := NewBundle(group, targetBytes, maxAge, None, now)]), id))
  }

  /** An open funnel of the group that already holds this very member. */
  predicate IsFunnelHit(s: State, id: string, group: string, item: Item) {
    && id in s.bundles && s.bundles[id].group == group && s.bundles[id].status == Open && s.bundles[id].archiveId.Some?
    && exists i :: 0 <= i < |s.members| && HoldsName(s.members, id, item.request.path, i)
                   && s.members[i].artifactclass == item.request.artifactclass && s.members[i].logical == item.request.logical
  }

  /** The include-alone bundle an oversized member goes to: the probe's hit, else a fresh funnel,
      else the open funnel that already has the minted id. */
  function FunnelFor(s: State, group: string, targetBytes: int, maxAge: int, id: string, now: int, probe: Option<string>)
    : Result<(State, string), BundleError>
  {
    if probe.Some? then Ok((s, probe.value))
    else if id !in s.bundles then
      Ok((s.(bundles := s.bundles[id := NewBundle(group, targetBytes, maxAge, Some(ArchiveName(id)), now)]), id))
    else if s.bundles[id].status == Open && s.bundles[id].group == group && s.bundles[id].archiveId.Some? then Ok((s, id))
    else Err(CouldNotMint)
  }

  /** The bundle an enqueue appends to, opened if need be. */
  ghost function Destination(s: State, group: string, targetBytes: int, maxAge: int, id: string, now: int, size: nat,
                             probe: Option<string>)
    : Result<(State, string), BundleError>
  {
    if size >= targetBytes then FunnelFor(s, group, targetBytes, maxAge, id, now, probe)
    else GetOrCreate(s, group, targetBytes, maxAge, id, now)
  }

  /** `enqueue_artifact`. `group`, `targetBytes` and `maxAge` are what the class's group derives;
      `probe` is the funnel the crash-retry lookup returned. */
  ghost function Enqueue(sha: string -> Digest, s: State, group: string, targetBytes: int, maxAge: int, id: string,
                         now: int,
                         item: Item, probe: Option<string>): Result<Appended, BundleError> {
    if item.request.logical !in s.assets then Err(UnknownAsset)
    else if targetBytes <= 0 || maxAge <= 0 then Err(ZeroThresholds)
    else
      match Destination(s, group, targetBytes, maxAge, id, now, item.size, probe)
      case Err(error) => Err(error)
      case Ok((ready, target)) => Append(sha, ready, target, item)
  }

  /** The guarded `open -> flushing` claim together with the archive-id mint. */
  function Claim(s: State, id: string, token: string, now: int): Result<State, BundleError> {
    if id in s.bundles && s.bundles[id].status == Open then
      var b := s.bundles[id];
      Ok(s.(bundles := s.bundles[id := b.(status := Flushing, claimedBy := Some(token), flushedAt := Some(now),
                                          archiveId := if b.archiveId.None? then Some(ArchiveName(id)) else b.archiveId)]))
    else Err(ClaimLost)
  }

  /** The guarded `flushing -> sealed` close. */
  function Close(s: State, id: string, token: string): Result<State, BundleError> {
    if id in s.bundles && s.bundles[id].status == Flushing && s.bundles[id].claimedBy == Some(token)
    then Ok(s.(bundles := s.bundles[id := s.bundles[id].(status := Sealed)]))
    else Err(ClaimLost)
  }

  /** The reaper's guarded `flushing -> open`; the archive id stays. */
  function Reap(s: State, id: string): Result<State, BundleError> {
    if id in s.bundles && s.bundles[id].status == Flushing
    then Ok(s.(bundles := s.bundles[id := s.bundles[id].(status := Open, claimedBy := None)]))
    else Err(Refused)
  }

  /** The terminal seal of an empty accumulator no live class derives. */
  function VoidSeal(s: State, id: string, live: set<string>): Result<State, BundleError> {
    if id in s.bundles && s.bundles[id].status == Open && s.bundles[id].archiveId.None? && s.bundles[id].memberCount == 0
       && s.bundles[id].group !in live
    then Ok(s.(bundles := s.bundles[id := s.bundles[id].(status := Void)]))
    else Err(Refused)
  }

  function RetargetTransforms(transforms: seq<Transform>, m: nat, id: string): (moved: seq<Transform>)
    ensures |moved| == |transforms|
    ensures forall i :: 0 <= i < |moved| ==>
              moved[i] == if transforms[i].member == m then transforms[i].(bundle := id) else transforms[i]
  {
    seq(|transforms|, i requires 0 <= i < |transforms| =>
      if transforms[i].member == m then transforms[i].(bundle := id) else transforms[i])
  }

  /** The unique `(bundle, path)` constraint lets member `m` move into bundle `qid`. */
  predicate NameFree(s: State, m: nat, qid: string) {
    m < |s.members| && forall i :: 0 <= i < |s.members| && s.members[i].bundle == qid ==> s.members[i].path != s.members[m].path
  }

  /** The held funnel a flush moves its failed members into. */
  function QuarantineBundle(source: Bundle, id: string, now: int): Bundle {
    Bundle(source.group, Held, 0, 0, source.targetBytes, source.maxAge, Some(ArchiveName(id)), None, now, None)
  }

  /** `_quarantine_member`, by the flusher that holds the claim: move one member row and its
      transforms into the flush's held bundle, minting that bundle on first use. */
  function Quarantine(s: State, id: string, token: string, m: nat, qid: string, now: int): Result<State, BundleError> {
    if id in s.bundles && s.bundles[id].status == Flushing && s.bundles[id].claimedBy == Some(token)
       && m < |s.members| && s.members[m].bundle == id && (qid !in s.bundles || s.bundles[qid].status == Held)
       && NameFree(s, m, qid)
    then
      var row, b := s.members[m], s.bundles[id];
      var q := if qid in s.bundles then s.bundles[qid] else QuarantineBundle(b, qid, now);
      Ok(s.(members := s.members[m := row.(bundle := qid)],
            transforms := RetargetTransforms(s.transforms, m, qid),
            bundles := s.bundles
                       [id := b.(totalBytes := b.totalBytes - row.size, memberCount := b.memberCount - 1)]
                       [qid := q.(totalBytes := q.totalBytes + row.size, memberCount := q.memberCount + 1)]))
    else Err(Refused)
  }

  /** A step fits its member: a final one stores the member's path and digest, a first one starts from
      the member's logical hash. */
  predicate StagingFits(row: Member, step: Staging) {
    && (step.final ==> step.storedPath == row.path && step.stored == row.digest)
    && (step.order == 0 ==> step.original == row.logical)
  }

  /** A row of the same member and step, or of the same bundle, stored path and step. */
  predicate StagingTaken(s: State, m: nat, step: Staging)
    requires m < |s.members|
  {
    exists k :: 0 <= k < |s.transforms| && SameStaging(s.transforms[k], m, s.members[m].bundle, step)
  }

  predicate SameStaging(row: Transform, m: nat, bundle: string, step: Staging) {
    row.step.order == step.order && (row.member == m || (row.bundle == bundle && row.step.storedPath == step.storedPath))
  }

  /** `record_staging_transform`: the row copies its member's bundle. */
  function RecordTransform(s: State, m: nat, step: Staging): Result<State, BundleError> {
    if m >= |s.members| || !StagingFits(s.members[m], step) || StagingTaken(s, m, step) then Err(Refused)
    else Ok(s.(transforms := s.transforms + [Transform(m, s.members[m].bundle, step)]))
  }

  function PlaceCopy(s: State, copy: BundleCopy): State {
    s.(copies := s.copies + [copy])
  }
}
