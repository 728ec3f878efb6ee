/** Pools, class memberships and policy records, and the administrative steps that change them:
    policy apply, pool representation change and pool write fence. */
module Placement {
  import opened Wrappers
  import opened CanonicalJson
  import opened GroupIdentity

  datatype BackendKind = RemTape | D2Tape | RemDisk | PlainDisk | SshDisk | S3 | Gcs | AzureBlob | Memory

  /** `implementation_family_for_kind`: the catalog sets a backend's family from its kind on every
      insert and update. */
  function FamilyOf(kind: BackendKind): (family: string)
    ensures family != ""
  {
    match kind
    case RemTape => "tape"
    case D2Tape => "d2tape"
    case RemDisk => "disk"
    case PlainDisk => "disk"
    case SshDisk => "disk"
    case S3 => "cloud"
    case Gcs => "cloud"
    case AzureBlob => "cloud"
    case Memory => "memory"
  }

  /** `kind` is the kind of the pool's backend; `floor` its declared `min_object_bytes`; `used` says
      some copy already landed in the pool. */
  datatype Pool = Pool(representation: Option<string>, kind: BackendKind, acceptsWrites: bool, floor: Option<nat>, used: bool)

  datatype Record = Record(targetBytes: int, maxAge: int, minCopies: int, minFamilies: int, group: Option<string>)

  /** `memberships` maps `(class, pool)` to the row's `active` flag. */
  datatype Estate = Estate(pools: map<string, Pool>, memberships: map<(string, string), bool>, records: map<string, Record>)

  datatype Place = Place(pool: string, active: bool)

  datatype PolicyDoc = PolicyDoc(places: seq<Place>, preference: seq<string>,
                                 targetBytes: int, maxAge: int, minCopies: int, minFamilies: int)

  datatype PlacementError = UnknownPool | RepresentationImmutable | WouldBreakDurability | UnknownPreference | BelowFloor

  /** The parser rejects a document that names a pool twice. */
  predicate WellFormed(doc: PolicyDoc) {
    forall i, j :: 0 <= i < j < |doc.places| ==> doc.places[i].pool != doc.places[j].pool
  }

  predicate IsActive(e: Estate, c: string, p: string) {
    (c, p) in e.memberships && e.memberships[(c, p)]
  }

  /** The rows `compute_group_basis` selects for a class. */
  function ActiveRows(e: Estate, c: string): set<Entry> {
    set p | p in e.pools && IsActive(e, c, p) :: Entry(p, e.pools[p].representation)
  }

  lemma ActiveRowsOnePerPool(e: Estate, c: string)
    ensures OneRowPerPool(ActiveRows(e, c))
  {
  }

  /** The fingerprint a class derives from the catalog rows right now. */
  ghost function Derived(sha: TextHash, e: Estate, c: string): string {
    Fingerprint(sha, ActiveRows(e, c))
  }

  /** Active pools of a class that accept writes. */
  function Eligible(e: Estate, c: string): set<string> {
    set p | p in e.pools && IsActive(e, c, p) && e.pools[p].acceptsWrites
  }

  /** The families of some pools as the fence guard collects them. */
  function Families(e: Estate, pools: set<string>): set<string> {
    set p | p in pools && p in e.pools :: FamilyOf(e.pools[p].kind)
  }

  /** The families of some pools as the apply guard collects them, skipping an empty name. */
  function NamedFamilies(e: Estate, pools: set<string>): set<string> {
    set p | p in pools && p in e.pools && FamilyOf(e.pools[p].kind) != "" :: FamilyOf(e.pools[p].kind)
  }

  /** The durability floor of a class with a policy: enough write-eligible pools over enough
      named implementation families. */
  predicate FloorHolds(e: Estate, c: string) {
    c in e.records ==>
      && |Eligible(e, c)| >= e.records[c].minCopies
      && |NamedFamilies(e, Eligible(e, c))| >= e.records[c].minFamilies
  }

  ghost predicate AllFloors(e: Estate) {
    forall c :: c in e.records ==> FloorHolds(e, c)
  }

  /** The stored group column of every class with a policy equals its derivation. */
  ghost predicate ProjectionExact(sha: TextHash, e: Estate) {
    forall c :: c in e.records ==> e.records[c].group == Some(Derived(sha, e, c))
  }

  /** `refresh_bundle_group_projections`: classes without a record are skipped. */
  ghost function Refresh(sha: TextHash, e: Estate, classes: set<string>): Estate {
    e.(records := map c | c in e.records ::
         if c in classes then e.records[c].(group := Some(Derived(sha, e, c))) else e.records[c])
  }

  function MemberClasses(e: Estate, p: string): set<string> {
    set row | row in e.memberships && row.1 == p :: row.0
  }

  ghost function SetRepresentation(sha: TextHash, e: Estate, p: string, representation: string): Result<Estate,
                                   PlacementError> {
    if p !in e.pools then Err(UnknownPool)
    else if e.pools[p].representation == Some(representation) then Ok(e)
    else if e.pools[p].used then Err(RepresentationImmutable)
    else
      var changed := e.(pools := e.pools[p := e.pools[p].(representation := Some(representation))]);
      Ok(Refresh(sha, changed, MemberClasses(changed, p)))
  }

  /** A class that fencing pool `p` would leave below its floor, as the fence guard counts it. */
  predicate FenceViolates(e: Estate, p: string, c: string) {
    && IsActive(e, c, p)
    && c in e.records
    && !(|Eligible(e, c) - {p}| >= e.records[c].minCopies
         && |Families(e, Eligible(e, c) - {p})| >= e.records[c].minFamilies)
  }

  function FenceViolations(e: Estate, p: string): set<string> {
    set c | c in e.records && FenceViolates(e, p, c)
  }

  function Fenced(e: Estate, p: string, accepts: bool): Estate
    requires p in e.pools
  {
    e.(pools := e.pools[p := e.pools[p].(acceptsWrites := accepts)])
  }

  function SetWriteFence(e: Estate, p: string, accepts: bool, force: bool): Result<Estate, PlacementError> {
    if p !in e.pools then Err(UnknownPool)
    else if e.pools[p].acceptsWrites == accepts then Ok(e)
    else if !accepts && FenceViolations(e, p) != {} && !force then Err(WouldBreakDurability)
    else Ok(Fenced(e, p, accepts))
  }

  function Listed(doc: PolicyDoc): set<string> {
    set i | 0 <= i < |doc.places| :: doc.places[i].pool
  }

  function ListedActive(doc: PolicyDoc): set<string> {
    set i | 0 <= i < |doc.places| && doc.places[i].active :: doc.places[i].pool
  }

  function DocEligible(e: Estate, doc: PolicyDoc): set<string> {
    set p | p in ListedActive(doc) && p in e.pools && e.pools[p].acceptsWrites
  }

  /** Listed pools take the document's flag; the class's other memberships go inactive. */
  function Upserted(e: Estate, c: string, doc: PolicyDoc): map<(string, string), bool> {
    map row | row in e.memberships.Keys + (set p | p in Listed(doc) :: (c, p)) ::
      if row.0 != c then e.memberships[row] else row.1 in ListedActive(doc)
  }

  ghost function ApplyPolicy(sha: TextHash, e: Estate, c: string, doc: PolicyDoc): Result<Estate, PlacementError>
    requires WellFormed(doc)
  {
    if !(Listed(doc) <= e.pools.Keys) then Err(UnknownPool)
    else if exists p :: p in doc.preference && p !in e.pools then Err(UnknownPreference)
    else if |DocEligible(e, doc)| < doc.minCopies || |NamedFamilies(e, DocEligible(e, doc))| < doc.minFamilies
    then Err(BelowFloor)
    else
      var previous := if c in e.records then e.records[c].group else None;
      var record := Record(doc.targetBytes, doc.maxAge, doc.minCopies, doc.minFamilies, previous);
      var upserted := e.(memberships := Upserted(e, c, doc), records := e.records[c := record]);
      Ok(Refresh(sha, upserted, {c}))
  }

  datatype Step =
    | Apply(artifactclass: string, doc: PolicyDoc)
    | Represent(pool: string, representation: string)
    | Fence(pool: string, accepts: bool, force: bool)

  ghost function StepResult(sha: TextHash, e: Estate, step: Step): Result<Estate, PlacementError>
    requires step.Apply? ==> WellFormed(step.doc)
  {
    match step
    case Apply(c, doc) => ApplyPolicy(sha, e, c, doc)
    case Represent(p, representation) => SetRepresentation(sha, e, p, representation)
    case Fence(p, accepts, force) => SetWriteFence(e, p, accepts, force)
  }

  /** The estate after a run; a step that raises leaves it as it was. */
  ghost function Run(sha: TextHash, e: Estate, steps: seq<Step>): Estate
    requires forall i :: 0 <= i < |steps| && steps[i].Apply? ==> WellFormed(steps[i].doc)
    decreases |steps|
  {
    if steps == [] then e
    else
      var next := StepResult(sha, e, steps[0]);
      Run(sha, if next.Ok? then next.value else e, steps[1..])
  }

  // ----- Projection -----

  lemma RefreshKeepsRows(sha: TextHash, e: Estate, classes: set<string>, c: string)
    ensures ActiveRows(Refresh(sha, e, classes), c) == ActiveRows(e, c)
  {
  }

  /** Refreshing the classes whose rows changed makes the projection exact again. */
  lemma RefreshExact(sha: TextHash, before: Estate, e: Estate, classes: set<string>)
    requires ProjectionExact(sha, before)
    requires forall c :: c in e.records && c !in classes ==>
      c in before.records && e.records[c].group == before.records[c].group && ActiveRows(e, c) == ActiveRows(before, c)
    ensures ProjectionExact(sha, Refresh(sha, e, classes))
  {
    forall c | c in e.records
      ensures Refresh(sha, e, classes).records[c].group == Some(Derived(sha, Refresh(sha, e, classes), c))
    {
      RefreshKeepsRows(sha, e, classes, c);
    }
  }

  lemma SameActiveRows(first: Estate, second: Estate, c: string)
    requires forall p :: IsActive(first, c, p) == IsActive(second, c, p)
    requires first.pools.Keys == second.pools.Keys
    requires forall p :: p in first.pools && IsActive(first, c, p) ==>
      first.pools[p].representation == second.pools[p].representation
    ensures ActiveRows(first, c) == ActiveRows(second, c)
  {
  }

  lemma RepresentKeepsProjection(sha: TextHash, e: Estate, p: string, representation: string)
    requires ProjectionExact(sha, e)
    ensures var r := SetRepresentation(sha, e, p, representation); r.Ok? ==> ProjectionExact(sha, r.value)
  {
    if p in e.pools {
      var changed := e.(pools := e.pools[p := e.pools[p].(representation := Some(representation))]);
      forall c | c in e.records && c !in MemberClasses(changed, p)
        ensures ActiveRows(changed, c) == ActiveRows(e, c)
      {
        assert (c, p) in changed.memberships ==> (c, p).0 in MemberClasses(changed, p);
        SameActiveRows(changed, e, c);
      }
      RefreshExact(sha, e, changed, MemberClasses(changed, p));
    }
  }

  lemma FenceKeepsRows(e: Estate, p: string, accepts: bool, c: string)
    requires p in e.pools
    ensures ActiveRows(Fenced(e, p, accepts), c) == ActiveRows(e, c)
  {
    SameActiveRows(Fenced(e, p, accepts), e, c);
  }

  lemma UpsertKeepsOthers(e: Estate, c: string, doc: PolicyDoc, other: string, p: string)
    requires other != c
    ensures IsActive(e.(memberships := Upserted(e, c, doc)), other, p) == IsActive(e, other, p)
  {
  }

  lemma ApplyKeepsProjection(sha: TextHash, e: Estate, c: string, doc: PolicyDoc)
    requires WellFormed(doc) && ProjectionExact(sha, e)
    ensures var r := ApplyPolicy(sha, e, c, doc); r.Ok? ==> ProjectionExact(sha, r.value)
  {
    var previous := if c in e.records then e.records[c].group else None;
    var record := Record(doc.targetBytes, doc.maxAge, doc.minCopies, doc.minFamilies, previous);
    var upserted := e.(memberships := Upserted(e, c, doc), records := e.records[c := record]);
    forall other | other in upserted.records && other != c
      ensures ActiveRows(upserted, other) == ActiveRows(e, other)
    {
      forall p
        ensures IsActive(upserted, other, p) == IsActive(e, other, p)
      {
        UpsertKeepsOthers(e, c, doc, other, p);
      }
      SameActiveRows(upserted, e, other);
    }
    RefreshExact(sha, e, upserted, {c});
  }

  lemma StepKeepsProjection(sha: TextHash, e: Estate, step: Step)
    requires step.Apply? ==> WellFormed(step.doc)
    requires ProjectionExact(sha, e)
    ensures var r := StepResult(sha, e, step); r.Ok? ==> ProjectionExact(sha, r.value)
  {
    match step {
      case Apply(c, doc) => ApplyKeepsProjection(sha, e, c, doc);
      case Represent(p, representation) => RepresentKeepsProjection(sha, e, p, representation);
      case Fence(p, accepts, _) =>
        if p in e.pools {
          forall c | c in e.records
            ensures ActiveRows(Fenced(e, p, accepts), c) == ActiveRows(e, c)
          {
            FenceKeepsRows(e, p, accepts, c);
          }
        }
    }
  }

  /** In every reachable estate the stored group column equals the live derivation. */
  lemma {:induction false} RunKeepsProjection(sha: TextHash, e: Estate, steps: seq<Step>)
    requires forall i :: 0 <= i < |steps| && steps[i].Apply? ==> WellFormed(steps[i].doc)
    requires ProjectionExact(sha, e)
    ensures ProjectionExact(sha, Run(sha, e, steps))
    decreases |steps|
  {
    if steps != [] {
      StepKeepsProjection(sha, e, steps[0]);
      var next := StepResult(sha, e, steps[0]);
      RunKeepsProjection(sha, if next.Ok? then next.value else e, steps[1..]);
    }
  }

  // ----- Durability floor -----

  lemma SubsetCardinality<T>(small: set<T>, large: set<T>)
    requires small <= large
    ensures |small| <= |large|
  {
    assert large == small + (large - small);
  }

  lemma FamiliesMonotone(e: Estate, small: set<string>, large: set<string>)
    requires small <= large
    ensures |NamedFamilies(e, small)| <= |NamedFamilies(e, large)|
  {
    SubsetCardinality(NamedFamilies(e, small), NamedFamilies(e, large));
  }

  /** The two guards count the same families: every backend kind has a named one. */
  lemma GuardsAgree(e: Estate, pools: set<string>)
    ensures Families(e, pools) == NamedFamilies(e, pools)
  {
  }

  /** Fencing `p` takes exactly `p` out of a class's write-eligible pools. */
  lemma FencedEligible(e: Estate, p: string, c: string)
    requires p in e.pools
    ensures Eligible(Fenced(e, p, false), c) == Eligible(e, c) - {p}
    ensures forall pools :: NamedFamilies(Fenced(e, p, false), pools) == NamedFamilies(e, pools)
  {
  }

  lemma UnfencedEligible(e: Estate, p: string, c: string)
    requires p in e.pools
    ensures Eligible(e, c) <= Eligible(Fenced(e, p, true), c)
    ensures forall pools :: NamedFamilies(Fenced(e, p, true), pools) == NamedFamilies(e, pools)
  {
  }

  /** Draining a pool keeps every floor exactly when the guard finds no violation: the guard refuses
      neither too little nor too much. */
  lemma DrainKeepsFloorsExactly(e: Estate, p: string)
    requires p in e.pools && AllFloors(e)
    ensures AllFloors(Fenced(e, p, false)) <==> FenceViolations(e, p) == {}
  {
    forall c | c in e.records
      ensures FloorHolds(Fenced(e, p, false), c) <==> !FenceViolates(e, p, c)
    {
      DrainedFloor(e, p, c);
    }
    NoViolations(e, p);
  }

  lemma NoViolations(e: Estate, p: string)
    ensures FenceViolations(e, p) == {} <==> forall c :: c in e.records ==> !FenceViolates(e, p, c)
  {
    if forall c :: c in e.records ==> !FenceViolates(e, p, c) {
      assert forall c :: c !in FenceViolations(e, p);
    } else {
      var c :| c in e.records && FenceViolates(e, p, c);
      assert c in FenceViolations(e, p);
    }
  }

  lemma FencedFamilies(e: Estate, p: string, accepts: bool, pools: set<string>)
    requires p in e.pools
    ensures NamedFamilies(Fenced(e, p, accepts), pools) == NamedFamilies(e, pools)
  {
  }

  lemma DrainedFloor(e: Estate, p: string, c: string)
    requires p in e.pools && c in e.records && FloorHolds(e, c)
    ensures FloorHolds(Fenced(e, p, false), c) <==> !FenceViolates(e, p, c)
  {
    var left := Eligible(e, c) - {p};
    assert Eligible(Fenced(e, p, false), c) == left by { FencedEligible(e, p, c); }
    FencedFamilies(e, p, false, left);
    GuardsAgree(e, left);
    if !IsActive(e, c, p) {
      assert left == Eligible(e, c);
    }
  }

  lemma UnfenceKeepsFloors(e: Estate, p: string)
    requires p in e.pools && AllFloors(e)
    ensures AllFloors(Fenced(e, p, true))
  {
    var after := Fenced(e, p, true);
    forall c | c in after.records
      ensures FloorHolds(after, c)
    {
      assert FloorHolds(e, c);
      UnfencedEligible(e, p, c);
      SubsetCardinality(Eligible(e, c), Eligible(after, c));
      FamiliesMonotone(e, Eligible(e, c), Eligible(after, c));
    }
  }

  lemma FloorFollowsEligibility(before: Estate, after: Estate, c: string)
    requires c in before.records && c in after.records
    requires before.records[c].minCopies == after.records[c].minCopies
    requires before.records[c].minFamilies == after.records[c].minFamilies
    requires Eligible(before, c) == Eligible(after, c)
    requires NamedFamilies(before, Eligible(before, c)) == NamedFamilies(after, Eligible(before, c))
    ensures FloorHolds(before, c) == FloorHolds(after, c)
  {
  }

  /** Pools that differ only in representation are write-eligible alike, and of the same families. */
  lemma SameWriters(before: Estate, after: Estate, c: string)
    requires after.memberships == before.memberships && after.pools.Keys == before.pools.Keys
    requires forall p :: p in before.pools ==>
      after.pools[p].kind == before.pools[p].kind && after.pools[p].acceptsWrites == before.pools[p].acceptsWrites
    ensures Eligible(before, c) == Eligible(after, c)
    ensures NamedFamilies(before, Eligible(before, c)) == NamedFamilies(after, Eligible(before, c))
  {
    forall f
      ensures f in NamedFamilies(before, Eligible(before, c)) <==> f in NamedFamilies(after, Eligible(before, c))
    {
    }
  }

  lemma RepresentKeepsFloors(sha: TextHash, e: Estate, p: string, representation: string)
    requires AllFloors(e)
    ensures var r := SetRepresentation(sha, e, p, representation); r.Ok? ==> AllFloors(r.value)
  {
    var r := SetRepresentation(sha, e, p, representation);
    if r.Ok? {
      forall c | c in r.value.records
        ensures FloorHolds(r.value, c)
      {
        assert FloorHolds(e, c);
        SameWriters(e, r.value, c);
        FloorFollowsEligibility(e, r.value, c);
      }
    }
  }

  lemma AppliedEligible(e: Estate, after: Estate, c: string, doc: PolicyDoc)
    requires after.pools == e.pools && after.memberships == Upserted(e, c, doc)
    ensures Eligible(after, c) == DocEligible(e, doc)
    ensures forall other :: other != c ==> Eligible(after, other) == Eligible(e, other)
  {
  }

  lemma ApplyKeepsFloors(sha: TextHash, e: Estate, c: string, doc: PolicyDoc)
    requires WellFormed(doc) && AllFloors(e)
    ensures var r := ApplyPolicy(sha, e, c, doc); r.Ok? ==> AllFloors(r.value)
  {
    var r := ApplyPolicy(sha, e, c, doc);
    if r.Ok? {
      AppliedEligible(e, r.value, c, doc);
      forall other | other in r.value.records
        ensures FloorHolds(r.value, other)
      {
        var pools := Eligible(r.value, other);
        assert forall f :: f in NamedFamilies(e, pools) <==> f in NamedFamilies(r.value, pools);
        if other != c {
          assert FloorHolds(e, other);
          FloorFollowsEligibility(e, r.value, other);
        }
      }
    }
  }

  lemma StepKeepsFloors(sha: TextHash, e: Estate, step: Step)
    requires step.Apply? ==> WellFormed(step.doc)
    requires step.Fence? ==> !step.force
    requires AllFloors(e)
    ensures var r := StepResult(sha, e, step); r.Ok? ==> AllFloors(r.value)
  {
    match step {
      case Apply(c, doc) => ApplyKeepsFloors(sha, e, c, doc);
      case Represent(p, representation) => RepresentKeepsFloors(sha, e, p, representation);
      case Fence(p, accepts, _) =>
        if p in e.pools {
          if accepts { UnfenceKeepsFloors(e, p); } else { DrainKeepsFloorsExactly(e, p); }
        }
    }
  }

  /** Over every run of applies, representation changes and unforced fences, no class with a
      policy drops below its declared floor. */
  lemma {:induction false} RunKeepsFloors(sha: TextHash, e: Estate, steps: seq<Step>)
    requires forall i :: 0 <= i < |steps| && steps[i].Apply? ==> WellFormed(steps[i].doc)
    requires forall i :: 0 <= i < |steps| && steps[i].Fence? ==> !steps[i].force
    requires AllFloors(e)
    ensures AllFloors(Run(sha, e, steps))
    decreases |steps|
  {
    if steps != [] {
      StepKeepsFloors(sha, e, steps[0]);
      var next := StepResult(sha, e, steps[0]);
      RunKeepsFloors(sha, if next.Ok? then next.value else e, steps[1..]);
    }
  }
}
