/** What an applied policy document makes of its class, and what it keeps governing over every later run. */
module PolicyRuns {
  import opened Wrappers
  import opened CanonicalJson
  import opened GroupIdentity
  import opened Placement

  predicate Places(doc: PolicyDoc, p: string) {
    exists i :: 0 <= i < |doc.places| && doc.places[i].active && doc.places[i].pool == p
  }

  predicate HasNumbers(record: Record, doc: PolicyDoc) {
    && record.targetBytes == doc.targetBytes && record.maxAge == doc.maxAge
    && record.minCopies == doc.minCopies && record.minFamilies == doc.minFamilies
  }

  /** The document is in force for class `c`: its record has the document's numbers, its active pools are
      the document's active ones, and the write-eligible ones meet the document's floor. */
  ghost predicate Governs(e: Estate, c: string, doc: PolicyDoc) {
    && c in e.records && HasNumbers(e.records[c], doc)
    && (forall p :: IsActive(e, c, p) <==> Places(doc, p))
    && MeetsFloor(e, c, doc)
  }

  predicate MeetsFloor(e: Estate, c: string, doc: PolicyDoc) {
    && |Eligible(e, c)| >= doc.minCopies
    && |NamedFamilies(e, Eligible(e, c))| >= doc.minFamilies
  }

  /** The record and memberships of every class but `c` are as before. */
  ghost predicate OthersKept(before: Estate, after: Estate, c: string) {
    && (forall d :: d != c ==> (d in after.records <==> d in before.records))
    && (forall d :: d != c && d in before.records ==> after.records[d] == before.records[d])
    && (forall row :: row in before.memberships && row.0 != c ==>
          row in after.memberships && after.memberships[row] == before.memberships[row])
    && (forall row :: row in after.memberships && row.0 != c ==> row in before.memberships)
  }

  /** The pools that would take a write under the document. */
  predicate Writable(e: Estate, doc: PolicyDoc, p: string) {
    p in e.pools && e.pools[p].acceptsWrites && Places(doc, p)
  }

  /** Every pool the document lists or prefers is registered, and enough of its active ones, over enough
      families, accept writes. */
  ghost predicate CanApply(e: Estate, doc: PolicyDoc) {
    && (forall i :: 0 <= i < |doc.places| ==> doc.places[i].pool in e.pools)
    && (forall i :: 0 <= i < |doc.preference| ==> doc.preference[i] in e.pools)
    && var writable := set p | p in e.pools && Writable(e, doc, p);
       && |writable| >= doc.minCopies
       && |set p | p in writable :: FamilyOf(e.pools[p].kind)| >= doc.minFamilies
  }

  /** Two kinds of backend share a family exactly when they are both disk or both cloud storage. */
  lemma SameFamilyExactly(a: BackendKind, b: BackendKind)
    ensures FamilyOf(a) == FamilyOf(b)
            <==> a == b || (a in {RemDisk, PlainDisk, SshDisk} && b in {RemDisk, PlainDisk, SshDisk})
                 || (a in {S3, Gcs, AzureBlob} && b in {S3, Gcs, AzureBlob})
  {
  }

  lemma ListedExactly(doc: PolicyDoc, p: string)
    ensures p in ListedActive(doc) <==> Places(doc, p)
    ensures p in Listed(doc) <==> exists i :: 0 <= i < |doc.places| && doc.places[i].pool == p
  {
  }

  /** An apply succeeds exactly when the document can be applied. */
  lemma ApplySucceedsExactly(sha: TextHash, e: Estate, c: string, doc: PolicyDoc)
    requires WellFormed(doc)
    ensures ApplyPolicy(sha, e, c, doc).Ok? <==> CanApply(e, doc)
  {
    var writable := set p | p in e.pools && Writable(e, doc, p);
    forall p
      ensures p in writable <==> p in DocEligible(e, doc)
    {
      ListedExactly(doc, p);
    }
    assert writable == DocEligible(e, doc);
    SameFamilies(e, writable);
    assert Listed(doc) <= e.pools.Keys <==> forall i :: 0 <= i < |doc.places| ==> doc.places[i].pool in e.pools by {
      assert forall i :: 0 <= i < |doc.places| ==> doc.places[i].pool in Listed(doc);
    }
  }

  lemma SameFamilies(e: Estate, pools: set<string>)
    requires pools <= e.pools.Keys
    ensures (set p | p in pools :: FamilyOf(e.pools[p].kind)) == NamedFamilies(e, pools)
  {
  }

  lemma UpsertedActive(e: Estate, after: Estate, c: string, doc: PolicyDoc, p: string)
    requires after.memberships == Upserted(e, c, doc)
    ensures IsActive(after, c, p) <==> Places(doc, p)
  {
    ListedExactly(doc, p);
    assert Places(doc, p) ==> p in Listed(doc);
    assert p in Listed(doc) ==> (c, p) in after.memberships;
  }

  /** A successful apply puts the document in force, and touches no other class. */
  lemma AppliedGoverns(sha: TextHash, e: Estate, c: string, doc: PolicyDoc)
    requires WellFormed(doc)
    ensures var r := ApplyPolicy(sha, e, c, doc);
            r.Ok? ==> r.value.pools == e.pools && Governs(r.value, c, doc) && OthersKept(e, r.value, c)
  {
    var r := ApplyPolicy(sha, e, c, doc);
    if r.Ok? {
      forall p
        ensures IsActive(r.value, c, p) <==> Places(doc, p)
      {
        UpsertedActive(e, r.value, c, doc, p);
      }
      AppliedEligible(e, r.value, c, doc);
      assert NamedFamilies(r.value, DocEligible(e, doc)) == NamedFamilies(e, DocEligible(e, doc));
    }
  }

  // ----- The other steps keep the document in force -----

  lemma FenceKeepsFloor(e: Estate, p: string, accepts: bool, c: string, doc: PolicyDoc)
    requires Governs(e, c, doc)
    ensures var r := SetWriteFence(e, p, accepts, false); r.Ok? ==> MeetsFloor(r.value, c, doc)
  {
    var r := SetWriteFence(e, p, accepts, false);
    if r.Ok? && r.value != e {
      if accepts {
        UnfencedEligible(e, p, c);
        SubsetCardinality(Eligible(e, c), Eligible(r.value, c));
        FamiliesMonotone(e, Eligible(e, c), Eligible(r.value, c));
      } else {
        NoViolations(e, p);
        DrainedFloor(e, p, c);
        assert FloorHolds(r.value, c);
      }
    }
  }

  lemma ApplyKeepsGoverning(sha: TextHash, e: Estate, other: string, its: PolicyDoc, c: string, doc: PolicyDoc)
    requires WellFormed(its) && other != c && Governs(e, c, doc)
    ensures var r := ApplyPolicy(sha, e, other, its); r.Ok? ==> Governs(r.value, c, doc)
  {
    var r := ApplyPolicy(sha, e, other, its);
    if r.Ok? {
      AppliedGoverns(sha, e, other, its);
      forall p
        ensures IsActive(r.value, c, p) <==> IsActive(e, c, p)
      {
        UpsertKeepsOthers(e, other, its, c, p);
      }
      AppliedEligible(e, r.value, other, its);
      assert NamedFamilies(r.value, Eligible(e, c)) == NamedFamilies(e, Eligible(e, c));
    }
  }

  lemma StepKeepsGoverning(sha: TextHash, e: Estate, step: Step, c: string, doc: PolicyDoc)
    requires step.Apply? ==> WellFormed(step.doc) && step.artifactclass != c
    requires step.Fence? ==> !step.force
    requires Governs(e, c, doc)
    ensures var r := StepResult(sha, e, step); r.Ok? ==> Governs(r.value, c, doc)
  {
    var r := StepResult(sha, e, step);
    if r.Ok? {
      match step {
        case Apply(other, its) => ApplyKeepsGoverning(sha, e, other, its, c, doc);
        case Represent(p, representation) =>
          assert forall q :: IsActive(r.value, c, q) <==> IsActive(e, c, q);
          SameWriters(e, r.value, c);
        case Fence(p, accepts, _) =>
          assert forall q :: IsActive(r.value, c, q) <==> IsActive(e, c, q);
          FenceKeepsFloor(e, p, accepts, c, doc);
      }
    }
  }

  /** Once applied, a document stays in force over every run of applies to other classes, representation
      changes and unforced fences: the class keeps its numbers, its pools and the document's floor. */
  lemma {:induction false} RunKeepsGoverning(sha: TextHash, e: Estate, steps: seq<Step>, c: string, doc: PolicyDoc)
    requires forall i :: 0 <= i < |steps| && steps[i].Apply? ==> WellFormed(steps[i].doc) && steps[i].artifactclass != c
    requires forall i :: 0 <= i < |steps| && steps[i].Fence? ==> !steps[i].force
    requires Governs(e, c, doc)
    ensures Governs(Run(sha, e, steps), c, doc)
    decreases |steps|
  {
    if steps != [] {
      StepKeepsGoverning(sha, e, steps[0], c, doc);
      var next := StepResult(sha, e, steps[0]);
      RunKeepsGoverning(sha, if next.Ok? then next.value else e, steps[1..], c, doc);
    }
  }

  /** The same from the apply itself: the floor is the document's, whatever happened before. */
  lemma DocumentFloor(sha: TextHash, e: Estate, c: string, doc: PolicyDoc, steps: seq<Step>)
    requires WellFormed(doc) && ApplyPolicy(sha, e, c, doc).Ok?
    requires forall i :: 0 <= i < |steps| && steps[i].Apply? ==> WellFormed(steps[i].doc) && steps[i].artifactclass != c
    requires forall i :: 0 <= i < |steps| && steps[i].Fence? ==> !steps[i].force
    ensures var t := Run(sha, ApplyPolicy(sha, e, c, doc).value, steps);
            && Governs(t, c, doc)
            && |Eligible(t, c)| >= doc.minCopies && |NamedFamilies(t, Eligible(t, c))| >= doc.minFamilies
  {
    AppliedGoverns(sha, e, c, doc);
    RunKeepsGoverning(sha, ApplyPolicy(sha, e, c, doc).value, steps, c, doc);
  }

  // ----- Pools -----

  /** The pool rows, column by column, but for one column of one pool. */
  ghost predicate OnePool(before: Estate, after: Estate, p: string) {
    && p in before.pools && after.pools.Keys == before.pools.Keys && after.memberships == before.memberships
    && (forall q :: q in before.pools && q != p ==> after.pools[q] == before.pools[q])
    && after.pools[p].kind == before.pools[p].kind && after.pools[p].floor == before.pools[p].floor
    && after.pools[p].used == before.pools[p].used
  }

  /** A pool takes another representation exactly while nothing was written to it. */
  lemma RepresentExactly(sha: TextHash, e: Estate, p: string, representation: string)
    ensures var r := SetRepresentation(sha, e, p, representation);
            && (r.Ok? <==> p in e.pools && (e.pools[p].used ==> e.pools[p].representation == Some(representation)))
            && (r.Ok? ==> OnePool(e, r.value, p) && r.value.pools[p].representation == Some(representation)
                          && r.value.pools[p].acceptsWrites == e.pools[p].acceptsWrites)
  {
  }

  /** A pool takes a fence unless draining it unforced leaves some class with this pool active below its
      floor. */
  lemma FenceExactly(e: Estate, p: string, accepts: bool, force: bool)
    ensures var r := SetWriteFence(e, p, accepts, force);
            && (r.Ok? <==> p in e.pools && (e.pools[p].acceptsWrites == accepts || accepts || force
                                            || forall c :: c in e.records ==> !FenceViolates(e, p, c)))
            && (r.Ok? ==> OnePool(e, r.value, p) && r.value.pools[p].acceptsWrites == accepts && r.value.records == e.records
                          && r.value.pools[p].representation == e.pools[p].representation)
  {
    NoViolations(e, p);
  }

  /** A pool that was written to keeps its representation for ever. */
  lemma {:induction false} UsedPoolKeepsRepresentation(sha: TextHash, e: Estate, steps: seq<Step>, p: string)
    requires forall i :: 0 <= i < |steps| && steps[i].Apply? ==> WellFormed(steps[i].doc)
    requires p in e.pools && e.pools[p].used
    ensures var t := Run(sha, e, steps); p in t.pools && t.pools[p].used && t.pools[p].representation == e.pools[p].representation
    decreases |steps|
  {
    if steps != [] {
      var next := StepResult(sha, e, steps[0]);
      UsedPoolKeepsRepresentation(sha, if next.Ok? then next.value else e, steps[1..], p);
    }
  }

  // ----- The group of a class -----

  /** Two classes alike: each pool is active in both or in neither. */
  ghost predicate SameActivePools(e: Estate, c: string, d: string) {
    forall p :: p in e.pools ==> (IsActive(e, c, p) <==> IsActive(e, d, p))
  }

  /** The hash tells the canonical texts of two classes apart. */
  ghost predicate TellsApart(sha: TextHash, e: Estate, c: string, d: string) {
    var first, second := BasisJson(Basis(ActiveRows(e, c))), BasisJson(Basis(ActiveRows(e, d)));
    sha(first) == sha(second) ==> first == second
  }

  lemma SameRowsExactly(e: Estate, c: string, d: string)
    ensures ActiveRows(e, c) == ActiveRows(e, d) <==> SameActivePools(e, c, d)
  {
    if ActiveRows(e, c) == ActiveRows(e, d) {
      forall p | p in e.pools
        ensures IsActive(e, c, p) <==> IsActive(e, d, p)
      {
        var row := Entry(p, e.pools[p].representation);
        assert row in ActiveRows(e, c) <==> IsActive(e, c, p);
        assert row in ActiveRows(e, d) <==> IsActive(e, d, p);
      }
    }
  }

  /** After any run, two classes with policies share a group exactly when they have the same active pools. */
  lemma SharedGroupExactly(sha: TextHash, e: Estate, steps: seq<Step>, c: string, d: string)
    requires forall i :: 0 <= i < |steps| && steps[i].Apply? ==> WellFormed(steps[i].doc)
    requires ProjectionExact(sha, e) && TellsApart(sha, Run(sha, e, steps), c, d)
    ensures var t := Run(sha, e, steps);
            c in t.records && d in t.records ==> (t.records[c].group == t.records[d].group <==> SameActivePools(t, c, d))
  {
    var t := Run(sha, e, steps);
    RunKeepsProjection(sha, e, steps);
    ActiveRowsOnePerPool(t, c);
    ActiveRowsOnePerPool(t, d);
    FingerprintIdentifiesRows(sha, ActiveRows(t, c), ActiveRows(t, d));
    SameRowsExactly(t, c, d);
  }
}
