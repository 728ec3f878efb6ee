/** Reconciling one backend's enumeration against the catalog's copy rows. */
module Scrub {
  import opened Wrappers
  import opened Numerals
  import opened CopyEvidence

  /** One enumerated object. `observed` is the representation the backend declares, `container` says
      the object is recognisably a bundle container. */
  datatype CopyRecord = CopyRecord(logical: Digest, locator: string, integrity: Digest,
                                   pool: Option<string>, observed: Option<string>, container: bool)

  datatype PoolRow = PoolRow(backend: nat, representation: string)

  datatype ScrubError = BadPool | BadRepresentation | PoolMismatch | PromotionFailed

  /** The pass under way: the evidence, the known assets, and the snapshot rows not yet seen. */
  datatype World = World(e: Evidence, assets: set<Digest>, pending: map<string, nat>)

  function RecordHealth(record: CopyRecord): Health {
    if record.logical == record.integrity then Healthy else Suspect
  }

  /** `_pool_for_record` and the representation check of `_storage_metadata_for_record`. */
  function PoolError(b: nat, pools: map<string, PoolRow>, record: CopyRecord): Option<ScrubError> {
    match record.pool
    case None => None
    case Some(p) =>
      if p !in pools || pools[p].backend != b then Some(BadPool)
      else if record.observed.Some? && record.observed.value != pools[p].representation then Some(BadRepresentation)
      else None
  }

  /** `_update_existing_copy` after its pool checks: what finding a catalogued copy again does. */
  function Refound(e: Evidence, c: nat, record: CopyRecord, run: string, now: int): Result<Evidence, RecorderError>
    requires c < |e.copies|
  {
    var copy := e.copies[c];
    var found := RecordHealth(record);
    var trusted := VerifyResult(true, false, None);
    var checked := WithHealth(e, c, copy.health, Some(now));
    if copy.integrity != record.integrity then Ok(WithHealth(e, c, Suspect, Some(now)))
    else if copy.health == Missing && found == Healthy then PromotionResult(checked, c, trusted, Scrub, run, now)
    else if copy.health == Missing then Ok(WithHealth(e, c, found, Some(now)))
    else if found == Suspect then Ok(WithHealth(e, c, Suspect, Some(now)))
    else if copy.health == Suspect then PromotionResult(checked, c, trusted, Scrub, run, now)
    else Ok(checked)
  }

  /** A copy row for this backend and locator, if the catalog has one. */
  predicate Catalogued(e: Evidence, b: nat, locator: string) {
    exists c :: 0 <= c < |e.copies| && e.copies[c].backend == b && e.copies[c].locator == locator
  }

  function NewCopy(b: nat, pools: map<string, PoolRow>, record: CopyRecord, now: int): Copy {
    Copy(b, record.locator, record.pool,
         if record.pool.Some? && record.pool.value in pools then Some(pools[record.pool.value].representation) else record.observed,
         Some(record.logical), record.integrity, false, RecordHealth(record), Some(now), None, None, None)
  }

  /** An object the pass only reports: a bundle container whose asset the catalog does not know. */
  predicate Unknown(assets: set<Digest>, record: CopyRecord) {
    record.container && record.logical !in assets
  }

  /** `_ingest_record`. */
  function Ingest(w: World, b: nat, pools: map<string, PoolRow>, record: CopyRecord, run: string,
                  now: int): Result<World, ScrubError>
    requires InRange(w)
  {
    if PoolError(b, pools, record).Some? then Err(PoolError(b, pools, record).value)
    else if record.locator in w.pending then
      var c := w.pending[record.locator];
      if OtherPool(w.e.copies[c], pools, record) then Err(PoolMismatch)
      else
        match Refound(w.e, c, record, run, now)
        case Ok(e) => Ok(w.(e := e, pending := w.pending - {record.locator}))
        case Err(_) => Err(PromotionFailed)
    else if Unknown(w.assets, record) then Ok(w)
    else if Catalogued(w.e, b, record.locator) then
      // A locator enumerated twice: the existing row is returned unmutated.
      if exists c :: 0 <= c < |w.e.copies| && w.e.copies[c].backend == b && w.e.copies[c].locator == record.locator
                     && record.pool.Some? && w.e.copies[c].pool != record.pool
      then Err(PoolMismatch)
      else Ok(w.(assets := w.assets + {record.logical}))
    else
      Ok(w.(e := Apply(w.e, Create(NewCopy(b, pools, record, now))), assets := w.assets + {record.logical}))
  }

  predicate InRange(w: World) {
    forall key :: key in w.pending ==> w.pending[key] < |w.e.copies|
  }

  lemma RefoundLength(e: Evidence, c: nat, record: CopyRecord, run: string, now: int)
    requires c < |e.copies|
    ensures var r := Refound(e, c, record, run, now); r.Ok? ==> |r.value.copies| == |e.copies|
  {
  }

  lemma PopShrinks(pending: map<string, nat>, key: string)
    requires key in pending
    ensures |pending - {key}| <= |pending|
  {
  }

  /** Ingesting drops no row, and the snapshot only shrinks. */
  lemma IngestSizes(w: World, b: nat, pools: map<string, PoolRow>, record: CopyRecord, run: string, now: int)
    requires InRange(w)
    ensures var r := Ingest(w, b, pools, record, run, now);
            r.Ok? ==> |r.value.e.copies| >= |w.e.copies| && |r.value.pending| <= |w.pending| && InRange(r.value)
  {
    if record.locator in w.pending {
      var c := w.pending[record.locator];
      RefoundLength(w.e, c, record, run, now);
      PopShrinks(w.pending, record.locator);
      FoundInRange(w, Refound(w.e, c, record, run, now), record.locator);
    }
  }

  lemma FoundInRange(w: World, r: Result<Evidence, RecorderError>, locator: string)
    requires InRange(w) && (r.Ok? ==> |r.value.copies| == |w.e.copies|)
    ensures r.Ok? ==> InRange(w.(e := r.value, pending := w.pending - {locator}))
  {
  }

  /** What a record that fails has written by the time it raises: a failed promotion comes after the
      check time, and a pool mismatch on a locator met before comes after its asset row. */
  function Interrupted(w: World, b: nat, pools: map<string, PoolRow>, record: CopyRecord, now: int): World
    requires InRange(w)
  {
    if PoolError(b, pools, record).Some? then w
    else if record.locator in w.pending then
      var c := w.pending[record.locator];
      if OtherPool(w.e.copies[c], pools, record) then w else w.(e := WithHealth(w.e, c, w.e.copies[c].health, Some(now)))
    else w.(assets := w.assets + {record.logical})
  }

  /** The row found carries another pool or representation than the record names. */
  predicate OtherPool(copy: Copy, pools: map<string, PoolRow>, record: CopyRecord) {
    record.pool.Some? && (copy.pool != record.pool || record.pool.value !in pools
                          || copy.representation != Some(pools[record.pool.value].representation))
  }

  /** The snapshot taken up front: this backend's rows by locator. */
  ghost predicate Snapshot(e: Evidence, b: nat, pending: map<string, nat>) {
    && (forall key :: key in pending ==> pending[key] < |e.copies| && e.copies[pending[key]].backend == b
                                         && e.copies[pending[key]].locator == key)
    && (forall c :: 0 <= c < |e.copies| && e.copies[c].backend == b ==>
          e.copies[c].locator in pending && pending[e.copies[c].locator] == c)
  }

  /** The unique `(backend, locator)` constraint. */
  ghost predicate UniqueLocators(e: Evidence) {
    forall c, d :: 0 <= c < d < |e.copies| && e.copies[c].backend == e.copies[d].backend ==>
      e.copies[c].locator != e.copies[d].locator
  }

  predicate DistinctLocators(records: seq<CopyRecord>) {
    forall i, j :: 0 <= i < j < |records| ==> records[i].locator != records[j].locator
  }

  predicate Enumerated(records: seq<CopyRecord>, locator: string) {
    exists i :: 0 <= i < |records| && records[i].locator == locator
  }

  /** A found copy whose promotion is only a replay of this run's: it keeps its lost health. */
  ghost predicate Replayed(e: Evidence, c: nat, records: seq<CopyRecord>, run: string) {
    && 0 <= c < |e.copies| && e.copies[c].health == Missing && HasReceipt(e, c, Source.Scrub, run)
    && exists i :: 0 <= i < |records| && records[i].locator == e.copies[c].locator
                   && records[i].integrity == e.copies[c].integrity && RecordHealth(records[i]) == Healthy
  }

  // ----- One found copy -----

  /** Finding a copy again touches that row only, and leaves it missing exactly when its promotion
      replays an execution already on record. */
  lemma RefoundEffect(e: Evidence, c: nat, record: CopyRecord, run: string, now: int)
    requires c < |e.copies| && run != ""
    requires Refound(e, c, record, run, now).Ok?
    ensures var after := Refound(e, c, record, run, now).value;
            && |after.copies| == |e.copies|
            && (forall d :: 0 <= d < |e.copies| && d != c ==> after.copies[d] == e.copies[d])
            && SameIdentity(e.copies[c], after.copies[c])
            && (after.copies[c].health == Missing <==>
                  e.copies[c].health == Missing && record.integrity == e.copies[c].integrity
                  && RecordHealth(record) == Healthy && HasReceipt(e, c, Source.Scrub, run))
  {
  }

  predicate SameIdentity(a: Copy, b: Copy) {
    && a.backend == b.backend && a.locator == b.locator && a.integrity == b.integrity && a.logical == b.logical
    && a.pool == b.pool && a.deletedAt == b.deletedAt
  }

  lemma RefoundReceipts(e: Evidence, c: nat, record: CopyRecord, run: string, now: int, d: nat)
    requires c < |e.copies| && d != c
    requires Refound(e, c, record, run, now).Ok?
    ensures HasReceipt(Refound(e, c, record, run, now).value, d, Source.Scrub, run) <==> HasReceipt(e, d, Source.Scrub, run)
  {
    var after := Refound(e, c, record, run, now).value;
    if HasReceipt(e, d, Source.Scrub, run) {
      var i :| 0 <= i < |e.receipts| && ForExecution(e.receipts[i], d, Source.Scrub, run);
      assert after.receipts[i] == e.receipts[i];
    }
    if HasReceipt(after, d, Source.Scrub, run) {
      var i :| 0 <= i < |after.receipts| && ForExecution(after.receipts[i], d, Source.Scrub, run);
      assert after.receipts[i] == e.receipts[i];
    }
  }

  /** The recorder and health steps a found copy amounts to. */
  function RefoundSteps(e: Evidence, c: nat, record: CopyRecord, run: string, now: int): seq<Step>
    requires c < |e.copies|
  {
    var copy := e.copies[c];
    var trusted := VerifyResult(true, false, None);
    if copy.integrity != record.integrity then [Downgrade(c, Suspect, Some(now))]
    else if copy.health == Missing && RecordHealth(record) == Healthy then [Checked(c, now), Promote(c, trusted, Source.Scrub, run, now)]
    else if copy.health == Missing || RecordHealth(record) == Suspect then [Downgrade(c, Suspect, Some(now))]
    else if copy.health == Suspect then [Checked(c, now), Promote(c, trusted, Source.Scrub, run, now)]
    else [Checked(c, now)]
  }

  lemma PromoteApplies(e: Evidence, c: nat, result: VerifyResult, run: string, now: int)
    requires c < |e.copies| && PromotionResult(e, c, result, Source.Scrub, run, now).Ok?
    ensures Apply(e, Promote(c, result, Source.Scrub, run, now)) == PromotionResult(e, c, result, Source.Scrub, run, now).value
  {
  }

  lemma CheckApplies(e: Evidence, c: nat, now: int)
    requires c < |e.copies|
    ensures Apply(e, Checked(c, now)) == WithHealth(e, c, e.copies[c].health, Some(now))
  {
  }

  lemma TwoSteps(e: Evidence, first: Step, second: Step, middle: Evidence, last: Evidence)
    requires Apply(e, first) == middle && Apply(middle, second) == last
    ensures Run(e, [first, second]) == last
  {
    RunTwo(e, first, second);
  }

  /** A check and a trusted promotion, as two steps. */
  lemma CheckThenPromote(e: Evidence, c: nat, checked: Evidence, result: VerifyResult, run: string, now: int)
    requires c < |e.copies| && checked == WithHealth(e, c, e.copies[c].health, Some(now))
    requires PromotionResult(checked, c, result, Source.Scrub, run, now).Ok?
    ensures Run(e, [Checked(c, now), Promote(c, result, Source.Scrub, run, now)])
            == PromotionResult(checked, c, result, Source.Scrub, run, now).value
  {
    CheckApplies(e, c, now);
    PromoteApplies(checked, c, result, run, now);
    TwoSteps(e, Checked(c, now), Promote(c, result, Source.Scrub, run, now), checked,
             PromotionResult(checked, c, result, Source.Scrub, run, now).value);
  }

  lemma RefoundIsSteps(e: Evidence, c: nat, record: CopyRecord, run: string, now: int)
    requires c < |e.copies|
    requires Refound(e, c, record, run, now).Ok?
    ensures Refound(e, c, record, run, now).value == Run(e, RefoundSteps(e, c, record, run, now))
  {
    var steps := RefoundSteps(e, c, record, run, now);
    if |steps| == 2 {
      RefoundPromotes(e, c, record, run, now);
      CheckThenPromote(e, c, WithHealth(e, c, e.copies[c].health, Some(now)), VerifyResult(true, false, None), run, now);
    } else {
      RefoundOnce(e, c, record, run, now);
      RunOne(e, steps[0]);
    }
  }

  lemma RefoundPromotes(e: Evidence, c: nat, record: CopyRecord, run: string, now: int)
    requires c < |e.copies| && |RefoundSteps(e, c, record, run, now)| == 2
    ensures var trusted := VerifyResult(true, false, None);
            && RefoundSteps(e, c, record, run, now) == [Checked(c, now), Promote(c, trusted, Source.Scrub, run, now)]
            && Refound(e, c, record, run, now)
               == PromotionResult(WithHealth(e, c, e.copies[c].health, Some(now)), c, trusted, Source.Scrub, run, now)
  {
  }

  lemma RefoundOnce(e: Evidence, c: nat, record: CopyRecord, run: string, now: int)
    requires c < |e.copies| && |RefoundSteps(e, c, record, run, now)| == 1
    ensures Refound(e, c, record, run, now) == Ok(Apply(e, RefoundSteps(e, c, record, run, now)[0]))
  {
  }

  // ----- The pass so far -----

  /** The snapshot rows not yet met. */
  ghost predicate PendingLeft(start: World, w: World, records: seq<CopyRecord>) {
    && (forall key :: key in w.pending <==> key in start.pending && !Enumerated(records, key))
    && (forall key :: key in w.pending ==> w.pending[key] == start.pending[key])
  }

  /** A snapshot row keeps its identity. It is untouched until found; found, it is missing only by a replay. */
  ghost predicate RowKept(start: World, w: World, b: nat, records: seq<CopyRecord>, run: string, c: nat)
    requires c < |start.e.copies| <= |w.e.copies|
  {
    && SameIdentity(start.e.copies[c], w.e.copies[c])
    && (!Found(start, b, records, c) ==>
          w.e.copies[c] == start.e.copies[c]
          && (HasReceipt(w.e, c, Source.Scrub, run) <==> HasReceipt(start.e, c, Source.Scrub, run)))
    && (Found(start, b, records, c) ==> (w.e.copies[c].health == Missing <==> Replayed(start.e, c, records, run)))
  }

  /** A row the pass added. */
  ghost predicate RowAdded(w: World, b: nat, records: seq<CopyRecord>, c: nat)
    requires c < |w.e.copies|
  {
    w.e.copies[c].backend == b && Enumerated(records, w.e.copies[c].locator) && w.e.copies[c].health != Missing
  }

  ghost predicate Covered(start: World, w: World, b: nat, records: seq<CopyRecord>) {
    forall i :: 0 <= i < |records| ==> Catalogued(w.e, b, records[i].locator) || Unknown(start.assets, records[i])
  }

  /** What holds after ingesting `records` from the snapshot `start`. */
  ghost predicate Progress(start: World, w: World, b: nat, records: seq<CopyRecord>, run: string) {
    && |start.e.copies| <= |w.e.copies| && start.assets <= w.assets && UniqueLocators(w.e)
    && PendingLeft(start, w, records)
    && (forall c :: 0 <= c < |start.e.copies| ==> RowKept(start, w, b, records, run, c))
    && (forall c :: |start.e.copies| <= c < |w.e.copies| ==> RowAdded(w, b, records, c))
    && Covered(start, w, b, records)
  }

  ghost predicate Found(start: World, b: nat, records: seq<CopyRecord>, c: nat) {
    c < |start.e.copies| && start.e.copies[c].backend == b && Enumerated(records, start.e.copies[c].locator)
  }

  lemma EnumeratedSnoc(records: seq<CopyRecord>, record: CopyRecord, key: string)
    ensures Enumerated(records + [record], key) <==> Enumerated(records, key) || record.locator == key
  {
    var more := records + [record];
    if Enumerated(records, key) {
      var i :| 0 <= i < |records| && records[i].locator == key;
      assert more[i] == records[i];
    }
    assert more[|records|] == record;
  }

  /** The record finds copy `c` as a clean match of a row it knows to be lost. */
  predicate CleanMatch(e: Evidence, c: nat, record: CopyRecord) {
    c < |e.copies| && record.locator == e.copies[c].locator && record.integrity == e.copies[c].integrity
    && RecordHealth(record) == Healthy
  }

  lemma ReplayedSnoc(e: Evidence, c: nat, records: seq<CopyRecord>, record: CopyRecord, run: string)
    requires c < |e.copies|
    ensures Replayed(e, c, records + [record], run)
            <==> Replayed(e, c, records, run)
                 || (e.copies[c].health == Missing && HasReceipt(e, c, Source.Scrub, run) && CleanMatch(e, c, record))
  {
    var more := records + [record];
    if Replayed(e, c, records, run) {
      var i :| 0 <= i < |records| && records[i].locator == e.copies[c].locator
               && records[i].integrity == e.copies[c].integrity && RecordHealth(records[i]) == Healthy;
      assert more[i] == records[i];
    }
    assert more[|records|] == record;
  }

  lemma NotEnumeratedNotReplayed(e: Evidence, c: nat, records: seq<CopyRecord>, run: string)
    requires c < |e.copies| && !Enumerated(records, e.copies[c].locator)
    ensures !Replayed(e, c, records, run)
  {
  }

  lemma ProgressStart(start: World, b: nat, run: string)
    requires UniqueLocators(start.e)
    ensures Progress(start, start, b, [], run)
  {
  }

  /** A locator the pass has not met is either pending or in no row of this backend. */
  lemma PendingOrAbsent(start: World, w: World, b: nat, records: seq<CopyRecord>, run: string, locator: string)
    requires Snapshot(start.e, b, start.pending) && Progress(start, w, b, records, run)
    requires !Enumerated(records, locator) && locator !in w.pending
    ensures !Catalogued(w.e, b, locator)
  {
    forall c | 0 <= c < |w.e.copies|
      ensures w.e.copies[c].backend != b || w.e.copies[c].locator != locator
    {
      if c < |start.e.copies| { assert RowKept(start, w, b, records, run, c); } else { assert RowAdded(w, b, records, c); }
    }
  }

  lemma StillCatalogued(e: Evidence, after: Evidence, b: nat, locator: string)
    requires Catalogued(e, b, locator) && |e.copies| <= |after.copies|
    requires forall c :: 0 <= c < |e.copies| ==> SameIdentity(e.copies[c], after.copies[c])
    ensures Catalogued(after, b, locator)
  {
  }

  lemma CoveredSnoc(start: World, w: World, after: World, b: nat, records: seq<CopyRecord>, record: CopyRecord)
    requires Covered(start, w, b, records) && |w.e.copies| <= |after.e.copies|
    requires forall c :: 0 <= c < |w.e.copies| ==> SameIdentity(w.e.copies[c], after.e.copies[c])
    requires Catalogued(after.e, b, record.locator) || Unknown(start.assets, record)
    ensures Covered(start, after, b, records + [record])
  {
    var more := records + [record];
    forall i | 0 <= i < |more|
      ensures Catalogued(after.e, b, more[i].locator) || Unknown(start.assets, more[i])
    {
      if i < |records| && Catalogued(w.e, b, records[i].locator) { StillCatalogued(w.e, after.e, b, records[i].locator); }
    }
  }

  /** Finding row `c` again keeps every snapshot row as the pass promises. */
  lemma FoundRowKept(start: World, w: World, after: World, b: nat, records: seq<CopyRecord>, record: CopyRecord,
                     run: string, now: int, c: nat, d: nat)
    requires Snapshot(start.e, b, start.pending) && run != "" && |start.e.copies| <= |w.e.copies| && d < |start.e.copies|
    requires c < |start.e.copies| && start.e.copies[c].locator == record.locator && start.e.copies[c].backend == b
    requires RowKept(start, w, b, records, run, c) && RowKept(start, w, b, records, run, d)
    requires !Enumerated(records, record.locator)
    requires Refound(w.e, c, record, run, now) == Ok(after.e)
    ensures |after.e.copies| == |w.e.copies| && RowKept(start, after, b, records + [record], run, d)
  {
    assert !Found(start, b, records, c);
    RefoundEffect(w.e, c, record, run, now);
    EnumeratedSnoc(records, record, start.e.copies[d].locator);
    ReplayedSnoc(start.e, d, records, record, run);
    if d == c {
      NotEnumeratedNotReplayed(start.e, c, records, run);
    } else {
      RefoundReceipts(w.e, c, record, run, now, d);
      if start.e.copies[d].backend == b {
        assert start.pending[start.e.copies[d].locator] == d;
      }
    }
  }

  lemma PendingSnoc(start: World, w: World, after: World, records: seq<CopyRecord>, record: CopyRecord)
    requires PendingLeft(start, w, records) && after.pending == w.pending - {record.locator}
    ensures PendingLeft(start, after, records + [record])
  {
    forall key
      ensures key in after.pending <==> key in start.pending && !Enumerated(records + [record], key)
    {
      EnumeratedSnoc(records, record, key);
    }
  }

  lemma SameIdentityUnique(e: Evidence, after: Evidence)
    requires UniqueLocators(e) && |e.copies| == |after.copies|
    requires forall c :: 0 <= c < |e.copies| ==> SameIdentity(e.copies[c], after.copies[c])
    ensures UniqueLocators(after)
  {
  }

  lemma ProgressFound(start: World, w: World, after: World, b: nat, records: seq<CopyRecord>, record: CopyRecord,
                      run: string, now: int, c: nat)
    requires Snapshot(start.e, b, start.pending) && Progress(start, w, b, records, run) && run != ""
    requires record.locator in w.pending && c == w.pending[record.locator]
    requires !Enumerated(records, record.locator)
    requires Refound(w.e, c, record, run, now) == Ok(after.e)
    requires after.assets == w.assets && after.pending == w.pending - {record.locator}
    ensures Progress(start, after, b, records + [record], run)
  {
    var more := records + [record];
    assert RowKept(start, w, b, records, run, c);
    forall d | 0 <= d < |start.e.copies|
      ensures |after.e.copies| == |w.e.copies| && RowKept(start, after, b, more, run, d)
    {
      FoundRowKept(start, w, after, b, records, record, run, now, c, d);
    }
    FoundElsewhere(start, w, after, b, records, record, run, now, c);
    PendingSnoc(start, w, after, records, record);
  }

  /** What finding row `c` again leaves of the rest of the pass. */
  lemma FoundElsewhere(start: World, w: World, after: World, b: nat, records: seq<CopyRecord>, record: CopyRecord,
                       run: string, now: int, c: nat)
    requires run != "" && c < |start.e.copies| <= |w.e.copies| && UniqueLocators(w.e) && Covered(start, w, b, records)
    requires w.e.copies[c].locator == record.locator && w.e.copies[c].backend == b
    requires forall d :: |start.e.copies| <= d < |w.e.copies| ==> RowAdded(w, b, records, d)
    requires Refound(w.e, c, record, run, now) == Ok(after.e)
    ensures |after.e.copies| == |w.e.copies| && UniqueLocators(after.e) && Covered(start, after, b, records + [record])
    ensures forall d :: |start.e.copies| <= d < |after.e.copies| ==> RowAdded(after, b, records + [record], d)
  {
    RefoundEffect(w.e, c, record, run, now);
    assert forall d :: 0 <= d < |w.e.copies| ==> SameIdentity(w.e.copies[d], after.e.copies[d]);
    SameIdentityUnique(w.e, after.e);
    forall d | |start.e.copies| <= d < |after.e.copies|
      ensures RowAdded(after, b, records + [record], d)
    {
      assert RowAdded(w, b, records, d);
      EnumeratedSnoc(records, record, w.e.copies[d].locator);
    }
    assert Catalogued(after.e, b, record.locator) by { assert SameIdentity(w.e.copies[c], after.e.copies[c]); }
    CoveredSnoc(start, w, after, b, records, record);
  }

  /** A record that matches no row of the snapshot keeps each of them as the pass promises. */
  lemma UnmatchedRowKept(start: World, w: World, after: World, b: nat, records: seq<CopyRecord>, record: CopyRecord,
                         run: string, d: nat)
    requires Snapshot(start.e, b, start.pending) && PendingLeft(start, w, records)
    requires record.locator !in w.pending && !Enumerated(records, record.locator)
    requires d < |start.e.copies| <= |w.e.copies| <= |after.e.copies| && RowKept(start, w, b, records, run, d)
    requires after.e.copies[d] == w.e.copies[d] && after.e.receipts == w.e.receipts
    ensures RowKept(start, after, b, records + [record], run, d)
  {
    EnumeratedSnoc(records, record, start.e.copies[d].locator);
    ReplayedSnoc(start.e, d, records, record, run);
    assert HasReceipt(after.e, d, Source.Scrub, run) <==> HasReceipt(w.e, d, Source.Scrub, run);
    if start.e.copies[d].backend == b {
      assert start.e.copies[d].locator in start.pending;
    }
  }

  lemma OneMoreUnique(e: Evidence, after: Evidence, b: nat, locator: string)
    requires UniqueLocators(e) && !Catalogued(e, b, locator)
    requires |e.copies| <= |after.copies| <= |e.copies| + 1 && forall c :: 0 <= c < |e.copies| ==> after.copies[c] == e.copies[c]
    requires |after.copies| > |e.copies| ==> after.copies[|e.copies|].backend == b && after.copies[|e.copies|].locator == locator
    ensures UniqueLocators(after)
  {
  }

  /** At most one row is added past the ones already there, and it is the record's. */
  ghost predicate OneMore(w: World, after: World, b: nat, record: CopyRecord) {
    && |w.e.copies| <= |after.e.copies| <= |w.e.copies| + 1
    && (forall c :: 0 <= c < |w.e.copies| ==> after.e.copies[c] == w.e.copies[c])
    && (|after.e.copies| > |w.e.copies| ==>
          var row := after.e.copies[|w.e.copies|];
          row.backend == b && row.locator == record.locator && row.health != Missing)
  }

  lemma UnmatchedAdded(w: World, after: World, b: nat, records: seq<CopyRecord>, record: CopyRecord, d: nat)
    requires OneMore(w, after, b, record) && d < |after.e.copies|
    requires d < |w.e.copies| ==> RowAdded(w, b, records, d)
    ensures RowAdded(after, b, records + [record], d)
  {
    EnumeratedSnoc(records, record, after.e.copies[d].locator);
  }

  lemma UnmatchedCovered(start: World, w: World, after: World, b: nat, records: seq<CopyRecord>, record: CopyRecord)
    requires Covered(start, w, b, records) && OneMore(w, after, b, record)
    requires |after.e.copies| == |w.e.copies| ==> Unknown(start.assets, record)
    ensures Covered(start, after, b, records + [record])
  {
    if |after.e.copies| > |w.e.copies| {
      assert after.e.copies[|w.e.copies|].backend == b;
      assert Catalogued(after.e, b, record.locator);
    }
    CoveredSnoc(start, w, after, b, records, record);
  }

  /** The pass after a record that matches no row of the snapshot. */
  lemma ProgressUnmatched(start: World, w: World, after: World, b: nat, records: seq<CopyRecord>, record: CopyRecord,
                          run: string)
    requires Snapshot(start.e, b, start.pending) && Progress(start, w, b, records, run)
    requires record.locator !in w.pending && !Enumerated(records, record.locator)
    requires after.pending == w.pending && w.assets <= after.assets && after.e.receipts == w.e.receipts
    requires OneMore(w, after, b, record)
    requires |after.e.copies| == |w.e.copies| ==> Unknown(start.assets, record)
    ensures Progress(start, after, b, records + [record], run)
  {
    var more := records + [record];
    PendingOrAbsent(start, w, b, records, run, record.locator);
    assert w.pending - {record.locator} == w.pending;
    PendingSnoc(start, w, after, records, record);
    OneMoreUnique(w.e, after.e, b, record.locator);
    forall d | 0 <= d < |start.e.copies|
      ensures RowKept(start, after, b, more, run, d)
    {
      UnmatchedRowKept(start, w, after, b, records, record, run, d);
    }
    forall d | |start.e.copies| <= d < |after.e.copies|
      ensures RowAdded(after, b, more, d)
    {
      UnmatchedAdded(w, after, b, records, record, d);
    }
    UnmatchedCovered(start, w, after, b, records, record);
  }

  lemma ProgressStep(start: World, w: World, b: nat, pools: map<string, PoolRow>, records: seq<CopyRecord>,
                     record: CopyRecord, run: string, now: int)
    requires Snapshot(start.e, b, start.pending) && Progress(start, w, b, records, run) && run != ""
    requires !Enumerated(records, record.locator)
    requires InRange(w)
    requires Ingest(w, b, pools, record, run, now).Ok?
    ensures Progress(start, Ingest(w, b, pools, record, run, now).value, b, records + [record], run)
  {
    var after := Ingest(w, b, pools, record, run, now).value;
    if record.locator in w.pending {
      ProgressFound(start, w, after, b, records, record, run, now, w.pending[record.locator]);
    } else {
      PendingOrAbsent(start, w, b, records, run, record.locator);
      ProgressUnmatched(start, w, after, b, records, record, run);
    }
  }

  // ----- Whole passes -----

  /** Ingest every record in order; the first error ends the pass. */
  function IngestAll(start: World, b: nat, pools: map<string, PoolRow>, records: seq<CopyRecord>, run: string,
                     now: int): (r: Result<World, ScrubError>)
    requires InRange(start)
    ensures r.Ok? ==> InRange(r.value)
    decreases |records|
  {
    if records == [] then Ok(start)
    else
      var n := |records| - 1;
      match IngestAll(start, b, pools, records[..n], run, now)
      case Err(error) => Err(error)
      case Ok(w) => IngestSizes(w, b, pools, records[n], run, now); Ingest(w, b, pools, records[n], run, now)
  }

  lemma {:induction false} IngestAllProgress(start: World, b: nat, pools: map<string, PoolRow>, records: seq<CopyRecord>,
                                             run: string, now: int)
    requires Snapshot(start.e, b, start.pending) && UniqueLocators(start.e) && DistinctLocators(records) && run != ""
    requires IngestAll(start, b, pools, records, run, now).Ok?
    ensures Progress(start, IngestAll(start, b, pools, records, run, now).value, b, records, run)
    decreases |records|
  {
    if records == [] {
      ProgressStart(start, b, run);
    } else {
      var n := |records| - 1;
      var front := records[..n];
      IngestAllProgress(start, b, pools, front, run, now);
      ProgressStep(start, IngestAll(start, b, pools, front, run, now).value, b, pools, front, records[n], run, now);
      assert front + [records[n]] == records;
    }
  }

  /** Mark every row in `lost` missing. */
  function MarkMissing(e: Evidence, lost: set<nat>): (after: Evidence)
    ensures |after.copies| == |e.copies| && after.receipts == e.receipts && after.remeasure == e.remeasure
    ensures forall c :: 0 <= c < |e.copies| ==>
              after.copies[c] == if c in lost then e.copies[c].(health := Missing) else e.copies[c]
  {
    e.(copies := seq(|e.copies|, c requires 0 <= c < |e.copies| =>
         if c in lost then e.copies[c].(health := Missing) else e.copies[c]))
  }

  function Lost(pending: map<string, nat>): set<nat> {
    set key | key in pending :: pending[key]
  }

  /** `scrub_backend` on the evidence: ingest, then mark what was not enumerated. */
  function ScrubResult(start: World, b: nat, pools: map<string, PoolRow>, records: seq<CopyRecord>, run: string,
                       now: int): Result<World, ScrubError>
    requires InRange(start)
  {
    match IngestAll(start, b, pools, records, run, now)
    case Err(error) => Err(error)
    case Ok(w) => Ok(w.(e := MarkMissing(w.e, Lost(w.pending)), pending := map[]))
  }

  /** After a completed scrub the backend's non-missing rows are exactly the enumerated ones, save
      rows whose promotion this run id had already recorded; every enumerated object is catalogued
      or was an unknown bundle container; no row was removed and no other backend's row changed. */
  ghost predicate Reconciled(start: World, after: World, b: nat, records: seq<CopyRecord>, run: string) {
    && |start.e.copies| <= |after.e.copies| && start.assets <= after.assets
    && UniqueLocators(after.e)
    && (forall c :: 0 <= c < |start.e.copies| ==> SameIdentity(start.e.copies[c], after.e.copies[c]))
    && (forall c :: 0 <= c < |start.e.copies| && start.e.copies[c].backend != b ==> after.e.copies[c] == start.e.copies[c])
    && (forall c :: 0 <= c < |after.e.copies| && after.e.copies[c].backend == b ==>
          (after.e.copies[c].health != Missing <==>
             Enumerated(records, after.e.copies[c].locator) && !Replayed(start.e, c, records, run)))
    && (forall c :: |start.e.copies| <= c < |after.e.copies| ==> after.e.copies[c].backend == b)
    && (forall i :: 0 <= i < |records| ==> Catalogued(after.e, b, records[i].locator) || Unknown(start.assets, records[i]))
  }

  lemma LostExactly(start: World, w: World, b: nat, records: seq<CopyRecord>, c: nat)
    requires Snapshot(start.e, b, start.pending) && PendingLeft(start, w, records)
    ensures c in Lost(w.pending) <==> c < |start.e.copies| && start.e.copies[c].backend == b
                                      && !Enumerated(records, start.e.copies[c].locator)
  {
  }

  /** A snapshot row once the rows not enumerated are marked. */
  lemma OldRowReconciled(start: World, w: World, after: Copy, b: nat, records: seq<CopyRecord>, run: string, c: nat)
    requires Snapshot(start.e, b, start.pending) && PendingLeft(start, w, records)
    requires c < |start.e.copies| <= |w.e.copies| && RowKept(start, w, b, records, run, c)
    requires after == if c in Lost(w.pending) then w.e.copies[c].(health := Missing) else w.e.copies[c]
    ensures SameIdentity(start.e.copies[c], after)
    ensures start.e.copies[c].backend != b ==> after == start.e.copies[c]
    ensures after.backend == b ==>
              (after.health != Missing <==> Enumerated(records, after.locator) && !Replayed(start.e, c, records, run))
  {
    LostExactly(start, w, b, records, c);
  }

  lemma NewRowReconciled(start: World, w: World, after: Copy, b: nat, records: seq<CopyRecord>, run: string, c: nat)
    requires Snapshot(start.e, b, start.pending) && PendingLeft(start, w, records)
    requires |start.e.copies| <= c < |w.e.copies| && RowAdded(w, b, records, c)
    requires after == if c in Lost(w.pending) then w.e.copies[c].(health := Missing) else w.e.copies[c]
    ensures after.backend == b && after.health != Missing && Enumerated(records, after.locator) && !Replayed(start.e, c, records, run)
  {
    LostExactly(start, w, b, records, c);
  }

  lemma ScrubReconciles(start: World, b: nat, pools: map<string, PoolRow>, records: seq<CopyRecord>, run: string, now: int)
    requires Snapshot(start.e, b, start.pending) && UniqueLocators(start.e) && DistinctLocators(records) && run != ""
    requires ScrubResult(start, b, pools, records, run, now).Ok?
    ensures Reconciled(start, ScrubResult(start, b, pools, records, run, now).value, b, records, run)
  {
    var w := IngestAll(start, b, pools, records, run, now).value;
    IngestAllProgress(start, b, pools, records, run, now);
    MarkedReconciles(start, w, w.(e := MarkMissing(w.e, Lost(w.pending)), pending := map[]), b, records, run);
  }

  lemma MarkedReconciles(start: World, w: World, after: World, b: nat, records: seq<CopyRecord>, run: string)
    requires Snapshot(start.e, b, start.pending) && Progress(start, w, b, records, run)
    requires after.e == MarkMissing(w.e, Lost(w.pending)) && after.assets == w.assets
    ensures Reconciled(start, after, b, records, run)
  {
    assert forall c :: 0 <= c < |w.e.copies| ==> SameIdentity(w.e.copies[c], after.e.copies[c]);
    SameIdentityUnique(w.e, after.e);
    forall c | 0 <= c < |after.e.copies|
      ensures after.e.copies[c].backend == b ==>
                (after.e.copies[c].health != Missing <==>
                   Enumerated(records, after.e.copies[c].locator) && !Replayed(start.e, c, records, run))
      ensures c < |start.e.copies| && start.e.copies[c].backend != b ==> after.e.copies[c] == start.e.copies[c]
      ensures c < |start.e.copies| ==> SameIdentity(start.e.copies[c], after.e.copies[c])
      ensures c >= |start.e.copies| ==> after.e.copies[c].backend == b
    {
      if c < |start.e.copies| {
        OldRowReconciled(start, w, after.e.copies[c], b, records, run, c);
      } else {
        NewRowReconciled(start, w, after.e.copies[c], b, records, run, c);
      }
    }
    StaysCovered(start, w, after, b, records);
  }

  lemma StaysCovered(start: World, w: World, after: World, b: nat, records: seq<CopyRecord>)
    requires Covered(start, w, b, records) && |w.e.copies| == |after.e.copies|
    requires forall c :: 0 <= c < |w.e.copies| ==> SameIdentity(w.e.copies[c], after.e.copies[c])
    ensures Covered(start, after, b, records)
  {
    forall i | 0 <= i < |records|
      ensures Catalogued(after.e, b, records[i].locator) || Unknown(start.assets, records[i])
    {
      if Catalogued(w.e, b, records[i].locator) { StillCatalogued(w.e, after.e, b, records[i].locator); }
    }
  }

  // ----- What a pass adds -----

  /** Every record is already catalogued or is an unknown container: nothing to add. */
  ghost predicate NothingNew(start: World, b: nat, records: seq<CopyRecord>) {
    forall i :: 0 <= i < |records| ==> Catalogued(start.e, b, records[i].locator) || Unknown(start.assets, records[i])
  }

  lemma {:induction false} NothingNewAddsNothing(start: World, b: nat, pools: map<string, PoolRow>,
                                                 records: seq<CopyRecord>, run: string, now: int)
    requires Snapshot(start.e, b, start.pending) && UniqueLocators(start.e) && DistinctLocators(records) && run != ""
    requires IngestAll(start, b, pools, records, run, now).Ok? && NothingNew(start, b, records)
    ensures var w := IngestAll(start, b, pools, records, run, now).value;
            |w.e.copies| == |start.e.copies| && w.assets == start.assets
    decreases |records|
  {
    if records != [] {
      var n := |records| - 1;
      var front := records[..n];
      NothingNewAddsNothing(start, b, pools, front, run, now);
      var w := IngestAll(start, b, pools, front, run, now).value;
      IngestAllProgress(start, b, pools, front, run, now);
      if records[n].locator in w.pending {
        RefoundEffect(w.e, w.pending[records[n].locator], records[n], run, now);
      } else {
        assert !Enumerated(front, records[n].locator);
        PendingOrAbsent(start, w, b, front, run, records[n].locator);
        AbsentInStart(start, w, b, front, run, records[n].locator);
      }
    }
  }

  lemma AbsentInStart(start: World, w: World, b: nat, records: seq<CopyRecord>, run: string, locator: string)
    requires Progress(start, w, b, records, run) && !Catalogued(w.e, b, locator)
    ensures !Catalogued(start.e, b, locator)
  {
    forall c | 0 <= c < |start.e.copies|
      ensures start.e.copies[c].backend != b || start.e.copies[c].locator != locator
    {
      assert RowKept(start, w, b, records, run, c);
    }
  }

  /** A completed scrub adds a copy row exactly when some enumerated object is neither catalogued
      nor an unknown bundle container. */
  lemma ScrubAddsExactly(start: World, b: nat, pools: map<string, PoolRow>, records: seq<CopyRecord>, run: string, now: int)
    requires Snapshot(start.e, b, start.pending) && UniqueLocators(start.e) && DistinctLocators(records) && run != ""
    requires ScrubResult(start, b, pools, records, run, now).Ok?
    ensures |ScrubResult(start, b, pools, records, run, now).value.e.copies| == |start.e.copies| <==> NothingNew(start, b, records)
  {
    var after := ScrubResult(start, b, pools, records, run, now).value;
    ScrubReconciles(start, b, pools, records, run, now);
    if NothingNew(start, b, records) {
      NothingNewAddsNothing(start, b, pools, records, run, now);
    } else if |after.e.copies| == |start.e.copies| {
      forall i | 0 <= i < |records| && Catalogued(after.e, b, records[i].locator)
        ensures Catalogued(start.e, b, records[i].locator)
      {
        var c :| 0 <= c < |after.e.copies| && after.e.copies[c].backend == b && after.e.copies[c].locator == records[i].locator;
        assert SameIdentity(start.e.copies[c], after.e.copies[c]);
      }
    }
  }

  /** A second scrub of the same enumeration marks nothing missing, and adds a row exactly when an
      object skipped as an unknown container has had its asset registered since, which the first
      pass itself does when a later record carries the same logical id. */
  lemma SecondScrub(start: World, middle: World, b: nat, pools: map<string, PoolRow>, records: seq<CopyRecord>,
                    run: string, again: string, now: int, later: int)
    requires Snapshot(start.e, b, start.pending) && UniqueLocators(start.e) && DistinctLocators(records) && run != "" && again != ""
    requires ScrubResult(start, b, pools, records, run, now).Ok?
    requires var first := ScrubResult(start, b, pools, records, run, now).value;
             middle.e == first.e && middle.assets == first.assets && Snapshot(middle.e, b, middle.pending)
    requires ScrubResult(middle, b, pools, records, again, later).Ok?
    ensures var second := ScrubResult(middle, b, pools, records, again, later).value;
            && |middle.e.copies| <= |second.e.copies|
            && (forall c :: 0 <= c < |middle.e.copies| && middle.e.copies[c].health != Missing ==> second.e.copies[c].health != Missing)
            && (|second.e.copies| == |middle.e.copies| <==>
                  forall i :: 0 <= i < |records| && !Catalogued(middle.e, b, records[i].locator) ==> records[i].logical !in middle.assets)
  {
    ScrubReconciles(start, b, pools, records, run, now);
    ScrubReconciles(middle, b, pools, records, again, later);
    ScrubAddsExactly(middle, b, pools, records, again, later);
  }

  /** With a run id no receipt carries yet, the backend's non-missing rows are exactly the enumerated ones. */
  lemma FreshRunReconciles(start: World, b: nat, pools: map<string, PoolRow>, records: seq<CopyRecord>, run: string,
                           now: int)
    requires Snapshot(start.e, b, start.pending) && UniqueLocators(start.e) && DistinctLocators(records) && run != ""
    requires forall c :: !HasReceipt(start.e, c, Source.Scrub, run)
    requires ScrubResult(start, b, pools, records, run, now).Ok?
    ensures var after := ScrubResult(start, b, pools, records, run, now).value;
            forall c :: 0 <= c < |after.e.copies| && after.e.copies[c].backend == b ==>
              (after.e.copies[c].health != Missing <==> Enumerated(records, after.e.copies[c].locator))
  {
    ScrubReconciles(start, b, pools, records, run, now);
  }

  // ----- A scrub is a run of evidence steps -----

  lemma {:induction false} MarkMissingIsSteps(start: Evidence, before: seq<Step>, e: Evidence,
                                              lost: set<nat>) returns (steps: seq<Step>)
    requires Run(start, before) == e
    requires forall c :: c in lost ==> c < |e.copies|
    ensures Run(start, steps) == MarkMissing(e, lost)
    decreases |lost|
  {
    if lost == {} {
      steps := before;
      assert MarkMissing(e, lost).copies == e.copies;
    } else {
      var c :| c in lost;
      var front := MarkMissingIsSteps(start, before, e, lost - {c});
      steps := front + [Downgrade(c, Missing, None)];
      RunSnoc(start, front, Downgrade(c, Missing, None));
      MarkOneMore(e, MarkMissing(e, lost - {c}), MarkMissing(e, lost), lost, c);
    }
  }

  lemma MarkOneMore(e: Evidence, before: Evidence, after: Evidence, lost: set<nat>, c: nat)
    requires c in lost && c < |e.copies| && before == MarkMissing(e, lost - {c}) && after == MarkMissing(e, lost)
    ensures Apply(before, Downgrade(c, Missing, None)) == after
  {
    assert before.copies[c := before.copies[c].(health := Missing)] == after.copies;
  }

  lemma IngestIsSteps(start: Evidence, before: seq<Step>, w: World, b: nat, pools: map<string, PoolRow>,
                      record: CopyRecord, run: string, now: int)
    returns (steps: seq<Step>)
    requires Run(start, before) == w.e
    requires InRange(w)
    requires Ingest(w, b, pools, record, run, now).Ok?
    ensures Run(start, steps) == Ingest(w, b, pools, record, run, now).value.e
  {
    var after := Ingest(w, b, pools, record, run, now).value;
    if record.locator in w.pending {
      var c := w.pending[record.locator];
      var more := RefoundSteps(w.e, c, record, run, now);
      RefoundIsSteps(w.e, c, record, run, now);
      if |more| == 2 {
        RunTwo(w.e, more[0], more[1]);
        RunSnoc(start, before, more[0]);
        RunSnoc(start, before + [more[0]], more[1]);
        steps := before + [more[0]] + [more[1]];
      } else {
        RunOne(w.e, more[0]);
        RunSnoc(start, before, more[0]);
        steps := before + [more[0]];
      }
    } else if after.e == w.e {
      steps := before;
    } else {
      steps := before + [Create(NewCopy(b, pools, record, now))];
      RunSnoc(start, before, Create(NewCopy(b, pools, record, now)));
    }
  }

  lemma {:induction false} IngestAllIsSteps(start: World, b: nat, pools: map<string, PoolRow>, records: seq<CopyRecord>,
                                            run: string, now: int)
    returns (steps: seq<Step>)
    requires InRange(start)
    requires IngestAll(start, b, pools, records, run, now).Ok?
    ensures Run(start.e, steps) == IngestAll(start, b, pools, records, run, now).value.e
    decreases |records|
  {
    if records == [] {
      steps := [];
    } else {
      var n := |records| - 1;
      var front := IngestAllIsSteps(start, b, pools, records[..n], run, now);
      steps := IngestIsSteps(start.e, front, IngestAll(start, b, pools, records[..n], run, now).value, b, pools, records[n], run, now);
    }
  }

  /** A scrub is a run of recorder, downgrade and create steps, so what every run keeps, a scrub keeps. */
  lemma ScrubIsRun(start: World, b: nat, pools: map<string, PoolRow>, records: seq<CopyRecord>, run: string, now: int)
    returns (steps: seq<Step>)
    requires InRange(start)
    requires ScrubResult(start, b, pools, records, run, now).Ok?
    ensures Run(start.e, steps) == ScrubResult(start, b, pools, records, run, now).value.e
  {
    var w := IngestAll(start, b, pools, records, run, now).value;
    var front := IngestAllIsSteps(start, b, pools, records, run, now);
    steps := MarkMissingIsSteps(start.e, front, w.e, Lost(w.pending));
  }

  // ----- Which scrubs fail -----

  /** Where scrub receipts are promotions and every promotion queued its job, a found copy is never
      refused. */
  lemma RefoundNeverFails(e: Evidence, c: nat, record: CopyRecord, run: string, now: int)
    requires c < |e.copies| && run != "" && ScrubsPromote(e) && JobsFollowPromotions(e)
    ensures Refound(e, c, record, run, now).Ok?
  {
    var checked := WithHealth(e, c, e.copies[c].health, Some(now));
    if HasReceipt(checked, c, Source.Scrub, run) {
      var i :| 0 <= i < |e.receipts| && ForExecution(e.receipts[i], c, Source.Scrub, run);
      assert e.receipts[i].failure == Some(MeasurementInvalidated);
      assert Promoted(e, c);
    }
  }

  /** After any history of the evidence, only a pool disagreement makes a scrub fail: its promotions
      never do. */
  lemma {:induction false} ScrubFailsOnPoolsOnly(history: seq<Step>, start: World, b: nat, pools: map<string, PoolRow>,
                                                 records: seq<CopyRecord>, run: string, now: int)
    requires start.e == Run(Evidence([], [], {}), history) && run != ""
    requires InRange(start)
    ensures IngestAll(start, b, pools, records, run, now) != Err(PromotionFailed)
    ensures ScrubResult(start, b, pools, records, run, now) != Err(PromotionFailed)
    decreases |records|
  {
    if records != [] {
      var n := |records| - 1;
      ScrubFailsOnPoolsOnly(history, start, b, pools, records[..n], run, now);
      if IngestAll(start, b, pools, records[..n], run, now).Ok? {
        var w := IngestAll(start, b, pools, records[..n], run, now).value;
        var steps := IngestAllIsSteps(start, b, pools, records[..n], run, now);
        RunKeepsScrubs(Evidence([], [], {}), history);
        RunKeepsJobs(Evidence([], [], {}), history);
        RunKeepsScrubs(start.e, steps);
        RunKeepsJobs(start.e, steps);
        if records[n].locator in w.pending {
          RefoundNeverFails(w.e, w.pending[records[n].locator], records[n], run, now);
        }
      }
    }
  }
}
