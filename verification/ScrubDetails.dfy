/** What a scrub makes of each enumerated object, in the columns of its row. */
module ScrubDetails {
  import opened Wrappers
  import opened Numerals
  import opened CopyEvidence
  import opened Scrub

  /** The row a scrub adds for an object: its hashes, its pool with that pool's representation, or the
      observed one without a pool; healthy exactly when the stored form is the logical one; nothing
      measured yet. */
  predicate AddedFrom(row: Copy, b: nat, pools: map<string, PoolRow>, record: CopyRecord, now: int) {
    && row.backend == b && row.locator == record.locator && row.logical == Some(record.logical) && row.integrity == record.integrity
    && row.pool == record.pool && !row.locallyComputed && row.deletedAt.None?
    && (record.pool.Some? ==> record.pool.value in pools && row.representation == Some(pools[record.pool.value].representation))
    && (record.pool.None? ==> row.representation == record.observed)
    && row.health == (if record.logical == record.integrity then Healthy else Suspect)
    && row.checkedAt == Some(now) && row.measured.None? && row.measuredAt.None?
  }

  /** What finding catalogued copy `c` again makes of it. Another integrity hash, or a stored form that is
      not the logical one, makes it suspect. A clean match leaves a healthy or corrupt copy alone, and
      promotes a missing or suspect one on trust, unless this run has already recorded that promotion. */
  predicate FoundAs(e: Evidence, c: nat, after: Copy, record: CopyRecord, run: string, now: int)
    requires c < |e.copies|
  {
    var copy := e.copies[c];
    && after == copy.(health := after.health, checkedAt := Some(now), measured := after.measured, measuredAt := after.measuredAt)
    && if record.integrity != copy.integrity || record.logical != record.integrity then
         after.health == Suspect && after.measured == copy.measured && after.measuredAt == copy.measuredAt
       else if copy.health == Healthy || copy.health == Corrupt || HasReceipt(e, c, Source.Scrub, run) then
         after.health == copy.health && after.measured == copy.measured && after.measuredAt == copy.measuredAt
       else after.health == Healthy && after.measured.None? && after.measuredAt.None?
  }

  lemma RefoundAs(e: Evidence, c: nat, record: CopyRecord, run: string, now: int)
    requires c < |e.copies| && run != "" && Refound(e, c, record, run, now).Ok?
    ensures FoundAs(e, c, Refound(e, c, record, run, now).value.copies[c], record, run, now)
  {
    RefoundEffect(e, c, record, run, now);
    var checked := WithHealth(e, c, e.copies[c].health, Some(now));
    assert HasReceipt(checked, c, Source.Scrub, run) <==> HasReceipt(e, c, Source.Scrub, run);
  }

  /** What became of one record: the row it found, or the row it made, unless it was only reported. */
  ghost predicate Detail(start: World, w: World, b: nat, pools: map<string, PoolRow>, record: CopyRecord, run: string, now: int)
    requires InRange(start) && |start.e.copies| <= |w.e.copies|
  {
    if record.locator in start.pending then
      FoundAs(start.e, start.pending[record.locator], w.e.copies[start.pending[record.locator]], record, run, now)
    else Catalogued(w.e, b, record.locator) ==> Made(w.e, |start.e.copies|, b, pools, record, now)
  }

  ghost predicate Made(e: Evidence, from: nat, b: nat, pools: map<string, PoolRow>, record: CopyRecord, now: int) {
    exists c :: from <= c < |e.copies| && AddedFrom(e.copies[c], b, pools, record, now)
  }

  /** An unseen snapshot row meets its record as it was at the start. */
  lemma FoundDetail(start: World, w: World, after: World, b: nat, pools: map<string, PoolRow>, front: seq<CopyRecord>,
                    record: CopyRecord, run: string, now: int)
    requires Snapshot(start.e, b, start.pending) && Progress(start, w, b, front, run) && run != ""
    requires !Enumerated(front, record.locator) && record.locator in w.pending
    requires Refound(w.e, w.pending[record.locator], record, run, now) == Ok(after.e)
    ensures |w.e.copies| == |after.e.copies| && Detail(start, after, b, pools, record, run, now)
  {
    var c := w.pending[record.locator];
    assert c == start.pending[record.locator] && RowKept(start, w, b, front, run, c) && !Found(start, b, front, c);
    RefoundAs(w.e, c, record, run, now);
    RefoundLength(w.e, c, record, run, now);
  }

  lemma NewCopyAdded(b: nat, pools: map<string, PoolRow>, record: CopyRecord, now: int)
    requires PoolError(b, pools, record).None?
    ensures AddedFrom(NewCopy(b, pools, record, now), b, pools, record, now)
  {
  }

  lemma UnmatchedDetail(start: World, w: World, b: nat, pools: map<string, PoolRow>, front: seq<CopyRecord>, record: CopyRecord,
                        run: string, now: int)
    requires Snapshot(start.e, b, start.pending) && InRange(start) && Progress(start, w, b, front, run) && InRange(w)
    requires !Enumerated(front, record.locator) && record.locator !in w.pending
    requires Ingest(w, b, pools, record, run, now).Ok?
    ensures var after := Ingest(w, b, pools, record, run, now).value;
            |w.e.copies| <= |after.e.copies| && Detail(start, after, b, pools, record, run, now)
  {
    var after := Ingest(w, b, pools, record, run, now).value;
    PendingOrAbsent(start, w, b, front, run, record.locator);
    assert record.locator !in start.pending;
    if !Unknown(w.assets, record) {
      NewCopyAdded(b, pools, record, now);
      assert after.e.copies[|w.e.copies|] == NewCopy(b, pools, record, now);
    }
  }

  lemma IngestDetail(start: World, w: World, b: nat, pools: map<string, PoolRow>, front: seq<CopyRecord>, record: CopyRecord,
                     run: string, now: int)
    requires Snapshot(start.e, b, start.pending) && InRange(start) && Progress(start, w, b, front, run) && InRange(w) && run != ""
    requires !Enumerated(front, record.locator) && Ingest(w, b, pools, record, run, now).Ok?
    ensures var after := Ingest(w, b, pools, record, run, now).value;
            |w.e.copies| <= |after.e.copies| && Detail(start, after, b, pools, record, run, now)
  {
    if record.locator in w.pending {
      FoundDetail(start, w, Ingest(w, b, pools, record, run, now).value, b, pools, front, record, run, now);
    } else {
      UnmatchedDetail(start, w, b, pools, front, record, run, now);
    }
  }

  /** The rows a record leaves alone: all but the one with its locator. */
  lemma IngestElsewhere(w: World, b: nat, pools: map<string, PoolRow>, record: CopyRecord, run: string, now: int)
    requires InRange(w) && run != "" && Ingest(w, b, pools, record, run, now).Ok?
    requires record.locator in w.pending ==> w.e.copies[w.pending[record.locator]].locator == record.locator
    ensures var after := Ingest(w, b, pools, record, run, now).value;
            && |w.e.copies| <= |after.e.copies|
            && (forall c :: 0 <= c < |w.e.copies| && w.e.copies[c].locator != record.locator ==> after.e.copies[c] == w.e.copies[c])
            && (forall c :: |w.e.copies| <= c < |after.e.copies| ==> after.e.copies[c].locator == record.locator)
            && (forall c :: 0 <= c < |w.e.copies| ==> SameIdentity(w.e.copies[c], after.e.copies[c]))
  {
    if record.locator in w.pending { RefoundEffect(w.e, w.pending[record.locator], record, run, now); }
  }

  lemma DetailStays(start: World, w: World, after: World, b: nat, pools: map<string, PoolRow>, earlier: CopyRecord, later: string,
                    run: string, now: int)
    requires Snapshot(start.e, b, start.pending) && InRange(start) && |start.e.copies| <= |w.e.copies| <= |after.e.copies|
    requires Detail(start, w, b, pools, earlier, run, now) && earlier.locator != later
    requires forall c :: 0 <= c < |start.e.copies| ==> SameIdentity(start.e.copies[c], w.e.copies[c])
    requires forall c :: 0 <= c < |w.e.copies| && w.e.copies[c].locator != later ==> after.e.copies[c] == w.e.copies[c]
    requires forall c :: |w.e.copies| <= c < |after.e.copies| ==> after.e.copies[c].locator == later
    requires forall c :: 0 <= c < |w.e.copies| ==> SameIdentity(w.e.copies[c], after.e.copies[c])
    ensures Detail(start, after, b, pools, earlier, run, now)
  {
    if earlier.locator in start.pending {
      assert start.e.copies[start.pending[earlier.locator]].locator == earlier.locator;
    } else if Catalogued(after.e, b, earlier.locator) {
      var c :| 0 <= c < |after.e.copies| && after.e.copies[c].backend == b && after.e.copies[c].locator == earlier.locator;
      assert c < |w.e.copies| && w.e.copies[c].backend == b;
      var d :| |start.e.copies| <= d < |w.e.copies| && AddedFrom(w.e.copies[d], b, pools, earlier, now);
      assert after.e.copies[d] == w.e.copies[d];
    }
  }

  lemma {:induction false} IngestAllDetails(start: World, b: nat, pools: map<string, PoolRow>, records: seq<CopyRecord>,
                                            run: string, now: int, i: nat)
    requires Snapshot(start.e, b, start.pending) && InRange(start) && UniqueLocators(start.e) && DistinctLocators(records) && run != ""
    requires IngestAll(start, b, pools, records, run, now).Ok? && i < |records|
    ensures var w := IngestAll(start, b, pools, records, run, now).value;
            |start.e.copies| <= |w.e.copies| && Detail(start, w, b, pools, records[i], run, now)
    decreases |records|
  {
    var n := |records| - 1;
    var front := records[..n];
    IngestAllProgress(start, b, pools, front, run, now);
    var w := IngestAll(start, b, pools, front, run, now).value;
    if i == n {
      assert !Enumerated(front, records[n].locator);
      IngestDetail(start, w, b, pools, front, records[n], run, now);
    } else {
      IngestAllDetails(start, b, pools, front, run, now, i);
      KeptIdentity(start, w, b, front, run);
      PendingNamed(start, w, b, front, run, records[n].locator);
      IngestElsewhere(w, b, pools, records[n], run, now);
      DetailStays(start, w, Ingest(w, b, pools, records[n], run, now).value, b, pools, records[i], records[n].locator, run, now);
    }
  }

  lemma KeptIdentity(start: World, w: World, b: nat, records: seq<CopyRecord>, run: string)
    requires Progress(start, w, b, records, run)
    ensures forall c :: 0 <= c < |start.e.copies| ==> SameIdentity(start.e.copies[c], w.e.copies[c])
  {
    forall c | 0 <= c < |start.e.copies|
      ensures SameIdentity(start.e.copies[c], w.e.copies[c])
    {
      assert RowKept(start, w, b, records, run, c);
    }
  }

  lemma PendingNamed(start: World, w: World, b: nat, records: seq<CopyRecord>, run: string, locator: string)
    requires Snapshot(start.e, b, start.pending) && Progress(start, w, b, records, run)
    ensures locator in w.pending ==> w.pending[locator] < |w.e.copies| && w.e.copies[w.pending[locator]].locator == locator
  {
    KeptIdentity(start, w, b, records, run);
  }

  /** After a completed scrub each enumerated object's row says exactly what the object and the row it found
      call for: the table of `FoundAs` for a catalogued copy, the columns of `AddedFrom` for a new one. */
  lemma ScrubDetailed(start: World, b: nat, pools: map<string, PoolRow>, records: seq<CopyRecord>, run: string, now: int, i: nat)
    requires Snapshot(start.e, b, start.pending) && InRange(start) && UniqueLocators(start.e) && DistinctLocators(records) && run != ""
    requires ScrubResult(start, b, pools, records, run, now).Ok? && i < |records|
    ensures var after := ScrubResult(start, b, pools, records, run, now).value;
            |start.e.copies| <= |after.e.copies| && Detail(start, after, b, pools, records[i], run, now)
  {
    var w := IngestAll(start, b, pools, records, run, now).value;
    IngestAllDetails(start, b, pools, records, run, now, i);
    IngestAllProgress(start, b, pools, records, run, now);
    DetailMarked(start, w, b, pools, records, records[i], run, now);
  }

  lemma DetailMarked(start: World, w: World, b: nat, pools: map<string, PoolRow>, records: seq<CopyRecord>, record: CopyRecord,
                     run: string, now: int)
    requires Snapshot(start.e, b, start.pending) && InRange(start) && Progress(start, w, b, records, run)
    requires Detail(start, w, b, pools, record, run, now) && Enumerated(records, record.locator)
    ensures Detail(start, w.(e := MarkMissing(w.e, Lost(w.pending)), pending := map[]), b, pools, record, run, now)
  {
    var after := w.(e := MarkMissing(w.e, Lost(w.pending)), pending := map[]);
    if record.locator in start.pending {
      LostExactly(start, w, b, records, start.pending[record.locator]);
    } else if Catalogued(after.e, b, record.locator) {
      var c :| 0 <= c < |after.e.copies| && after.e.copies[c].backend == b && after.e.copies[c].locator == record.locator;
      assert w.e.copies[c].backend == b && w.e.copies[c].locator == record.locator;
      var d :| |start.e.copies| <= d < |w.e.copies| && AddedFrom(w.e.copies[d], b, pools, record, now);
      LostExactly(start, w, b, records, d);
      assert after.e.copies[d] == w.e.copies[d];
    }
  }

  /** And every row a scrub adds is the row of some enumerated object. */
  lemma AddedRowHasRecord(start: World, b: nat, pools: map<string, PoolRow>, records: seq<CopyRecord>, run: string, now: int, c: nat)
    requires Snapshot(start.e, b, start.pending) && InRange(start) && UniqueLocators(start.e) && DistinctLocators(records) && run != ""
    requires ScrubResult(start, b, pools, records, run, now).Ok?
    requires |start.e.copies| <= c < |ScrubResult(start, b, pools, records, run, now).value.e.copies|
    ensures exists i :: 0 <= i < |records|
                        && AddedFrom(ScrubResult(start, b, pools, records, run, now).value.e.copies[c], b, pools, records[i], now)
  {
    var after := ScrubResult(start, b, pools, records, run, now).value;
    ScrubReconciles(start, b, pools, records, run, now);
    NewRowEnumerated(start, b, pools, records, run, now, c);
    var i :| 0 <= i < |records| && records[i].locator == after.e.copies[c].locator;
    ScrubDetailed(start, b, pools, records, run, now, i);
    NotPending(start, after.e, b, c);
    MadeIsAdded(after.e, |start.e.copies|, b, pools, records[i], now, c);
  }

  lemma NotPending(start: World, e: Evidence, b: nat, c: nat)
    requires Snapshot(start.e, b, start.pending) && InRange(start) && UniqueLocators(e)
    requires |start.e.copies| <= c < |e.copies| && e.copies[c].backend == b
    requires forall d :: 0 <= d < |start.e.copies| ==> SameIdentity(start.e.copies[d], e.copies[d])
    ensures e.copies[c].locator !in start.pending
  {
    var locator := e.copies[c].locator;
    assert forall d :: 0 <= d < |start.e.copies| && e.copies[d].backend == b ==> e.copies[d].locator != locator;
  }

  lemma MadeIsAdded(e: Evidence, from: nat, b: nat, pools: map<string, PoolRow>, record: CopyRecord, now: int, c: nat)
    requires UniqueLocators(e) && c < |e.copies| && e.copies[c].backend == b && e.copies[c].locator == record.locator
    requires Made(e, from, b, pools, record, now)
    ensures AddedFrom(e.copies[c], b, pools, record, now)
  {
    var d :| from <= d < |e.copies| && AddedFrom(e.copies[d], b, pools, record, now);
  }

  lemma NewRowEnumerated(start: World, b: nat, pools: map<string, PoolRow>, records: seq<CopyRecord>, run: string, now: int, c: nat)
    requires Snapshot(start.e, b, start.pending) && InRange(start) && UniqueLocators(start.e) && DistinctLocators(records) && run != ""
    requires ScrubResult(start, b, pools, records, run, now).Ok?
    requires |start.e.copies| <= c < |ScrubResult(start, b, pools, records, run, now).value.e.copies|
    ensures var row := ScrubResult(start, b, pools, records, run, now).value.e.copies[c]; row.backend == b && Enumerated(records, row.locator)
  {
    var w := IngestAll(start, b, pools, records, run, now).value;
    IngestAllProgress(start, b, pools, records, run, now);
    assert RowAdded(w, b, records, c);
  }

  // ----- The assets a scrub registers -----

  /** The known assets: those of the start, and those of the objects that got a new row. */
  ghost predicate AssetsFollow(start: World, w: World, b: nat, records: seq<CopyRecord>) {
    forall digest :: digest in w.assets <==> digest in start.assets || Registers(start, w, b, records, digest)
  }

  ghost predicate Registers(start: World, w: World, b: nat, records: seq<CopyRecord>, digest: Digest) {
    exists i :: 0 <= i < |records| && records[i].logical == digest && NewlyCatalogued(start, w, b, records[i].locator)
  }

  ghost predicate NewlyCatalogued(start: World, w: World, b: nat, locator: string) {
    locator !in start.pending && Catalogued(w.e, b, locator)
  }

  lemma CataloguedElsewhere(w: World, after: World, b: nat, locator: string, later: string)
    requires |w.e.copies| <= |after.e.copies| && locator != later
    requires forall c :: 0 <= c < |w.e.copies| ==> SameIdentity(w.e.copies[c], after.e.copies[c])
    requires forall c :: |w.e.copies| <= c < |after.e.copies| ==> after.e.copies[c].locator == later
    ensures Catalogued(after.e, b, locator) <==> Catalogued(w.e, b, locator)
  {
    if Catalogued(w.e, b, locator) { StillCatalogued(w.e, after.e, b, locator); }
    if Catalogued(after.e, b, locator) {
      var c :| 0 <= c < |after.e.copies| && after.e.copies[c].backend == b && after.e.copies[c].locator == locator;
      assert w.e.copies[c].backend == b && w.e.copies[c].locator == locator;
    }
  }

  lemma RegistersSnoc(start: World, w: World, after: World, b: nat, front: seq<CopyRecord>, record: CopyRecord, digest: Digest)
    requires forall i :: 0 <= i < |front| ==>
      (Catalogued(after.e, b, front[i].locator) <==> Catalogued(w.e, b, front[i].locator))
    ensures Registers(start, after, b, front + [record], digest)
            <==> Registers(start, w, b, front, digest)
                 || (record.logical == digest && NewlyCatalogued(start, after, b, record.locator))
  {
    var records := front + [record];
    assert forall i :: 0 <= i < |front| ==> records[i] == front[i];
    assert records[|front|] == record;
    if Registers(start, w, b, front, digest) {
      var i :| 0 <= i < |front| && front[i].logical == digest && NewlyCatalogued(start, w, b, front[i].locator);
      assert NewlyCatalogued(start, after, b, records[i].locator);
    }
    if Registers(start, after, b, records, digest) {
      var i :| 0 <= i < |records| && records[i].logical == digest && NewlyCatalogued(start, after, b, records[i].locator);
      assert i < |front| ==> NewlyCatalogued(start, w, b, front[i].locator);
    }
  }

  lemma IngestRegisters(start: World, w: World, b: nat, pools: map<string, PoolRow>, front: seq<CopyRecord>, record: CopyRecord,
                        run: string, now: int)
    requires Snapshot(start.e, b, start.pending) && InRange(start) && Progress(start, w, b, front, run) && InRange(w) && run != ""
    requires !Enumerated(front, record.locator) && Ingest(w, b, pools, record, run, now).Ok?
    ensures var after := Ingest(w, b, pools, record, run, now).value;
            after.assets == if NewlyCatalogued(start, after, b, record.locator) then w.assets + {record.logical} else w.assets
  {
    var after := Ingest(w, b, pools, record, run, now).value;
    if record.locator in w.pending {
      assert record.locator in start.pending;
    } else {
      PendingOrAbsent(start, w, b, front, run, record.locator);
      assert record.locator !in start.pending;
      if !Unknown(w.assets, record) {
        assert after.e.copies[|w.e.copies|] == NewCopy(b, pools, record, now);
      }
    }
  }

  lemma {:induction false} IngestAllRegisters(start: World, b: nat, pools: map<string, PoolRow>, records: seq<CopyRecord>,
                                              run: string, now: int)
    requires Snapshot(start.e, b, start.pending) && InRange(start) && UniqueLocators(start.e) && DistinctLocators(records) && run != ""
    requires IngestAll(start, b, pools, records, run, now).Ok?
    ensures AssetsFollow(start, IngestAll(start, b, pools, records, run, now).value, b, records)
    decreases |records|
  {
    if records != [] {
      var n := |records| - 1;
      var front, record := records[..n], records[n];
      IngestAllRegisters(start, b, pools, front, run, now);
      IngestAllProgress(start, b, pools, front, run, now);
      var w := IngestAll(start, b, pools, front, run, now).value;
      var after := Ingest(w, b, pools, record, run, now).value;
      PendingNamed(start, w, b, front, run, record.locator);
      IngestElsewhere(w, b, pools, record, run, now);
      IngestRegisters(start, w, b, pools, front, record, run, now);
      forall i | 0 <= i < n
        ensures Catalogued(after.e, b, front[i].locator) <==> Catalogued(w.e, b, front[i].locator)
      {
        CataloguedElsewhere(w, after, b, front[i].locator, record.locator);
      }
      assert records == front + [record];
      NextRegistered(start, w, after, b, front, record);
    }
  }

  lemma NextRegistered(start: World, w: World, after: World, b: nat, front: seq<CopyRecord>, record: CopyRecord)
    requires AssetsFollow(start, w, b, front)
    requires forall i :: 0 <= i < |front| ==>
      (Catalogued(after.e, b, front[i].locator) <==> Catalogued(w.e, b, front[i].locator))
    requires after.assets == if NewlyCatalogued(start, after, b, record.locator) then w.assets + {record.logical} else w.assets
    ensures AssetsFollow(start, after, b, front + [record])
  {
    forall digest: Digest
      ensures digest in after.assets <==> digest in start.assets || Registers(start, after, b, front + [record], digest)
    {
      RegistersSnoc(start, w, after, b, front, record, digest);
    }
  }

  lemma MarkedAssets(start: World, w: World, after: World, b: nat, records: seq<CopyRecord>)
    requires AssetsFollow(start, w, b, records) && after.assets == w.assets && |after.e.copies| == |w.e.copies|
    requires forall c :: 0 <= c < |w.e.copies| ==> SameIdentity(w.e.copies[c], after.e.copies[c])
    ensures AssetsFollow(start, after, b, records)
  {
    forall locator
      ensures Catalogued(after.e, b, locator) <==> Catalogued(w.e, b, locator)
    {
      SameCatalogued(w.e, after.e, b, locator);
    }
    assert forall locator :: NewlyCatalogued(start, after, b, locator) <==> NewlyCatalogued(start, w, b, locator);
  }

  lemma SameCatalogued(e: Evidence, after: Evidence, b: nat, locator: string)
    requires |after.copies| == |e.copies|
    requires forall c :: 0 <= c < |e.copies| ==> SameIdentity(e.copies[c], after.copies[c])
    ensures Catalogued(after, b, locator) <==> Catalogued(e, b, locator)
  {
    if Catalogued(after, b, locator) {
      var c :| 0 <= c < |after.copies| && after.copies[c].backend == b && after.copies[c].locator == locator;
      assert e.copies[c].backend == b && e.copies[c].locator == locator;
    }
    if Catalogued(e, b, locator) {
      var c :| 0 <= c < |e.copies| && e.copies[c].backend == b && e.copies[c].locator == locator;
      assert after.copies[c].backend == b && after.copies[c].locator == locator;
    }
  }

  // ----- The objects a scrub only reports -----

  /** A bundle container of an asset nobody knows: not known at the start, and not registered by an object
      enumerated before it. */
  ghost predicate Skipped(start: World, w: World, b: nat, records: seq<CopyRecord>, i: nat) {
    && i < |records| && records[i].container && records[i].logical !in start.assets && records[i].locator !in start.pending
    && forall j :: 0 <= j < i && records[j].logical == records[i].logical ==> !NewlyCatalogued(start, w, b, records[j].locator)
  }

  lemma SkippedNow(start: World, w: World, b: nat, pools: map<string, PoolRow>, front: seq<CopyRecord>, record: CopyRecord,
                   run: string, now: int)
    requires Snapshot(start.e, b, start.pending) && InRange(start) && Progress(start, w, b, front, run) && InRange(w) && run != ""
    requires AssetsFollow(start, w, b, front) && !Registers(start, w, b, front, record.logical)
    requires record.container && record.logical !in start.assets && record.locator !in start.pending
    requires !Enumerated(front, record.locator) && Ingest(w, b, pools, record, run, now).Ok?
    ensures !Catalogued(Ingest(w, b, pools, record, run, now).value.e, b, record.locator)
  {
    PendingOrAbsent(start, w, b, front, run, record.locator);
  }

  lemma {:induction false} IngestAllSkips(start: World, b: nat, pools: map<string, PoolRow>, records: seq<CopyRecord>,
                                          run: string, now: int, i: nat)
    requires Snapshot(start.e, b, start.pending) && InRange(start) && UniqueLocators(start.e) && DistinctLocators(records) && run != ""
    requires IngestAll(start, b, pools, records, run, now).Ok?
    requires Skipped(start, IngestAll(start, b, pools, records, run, now).value, b, records, i)
    ensures !Catalogued(IngestAll(start, b, pools, records, run, now).value.e, b, records[i].locator)
    decreases |records|
  {
    var n := |records| - 1;
    var front, record := records[..n], records[n];
    IngestAllProgress(start, b, pools, front, run, now);
    var w := IngestAll(start, b, pools, front, run, now).value;
    var after := Ingest(w, b, pools, record, run, now).value;
    PendingNamed(start, w, b, front, run, record.locator);
    IngestElsewhere(w, b, pools, record, run, now);
    forall j | 0 <= j < n
      ensures Catalogued(after.e, b, front[j].locator) <==> Catalogued(w.e, b, front[j].locator)
    {
      CataloguedElsewhere(w, after, b, front[j].locator, record.locator);
    }
    SkippedBefore(start, w, after, b, front, record, i);
    if i < n {
      IngestAllSkips(start, b, pools, front, run, now, i);
    } else {
      IngestAllRegisters(start, b, pools, front, run, now);
      SkippedNow(start, w, b, pools, front, record, run, now);
    }
  }

  lemma SkippedBefore(start: World, w: World, after: World, b: nat, front: seq<CopyRecord>, record: CopyRecord, i: nat)
    requires Skipped(start, after, b, front + [record], i)
    requires forall j :: 0 <= j < |front| ==>
      (Catalogued(after.e, b, front[j].locator) <==> Catalogued(w.e, b, front[j].locator))
    ensures i < |front| ==> Skipped(start, w, b, front, i)
    ensures i == |front| ==> !Registers(start, w, b, front, record.logical)
  {
    var records := front + [record];
    assert forall j :: 0 <= j < |front| ==> records[j] == front[j];
    forall j | 0 <= j < |front|
      ensures NewlyCatalogued(start, w, b, front[j].locator) <==> NewlyCatalogued(start, after, b, records[j].locator)
    {
    }
  }

  /** A scrub catalogues every object but the containers it skips, and those it does not. */
  lemma CataloguesExactly(start: World, b: nat, pools: map<string, PoolRow>, records: seq<CopyRecord>, run: string, now: int, i: nat)
    requires Snapshot(start.e, b, start.pending) && InRange(start) && UniqueLocators(start.e) && DistinctLocators(records) && run != ""
    requires ScrubResult(start, b, pools, records, run, now).Ok? && i < |records|
    ensures var after := ScrubResult(start, b, pools, records, run, now).value;
            && (!records[i].container || records[i].logical in start.assets ==> Catalogued(after.e, b, records[i].locator))
            && (Skipped(start, after, b, records, i) ==> !Catalogued(after.e, b, records[i].locator))
  {
    var w, after := IngestAll(start, b, pools, records, run, now).value, ScrubResult(start, b, pools, records, run, now).value;
    ScrubReconciles(start, b, pools, records, run, now);
    if Skipped(start, after, b, records, i) {
      SkippedUnmarked(start, w, after, b, records, i);
      IngestAllSkips(start, b, pools, records, run, now, i);
    }
  }

  lemma SkippedUnmarked(start: World, w: World, after: World, b: nat, records: seq<CopyRecord>, i: nat)
    requires Skipped(start, after, b, records, i) && |after.e.copies| == |w.e.copies|
    requires forall c :: 0 <= c < |w.e.copies| ==> SameIdentity(w.e.copies[c], after.e.copies[c])
    ensures Skipped(start, w, b, records, i)
    ensures Catalogued(after.e, b, records[i].locator) <==> Catalogued(w.e, b, records[i].locator)
  {
    forall locator
      ensures Catalogued(after.e, b, locator) <==> Catalogued(w.e, b, locator)
    {
      SameCatalogued(w.e, after.e, b, locator);
    }
    assert forall locator :: NewlyCatalogued(start, after, b, locator) <==> NewlyCatalogued(start, w, b, locator);
  }

  /** Everything a completed scrub says about each row it met or made, and about the assets. */
  ghost predicate Detailed(start: World, after: World, b: nat, pools: map<string, PoolRow>, records: seq<CopyRecord>,
                           run: string, now: int)
  {
    && InRange(start) && |start.e.copies| <= |after.e.copies|
    && (forall i :: 0 <= i < |records| ==>
          && Detail(start, after, b, pools, records[i], run, now)
          && (!records[i].container || records[i].logical in start.assets ==> Catalogued(after.e, b, records[i].locator))
          && (Skipped(start, after, b, records, i) ==> !Catalogued(after.e, b, records[i].locator)))
    && (forall c :: |start.e.copies| <= c < |after.e.copies| ==> FromRecord(after.e.copies[c], b, pools, records, now))
    && AssetsFollow(start, after, b, records)
  }

  predicate FromRecord(row: Copy, b: nat, pools: map<string, PoolRow>, records: seq<CopyRecord>, now: int) {
    exists i :: 0 <= i < |records| && AddedFrom(row, b, pools, records[i], now)
  }

  lemma ScrubIsDetailed(start: World, b: nat, pools: map<string, PoolRow>, records: seq<CopyRecord>, run: string, now: int)
    requires Snapshot(start.e, b, start.pending) && InRange(start) && UniqueLocators(start.e) && DistinctLocators(records) && run != ""
    requires ScrubResult(start, b, pools, records, run, now).Ok?
    ensures Detailed(start, ScrubResult(start, b, pools, records, run, now).value, b, pools, records, run, now)
  {
    var after := ScrubResult(start, b, pools, records, run, now).value;
    ScrubReconciles(start, b, pools, records, run, now);
    forall i | 0 <= i < |records|
      ensures Detail(start, after, b, pools, records[i], run, now)
      ensures !records[i].container || records[i].logical in start.assets ==> Catalogued(after.e, b, records[i].locator)
      ensures Skipped(start, after, b, records, i) ==> !Catalogued(after.e, b, records[i].locator)
    {
      ScrubDetailed(start, b, pools, records, run, now, i);
      CataloguesExactly(start, b, pools, records, run, now, i);
    }
    forall c | |start.e.copies| <= c < |after.e.copies|
      ensures FromRecord(after.e.copies[c], b, pools, records, now)
    {
      AddedRowHasRecord(start, b, pools, records, run, now, c);
    }
    ScrubRegisters(start, b, pools, records, run, now);
  }

  lemma ScrubRegisters(start: World, b: nat, pools: map<string, PoolRow>, records: seq<CopyRecord>, run: string, now: int)
    requires Snapshot(start.e, b, start.pending) && InRange(start) && UniqueLocators(start.e) && DistinctLocators(records) && run != ""
    requires ScrubResult(start, b, pools, records, run, now).Ok?
    ensures AssetsFollow(start, ScrubResult(start, b, pools, records, run, now).value, b, records)
  {
    var w := IngestAll(start, b, pools, records, run, now).value;
    IngestAllRegisters(start, b, pools, records, run, now);
    MarkedAssets(start, w, ScrubResult(start, b, pools, records, run, now).value, b, records);
  }

  // ----- When a scrub succeeds -----

  /** The record names no pool; or a pool of this backend, of the representation it shows, and the same pool
      and representation as the row it finds. */
  predicate Fits(start: World, b: nat, pools: map<string, PoolRow>, record: CopyRecord)
    requires InRange(start)
  {
    record.pool.Some? ==>
      && record.pool.value in pools
      && var pool := pools[record.pool.value];
         && pool.backend == b && (record.observed.None? || record.observed == Some(pool.representation))
         && (record.locator in start.pending ==>
               var copy := start.e.copies[start.pending[record.locator]];
               copy.pool == record.pool && copy.representation == Some(pool.representation))
  }

  lemma IngestSucceedsExactly(start: World, w: World, b: nat, pools: map<string, PoolRow>, front: seq<CopyRecord>,
                              record: CopyRecord, run: string, now: int)
    requires Snapshot(start.e, b, start.pending) && InRange(start) && Progress(start, w, b, front, run) && InRange(w)
    requires !Enumerated(front, record.locator) && Ingest(w, b, pools, record, run, now) != Err(PromotionFailed)
    ensures Ingest(w, b, pools, record, run, now).Ok? <==> Fits(start, b, pools, record)
  {
    if record.locator in w.pending {
      var c := w.pending[record.locator];
      assert c == start.pending[record.locator] && RowKept(start, w, b, front, run, c) && !Found(start, b, front, c);
    } else {
      PendingOrAbsent(start, w, b, front, run, record.locator);
      assert record.locator !in start.pending;
    }
  }

  ghost predicate AllFit(start: World, b: nat, pools: map<string, PoolRow>, records: seq<CopyRecord>)
    requires InRange(start)
  {
    forall i :: 0 <= i < |records| ==> Fits(start, b, pools, records[i])
  }

  lemma AllFitSnoc(start: World, b: nat, pools: map<string, PoolRow>, records: seq<CopyRecord>, n: nat)
    requires InRange(start) && |records| == n + 1
    ensures AllFit(start, b, pools, records) <==> AllFit(start, b, pools, records[..n]) && Fits(start, b, pools, records[n])
  {
    assert forall i :: 0 <= i < n ==> records[i] == records[..n][i];
  }

  lemma {:induction false} IngestAllSucceedsExactly(history: seq<Step>, start: World, b: nat, pools: map<string, PoolRow>,
                                                    records: seq<CopyRecord>, run: string, now: int)
    requires start.e == Run(Evidence([], [], {}), history) && run != ""
    requires Snapshot(start.e, b, start.pending) && InRange(start) && UniqueLocators(start.e) && DistinctLocators(records)
    ensures IngestAll(start, b, pools, records, run, now).Ok? <==> AllFit(start, b, pools, records)
    decreases |records|
  {
    if records != [] {
      var n := |records| - 1;
      var front := records[..n];
      IngestAllSucceedsExactly(history, start, b, pools, front, run, now);
      AllFitSnoc(start, b, pools, records, n);
      if IngestAll(start, b, pools, front, run, now).Ok? {
        IngestAllProgress(start, b, pools, front, run, now);
        ScrubFailsOnPoolsOnly(history, start, b, pools, records, run, now);
        IngestSucceedsExactly(start, IngestAll(start, b, pools, front, run, now).value, b, pools, front, records[n], run, now);
      }
    }
  }

  /** After any history of the evidence, a scrub succeeds exactly when every enumerated object fits. */
  lemma ScrubSucceedsExactly(history: seq<Step>, start: World, b: nat, pools: map<string, PoolRow>,
                             records: seq<CopyRecord>, run: string, now: int)
    requires start.e == Run(Evidence([], [], {}), history) && run != ""
    requires Snapshot(start.e, b, start.pending) && InRange(start) && UniqueLocators(start.e) && DistinctLocators(records)
    ensures ScrubResult(start, b, pools, records, run, now).Ok? <==> AllFit(start, b, pools, records)
  {
    IngestAllSucceedsExactly(history, start, b, pools, records, run, now);
  }
}
