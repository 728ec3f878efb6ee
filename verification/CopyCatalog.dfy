/** Copy and receipt rows as mutable catalog state: the two evidence recorders and the scrub. */
module CopyCatalog {
  import opened Wrappers
  import opened Numerals
  import opened CopyEvidence
  import opened Scrub
  import opened ScrubDetails

  datatype Report = Report(copiesAdded: nat, copiesUpdated: nat, markedMissing: nat)

  /** The rows when the pass stops at record `done`: the records before it are ingested, and of that
      record only what it writes before it raises. */
  ghost predicate StoppedAt(start: World, b: nat, pools: map<string, PoolRow>, records: seq<CopyRecord>, run: string,
                            now: int, done: nat, e: Evidence, assets: set<Digest>)
    requires InRange(start)
  {
    && done < |records| && IngestAll(start, b, pools, records[..done], run, now).Ok?
    && var w := Interrupted(IngestAll(start, b, pools, records[..done], run, now).value, b, pools, records[done], now);
       e == w.e && assets == w.assets
  }

  /** The snapshot's locators an enumeration meets. */
  ghost function Met(locators: set<string>, records: seq<CopyRecord>): set<string> {
    set key | key in locators && Enumerated(records, key)
  }

  /** The backend's rows an enumeration does not meet, and that were not missing already. */
  ghost function NewlyLost(copies: seq<Copy>, b: nat, records: seq<CopyRecord>): set<nat> {
    set c: nat | c < |copies| && copies[c].backend == b && !Enumerated(records, copies[c].locator) && copies[c].health != Missing
  }

  /** The counts of a pass: what it popped from its snapshot it found, and what is left it lost. */
  lemma PassCounts(start: World, w: World, b: nat, records: seq<CopyRecord>, run: string)
    requires Snapshot(start.e, b, start.pending) && Progress(start, w, b, records, run) && InRange(w)
    ensures |start.pending| - |w.pending| == |Met(start.pending.Keys, records)|
    ensures (set c | c in Lost(w.pending) && w.e.copies[c].health != Missing) == NewlyLost(start.e.copies, b, records)
  {
    PoppedCount(start.pending, w.pending, records);
    forall c: nat
      ensures c in Lost(w.pending) && w.e.copies[c].health != Missing <==> c in NewlyLost(start.e.copies, b, records)
    {
      LostOne(start, w, b, records, run, c);
    }
  }

  lemma PoppedCount(before: map<string, nat>, after: map<string, nat>, records: seq<CopyRecord>)
    requires forall key :: key in after <==> key in before && !Enumerated(records, key)
    ensures |before| - |after| == |Met(before.Keys, records)|
  {
    assert after.Keys == before.Keys - Met(before.Keys, records);
    assert |before.Keys| == |before| && |after.Keys| == |after|;
  }

  lemma LostOne(start: World, w: World, b: nat, records: seq<CopyRecord>, run: string, c: nat)
    requires Snapshot(start.e, b, start.pending) && Progress(start, w, b, records, run) && InRange(w)
    ensures c in Lost(w.pending) && w.e.copies[c].health != Missing <==> c in NewlyLost(start.e.copies, b, records)
  {
    LostExactly(start, w, b, records, c);
    assert c < |start.e.copies| ==> RowKept(start, w, b, records, run, c);
  }

  class Rows {
    var copies: seq<Copy>
    var receipts: seq<Receipt>
    var remeasure: set<nat>
    var assets: set<Digest>

    constructor (e: Evidence, assets: set<Digest>)
      ensures View() == e && this.assets == assets
    {
      copies, receipts, remeasure := e.copies, e.receipts, e.remeasure;
      this.assets := assets;
    }

    function View(): Evidence
      reads this
    {
      Evidence(copies, receipts, remeasure)
    }

    /** `_receipt_for_execution`. */
    method FindReceipt(c: nat, source: Source, execution: string) returns (found: bool)
      ensures found <==> HasReceipt(View(), c, source, execution)
    {
      for i := 0 to |receipts|
        invariant forall j :: 0 <= j < i ==> !ForExecution(receipts[j], c, source, execution)
      {
        if ForExecution(receipts[i], c, source, execution) { return true; }
      }
      return false;
    }

    /** `record_measured`. */
    method RecordMeasured(c: nat, result: VerifyResult, source: Source, execution: string, at: int)
      returns (r: Result<(), RecorderError>)
      requires c < |copies|
      modifies this`copies, this`receipts
      ensures match MeasuredResult(old(View()), c, result, source, execution, at)
              case Ok(after) => r == Ok(()) && View() == after
              case Err(error) => r == Err(error) && View() == old(View())
      ensures r.Ok? <==> Measures(result, source, execution)
      ensures r.Ok? ==> if HasReceipt(old(View()), c, source, execution) then View() == old(View())
                        else MeasuredInto(old(View()), View(), c, result.ok, result.actual.value, source, execution, at)
    {
      MeasurementRecords(View(), c, result, source, execution, at);
      if source == Source.Scrub { return Err(BadSource); }
      if execution == "" { return Err(EmptyExecution); }
      if !result.measured || result.actual.None? { return Err(NotMeasured); }
      if |result.actual.value| != 32 { return Err(NotADigest); }
      var measured: Digest := result.actual.value;
      var replay := FindReceipt(c, source, execution);
      if replay { return Ok(()); }
      var copy := copies[c].(checkedAt := Some(at), measured := Some(measured), measuredAt := Some(at));
      var failure: Option<FailureKind>;
      if measured != copy.integrity {
        copy, failure := copy.(health := Corrupt), Some(DigestMismatch);
      } else if !result.ok {
        copy, failure := copy.(health := Suspect), Some(BackendFailure);
      } else if copy.logical.Some? && copy.integrity != copy.logical.value && !copy.locallyComputed {
        copy, failure := copy.(health := Suspect), Some(IdentityUnproven);
      } else {
        copy, failure := copy.(health := Healthy), None;
      }
      copies := copies[c := copy];
      receipts := receipts + [Receipt(c, source, execution, copy.integrity, Some(measured), result.ok, failure, at)];
      return Ok(());
    }

    /** `record_unmeasured_promotion`. */
    method RecordUnmeasuredPromotion(c: nat, result: VerifyResult, source: Source, execution: string, at: int)
      returns (r: Result<(), RecorderError>)
      requires c < |copies|
      modifies this`copies, this`receipts, this`remeasure
      ensures match PromotionResult(old(View()), c, result, source, execution, at)
              case Ok(after) => r == Ok(()) && View() == after
              case Err(error) => r == Err(error) && View() == old(View())
      ensures r.Ok? ==> if HasReceipt(old(View()), c, source, execution) then View() == old(View())
                        else PromotedInto(old(View()), View(), c, source, execution, at)
    {
      PromotionRecords(View(), c, result, source, execution, at);
      if execution == "" { return Err(EmptyExecution); }
      if result.measured { return Err(Measured); }
      if !result.ok { return Err(NotOk); }
      var replay := FindReceipt(c, source, execution);
      if replay {
        if c !in remeasure { return Err(JobMissing); }
        return Ok(());
      }
      copies := copies[c := copies[c].(checkedAt := Some(at), measured := None, measuredAt := None, health := Healthy)];
      receipts := receipts + [Receipt(c, source, execution, copies[c].integrity, None, true, Some(MeasurementInvalidated), at)];
      remeasure := remeasure + {c};
      return Ok(());
    }

    /** `_update_existing_copy`, past its pool checks. */
    method UpdateExistingCopy(c: nat, record: CopyRecord, run: string, now: int) returns (ok: bool)
      requires c < |copies|
      modifies this`copies, this`receipts, this`remeasure
      ensures ok <==> Refound(old(View()), c, record, run, now).Ok?
      ensures View() == if ok then Refound(old(View()), c, record, run, now).value
                        else WithHealth(old(View()), c, old(copies)[c].health, Some(now))
      ensures assets == old(assets)
    {
      var found := RecordHealth(record);
      var before := copies[c];
      copies := copies[c := before.(checkedAt := Some(now))];
      if before.integrity != record.integrity {
        copies := copies[c := copies[c].(health := Suspect)];
      } else if before.health == Missing && found == Healthy {
        var r := RecordUnmeasuredPromotion(c, VerifyResult(true, false, None), Source.Scrub, run, now);
        return r.Ok?;
      } else if before.health == Missing {
        copies := copies[c := copies[c].(health := found)];
      } else if found == Suspect {
        copies := copies[c := copies[c].(health := Suspect)];
      } else if before.health == Suspect {
        var r := RecordUnmeasuredPromotion(c, VerifyResult(true, false, None), Source.Scrub, run, now);
        return r.Ok?;
      }
      return true;
    }

    /** Snapshot this backend's rows by locator. */
    method SnapshotBackend(b: nat) returns (pending: map<string, nat>)
      requires UniqueLocators(View())
      ensures Snapshot(View(), b, pending)
    {
      pending := map[];
      for i := 0 to |copies|
        invariant forall key :: key in pending ==> pending[key] < i && copies[pending[key]].backend == b
                                                   && copies[pending[key]].locator == key
        invariant forall c :: 0 <= c < i && copies[c].backend == b ==>
                    copies[c].locator in pending && pending[copies[c].locator] == c
      {
        if copies[i].backend == b {
          pending := pending[copies[i].locator := i];
        }
      }
    }

    /** `_ingest_record`. */
    method IngestRecord(b: nat, pools: map<string, PoolRow>, record: CopyRecord, pending: map<string, nat>, run: string,
                        now: int)
      returns (r: Result<map<string, nat>, ScrubError>)
      requires forall key :: key in pending ==> pending[key] < |copies|
      modifies this
      ensures match Ingest(World(old(View()), old(assets), pending), b, pools, record, run, now)
              case Ok(w) => r == Ok(w.pending) && View() == w.e && assets == w.assets
              case Err(error) =>
                var w := Interrupted(World(old(View()), old(assets), pending), b, pools, record, now);
                r == Err(error) && View() == w.e && assets == w.assets
    {
      var refusal := PoolError(b, pools, record);
      if refusal.Some? { return Err(refusal.value); }
      if record.locator in pending {
        var c := pending[record.locator];
        if OtherPool(copies[c], pools, record) { return Err(PoolMismatch); }
        var ok := UpdateExistingCopy(c, record, run, now);
        if !ok { return Err(PromotionFailed); }
        return Ok(pending - {record.locator});
      }
      if Unknown(assets, record) { return Ok(pending); }
      assets := assets + {record.logical};
      if Catalogued(View(), b, record.locator) {
        if exists c :: 0 <= c < |copies| && copies[c].backend == b && copies[c].locator == record.locator
                       && record.pool.Some? && copies[c].pool != record.pool {
          return Err(PoolMismatch);
        }
        return Ok(pending);
      }
      copies := copies + [NewCopy(b, pools, record, now)];
      return Ok(pending);
    }

    /** The enumeration loop of `scrub_backend`; `done` is how many records it got through. */
    method IngestEnumeration(b: nat, pools: map<string, PoolRow>, records: seq<CopyRecord>, pending: map<string, nat>,
                             run: string, now: int)
      returns (r: Result<map<string, nat>, ScrubError>, added: nat, updated: nat, done: nat)
      requires forall key :: key in pending ==> pending[key] < |copies|
      modifies this
      ensures match IngestAll(World(old(View()), old(assets), pending), b, pools, records, run, now)
              case Ok(w) => r == Ok(w.pending) && View() == w.e && assets == w.assets
                            && added == |copies| - |old(copies)| && updated == |pending| - |w.pending|
              case Err(error) => r == Err(error)
      ensures r.Err? ==> StoppedAt(World(old(View()), old(assets), pending), b, pools, records, run, now, done, View(), assets)
    {
      var open: map<string, nat> := pending;
      ghost var start := World(View(), assets, pending);
      added, updated := 0, 0;
      assert records[..0] == [];
      for i := 0 to |records|
        invariant forall key :: key in open ==> open[key] < |copies|
        invariant IngestAll(start, b, pools, records[..i], run, now) == Ok(World(View(), assets, open))
        invariant |copies| == |start.e.copies| + added && |open| + updated == |pending|
      {
        assert records[..i + 1][..i] == records[..i] && records[..i + 1][i] == records[i];
        var count := |copies|;
        IngestSizes(World(View(), assets, open), b, pools, records[i], run, now);
        var next := IngestRecord(b, pools, records[i], open, run, now);
        if next.Err? {
          FailedPrefix(start, b, pools, records, i + 1, run, now);
          return Err(next.error), added, updated, i;
        }
        added, updated := added + (|copies| - count), updated + (|open| - |next.value|);
        open := next.value;
      }
      assert records[..|records|] == records;
      return Ok(open), added, updated, |records|;
    }

    /** The rows left over were not enumerated: mark them missing, never delete them. */
    method MarkStranded(lost: set<nat>) returns (marked: nat)
      requires forall c :: c in lost ==> c < |copies|
      modifies this`copies
      ensures View() == MarkMissing(old(View()), lost)
      ensures marked == |set c | c in lost && old(copies)[c].health != Missing|
    {
      marked := 0;
      ghost var before := View();
      ghost var done: set<nat> := {};
      var rest := lost;
      while rest != {}
        invariant rest <= lost && |copies| == |before.copies|
        invariant done == set c | c in lost - rest && before.copies[c].health != Missing
        invariant marked == |done|
        invariant forall c :: 0 <= c < |copies| ==>
                    copies[c] == if c in lost - rest then before.copies[c].(health := Missing) else before.copies[c]
        decreases rest
      {
        var c :| c in rest;
        if copies[c].health != Missing {
          copies := copies[c := copies[c].(health := Missing)];
          marked := marked + 1;
          done := done + {c};
        }
        rest := rest - {c};
      }
      assert done == set c | c in lost && before.copies[c].health != Missing;
      assert copies == MarkMissing(before, lost).copies;
    }

    /** `scrub_backend`. An error leaves what was ingested so far for the caller to roll back. */
    method ScrubBackend(b: nat, pools: map<string, PoolRow>, records: seq<CopyRecord>, run: string, now: int)
      returns (r: Result<Report, ScrubError>, ghost pending: map<string, nat>, ghost done: nat)
      requires UniqueLocators(View()) && run != ""
      modifies this
      ensures Snapshot(old(View()), b, pending)
      ensures match ScrubResult(World(old(View()), old(assets), pending), b, pools, records, run, now)
              case Ok(after) => r.Ok? && View() == after.e && assets == after.assets
                                && r.value.copiesAdded == |copies| - |old(copies)|
              case Err(error) => r == Err(error)
      ensures r.Err? ==> StoppedAt(World(old(View()), old(assets), pending), b, pools, records, run, now, done, View(), assets)
      ensures r.Ok? && DistinctLocators(records) ==>
                && Reconciled(World(old(View()), old(assets), pending), World(View(), assets, map[]), b, records, run)
                && Detailed(World(old(View()), old(assets), pending), World(View(), assets, map[]), b, pools, records, run, now)
                && r.value.copiesUpdated == |Met(pending.Keys, records)|
                && r.value.markedMissing == |NewlyLost(old(copies), b, records)|
    {
      var open := SnapshotBackend(b);
      pending := open;
      ghost var start := World(View(), assets, open);
      var ingested, added, updated, count := IngestEnumeration(b, pools, records, open, run, now);
      done := count;
      if ingested.Err? { return Err(ingested.error), pending, done; }
      ghost var after := View();
      var marked := MarkStranded(Lost(ingested.value));
      if DistinctLocators(records) {
        ScrubReconciles(start, b, pools, records, run, now);
        ScrubIsDetailed(start, b, pools, records, run, now);
        IngestAllProgress(start, b, pools, records, run, now);
        PassCounts(start, World(after, assets, ingested.value), b, records, run);
      }
      return Ok(Report(added, updated, marked)), pending, done;
    }
  }

  lemma {:induction false} FailedPrefix(start: World, b: nat, pools: map<string, PoolRow>, records: seq<CopyRecord>,
                                        i: nat, run: string, now: int)
    requires InRange(start)
    requires i <= |records| && IngestAll(start, b, pools, records[..i], run, now).Err?
    ensures IngestAll(start, b, pools, records, run, now) == IngestAll(start, b, pools, records[..i], run, now)
    decreases |records|
  {
    if i == |records| {
      assert records[..i] == records;
    } else {
      var front := records[..|records| - 1];
      assert front[..i] == records[..i];
      FailedPrefix(start, b, pools, front, i, run, now);
    }
  }
}
