/** Copy health and read-back evidence: the measurement projection, its append-only receipts, and
    what every run of recorder, scrub and mark-suspect steps keeps. */
module CopyEvidence {
  import opened Wrappers
  import opened Numerals

  datatype Health = Healthy | Suspect | Corrupt | Missing

  datatype Source = Fanout | VerifyJob | Restore | Scrub

  datatype FailureKind = DigestMismatch | BackendFailure | IdentityUnproven | MeasurementInvalidated

  /** `logical` is absent for bundle copies; `locallyComputed` is the integrity hash's provenance;
      `deletedAt` is set when retention released the bytes. */
  datatype Copy = Copy(backend: nat, locator: string, pool: Option<string>, representation: Option<string>,
                       logical: Option<Digest>, integrity: Digest, locallyComputed: bool,
                       health: Health, checkedAt: Option<int>, measured: Option<Digest>, measuredAt: Option<int>,
                       deletedAt: Option<int>)

  datatype Receipt = Receipt(copy: nat, source: Source, execution: string, expected: Digest,
                             measured: Option<Digest>, backendOk: bool, failure: Option<FailureKind>, at: int)

  /** Copies and receipts by row id; `remeasure` holds the copies with a queued re-measure job. */
  datatype Evidence = Evidence(copies: seq<Copy>, receipts: seq<Receipt>, remeasure: set<nat>)

  /** A backend check; `actual` is the digest it read back, if any. */
  datatype VerifyResult = VerifyResult(ok: bool, measured: bool, actual: Option<Bytes>)

  datatype RecorderError = BadSource | EmptyExecution | NotMeasured | NotADigest | Measured | NotOk | JobMissing

  predicate ForExecution(receipt: Receipt, c: nat, source: Source, execution: string) {
    receipt.copy == c && receipt.source == source && receipt.execution == execution
  }

  predicate HasReceipt(e: Evidence, c: nat, source: Source, execution: string) {
    exists i :: 0 <= i < |e.receipts| && ForExecution(e.receipts[i], c, source, execution)
  }

  /** The health a read-back proves, with the reason when it is not healthy. */
  function Verdict(copy: Copy, ok: bool, measured: Digest): (Health, Option<FailureKind>) {
    if measured != copy.integrity then (Corrupt, Some(DigestMismatch))
    else if !ok then (Suspect, Some(BackendFailure))
    else if copy.logical.Some? && copy.integrity != copy.logical.value && !copy.locallyComputed
    then (Suspect, Some(IdentityUnproven))
    else (Healthy, None)
  }

  function Measurement(e: Evidence, c: nat, ok: bool, measured: Digest, source: Source, execution: string,
                       at: int): Evidence
    requires c < |e.copies|
  {
    var copy := e.copies[c];
    var (health, failure) := Verdict(copy, ok, measured);
    var updated := copy.(health := health, checkedAt := Some(at), measured := Some(measured), measuredAt := Some(at));
    var receipt := Receipt(c, source, execution, copy.integrity, Some(measured), ok, failure, at);
    e.(copies := e.copies[c := updated], receipts := e.receipts + [receipt])
  }

  /** `record_measured`; a replayed execution changes nothing. */
  function MeasuredResult(e: Evidence, c: nat, result: VerifyResult, source: Source, execution: string, at: int)
    : Result<Evidence, RecorderError>
    requires c < |e.copies|
  {
    if source == Scrub then Err(BadSource)
    else if execution == "" then Err(EmptyExecution)
    else if !result.measured || result.actual.None? then Err(NotMeasured)
    else if |result.actual.value| != 32 then Err(NotADigest)
    else if HasReceipt(e, c, source, execution) then Ok(e)
    else Ok(Measurement(e, c, result.ok, result.actual.value, source, execution, at))
  }

  function Promotion(e: Evidence, c: nat, source: Source, execution: string, at: int): Evidence
    requires c < |e.copies|
  {
    var copy := e.copies[c];
    var updated := copy.(health := Healthy, checkedAt := Some(at), measured := None, measuredAt := None);
    var receipt := Receipt(c, source, execution, copy.integrity, None, true, Some(MeasurementInvalidated), at);
    e.(copies := e.copies[c := updated], receipts := e.receipts + [receipt], remeasure := e.remeasure + {c})
  }

  /** `record_unmeasured_promotion`. */
  function PromotionResult(e: Evidence, c: nat, result: VerifyResult, source: Source, execution: string, at: int)
    : Result<Evidence, RecorderError>
    requires c < |e.copies|
  {
    if execution == "" then Err(EmptyExecution)
    else if result.measured then Err(Measured)
    else if !result.ok then Err(NotOk)
    else if HasReceipt(e, c, source, execution) then
      if c in e.remeasure then Ok(e) else Err(JobMissing)
    else Ok(Promotion(e, c, source, execution, at))
  }

  function WithHealth(e: Evidence, c: nat, health: Health, at: Option<int>): Evidence
    requires c < |e.copies|
  {
    var copy := e.copies[c];
    e.(copies := e.copies[c := copy.(health := health, checkedAt := if at.Some? then at else copy.checkedAt)])
  }

  /** Everything that touches a copy row: the two recorders, the health losses written directly by
      restore, replication, verify and scrub, a check that changes no health, the deletion mark of
      retention, and copy creation. */
  datatype Step =
    | Measure(copy: nat, result: VerifyResult, source: Source, execution: string, at: int)
    | Promote(copy: nat, result: VerifyResult, source: Source, execution: string, at: int)
    | Downgrade(copy: nat, health: Health, checked: Option<int>)
    | Checked(copy: nat, at: int)
    | Release(copy: nat, at: int)
    | Create(row: Copy)

  /** A step that fails, or names no copy, leaves the evidence as it was. */
  function Apply(e: Evidence, step: Step): Evidence {
    match step
    case Measure(c, result, source, execution, at) =>
      if c < |e.copies| then
        var r := MeasuredResult(e, c, result, source, execution, at);
        if r.Ok? then r.value else e
      else e
    case Promote(c, result, source, execution, at) =>
      if c < |e.copies| then
        var r := PromotionResult(e, c, result, source, execution, at);
        if r.Ok? then r.value else e
      else e
    case Downgrade(c, health, checked) =>
      if c < |e.copies| && (health == Suspect || health == Missing) then WithHealth(e, c, health, checked) else e
    case Checked(c, at) =>
      if c < |e.copies| then WithHealth(e, c, e.copies[c].health, Some(at)) else e
    case Release(c, at) =>
      if c < |e.copies| && e.copies[c].deletedAt.None? then e.(copies := e.copies[c := e.copies[c].(deletedAt := Some(at))]) else e
    case Create(row) =>
      e.(copies := e.copies + [row.(measured := None, measuredAt := None, deletedAt := None)])
  }

  function Run(e: Evidence, steps: seq<Step>): Evidence
    decreases |steps|
  {
    if steps == [] then e else Apply(Run(e, steps[..|steps| - 1]), steps[|steps| - 1])
  }

  // ----- The projection is a fold of the receipts -----

  /** The digest of a copy's latest receipt; nothing when that receipt carries none. */
  function LatestDigest(receipts: seq<Receipt>, c: nat): Option<Digest> {
    if receipts == [] then None
    else
      var last := receipts[|receipts| - 1];
      if last.copy == c then last.measured else LatestDigest(receipts[..|receipts| - 1], c)
  }

  ghost predicate ProjectionIsFold(e: Evidence) {
    && (forall i :: 0 <= i < |e.receipts| ==> e.receipts[i].copy < |e.copies|)
    && (forall c :: 0 <= c < |e.copies| ==> e.copies[c].measured == LatestDigest(e.receipts, c))
  }

  lemma LatestAfter(receipts: seq<Receipt>, receipt: Receipt, c: nat)
    ensures LatestDigest(receipts + [receipt], c)
            == if receipt.copy == c then receipt.measured else LatestDigest(receipts, c)
  {
  }

  lemma {:induction false} NoReceiptsNoDigest(receipts: seq<Receipt>, c: nat)
    requires forall i :: 0 <= i < |receipts| ==> receipts[i].copy < c
    ensures LatestDigest(receipts, c) == None
    decreases |receipts|
  {
    if receipts != [] {
      NoReceiptsNoDigest(receipts[..|receipts| - 1], c);
    }
  }

  lemma ApplyKeepsFold(e: Evidence, step: Step)
    requires ProjectionIsFold(e)
    ensures ProjectionIsFold(Apply(e, step))
  {
    var after := Apply(e, step);
    if |after.receipts| > |e.receipts| {
      var receipt := after.receipts[|e.receipts|];
      assert after.receipts == e.receipts + [receipt];
      forall c | 0 <= c < |after.copies|
        ensures after.copies[c].measured == LatestDigest(after.receipts, c)
      {
        LatestAfter(e.receipts, receipt, c);
      }
    } else if step.Create? {
      NoReceiptsNoDigest(e.receipts, |e.copies|);
    }
  }

  /** After any run, a copy's stored measurement is the digest of its latest receipt. */
  lemma {:induction false} RunKeepsFold(e: Evidence, steps: seq<Step>)
    requires ProjectionIsFold(e)
    ensures ProjectionIsFold(Run(e, steps))
    decreases |steps|
  {
    if steps != [] {
      RunKeepsFold(e, steps[..|steps| - 1]);
      ApplyKeepsFold(Run(e, steps[..|steps| - 1]), steps[|steps| - 1]);
    }
  }

  // ----- What a measurement records -----

  /** The copy's stored bytes agree with its expected digest, but nothing ties that digest to the asset: the
      stored form differs from the logical one and its hash was not computed here. */
  predicate Unproven(copy: Copy) {
    copy.logical.Some? && copy.logical != Some(copy.integrity) && !copy.locallyComputed
  }

  /** What a recorder is asked to record: not by the scrub, under an execution id, a digest really measured. */
  predicate Measures(result: VerifyResult, source: Source, execution: string) {
    source != Scrub && execution != "" && result.measured && result.actual.Some? && |result.actual.value| == 32
  }

  /** Every row but `c` stands, and one receipt is added. */
  ghost predicate OneRowOneReceipt(e: Evidence, after: Evidence, c: nat) {
    && c < |e.copies| == |after.copies|
    && (forall d :: 0 <= d < |e.copies| && d != c ==> after.copies[d] == e.copies[d])
    && |after.receipts| == |e.receipts| + 1 && after.receipts[..|e.receipts|] == e.receipts
  }

  /** The copy is corrupt exactly when the digest differs from the expected one; suspect exactly when it
      agrees and the backend failed or the identity is unproven; healthy otherwise. The receipt says which. */
  ghost predicate MeasuredInto(e: Evidence, after: Evidence, c: nat, ok: bool, digest: Digest, source: Source, execution: string,
                               at: int)
  {
    && OneRowOneReceipt(e, after, c) && after.remeasure == e.remeasure
    && var copy, row, receipt := e.copies[c], after.copies[c], after.receipts[|e.receipts|];
       && row == copy.(health := row.health, checkedAt := Some(at), measured := Some(digest), measuredAt := Some(at))
       && (row.health == Corrupt <==> digest != copy.integrity)
       && (row.health == Suspect <==> digest == copy.integrity && (!ok || Unproven(copy)))
       && (row.health == Healthy <==> digest == copy.integrity && ok && !Unproven(copy))
       && receipt == Receipt(c, source, execution, copy.integrity, Some(digest), ok, receipt.failure, at)
       && (receipt.failure == Some(DigestMismatch) <==> digest != copy.integrity)
       && (receipt.failure == Some(BackendFailure) <==> digest == copy.integrity && !ok)
       && (receipt.failure == Some(IdentityUnproven) <==> digest == copy.integrity && ok && Unproven(copy))
       && (receipt.failure == None <==> row.health == Healthy)
  }

  /** A measurement is accepted exactly when it is one; accepted and no replay, it records what it found. */
  lemma MeasurementRecords(e: Evidence, c: nat, result: VerifyResult, source: Source, execution: string, at: int)
    requires c < |e.copies|
    ensures var r := MeasuredResult(e, c, result, source, execution, at);
            && (r.Ok? <==> Measures(result, source, execution))
            && (r.Ok? && HasReceipt(e, c, source, execution) ==> r.value == e)
            && (r.Ok? && !HasReceipt(e, c, source, execution) ==>
                  MeasuredInto(e, r.value, c, result.ok, result.actual.value, source, execution, at))
  {
  }

  /** The copy is healthy on trust: its measurement is dropped, the receipt says so, and a re-measure of
      that copy is queued. */
  ghost predicate PromotedInto(e: Evidence, after: Evidence, c: nat, source: Source, execution: string, at: int) {
    && OneRowOneReceipt(e, after, c) && after.remeasure == e.remeasure + {c}
    && after.copies[c] == e.copies[c].(health := Healthy, checkedAt := Some(at), measured := None, measuredAt := None)
    && after.receipts[|e.receipts|]
       == Receipt(c, source, execution, e.copies[c].integrity, None, true, Some(MeasurementInvalidated), at)
  }

  /** A promotion is accepted exactly under an execution id, for an unmeasured success, and, replayed, only
      with its re-measure still queued. */
  lemma PromotionRecords(e: Evidence, c: nat, result: VerifyResult, source: Source, execution: string, at: int)
    requires c < |e.copies|
    ensures var r, replay := PromotionResult(e, c, result, source, execution, at), HasReceipt(e, c, source, execution);
            && (r.Ok? <==> execution != "" && !result.measured && result.ok && (replay ==> c in e.remeasure))
            && (r.Ok? && replay ==> r.value == e)
            && (r.Ok? && !replay ==> PromotedInto(e, r.value, c, source, execution, at))
  {
  }

  /** A healthy copy with a measurement was measured to its expected digest. */
  ghost predicate HealthTruthful(e: Evidence) {
    forall c :: 0 <= c < |e.copies| && e.copies[c].health == Healthy && e.copies[c].measured.Some? ==>
      e.copies[c].measured == Some(e.copies[c].integrity)
  }

  /** What a receipt says failed is what its own digests and backend answer show. */
  predicate ReceiptTruthful(r: Receipt) {
    && (r.failure == Some(MeasurementInvalidated) <==> r.measured.None?)
    && (r.failure == Some(DigestMismatch) <==> r.measured.Some? && r.measured != Some(r.expected))
    && (r.failure == Some(BackendFailure) <==> r.measured == Some(r.expected) && !r.backendOk)
    && (r.failure == Some(IdentityUnproven) || r.failure.None? ==> r.measured == Some(r.expected) && r.backendOk)
  }

  ghost predicate ReceiptsTruthful(e: Evidence) {
    forall i :: 0 <= i < |e.receipts| ==> ReceiptTruthful(e.receipts[i])
  }

  lemma ApplyKeepsTruth(e: Evidence, step: Step)
    requires HealthTruthful(e) && ReceiptsTruthful(e)
    ensures HealthTruthful(Apply(e, step)) && ReceiptsTruthful(Apply(e, step))
  {
  }

  /** After any run no copy is healthy over a digest that did not match, and no receipt is false. */
  lemma {:induction false} RunKeepsTruth(e: Evidence, steps: seq<Step>)
    requires HealthTruthful(e) && ReceiptsTruthful(e)
    ensures HealthTruthful(Run(e, steps)) && ReceiptsTruthful(Run(e, steps))
    decreases |steps|
  {
    if steps != [] {
      RunKeepsTruth(e, steps[..|steps| - 1]);
      ApplyKeepsTruth(Run(e, steps[..|steps| - 1]), steps[|steps| - 1]);
    }
  }

  // ----- A verified copy has lost no health since its measurement -----

  /** What `require_verified` selects. */
  predicate Verified(e: Evidence, c: nat) {
    && c < |e.copies| && e.copies[c].health == Healthy && e.copies[c].deletedAt.None?
    && e.copies[c].measured == Some(e.copies[c].integrity)
  }

  /** The step reads copy `c` back and finds exactly its expected digest. */
  predicate MeasuresClean(e: Evidence, step: Step, c: nat) {
    && step.Measure? && step.copy == c && c < |e.copies|
    && MeasuredResult(e, c, step.result, step.source, step.execution, step.at).Ok?
    && !HasReceipt(e, c, step.source, step.execution)
    && step.result.ok && step.result.actual == Some(e.copies[c].integrity) && e.copies[c].deletedAt.None?
  }

  /** Only a clean measurement makes an unverified copy verified. */
  lemma VerifiedOnlyByMeasurement(e: Evidence, step: Step, c: nat)
    requires !Verified(e, c) && Verified(Apply(e, step), c)
    ensures MeasuresClean(e, step, c)
  {
  }

  /** From the state before step `k` on: that step measured the copy clean, and in every later
      state up to the end of the run the copy stayed healthy with that measurement. */
  ghost predicate HealthySince(e: Evidence, steps: seq<Step>, k: nat, c: nat) {
    && k < |steps|
    && MeasuresClean(Run(e, steps[..k]), steps[k], c)
    && forall j :: k < j <= |steps| ==> Verified(Run(e, steps[..j]), c)
  }

  /** A copy counted as verified at the end of a run was measured clean at some step of it, and has
      been healthy and carried that measurement in every state since. */
  lemma {:induction false} VerifiedMeansHealthySince(e: Evidence, steps: seq<Step>, c: nat) returns (k: nat)
    requires !Verified(e, c) && Verified(Run(e, steps), c)
    ensures HealthySince(e, steps, k, c)
    decreases |steps|
  {
    var n := |steps| - 1;
    var front := steps[..n];
    if Verified(Run(e, front), c) {
      k := VerifiedMeansHealthySince(e, front, c);
      HealthyLonger(e, steps, k, c);
    } else {
      VerifiedOnlyByMeasurement(Run(e, front), steps[n], c);
      assert steps[..|steps|] == steps;
      k := n;
    }
  }

  lemma HealthyLonger(e: Evidence, steps: seq<Step>, k: nat, c: nat)
    requires steps != [] && HealthySince(e, steps[..|steps| - 1], k, c) && Verified(Run(e, steps), c)
    ensures HealthySince(e, steps, k, c)
  {
    var front := steps[..|steps| - 1];
    assert front[..k] == steps[..k] && front[k] == steps[k];
    forall j | k < j <= |steps|
      ensures Verified(Run(e, steps[..j]), c)
    {
      if j == |steps| { assert steps[..j] == steps; } else { assert steps[..j] == front[..j]; }
    }
  }

  /** A released copy is never verified again, whatever is measured of it later. */
  lemma {:induction false} ReleasedIsForever(e: Evidence, steps: seq<Step>, c: nat)
    requires c < |e.copies| && e.copies[c].deletedAt.Some?
    ensures var after := Run(e, steps);
            c < |after.copies| && after.copies[c].deletedAt == e.copies[c].deletedAt && !Verified(after, c)
    decreases |steps|
  {
    if steps != [] {
      ReleasedIsForever(e, steps[..|steps| - 1], c);
    }
  }

  // ----- Replays -----

  lemma {:induction false} ReceiptsPersist(e: Evidence, steps: seq<Step>, c: nat, source: Source, execution: string)
    requires HasReceipt(e, c, source, execution)
    ensures HasReceipt(Run(e, steps), c, source, execution) && e.remeasure <= Run(e, steps).remeasure
    ensures |e.copies| <= |Run(e, steps).copies|
    decreases |steps|
  {
    if steps != [] {
      var front := steps[..|steps| - 1];
      ReceiptsPersist(e, front, c, source, execution);
      var before := Run(e, front);
      var i :| 0 <= i < |before.receipts| && ForExecution(before.receipts[i], c, source, execution);
      assert ForExecution(Apply(before, steps[|steps| - 1]).receipts[i], c, source, execution);
    }
  }

  /** Replaying a measurement execution after any further steps changes nothing. */
  lemma MeasureReplayIsNoop(e: Evidence, step: Step, steps: seq<Step>, again: Step)
    requires step.Measure? && step.copy < |e.copies|
    requires MeasuredResult(e, step.copy, step.result, step.source, step.execution, step.at).Ok?
    requires again.Measure? && again.copy == step.copy && again.source == step.source && again.execution == step.execution
    ensures var later := Run(Apply(e, step), steps); Apply(later, again) == later
  {
    var after := Apply(e, step);
    assert HasReceipt(after, step.copy, step.source, step.execution) by {
      if !HasReceipt(e, step.copy, step.source, step.execution) {
        assert ForExecution(after.receipts[|e.receipts|], step.copy, step.source, step.execution);
      }
    }
    ReceiptsPersist(after, steps, step.copy, step.source, step.execution);
  }

  /** Replaying a promotion after any further steps succeeds and changes nothing: its re-measure
      job was queued with it, so the missing-job error cannot arise. */
  lemma PromotionReplayIsNoop(e: Evidence, c: nat, first: VerifyResult, again: VerifyResult, source: Source,
                              execution: string, at: int, steps: seq<Step>, later: int)
    requires c < |e.copies| && !HasReceipt(e, c, source, execution)
    requires PromotionResult(e, c, first, source, execution, at).Ok?
    requires !again.measured && again.ok
    ensures var state := Run(PromotionResult(e, c, first, source, execution, at).value, steps);
            c < |state.copies| && PromotionResult(state, c, again, source, execution, later) == Ok(state)
  {
    var after := PromotionResult(e, c, first, source, execution, at).value;
    assert ForExecution(after.receipts[|e.receipts|], c, source, execution);
    ReceiptsPersist(after, steps, c, source, execution);
  }

  /** A copy has a queued re-measure job exactly when some receipt of it is a promotion. */
  ghost predicate JobsFollowPromotions(e: Evidence) {
    forall c :: c in e.remeasure <==> Promoted(e, c)
  }

  ghost predicate Promoted(e: Evidence, c: nat) {
    exists i :: 0 <= i < |e.receipts| && e.receipts[i].copy == c && e.receipts[i].failure == Some(MeasurementInvalidated)
  }

  lemma PromotedAfter(e: Evidence, after: Evidence, receipt: Receipt, c: nat)
    requires after.receipts == e.receipts + [receipt]
    ensures Promoted(after, c)
            <==> Promoted(e, c) || (receipt.copy == c && receipt.failure == Some(MeasurementInvalidated))
  {
    if Promoted(e, c) {
      var i :| 0 <= i < |e.receipts| && e.receipts[i].copy == c && e.receipts[i].failure == Some(MeasurementInvalidated);
      assert after.receipts[i] == e.receipts[i];
    }
    if receipt.copy == c && receipt.failure == Some(MeasurementInvalidated) {
      assert after.receipts[|e.receipts|] == receipt;
    }
  }

  lemma ApplyKeepsJobs(e: Evidence, step: Step)
    requires JobsFollowPromotions(e)
    ensures JobsFollowPromotions(Apply(e, step))
  {
    var after := Apply(e, step);
    forall c: nat
      ensures c in after.remeasure <==> Promoted(after, c)
    {
      if |after.receipts| > |e.receipts| {
        PromotedAfter(e, after, after.receipts[|e.receipts|], c);
      } else {
        assert after.receipts == e.receipts && after.remeasure == e.remeasure;
      }
    }
  }

  lemma {:induction false} RunKeepsJobs(e: Evidence, steps: seq<Step>)
    requires JobsFollowPromotions(e)
    ensures JobsFollowPromotions(Run(e, steps))
    decreases |steps|
  {
    if steps != [] {
      RunKeepsJobs(e, steps[..|steps| - 1]);
      ApplyKeepsJobs(Run(e, steps[..|steps| - 1]), steps[|steps| - 1]);
    }
  }

  /** After any run, a well-formed promotion fails exactly when its execution already left a receipt
      for the copy and no promotion of that copy ever happened: the execution measured it instead. */
  lemma MissingJobExactly(start: Evidence, steps: seq<Step>, c: nat, result: VerifyResult, source: Source,
                          execution: string, at: int)
    requires JobsFollowPromotions(start) && c < |Run(start, steps).copies|
    requires execution != "" && !result.measured && result.ok
    ensures var e := Run(start, steps);
            PromotionResult(e, c, result, source, execution, at).Err?
            <==> HasReceipt(e, c, source, execution) && !Promoted(e, c)
  {
    RunKeepsJobs(start, steps);
  }

  /** Scrub receipts are promotions: no measurement is ever recorded under the scrub source. */
  ghost predicate ScrubsPromote(e: Evidence) {
    forall i :: 0 <= i < |e.receipts| && e.receipts[i].source == Scrub ==> e.receipts[i].failure == Some(MeasurementInvalidated)
  }

  lemma {:induction false} RunKeepsScrubs(e: Evidence, steps: seq<Step>)
    requires ScrubsPromote(e)
    ensures ScrubsPromote(Run(e, steps))
    decreases |steps|
  {
    if steps != [] {
      RunKeepsScrubs(e, steps[..|steps| - 1]);
    }
  }

  /** The missing-job failure does happen: a measurement and then a promotion under one execution. */
  lemma MeasuredThenPromotedFails(row: Copy, source: Source, execution: string, at: int, later: int)
    requires source != Scrub && execution != ""
    ensures var e := Run(Evidence([], [], {}), [Create(row), Measure(0, VerifyResult(true, true, Some(row.integrity)), source, execution, at)]);
            |e.copies| == 1 && PromotionResult(e, 0, VerifyResult(true, false, None), source, execution, later) == Err(JobMissing)
  {
    var empty := Evidence([], [], {});
    var create, measure := Create(row), Measure(0, VerifyResult(true, true, Some(row.integrity)), source, execution, at);
    RunTwo(empty, create, measure);
    var e := Apply(Apply(empty, create), measure);
    assert !HasReceipt(Apply(empty, create), 0, source, execution);
    assert ForExecution(e.receipts[0], 0, source, execution);
  }

  lemma RunSnoc(e: Evidence, steps: seq<Step>, step: Step)
    ensures Run(e, steps + [step]) == Apply(Run(e, steps), step)
  {
  }

  lemma RunOne(e: Evidence, step: Step)
    ensures Run(e, [step]) == Apply(e, step)
  {
  }

  lemma RunTwo(e: Evidence, first: Step, second: Step)
    ensures Run(e, [first, second]) == Apply(Apply(e, first), second)
  {
    assert [first, second][..1] == [first];
    RunOne(e, first);
  }
}
