/** Scrubs that do fail to reconcile, from states the catalog reaches. */
module ScrubLimits {
  import opened Wrappers
  import opened Numerals
  import opened CopyEvidence
  import opened Scrub

  const EMPTY := Evidence([], [], {})

  /** The object as an enumeration without pools reports it. */
  function Plain(logical: Digest, integrity: Digest, locator: string, container: bool): CopyRecord {
    CopyRecord(logical, locator, integrity, None, None, container)
  }

  /** A container of an unknown asset, then a plain object of the same asset: the first scrub of the
      empty catalog skips the container, and the second scrub of the same enumeration adds a row. */
  lemma SecondScrubAddsContainer(b: nat, logical: Digest, integrity: Digest, box: string, plain: string,
                                 run: string, again: string, now: int, later: int)
    requires box != plain && run != "" && again != ""
    ensures var records := [Plain(logical, integrity, box, true), Plain(logical, logical, plain, false)];
            var first := ScrubResult(World(EMPTY, {}, map[]), b, map[], records, run, now);
            && first.Ok? && |first.value.e.copies| == 1
            && var middle := first.value.(pending := map[plain := 0]);
               var second := ScrubResult(middle, b, map[], records, again, later);
               Snapshot(middle.e, b, middle.pending) && second.Ok? && |second.value.e.copies| == 2
  {
    var one, two := Plain(logical, integrity, box, true), Plain(logical, logical, plain, false);
    var empty := World(EMPTY, {}, map[]);
    FirstPass(empty, b, one, two, run, now);
    var row := NewCopy(b, map[], two, now);
    var middle := World(Evidence([row], [], {}), {logical}, map[plain := 0]);
    SecondPass(middle, b, one, two, again, later);
  }

  lemma IngestTwo(start: World, b: nat, one: CopyRecord, two: CopyRecord, run: string, now: int, w: World, after: World)
    requires InRange(start)
    requires InRange(w)
    requires Ingest(start, b, map[], one, run, now) == Ok(w) && Ingest(w, b, map[], two, run, now) == Ok(after)
    ensures IngestAll(start, b, map[], [one, two], run, now) == Ok(after)
  {
    assert [one, two][..1] == [one] && [one][..0] == [];
    assert IngestAll(start, b, map[], [one], run, now) == Ok(w);
  }

  lemma NothingLost(w: World)
    requires w.pending == map[]
    ensures w.(e := MarkMissing(w.e, Lost(w.pending)), pending := map[]) == w
  {
    assert MarkMissing(w.e, Lost(w.pending)).copies == w.e.copies;
  }

  lemma FirstPass(empty: World, b: nat, one: CopyRecord, two: CopyRecord, run: string, now: int)
    requires empty == World(EMPTY, {}, map[])
    requires one.pool.None? && two.pool.None? && one.container && !two.container && one.locator != two.locator
    ensures ScrubResult(empty, b, map[], [one, two], run, now)
            == Ok(World(Evidence([NewCopy(b, map[], two, now)], [], {}), {two.logical}, map[]))
  {
    var after := World(Evidence([NewCopy(b, map[], two, now)], [], {}), {two.logical}, map[]);
    assert Ingest(empty, b, map[], one, run, now) == Ok(empty);
    assert Apply(empty.e, Create(NewCopy(b, map[], two, now))) == after.e && empty.assets + {two.logical} == after.assets;
    assert Ingest(empty, b, map[], two, run, now) == Ok(after);
    IngestTwo(empty, b, one, two, run, now, empty, after);
    NothingLost(after);
  }

  lemma SecondPass(middle: World, b: nat, one: CopyRecord, two: CopyRecord, run: string, now: int)
    requires |middle.e.copies| == 1 && middle.pending == map[two.locator := 0] && middle.assets == {two.logical}
    requires var row := middle.e.copies[0];
             row.backend == b && row.locator == two.locator && row.integrity == two.integrity && row.health == Healthy
    requires one.pool.None? && two.pool.None? && one.logical == two.logical == two.integrity && one.locator != two.locator
    ensures var second := ScrubResult(middle, b, map[], [one, two], run, now); second.Ok? && |second.value.e.copies| == 2
  {
    var added := middle.(e := Apply(middle.e, Create(NewCopy(b, map[], one, now))));
    assert middle.assets + {one.logical} == middle.assets;
    assert Ingest(middle, b, map[], one, run, now) == Ok(added);
    var after := added.(e := WithHealth(added.e, 0, Healthy, Some(now)), pending := added.pending - {two.locator});
    assert Ingest(added, b, map[], two, run, now) == Ok(after);
    IngestTwo(middle, b, one, two, run, now, added, after);
    assert after.pending == map[];
    NothingLost(after);
  }

  /** A run id that already promoted a copy leaves it missing after a later loss, though the scrub
      enumerates it intact. */
  lemma ReplayedCopyStaysMissing(b: nat, digest: Digest, locator: string, run: string, at: int, now: int)
    requires run != ""
    ensures var record := Plain(digest, digest, locator, false);
            var history := [Create(NewCopy(b, map[], record, at)), Downgrade(0, Missing, None),
                            Promote(0, VerifyResult(true, false, None), Source.Scrub, run, at), Downgrade(0, Missing, None)];
            var start := World(Run(EMPTY, history), {digest}, map[locator := 0]);
            && Snapshot(start.e, b, start.pending) && UniqueLocators(start.e)
            && var after := ScrubResult(start, b, map[], [record], run, now);
               after.Ok? && |after.value.e.copies| == 1 && after.value.e.copies[0].health == Missing
  {
    var record, trusted := Plain(digest, digest, locator, false), VerifyResult(true, false, None);
    var made := Apply(EMPTY, Create(NewCopy(b, map[], record, at)));
    var lost := Apply(made, Downgrade(0, Missing, None));
    var found := Apply(lost, Promote(0, trusted, Source.Scrub, run, at));
    var again := Apply(found, Downgrade(0, Missing, None));
    RunFour(EMPTY, Create(NewCopy(b, map[], record, at)), Downgrade(0, Missing, None), Promote(0, trusted, Source.Scrub, run, at),
            Downgrade(0, Missing, None));
    PromotedOnce(lost, found, run, at);
    var start := World(again, {digest}, map[locator := 0]);
    OneRecordReplays(start, b, record, run, now);
  }

  lemma RunFour(e: Evidence, first: Step, second: Step, third: Step, fourth: Step)
    ensures Run(e, [first, second, third, fourth]) == Apply(Apply(Apply(Apply(e, first), second), third), fourth)
  {
    RunTwo(e, first, second);
    RunSnoc(e, [first, second], third);
    RunSnoc(e, [first, second] + [third], fourth);
    assert [first, second] + [third] + [fourth] == [first, second, third, fourth];
  }

  lemma PromotedOnce(lost: Evidence, found: Evidence, run: string, at: int)
    requires |lost.copies| == 1 && lost.receipts == [] && run != ""
    requires found == Apply(lost, Promote(0, VerifyResult(true, false, None), Source.Scrub, run, at))
    ensures HasReceipt(found, 0, Source.Scrub, run) && 0 in found.remeasure && |found.copies| == 1
    ensures SameIdentity(lost.copies[0], found.copies[0])
  {
    assert !HasReceipt(lost, 0, Source.Scrub, run);
    assert ForExecution(found.receipts[0], 0, Source.Scrub, run);
  }

  lemma OneRecordReplays(start: World, b: nat, record: CopyRecord, run: string, now: int)
    requires |start.e.copies| == 1 && start.pending == map[record.locator := 0] && run != "" && record.pool.None?
    requires start.e.copies[0].health == Missing && start.e.copies[0].integrity == record.integrity && RecordHealth(record) == Healthy
    requires HasReceipt(start.e, 0, Source.Scrub, run) && 0 in start.e.remeasure
    ensures var after := ScrubResult(start, b, map[], [record], run, now);
            after.Ok? && |after.value.e.copies| == 1 && after.value.e.copies[0].health == Missing
  {
    assert [record][..0] == [] && IngestAll(start, b, map[], [], run, now) == Ok(start);
    var checked := WithHealth(start.e, 0, Missing, Some(now));
    assert HasReceipt(checked, 0, Source.Scrub, run);
    assert Refound(start.e, 0, record, run, now) == Ok(checked);
    var after := start.(e := checked, pending := start.pending - {record.locator});
    assert after.pending == map[];
    assert IngestAll(start, b, map[], [record], run, now) == Ok(after);
    NothingLost(after);
  }
}
