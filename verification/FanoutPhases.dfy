/** The two phases of a fan-out: build and validate every target, then write each one. */
module FanoutPhases {
  import opened Wrappers
  import opened Numerals
  import opened FailureText
  import opened BundleCatalog
  import opened BundleStore
  import opened Fanout

  /** `Tar` targets are assembled from the inputs; `Rem` targets by an external builder. */
  datatype Format = Tar | Rem

  datatype Target = Target(pool: string, format: Format)

  /** What the builder did for one target: produced a manifest, refused with a message (a
      `RuntimeError`), or failed with any other exception. */
  datatype Report = Manifest(items: seq<ManifestItem>) | Refused(message: string) | Crashed

  /** One target's build: an artifact, a failure charged to a row, or an error of the whole flush. */
  datatype Outcome = Artifact(members: seq<Built>) | Charged(row: nat) | Abort

  function Blame(message: string, inputs: seq<Input>): (o: Outcome)
    ensures o.Charged? ==> o.row < |inputs|
  {
    var row := IdentifyText(message, InputPaths(inputs));
    if row.Some? then Charged(row.value) else Abort
  }

  /** The artifact's members, once they pass validation. */
  ghost predicate Accepted(target: Target, report: Report, inputs: seq<Input>, built: seq<Built>) {
    && report.Manifest? && ValidBuilt(built, inputs)
    && match target.format
       case Tar => built == FromInputs(inputs)
       case Rem => ManifestSound(report.items, inputs) && Joined(report.items, inputs, built)
  }

  ghost predicate Builds(target: Target, report: Report, inputs: seq<Input>) {
    exists built :: Accepted(target, report, inputs, built)
  }

  /** What becomes of one target's build. Only a refusal can be charged to a row, the one its message
      names. A manifest that does not join, or joins and fails validation, raises an error the build
      phase does not catch, and stops the flush. */
  ghost predicate BuildsTo(target: Target, report: Report, inputs: seq<Input>, o: Outcome) {
    match report
    case Refused(message) => o == Blame(message, inputs)
    case Crashed => o == Abort
    case Manifest(items) =>
      if Builds(target, report, inputs) then o.Artifact? && Accepted(target, report, inputs, o.members) else o == Abort
  }

  /** An accepted artifact carries each input exactly once. */
  lemma AcceptedCarriesOnce(target: Target, report: Report, inputs: seq<Input>, built: seq<Built>)
    requires NoDup(InputPaths(inputs)) && Accepted(target, report, inputs, built)
    ensures ExactlyOnce(built, inputs)
  {
    if target.format == Tar { TarCarriesOnce(inputs); } else { ManifestCarriesOnce(report.items, inputs, built); }
  }

  /** A tar target builds whatever its builder reports, and a rem target on an honest manifest. */
  lemma HonestTargetBuilds(target: Target, items: seq<ManifestItem>, inputs: seq<Input>)
    requires inputs != [] && NoDup(InputPaths(inputs)) && (forall i :: 0 <= i < |inputs| ==> inputs[i].path != "")
    requires target.format == Tar || Honest(items, inputs)
    ensures Builds(target, Manifest(items), inputs)
  {
    if target.format == Tar {
      TarCarriesOnce(inputs);
      assert Accepted(target, Manifest(items), inputs, FromInputs(inputs));
    } else {
      var built := HonestManifestJoins(items, inputs);
      assert Accepted(target, Manifest(items), inputs, built);
    }
  }

  method BuildTarget(target: Target, report: Report, inputs: seq<Input>) returns (o: Outcome)
    ensures BuildsTo(target, report, inputs, o)
    ensures o.Charged? ==> o.row < |inputs|
  {
    match report {
      case Refused(message) => return Blame(message, inputs);
      case Crashed => return Abort;
      case Manifest(items) =>
        var built := FromInputs(inputs);
        if target.format == Rem {
          var joined := MembersFromManifest(items, inputs);
          if joined.None? { return Abort; }
          built := joined.value;
        }
        var ok := ValidateBuiltMembers(built, inputs);
        if ok {
          assert Accepted(target, report, inputs, built);
          return Artifact(built);
        }
        JoinUnique(target, report, inputs, built);
        return Abort;
    }
  }

  /** A manifest joins to one list of members, so one that fails validation has no accepted artifact. */
  lemma JoinUnique(target: Target, report: Report, inputs: seq<Input>, built: seq<Built>)
    requires report.Manifest? && !ValidBuilt(built, inputs)
    requires if target.format == Tar then built == FromInputs(inputs) else Joined(report.items, inputs, built)
    ensures forall other :: !Accepted(target, report, inputs, other)
  {
  }

  /** What the build phase leaves: every artifact, or the first target that has none. */
  datatype Prepared = Ready(artifacts: seq<seq<Built>>) | MemberFailed(target: nat, row: nat) | Stopped(target: nat)

  ghost predicate PreparedFrom(p: Prepared, targets: seq<Target>, reports: seq<Report>, inputs: seq<Input>)
    requires |reports| == |targets|
  {
    match p
    case Ready(artifacts) =>
      |artifacts| == |targets| && forall k :: 0 <= k < |targets| ==> Accepted(targets[k], reports[k], inputs, artifacts[k])
    case MemberFailed(t, row) =>
      && t < |targets| && row < |inputs| && BuildsTo(targets[t], reports[t], inputs, Charged(row))
      && forall k :: 0 <= k < t ==> Builds(targets[k], reports[k], inputs)
    case Stopped(t) =>
      && t < |targets| && BuildsTo(targets[t], reports[t], inputs, Abort)
      && forall k :: 0 <= k < t ==> Builds(targets[k], reports[k], inputs)
  }

  /** The build phase. It writes nothing: it has no access to the media or the catalog. */
  method PrepareTargets(targets: seq<Target>, reports: seq<Report>, inputs: seq<Input>) returns (p: Prepared)
    requires |reports| == |targets|
    ensures PreparedFrom(p, targets, reports, inputs)
  {
    var artifacts: seq<seq<Built>> := [];
    for k := 0 to |targets|
      invariant |artifacts| == k && forall i :: 0 <= i < k ==> Accepted(targets[i], reports[i], inputs, artifacts[i])
    {
      var o := BuildTarget(targets[k], reports[k], inputs);
      match o {
        case Charged(row) => return MemberFailed(k, row);
        case Abort => return Stopped(k);
        case Artifact(built) => artifacts := artifacts + [built];
      }
    }
    return Ready(artifacts);
  }

  // ----- The write phase -----

  /** How one physical write ended: verified, a retryable failure before or after its copy row was
      stored, a failure that keeps its suspect row (or came before there was one), or an exception the
      phase does not absorb. A row is stored under the locator key the medium returned. */
  datatype Write = Placed(key: string) | Transient(stored: Option<string>) | Failed(recorded: Option<string>) | Escaped

  datatype Phase = Phase(copies: seq<BundleCopy>, placed: seq<nat>, transient: seq<string>, failed: seq<string>,
                         media: seq<string>, escaped: bool)

  function LocatorOf(b: Built): Locator { Locator(b.path, b.logical, b.digest, b.size) }

  function Locators(built: seq<Built>): (locators: seq<Locator>)
    ensures |locators| == |built| && forall j :: 0 <= j < |built| ==> locators[j] == LocatorOf(built[j])
  {
    seq(|built|, j requires 0 <= j < |built| => LocatorOf(built[j]))
  }

  function KeyRow(copies: seq<BundleCopy>, key: string): (row: Option<nat>)
    ensures row.Some? ==> row.value < |copies| && copies[row.value].key == key
    ensures row.None? ==> forall c :: 0 <= c < |copies| ==> copies[c].key != key
  {
    if copies == [] then None
    else
      var n := |copies| - 1;
      if copies[n].key == key then Some(n) else KeyRow(copies[..n], key)
  }

  /** Two locator rows of one copy may not name the same asset and path. */
  predicate Repeats(locators: seq<Locator>, more: seq<Locator>) {
    exists i, j :: 0 <= i < |locators| && 0 <= j < |more| && locators[i].path == more[j].path && locators[i].logical == more[j].logical
  }

  /** `add_bundle_copy`, then the locator rows: a key the catalog does not know makes a new row. A known
      key is an error under another bundle or pool; under this one the row is reused, and the new
      locator rows join its own unless they repeat one. */
  function Stored(copies: seq<BundleCopy>, row: BundleCopy): (r: Option<(seq<BundleCopy>, nat)>)
    ensures r.Some? ==> r.value.1 < |r.value.0|
  {
    match KeyRow(copies, row.key)
    case None => Some((copies + [row], |copies|))
    case Some(c) =>
      var held := copies[c];
      if held.bundle != row.bundle || held.pool != row.pool || Repeats(held.locators, row.locators) then None
      else Some((copies[c := held.(locators := held.locators + row.locators, suspect := row.suspect)], c))
  }

  /** Storing a copy row: a new key makes a row; a known key is refused for another bundle or pool, or a
      locator it already has, and otherwise its row gains the locators and takes the new verdict. */
  lemma StoredExactly(copies: seq<BundleCopy>, row: BundleCopy)
    requires forall c, d :: 0 <= c < d < |copies| ==> copies[c].key != copies[d].key
    ensures var r := Stored(copies, row);
            && ((forall c :: 0 <= c < |copies| ==> copies[c].key != row.key) ==> r == Some((copies + [row], |copies|)))
            && (forall c :: 0 <= c < |copies| && copies[c].key == row.key ==>
                  var held := copies[c];
                  && (r.None? <==> held.bundle != row.bundle || held.pool != row.pool
                                   || exists i, j :: 0 <= i < |held.locators| && 0 <= j < |row.locators|
                                                     && held.locators[i].path == row.locators[j].path && held.locators[i].logical == row.locators[j].logical)
                  && (r.Some? ==> r.value.1 == c && r.value.0
                                  == copies[c := BundleCopy(held.bundle, held.pool, held.key, held.locators + row.locators, row.suspect)]))
  {
  }

  function WriteOne(phase: Phase, id: string, pool: string, built: seq<Built>, write: Write): Phase {
    var logged := phase.(media := phase.media + [pool]);
    match write
    case Placed(key) =>
      (match Stored(phase.copies, BundleCopy(id, pool, key, Locators(built), false))
       case None => logged.(escaped := true)
       case Some(stored) => logged.(copies := stored.0, placed := phase.placed + [stored.1]))
    case Transient(key) =>
      if key.Some? && Stored(phase.copies, BundleCopy(id, pool, key.value, Locators(built), true)).None?
      then logged.(escaped := true) else logged.(transient := phase.transient + [pool])
    case Failed(key) =>
      if key.None? then logged.(failed := phase.failed + [pool])
      else
        (match Stored(phase.copies, BundleCopy(id, pool, key.value, Locators(built), true))
         case None => logged.(escaped := true)
         case Some(stored) => logged.(copies := stored.0, failed := phase.failed + [pool]))
    case Escaped => logged.(escaped := true)
  }

  /** The phase after the first `k` targets; an escaped exception ends it. */
  function WriteFirst(copies: seq<BundleCopy>, id: string, targets: seq<Target>, artifacts: seq<seq<Built>>,
                      writes: seq<Write>, k: nat): Phase
    requires |artifacts| == |targets| && |writes| == |targets| && k <= |targets|
  {
    if k == 0 then Phase(copies, [], [], [], [], false)
    else
      var before := WriteFirst(copies, id, targets, artifacts, writes, k - 1);
      if before.escaped then before else WriteOne(before, id, targets[k - 1].pool, artifacts[k - 1], writes[k - 1])
  }

  /** One target's write against the catalog, inside a savepoint: a retryable failure discards the rows
      it stored. */
  method WriteTarget(catalog: Catalog, before: Phase, id: string, pool: string, built: seq<Built>, write: Write) returns (phase: Phase)
    requires catalog.copies == before.copies
    modifies catalog`copies
    ensures phase == WriteOne(before, id, pool, built, write) && catalog.copies == phase.copies
  {
    var savepoint := catalog.copies;
    var row := BundleCopy(id, pool, "", Locators(built), true);
    phase := before.(media := before.media + [pool]);
    match write {
      case Placed(key) =>
        var stored := Stored(catalog.copies, row.(key := key, suspect := false));
        if stored.None? { return phase.(escaped := true); }
        catalog.copies := stored.value.0;
        return phase.(copies := catalog.copies, placed := phase.placed + [stored.value.1]);
      case Transient(key) =>
        if key.Some? {
          var stored := Stored(catalog.copies, row.(key := key.value));
          if stored.None? { return phase.(escaped := true); }
          catalog.copies := stored.value.0;
        }
        catalog.copies := savepoint;
        return phase.(transient := phase.transient + [pool]);
      case Failed(key) =>
        if key.Some? {
          var stored := Stored(catalog.copies, row.(key := key.value));
          if stored.None? { return phase.(escaped := true); }
          catalog.copies := stored.value.0;
        }
        return phase.(copies := catalog.copies, failed := phase.failed + [pool]);
      case Escaped => return phase.(escaped := true);
    }
  }

  /** The write phase against the catalog: every target, or up to the first exception it does not absorb. */
  method WriteTargets(catalog: Catalog, id: string, targets: seq<Target>, artifacts: seq<seq<Built>>,
                      writes: seq<Write>) returns (phase: Phase, ghost done: nat)
    requires |artifacts| == |targets| && |writes| == |targets|
    modifies catalog`copies
    ensures done <= |targets| && phase == WriteFirst(old(catalog.copies), id, targets, artifacts, writes, done)
    ensures !phase.escaped ==> done == |targets|
    ensures catalog.copies == phase.copies
  {
    phase := Phase(catalog.copies, [], [], [], [], false);
    for k := 0 to |targets|
      invariant phase == WriteFirst(old(catalog.copies), id, targets, artifacts, writes, k)
      invariant catalog.copies == phase.copies && !phase.escaped
    {
      phase := WriteTarget(catalog, phase, id, targets[k].pool, artifacts[k], writes[k]);
      if phase.escaped { return phase, k + 1; }
    }
    done := |targets|;
  }

  function Pools(targets: seq<Target>): (pools: seq<string>)
    ensures |pools| == |targets| && forall k :: 0 <= k < |targets| ==> pools[k] == targets[k].pool
  {
    seq(|targets|, k requires 0 <= k < |targets| => targets[k].pool)
  }

  function PoolsOf(copies: seq<BundleCopy>, ids: seq<nat>): (pools: seq<string>)
    requires forall i :: 0 <= i < |ids| ==> ids[i] < |copies|
    ensures |pools| == |ids| && forall i :: 0 <= i < |ids| ==> pools[i] == copies[ids[i]].pool
  {
    seq(|ids|, i requires 0 <= i < |ids| => copies[ids[i]].pool)
  }

  // ----- What the writes leave -----

  /** The bundle has no copy yet, and each pool is a target once: a bundle's copies appear when it
      seals, and a group basis lists a pool once. */
  ghost predicate Unplaced(copies: seq<BundleCopy>, id: string, targets: seq<Target>) {
    && (forall c :: 0 <= c < |copies| ==> copies[c].bundle != id)
    && (forall j, k :: 0 <= j < k < |targets| ==> targets[j].pool != targets[k].pool)
  }

  /** A row the phase stored: some target's pool, with exactly the locators of that target's artifact. */
  ghost predicate WrittenRow(copy: BundleCopy, id: string, artifacts: seq<seq<Built>>, pools: seq<string>) {
    copy.bundle == id && exists k :: 0 <= k < |artifacts| && k < |pools| && WrittenFor(copy, pools[k], artifacts[k])
  }

  predicate WrittenFor(copy: BundleCopy, pool: string, built: seq<Built>) {
    copy.pool == pool && copy.locators == Locators(built)
  }

  /** What holds after some writes: earlier rows are intact, the new rows are theirs, and the reported
      copies are exactly the new rows that are not suspect. */
  ghost predicate PhaseSound(copies: seq<BundleCopy>, id: string, artifacts: seq<seq<Built>>, phase: Phase, pools: seq<string>) {
    && copies <= phase.copies
    && (forall c :: |copies| <= c < |phase.copies| ==> WrittenRow(phase.copies[c], id, artifacts, pools))
    && (forall i :: 0 <= i < |phase.placed| ==> |copies| <= phase.placed[i] < |phase.copies|)
    && (forall c :: |copies| <= c < |phase.copies| ==> (phase.copies[c].suspect <==> c !in phase.placed))
  }

  /** With no row of this bundle and pool, a row is stored fresh or not at all. */
  lemma StoredFresh(copies: seq<BundleCopy>, row: BundleCopy)
    requires forall c :: 0 <= c < |copies| && copies[c].bundle == row.bundle ==> copies[c].pool != row.pool
    ensures Stored(copies, row) == if KeyRow(copies, row.key).None? then Some((copies + [row], |copies|)) else None
  {
  }

  /** The row a write leaves behind: a verified one, a suspect one, or none. */
  function RowOf(id: string, pool: string, built: seq<Built>, write: Write): Option<BundleCopy> {
    match write
    case Placed(key) => Some(BundleCopy(id, pool, key, Locators(built), false))
    case Failed(Some(key)) => Some(BundleCopy(id, pool, key, Locators(built), true))
    case _ => None
  }

  function KeyOf(write: Write): Option<string> {
    match write
    case Placed(key) => Some(key)
    case Transient(key) => key
    case Failed(key) => key
    case Escaped => None
  }

  /** A write no row can be stored for: it escaped, or its key is in use. */
  predicate Stops(copies: seq<BundleCopy>, write: Write) {
    write.Escaped? || (KeyOf(write).Some? && KeyRow(copies, KeyOf(write).value).Some?)
  }

  /** What one write to a new pool does: nothing to the rows when it stops the phase; else it adds at
      most its own row. */
  ghost predicate Effect(phase: Phase, after: Phase, id: string, pool: string, built: seq<Built>, write: Write) {
    && after.media == phase.media + [pool]
    && (if Stops(phase.copies, write) then after == phase.(media := after.media, escaped := true)
        else
          && after.escaped == phase.escaped
          && after.copies == (if RowOf(id, pool, built, write).Some? then phase.copies + [RowOf(id, pool, built, write).value] else phase.copies)
          && after.placed == (if write.Placed? then phase.placed + [|phase.copies|] else phase.placed)
          && after.transient == (if write.Transient? then phase.transient + [pool] else phase.transient)
          && after.failed == (if write.Failed? then phase.failed + [pool] else phase.failed))
  }

  lemma WriteOneEffect(phase: Phase, id: string, pool: string, built: seq<Built>, write: Write)
    requires forall c :: 0 <= c < |phase.copies| && phase.copies[c].bundle == id ==> phase.copies[c].pool != pool
    ensures Effect(phase, WriteOne(phase, id, pool, built, write), id, pool, built, write)
  {
    if KeyOf(write).Some? {
      StoredFresh(phase.copies, BundleCopy(id, pool, KeyOf(write).value, Locators(built), !write.Placed?));
    }
  }

  lemma OtherPools(copies: seq<BundleCopy>, id: string, artifacts: seq<seq<Built>>, phase: Phase, pools: seq<string>, pool: string)
    requires PhaseSound(copies, id, artifacts, phase, pools) && pool !in pools
    requires forall c :: 0 <= c < |copies| ==> copies[c].bundle != id
    ensures forall c :: 0 <= c < |phase.copies| && phase.copies[c].bundle == id ==> phase.copies[c].pool != pool
  {
    forall c | 0 <= c < |phase.copies| && phase.copies[c].bundle == id
      ensures phase.copies[c].pool != pool
    {
      assert c >= |copies| ==> WrittenRow(phase.copies[c], id, artifacts, pools);
    }
  }

  lemma StillWritten(copy: BundleCopy, id: string, artifacts: seq<seq<Built>>, pools: seq<string>, pool: string)
    requires WrittenRow(copy, id, artifacts, pools)
    ensures WrittenRow(copy, id, artifacts, pools + [pool])
  {
    var k :| 0 <= k < |artifacts| && k < |pools| && WrittenFor(copy, pools[k], artifacts[k]);
    assert (pools + [pool])[k] == pools[k];
  }

  lemma EffectSound(copies: seq<BundleCopy>, id: string, artifacts: seq<seq<Built>>, phase: Phase, after: Phase,
                    pools: seq<string>, pool: string, k: nat, write: Write)
    requires PhaseSound(copies, id, artifacts, phase, pools) && k < |artifacts| && k == |pools|
    requires Effect(phase, after, id, pool, artifacts[k], write)
    ensures PhaseSound(copies, id, artifacts, after, pools + [pool]) && phase.copies <= after.copies
  {
    EffectGrows(phase, after, id, pool, artifacts[k], write);
    PrefixOfPrefix(copies, phase.copies, after.copies);
    forall c | |copies| <= c < |after.copies|
      ensures WrittenRow(after.copies[c], id, artifacts, pools + [pool])
    {
      if c < |phase.copies| {
        StillWritten(phase.copies[c], id, artifacts, pools, pool);
      } else {
        NewlyWritten(after.copies[c], id, artifacts, pools, pool, k, write);
      }
    }
    EffectPlaced(copies, phase, after, id, pool, artifacts[k], write);
  }

  /** What a write adds: nothing, or its own row at the end. */
  lemma EffectGrows(phase: Phase, after: Phase, id: string, pool: string, built: seq<Built>, write: Write)
    requires Effect(phase, after, id, pool, built, write)
    ensures phase.copies <= after.copies && |after.copies| <= |phase.copies| + 1
    ensures |after.copies| > |phase.copies| ==> RowOf(id, pool, built, write) == Some(after.copies[|phase.copies|])
  {
  }

  lemma NewlyWritten(copy: BundleCopy, id: string, artifacts: seq<seq<Built>>, pools: seq<string>, pool: string, k: nat, write: Write)
    requires k < |artifacts| && k == |pools| && RowOf(id, pool, artifacts[k], write) == Some(copy)
    ensures WrittenRow(copy, id, artifacts, pools + [pool])
  {
    assert (pools + [pool])[k] == pool && WrittenFor(copy, pool, artifacts[k]);
  }

  lemma EffectPlaced(copies: seq<BundleCopy>, phase: Phase, after: Phase, id: string, pool: string, built: seq<Built>, write: Write)
    requires Effect(phase, after, id, pool, built, write) && |copies| <= |phase.copies| && phase.copies <= after.copies
    requires forall i :: 0 <= i < |phase.placed| ==> |copies| <= phase.placed[i] < |phase.copies|
    requires forall c :: |copies| <= c < |phase.copies| ==> (phase.copies[c].suspect <==> c !in phase.placed)
    ensures forall i :: 0 <= i < |after.placed| ==> |copies| <= after.placed[i] < |after.copies|
    ensures forall c :: |copies| <= c < |after.copies| ==> (after.copies[c].suspect <==> c !in after.placed)
  {
    EffectGrows(phase, after, id, pool, built, write);
    forall c | |copies| <= c < |after.copies|
      ensures after.copies[c].suspect <==> c !in after.placed
    {
      if c < |phase.copies| {
        assert c in after.placed <==> c in phase.placed;
      } else {
        assert c !in phase.placed;
      }
    }
  }

  lemma PoolsSnoc(targets: seq<Target>, k: nat)
    requires k < |targets|
    ensures Pools(targets[..k + 1]) == Pools(targets[..k]) + [targets[k].pool]
  {
  }

  lemma NewPool(copies: seq<BundleCopy>, id: string, targets: seq<Target>, k: nat)
    requires Unplaced(copies, id, targets) && k < |targets|
    ensures targets[k].pool !in Pools(targets[..k])
  {
  }

  /** For a bundle with no copy yet, every write keeps the rows of the writes before it, and every
      reported copy is a new row that lists exactly the locators of a validated artifact. */
  lemma {:induction false} WritesSound(copies: seq<BundleCopy>, id: string, targets: seq<Target>,
                                       artifacts: seq<seq<Built>>, writes: seq<Write>, k: nat)
    requires |artifacts| == |targets| && |writes| == |targets| && k <= |targets| && Unplaced(copies, id, targets)
    ensures PhaseSound(copies, id, artifacts, WriteFirst(copies, id, targets, artifacts, writes, k), Pools(targets[..k]))
    decreases k
  {
    if k > 0 {
      WritesSound(copies, id, targets, artifacts, writes, k - 1);
      var before, pools, pool := WriteFirst(copies, id, targets, artifacts, writes, k - 1), Pools(targets[..k - 1]), targets[k - 1].pool;
      PoolsSnoc(targets, k - 1);
      if before.escaped {
        MorePools(copies, id, artifacts, before, pools, pool);
      } else {
        NewPool(copies, id, targets, k - 1);
        OtherPools(copies, id, artifacts, before, pools, pool);
        WriteOneEffect(before, id, pool, artifacts[k - 1], writes[k - 1]);
        EffectSound(copies, id, artifacts, before, WriteOne(before, id, pool, artifacts[k - 1], writes[k - 1]), pools, pool, k - 1,
                    writes[k - 1]);
      }
    }
  }

  lemma MorePools(copies: seq<BundleCopy>, id: string, artifacts: seq<seq<Built>>, phase: Phase, pools: seq<string>, pool: string)
    requires PhaseSound(copies, id, artifacts, phase, pools)
    ensures PhaseSound(copies, id, artifacts, phase, pools + [pool])
  {
    forall c | |copies| <= c < |phase.copies|
      ensures WrittenRow(phase.copies[c], id, artifacts, pools + [pool])
    {
      StillWritten(phase.copies[c], id, artifacts, pools, pool);
    }
  }

  // ----- The phases as a history -----

  /** The phase after each number of targets: each is the effect of one write on the one before, until
      one escapes. */
  ghost predicate Follows(phases: seq<Phase>, id: string, targets: seq<Target>, artifacts: seq<seq<Built>>, writes: seq<Write>) {
    && |artifacts| == |targets| == |writes| && |phases| == |targets| + 1
    && forall k :: 0 <= k < |targets| ==> Next(phases[k], phases[k + 1], id, targets[k].pool, artifacts[k], writes[k])
  }

  ghost predicate Next(phase: Phase, after: Phase, id: string, pool: string, built: seq<Built>, write: Write) {
    if phase.escaped then after == phase else Effect(phase, after, id, pool, built, write)
  }

  lemma Phases(copies: seq<BundleCopy>, id: string, targets: seq<Target>, artifacts: seq<seq<Built>>, writes: seq<Write>)
    returns (phases: seq<Phase>)
    requires |artifacts| == |targets| && |writes| == |targets| && Unplaced(copies, id, targets)
    ensures Follows(phases, id, targets, artifacts, writes) && phases[0] == Phase(copies, [], [], [], [], false)
    ensures forall k :: 0 <= k <= |targets| ==> phases[k] == WriteFirst(copies, id, targets, artifacts, writes, k)
  {
    phases := seq(|targets| + 1, k requires 0 <= k <= |targets| => WriteFirst(copies, id, targets, artifacts, writes, k));
    forall k | 0 <= k < |targets|
      ensures Next(phases[k], phases[k + 1], id, targets[k].pool, artifacts[k], writes[k])
    {
      OneWrite(copies, id, targets, artifacts, writes, k);
    }
  }

  lemma OneWrite(copies: seq<BundleCopy>, id: string, targets: seq<Target>, artifacts: seq<seq<Built>>, writes: seq<Write>, k: nat)
    requires |artifacts| == |targets| && |writes| == |targets| && k < |targets| && Unplaced(copies, id, targets)
    ensures Next(WriteFirst(copies, id, targets, artifacts, writes, k), WriteFirst(copies, id, targets, artifacts, writes, k + 1),
                 id, targets[k].pool, artifacts[k], writes[k])
  {
    var before, pool := WriteFirst(copies, id, targets, artifacts, writes, k), targets[k].pool;
    WritesSound(copies, id, targets, artifacts, writes, k);
    NewPool(copies, id, targets, k);
    OtherPools(copies, id, artifacts, before, Pools(targets[..k]), pool);
    WriteOneEffect(before, id, pool, artifacts[k], writes[k]);
  }

  lemma PhasesGrow(phases: seq<Phase>, id: string, targets: seq<Target>, artifacts: seq<seq<Built>>, writes: seq<Write>,
                   j: nat, k: nat)
    requires Follows(phases, id, targets, artifacts, writes) && j <= k <= |targets|
    ensures phases[j].copies <= phases[k].copies
  {
    var chain := seq(|phases|, i requires 0 <= i < |phases| => phases[i].copies);
    forall i | 0 <= i < |targets|
      ensures chain[i] <= chain[i + 1]
    {
      assert Next(phases[i], phases[i + 1], id, targets[i].pool, artifacts[i], writes[i]);
      NextGrows(phases[i], phases[i + 1], id, targets[i].pool, artifacts[i], writes[i]);
    }
    ChainGrows(chain, j, k);
  }

  lemma {:induction false} ChainGrows(chain: seq<seq<BundleCopy>>, j: nat, k: nat)
    requires j <= k < |chain| && forall i :: 0 <= i < |chain| - 1 ==> chain[i] <= chain[i + 1]
    ensures chain[j] <= chain[k]
    decreases k - j
  {
    if j < k {
      ChainGrows(chain, j, k - 1);
      PrefixOfPrefix(chain[j], chain[k - 1], chain[k - 1 + 1]);
    }
  }

  lemma NextGrows(phase: Phase, after: Phase, id: string, pool: string, built: seq<Built>, write: Write)
    requires Next(phase, after, id, pool, built, write)
    ensures phase.copies <= after.copies
  {
  }

  lemma PrefixOfPrefix(a: seq<BundleCopy>, b: seq<BundleCopy>, c: seq<BundleCopy>)
    requires a <= b && b <= c
    ensures a <= c
  {
  }

  /** The rows present after `j` targets are present, unchanged, after any later number of targets. */
  lemma LaterWritesKeepRows(copies: seq<BundleCopy>, id: string, targets: seq<Target>, artifacts: seq<seq<Built>>,
                            writes: seq<Write>, j: nat, k: nat)
    requires |artifacts| == |targets| && |writes| == |targets| && j <= k <= |targets| && Unplaced(copies, id, targets)
    ensures WriteFirst(copies, id, targets, artifacts, writes, j).copies <= WriteFirst(copies, id, targets, artifacts, writes, k).copies
  {
    var phases := Phases(copies, id, targets, artifacts, writes);
    PhasesGrow(phases, id, targets, artifacts, writes, j, k);
  }

  lemma {:induction false} PhasesEscape(phases: seq<Phase>, id: string, targets: seq<Target>, artifacts: seq<seq<Built>>,
                                        writes: seq<Write>, k: nat)
    requires Follows(phases, id, targets, artifacts, writes) && k <= |targets| && !phases[0].escaped
    ensures phases[k].escaped <==> exists i :: 0 <= i < k && Stops(phases[i].copies, writes[i])
    decreases k
  {
    if k > 0 {
      PhasesEscape(phases, id, targets, artifacts, writes, k - 1);
      assert Next(phases[k - 1], phases[k - 1 + 1], id, targets[k - 1].pool, artifacts[k - 1], writes[k - 1]);
    }
  }

  /** The phase escapes exactly when some write raised an exception it does not absorb, or was given a
      locator the catalog already holds. */
  lemma EscapesExactly(copies: seq<BundleCopy>, id: string, targets: seq<Target>, artifacts: seq<seq<Built>>,
                       writes: seq<Write>, k: nat)
    requires |artifacts| == |targets| && |writes| == |targets| && k <= |targets| && Unplaced(copies, id, targets)
    ensures WriteFirst(copies, id, targets, artifacts, writes, k).escaped
            <==> exists i :: 0 <= i < k && StopsAt(copies, id, targets, artifacts, writes, i)
  {
    var phases := Phases(copies, id, targets, artifacts, writes);
    PhasesEscape(phases, id, targets, artifacts, writes, k);
    forall i | 0 <= i < k
      ensures StopsAt(copies, id, targets, artifacts, writes, i) <==> Stops(phases[i].copies, writes[i])
    {
    }
  }

  predicate StopsAt(copies: seq<BundleCopy>, id: string, targets: seq<Target>, artifacts: seq<seq<Built>>, writes: seq<Write>, i: nat)
    requires |artifacts| == |targets| && |writes| == |targets| && i < |targets|
  {
    Stops(WriteFirst(copies, id, targets, artifacts, writes, i).copies, writes[i])
  }

  /** The answers alone decide an escape: an exception, or a key in use before the phase or handed out
      twice in it. */
  predicate Unstorable(copies: seq<BundleCopy>, writes: seq<Write>, i: nat) {
    && i < |writes|
    && (writes[i].Escaped?
        || (KeyOf(writes[i]).Some?
            && (KeyRow(copies, KeyOf(writes[i]).value).Some? || exists j :: 0 <= j < i && KeyOf(writes[j]) == KeyOf(writes[i]))))
  }

  /** A key in use during the phase was in use before it or came with one of its writes. */
  lemma {:induction false} KeysComeFromWrites(phases: seq<Phase>, id: string, targets: seq<Target>,
                                              artifacts: seq<seq<Built>>, writes: seq<Write>, k: nat, key: string)
    requires Follows(phases, id, targets, artifacts, writes) && k <= |targets| && KeyRow(phases[k].copies, key).Some?
    ensures KeyRow(phases[0].copies, key).Some? || exists j :: 0 <= j < k && KeyOf(writes[j]) == Some(key)
    decreases k
  {
    if k > 0 {
      assert Next(phases[k - 1], phases[k - 1 + 1], id, targets[k - 1].pool, artifacts[k - 1], writes[k - 1]);
      if KeyRow(phases[k - 1].copies, key).Some? {
        KeysComeFromWrites(phases, id, targets, artifacts, writes, k - 1, key);
      } else {
        assert KeyOf(writes[k - 1]) == Some(key);
      }
    }
  }

  lemma EscapeCause(copies: seq<BundleCopy>, id: string, targets: seq<Target>, artifacts: seq<seq<Built>>,
                    writes: seq<Write>, k: nat)
    requires |artifacts| == |targets| && |writes| == |targets| && k <= |targets| && Unplaced(copies, id, targets)
    requires WriteFirst(copies, id, targets, artifacts, writes, k).escaped
    ensures exists i :: 0 <= i < |writes| && Unstorable(copies, writes, i)
  {
    var phases := Phases(copies, id, targets, artifacts, writes);
    PhasesEscape(phases, id, targets, artifacts, writes, k);
    var i :| 0 <= i < k && Stops(phases[i].copies, writes[i]);
    if !writes[i].Escaped? { KeysComeFromWrites(phases, id, targets, artifacts, writes, i, KeyOf(writes[i]).value); }
    assert Unstorable(copies, writes, i);
  }

  ghost predicate Partitions(copies: seq<BundleCopy>, id: string, artifacts: seq<seq<Built>>, phase: Phase,
                             pools: seq<string>) {
    && PhaseSound(copies, id, artifacts, phase, pools) && phase.media == pools
    && multiset(PoolsOf(phase.copies, phase.placed)) + multiset(phase.transient) + multiset(phase.failed) == multiset(pools)
  }

  lemma EffectPartitions(copies: seq<BundleCopy>, id: string, artifacts: seq<seq<Built>>, phase: Phase, after: Phase,
                         pools: seq<string>, pool: string, k: nat, write: Write)
    requires k < |artifacts| && k == |pools| && Partitions(copies, id, artifacts, phase, pools) && !Stops(phase.copies, write)
    requires Effect(phase, after, id, pool, artifacts[k], write)
    ensures Partitions(copies, id, artifacts, after, pools + [pool])
  {
    EffectSound(copies, id, artifacts, phase, after, pools, pool, k, write);
    PoolsAfter(phase, after, pool, write.Placed?);
    TalliesOneMore(PoolsOf(phase.copies, phase.placed), phase.transient, phase.failed, PoolsOf(after.copies, after.placed),
                   after.transient, after.failed, pools, pool, write);
  }

  lemma PoolsAfter(phase: Phase, after: Phase, pool: string, placed: bool)
    requires forall i :: 0 <= i < |phase.placed| ==> phase.placed[i] < |phase.copies|
    requires phase.copies <= after.copies && after.placed == if placed then phase.placed + [|phase.copies|] else phase.placed
    requires placed ==> |after.copies| > |phase.copies| && after.copies[|phase.copies|].pool == pool
    ensures forall i :: 0 <= i < |after.placed| ==> after.placed[i] < |after.copies|
    ensures PoolsOf(after.copies, after.placed) == if placed then PoolsOf(phase.copies, phase.placed) + [pool] else PoolsOf(phase.copies, phase.placed)
  {
  }

  lemma TalliesOneMore(placed: seq<string>, transient: seq<string>, failed: seq<string>, placedAfter: seq<string>,
                       transientAfter: seq<string>, failedAfter: seq<string>, pools: seq<string>, pool: string, write: Write)
    requires multiset(placed) + multiset(transient) + multiset(failed) == multiset(pools) && !write.Escaped?
    requires placedAfter == (if write.Placed? then placed + [pool] else placed)
    requires transientAfter == (if write.Transient? then transient + [pool] else transient)
    requires failedAfter == (if write.Failed? then failed + [pool] else failed)
    ensures multiset(placedAfter) + multiset(transientAfter) + multiset(failedAfter) == multiset(pools + [pool])
  {
  }

  lemma NothingWritten(copies: seq<BundleCopy>, id: string, artifacts: seq<seq<Built>>)
    ensures Partitions(copies, id, artifacts, Phase(copies, [], [], [], [], false), [])
  {
  }

  lemma {:induction false} PhasesPartition(phases: seq<Phase>, copies: seq<BundleCopy>, id: string, targets: seq<Target>,
                                           artifacts: seq<seq<Built>>, writes: seq<Write>, k: nat)
    requires Follows(phases, id, targets, artifacts, writes) && phases[0] == Phase(copies, [], [], [], [], false)
    requires k <= |targets| && !phases[k].escaped
    ensures Partitions(copies, id, artifacts, phases[k], Pools(targets[..k]))
    decreases k
  {
    if k == 0 {
      NothingWritten(copies, id, artifacts);
      assert Pools(targets[..0]) == [];
    } else {
      var j := k - 1;
      assert Next(phases[j], phases[j + 1], id, targets[j].pool, artifacts[j], writes[j]);
      PhasesPartition(phases, copies, id, targets, artifacts, writes, j);
      NextPartitions(copies, id, artifacts, phases[j], phases[k], Pools(targets[..j]), targets[j].pool, j, writes[j]);
      PoolsSnoc(targets, j);
    }
  }

  lemma NextPartitions(copies: seq<BundleCopy>, id: string, artifacts: seq<seq<Built>>, phase: Phase, after: Phase,
                       pools: seq<string>, pool: string, k: nat, write: Write)
    requires k < |artifacts| && k == |pools| && Partitions(copies, id, artifacts, phase, pools)
    requires Next(phase, after, id, pool, artifacts[k], write) && !after.escaped
    ensures Partitions(copies, id, artifacts, after, pools + [pool])
  {
    EffectPartitions(copies, id, artifacts, phase, after, pools, pool, k, write);
  }

  /** When no write escapes, each target gets exactly one write, in basis order, and the reported
      copies, the retryable pools and the failed pools partition the targets. */
  lemma WritesPartitionTargets(copies: seq<BundleCopy>, id: string, targets: seq<Target>, artifacts: seq<seq<Built>>,
                               writes: seq<Write>, k: nat)
    requires |artifacts| == |targets| && |writes| == |targets| && k <= |targets| && Unplaced(copies, id, targets)
    requires !WriteFirst(copies, id, targets, artifacts, writes, k).escaped
    ensures Partitions(copies, id, artifacts, WriteFirst(copies, id, targets, artifacts, writes, k), Pools(targets[..k]))
  {
    var phases := Phases(copies, id, targets, artifacts, writes);
    PhasesPartition(phases, copies, id, targets, artifacts, writes, k);
  }

  // ----- What becomes of each target -----

  /** No row stored since `from` is in this pool. */
  predicate NoneIn(copies: seq<BundleCopy>, from: nat, pool: string) {
    forall c :: from <= c < |copies| ==> copies[c].pool != pool
  }

  /** A verified write is stored unsuspect under its pool, key and artifact, and reported; a transient one
      leaves no row; a failed one leaves its row suspect, if it got that far; both are told apart. */
  ghost predicate OutcomeOf(from: nat, phase: Phase, id: string, pool: string, built: seq<Built>, write: Write) {
    match write
    case Placed(key) =>
      exists c :: from <= c < |phase.copies| && c in phase.placed && phase.copies[c] == BundleCopy(id, pool, key, Locators(built), false)
    case Transient(_) => pool in phase.transient && NoneIn(phase.copies, from, pool)
    case Failed(Some(key)) =>
      pool in phase.failed
      && exists c :: from <= c < |phase.copies| && phase.copies[c] == BundleCopy(id, pool, key, Locators(built), true)
    case Failed(None) => pool in phase.failed && NoneIn(phase.copies, from, pool)
    case Escaped => false
  }

  lemma OutcomeStarts(from: nat, phase: Phase, after: Phase, id: string, pool: string, built: seq<Built>, write: Write)
    requires from <= |phase.copies| && NoneIn(phase.copies, from, pool)
    requires Effect(phase, after, id, pool, built, write) && !Stops(phase.copies, write)
    ensures OutcomeOf(from, after, id, pool, built, write)
  {
    var n := |phase.copies|;
    if RowOf(id, pool, built, write).Some? {
      assert after.copies[n] == RowOf(id, pool, built, write).value;
      assert write.Placed? ==> after.placed[|phase.placed|] == n;
    }
    if write.Transient? { assert after.transient[|phase.transient|] == pool; }
    if write.Failed? { assert after.failed[|phase.failed|] == pool; }
  }

  lemma OutcomeStays(from: nat, phase: Phase, after: Phase, id: string, pool: string, built: seq<Built>, write: Write,
                     other: string, next: seq<Built>, later: Write)
    requires OutcomeOf(from, phase, id, pool, built, write) && other != pool && Effect(phase, after, id, other, next, later)
    ensures OutcomeOf(from, after, id, pool, built, write)
  {
    EffectGrows(phase, after, id, other, next, later);
    assert NoneIn(phase.copies, from, pool) ==> NoneIn(after.copies, from, pool);
    if write.Placed? {
      var c :| from <= c < |phase.copies| && c in phase.placed && phase.copies[c] == BundleCopy(id, pool, write.key, Locators(built), false);
      assert c in after.placed && after.copies[c] == phase.copies[c];
    } else if write.Failed? && write.recorded.Some? {
      var c :| from <= c < |phase.copies| && phase.copies[c] == BundleCopy(id, pool, write.recorded.value, Locators(built), true);
      assert after.copies[c] == phase.copies[c];
    }
  }

  lemma NoRowYet(copies: seq<BundleCopy>, id: string, artifacts: seq<seq<Built>>, phase: Phase, pools: seq<string>, pool: string)
    requires PhaseSound(copies, id, artifacts, phase, pools) && pool !in pools
    ensures NoneIn(phase.copies, |copies|, pool)
  {
    forall c | |copies| <= c < |phase.copies|
      ensures phase.copies[c].pool != pool
    {
      assert WrittenRow(phase.copies[c], id, artifacts, pools);
    }
  }

  lemma FirstOutcome(phases: seq<Phase>, copies: seq<BundleCopy>, id: string, targets: seq<Target>,
                     artifacts: seq<seq<Built>>, writes: seq<Write>, k: nat)
    requires Follows(phases, id, targets, artifacts, writes) && phases[0] == Phase(copies, [], [], [], [], false)
    requires Unplaced(copies, id, targets) && k < |targets| && !phases[k + 1].escaped
    ensures OutcomeOf(|copies|, phases[k + 1], id, targets[k].pool, artifacts[k], writes[k])
  {
    assert Next(phases[k], phases[k + 1], id, targets[k].pool, artifacts[k], writes[k]);
    PhasesPartition(phases, copies, id, targets, artifacts, writes, k);
    NewPool(copies, id, targets, k);
    NoRowYet(copies, id, artifacts, phases[k], Pools(targets[..k]), targets[k].pool);
    OutcomeStarts(|copies|, phases[k], phases[k + 1], id, targets[k].pool, artifacts[k], writes[k]);
  }

  lemma {:induction false} PhaseOutcome(phases: seq<Phase>, copies: seq<BundleCopy>, id: string, targets: seq<Target>,
                                        artifacts: seq<seq<Built>>, writes: seq<Write>, k: nat, n: nat)
    requires Follows(phases, id, targets, artifacts, writes) && phases[0] == Phase(copies, [], [], [], [], false)
    requires Unplaced(copies, id, targets) && k < n <= |targets| && !phases[n].escaped
    ensures OutcomeOf(|copies|, phases[n], id, targets[k].pool, artifacts[k], writes[k])
    decreases n
  {
    assert Next(phases[n - 1], phases[n - 1 + 1], id, targets[n - 1].pool, artifacts[n - 1], writes[n - 1]);
    if k == n - 1 {
      FirstOutcome(phases, copies, id, targets, artifacts, writes, k);
    } else {
      PhaseOutcome(phases, copies, id, targets, artifacts, writes, k, n - 1);
      OutcomeStays(|copies|, phases[n - 1], phases[n], id, targets[k].pool, artifacts[k], writes[k], targets[n - 1].pool, artifacts[n - 1], writes[n - 1]);
    }
  }

  /** Each target's write ends as its own answer says, whatever the other targets did. */
  lemma TargetOutcome(copies: seq<BundleCopy>, id: string, targets: seq<Target>, artifacts: seq<seq<Built>>,
                      writes: seq<Write>, k: nat)
    requires |artifacts| == |targets| && |writes| == |targets| && k < |targets| && Unplaced(copies, id, targets)
    requires !WriteFirst(copies, id, targets, artifacts, writes, |targets|).escaped
    ensures OutcomeOf(|copies|, WriteFirst(copies, id, targets, artifacts, writes, |targets|), id, targets[k].pool, artifacts[k], writes[k])
  {
    var phases := Phases(copies, id, targets, artifacts, writes);
    PhaseOutcome(phases, copies, id, targets, artifacts, writes, k, |targets|);
  }
}
