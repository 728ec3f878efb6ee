# Sutradhara: the bundle accumulator protocol and its evidence pipelines, in Dafny

Sutradhara archives assets by accumulating them into bundles and writing each bundle to several
pools. This project models the parts of it where a mistake loses data, and proves what they keep.

| files | what they model |
|---|---|
| `Text`, `Numerals`, `Ordering`, `Wrappers` | strings, hex and decimal, codepoint order, `Option` and `Result` |
| `MemberPath`, `MemberNaming`, `NamingLimits` | name tagging and its inverse; the collision ladder; the requests that run it out |
| `BundleCatalog`, `BundleInvariant`, `BundleRuns`, `BundleNames`, `BundleOrigins` | the catalog rows, the atomic steps of the accumulator protocol, what every run of them keeps, and where each row and column comes from |
| `BundleStore`, `AppendRace` | the catalog as an object; each operation, with its races, refines one atomic step; a race lost twice |
| `SourceMap`, `Attribution`, `FailureText`, `Arrangement` | the source-map TSV and its reader; which row a failure is charged to, by line and by message text; the entry builder |
| `Fanout`, `FanoutPhases`, `IdentityGate`, `FlushRows`, `FlushPlan`, `Flush`, `FlushIdentity` | building, validating and writing targets; the identity gate; what a flush is given; the quarantine-and-retry flush; what the gate means for a sealed bundle |
| `Sweeper`, `Deadlines` | reap, void, drain, due, and the sweep with a savepoint per bundle; when an opened bundle is swept |
| `SubmissionLinks`, `Submission` | submission convergence |
| `CanonicalJson`, `GroupIdentity`, `Thresholds`, `Placement`, `PolicyRuns`, `PlacementCatalog` | group fingerprints, thresholds, the projection column, the durability floor, and what an applied policy document keeps in force |
| `CopyEvidence`, `Scrub`, `ScrubDetails`, `ScrubLimits`, `CopyCatalog` | copy health, measurement receipts, and reconciliation; what a scrub makes of each object; the scrubs that fall short |
| `ByteStreams`, `Restore`, `RestoreBlame`, `LocalArchive`, `HeaderJson`, `ArchiveHeader` | the restore pipeline, the local archive format and its JSON header |

Source code that updates rows step by step is modelled by classes (`BundleStore.Catalog`,
`PlacementCatalog.Tables`, `CopyCatalog.Rows`, `ByteStreams.ChunkReader`, `ByteStreams.Folder`) and by
methods with loops. Each such method is proved equal to a function of the old state, and the protocol
properties are lemmas about those functions over whole runs.

Conventions. A function that runs inside one transaction is one atomic step, and a savepoint is
snapshot and restore. The claim and the archive-id mint are one step. SHA-256 is a function parameter:
nothing is assumed of it except, where a lemma says so, that it does not collide on the texts at hand.
zstd is an abstract inverse pair. Copy rows belong to sealed bundles (`Flush.CopiesSealed`): the flush,
the repair job and the cloud-blob job each store them in a transaction that leaves the bundle sealed; the
flush and the sweep are proved to keep it. Clocks, minted ids, process liveness, free space, and the answers of
builders and media are parameters.

## What the proofs found

- An extracted tag re-tags to the recorded name only when both names, or neither, contain a slash: for
  the request `a`, the recorded name `/a.t` is read as the tag `t` (`MemberPath.RetagsExactly`,
  `MemberPath.RootedNameMisread`).
- Another class's requests can run a member out of names, reached by appends from an empty bundle: seven
  literal requests for its rungs (`NamingLimits.LiteralLadderExhausts`), or a request whose base name
  carries the class segment, pushed up to its own 64-digit rung
  (`NamingLimits.TaggedNameExhaustsLadder`). So the ladder needs the condition that no requested base
  name carries a class segment, and with it never runs out (`MemberNaming.LadderNeverExhausted`).
- Claim tokens are process identities. If a process claims, is reaped, and claims again under the same
  identity, a close for the first claim can seal a row added in between
  (`BundleRuns.ReusedTokenSealsMore`); with distinct tokens it cannot
  (`BundleRuns.SealedContentIsClaimedContent`).
- An append re-runs its ladder once after losing an insert race, and the documentation says the retry
  recovers. It fails exactly when the second run also loses its name to a row it did not see
  (`BundleStore.Catalog.AddBundleMember`), which two rival appends bring about
  (`AppendRace.RetryLosesTwice`).
- `validate_built_members` accepts an artifact that repeats a member. What rules that out is the
  manifest join, or the tar builder's own construction (`Fanout.ValidCarriesOnceExactly`,
  `Fanout.RepeatedMemberAccepted`).
- A manifest that does not join, or joins and fails validation, raises an error the build phase does not
  catch: it stops the flush and quarantines no row (`FanoutPhases.BuildTarget`). Only a builder's refusal
  can be charged to one.
- The write phase absorbs transient and fan-out errors only. Any other exception, or a locator the catalog
  already holds, leaves media written and, under the sweep, the catalog rolled back; `Flush.FlushBundle`
  states that this is the only way a failed flush leaves a write behind.
- Map line failures are charged to the right row, for every line, if and only if no path holds a newline.
  Arrangement entries guarantee that; the flush-time map refuses only paths that are not UTF-8
  (`Attribution.LineAttributionExactly`). With a newline the innocent next row is charged, and quarantined
  (`Attribution.NewlineBlamesTheNextRow`).
- The row charged is read off the message text. A path that reads as a map line, or that contains the
  marker ending the quoted path, misleads the search (`FailureText.LinePathMisleads`,
  `FailureText.MarkerPathMisleads`, with the exact conditions in `FailureText.LineMessageRow` and
  `FailureText.DigestMessageRowExactly`).
- The identity gate keys linked rows by member id, so if two rows of one snapshot carried the same
  member it would check only the later one (`IdentityGate.GateSkipsEarlierRow`). Links are single and
  member ids unique, so every link of a sealed bundle was checked (`FlushIdentity.SealedLinksMatch`).
- The submission loop's presence check is what keeps links single: the same append made twice around
  a seal links one member from two rows (`SubmissionLinks.UnguardedAppendLinksTwice`).
- The write-fence guard and the policy-apply guard collect families differently, one skipping empty names;
  they count the same, since every backend kind has a named family (`Placement.GuardsAgree`).
- A scrub repeated under a run id that already promoted a copy leaves that copy missing
  (`ScrubLimits.ReplayedCopyStaysMissing`); and a second identical scrub adds a row for a container it had
  skipped if the container's asset has been registered since, which the first scrub itself can do
  (`ScrubLimits.SecondScrubAddsContainer`). The exact conditions are in `Scrub.ScrubReconciles` and
  `Scrub.SecondScrub`.
- A promotion whose execution already left a measurement for the copy fails for want of a re-measure
  job (`CopyEvidence.MeasuredThenPromotedFails`, exactly when in `CopyEvidence.MissingJobExactly`). A scrub
  never meets that failure (`Scrub.ScrubFailsOnPoolsOnly`).
- A zstd reader may stop before its input ends, and then the stored-digest check is never reached; the
  logical check still decides (`Restore.CleanIsVerified`). With a decompressor that reads its input to the end,
  rotten bytes of a transformed copy never make it suspect, only those of a copy stored as the asset itself
  (`RestoreBlame.TransformedEnds`, `RestoreBlame.UntransformedEnds`).

## Model

| member | source | states |
|---|---|---|
| MemberPath.ExtractUndoesTag | src/sutradhara/archive_bundle.py:609-645 | Extraction of a tagged path returns the tag, for every path and every non-empty slash-free tag. |
| MemberPath.RetagsExactly | src/sutradhara/archive_bundle.py:623-645 | An extracted tag re-tags to the recorded name if and only if both names or neither contain a slash. |
| MemberPath.RootedNameMisread | src/sutradhara/archive_bundle.py:623-645 | The family of names for which re-tagging fails: the rooted twin of a tagged root-level name. |
| MemberPath.TagCommutesWithSuffix | src/sutradhara/archive_bundle.py:609-620 | Tagging commutes with appending a slash-free dot-suffix. |
| MemberPath.TaggedSegments | src/sutradhara/archive_bundle.py:609-620 | A tag's dot segments land right after the first segment of the base name. |
| MemberPath.TagInjectiveInPath | src/sutradhara/archive_bundle.py:609-620 | Two paths that tag to the same name with the same tag are the same path. |
| MemberNaming.RunBecomesDash | src/sutradhara/archive_bundle.py:648-649 | In the class slug each maximal run of other characters becomes one dash. |
| MemberNaming.SlugKeepsSlugs | src/sutradhara/archive_bundle.py:648-649 | A class name of slug characters is its own slug. |
| MemberNaming.RungReadsBack | src/sutradhara/archive_bundle.py:663-682 | The tag read back off rungs 1 to 5 is the 10, 20, 32, 48 or 64 digit prefix of the member's digest. |
| MemberNaming.TerminalReadsBack | src/sutradhara/archive_bundle.py:648-682 | The tag read back off the last rung is the whole digest and the seeded class slug. |
| MemberNaming.WalkLadder | src/sutradhara/archive_bundle.py:685-722 | The ladder walk stops at the first rung that is free or the caller's own, and is exhausted only when all seven are foreign. |
| MemberNaming.ResolutionUnique | src/sutradhara/archive_bundle.py:685-722 | That rung is the only one with foreign rows below it that is itself free or own. |
| MemberNaming.StaleResolve | src/sutradhara/archive_bundle.py:758-799 | A walk over a stale view of the rows gives today's answer unless the free rung it found was taken since. |
| MemberNaming.TerminalRungIsOwn | src/sutradhara/archive_bundle.py:648-682 | A name off any rung of an admissible request equals another request's terminal rung only if class, digest and path agree. |
| MemberNaming.LadderNeverExhausted | src/sutradhara/archive_bundle.py:91-106 | With distinct class seeds, equal digests meaning equal logical hashes, and no class segment in a requested base name, the ladder never runs out. |
| NamingLimits.LiteralLadderExhausts | src/sutradhara/archive_bundle.py:91-106 | Without the base-name condition it does: from an empty bundle, seven appends of another class take all seven rungs, while seeds and digests are as required. |
| NamingLimits.TaggedNameExhaustsLadder | src/sutradhara/archive_bundle.py:663-682 | So can a tagged name: appends block the other rungs, and a request whose base name carries the class segment lands on the terminal rung, which nobody asked for by name. |
| NamingLimits.RungsDistinct | src/sutradhara/archive_bundle.py:663-682 | The seven rungs of a request are seven names. |
| MemberNaming.ReAddIsIdempotent | src/sutradhara/archive_bundle.py:685-722 | After any further appends, a repeated request resolves to its own earlier rung and changes no name. |
| BundleCatalog.MergeKeepsAndAdds | src/sutradhara/archive_bundle.py:145-184 | A metadata merge loses no link, adds exactly the incoming ones, and keeps the first writer's other keys. |
| BundleInvariant.ClaimKeeps | src/sutradhara/archive_fanout.py:630-637 | Claim with archive-id mint keeps the whole catalog invariant. |
| BundleInvariant.CloseKeeps | src/sutradhara/archive_bundle.py:559-592 | So does the guarded close. |
| BundleInvariant.ReapKeeps | src/sutradhara/archive_sweeper.py:248-300 | Reaping keeps the invariant and never yields an accumulator, because a claimed bundle carries an archive id. |
| BundleInvariant.VoidKeeps | src/sutradhara/archive_sweeper.py:115-150 | Voiding an empty orphan keeps the invariant. |
| BundleInvariant.GetOrCreateKeeps | src/sutradhara/archive_bundle.py:187-248 | Opening keeps the invariant and returns an open accumulator of the group. |
| BundleInvariant.AppendKeeps | src/sutradhara/archive_bundle.py:725-823 | An append keeps counters exact and paths unique, and never makes a second accumulator. |
| BundleInvariant.EnqueueKeeps | src/sutradhara/archive_bundle.py:301-444 | Enqueue, by accumulator, by funnel mint or by crash-retry, keeps the invariant; a minted funnel holds at least its target. |
| BundleInvariant.QuarantineKeeps | src/sutradhara/archive_fanout.py:1246-1329 | Quarantine keeps the invariant, in both bundles. |
| BundleInvariant.QuarantineConserves | src/sutradhara/archive_fanout.py:1279-1302 | Quarantine moves one row and exactly its transforms; the two bundles' row and byte totals together are unchanged, and no other bundle changes. |
| BundleRuns.RunKeepsInv | alembic/versions/b9c8d7e6f5a4_bundle_groups_schema.py:191-198 | In every run: at most one open bundle without archive id per group, counters equal to the rows, paths unique per bundle, coherent lifecycle columns, transforms in their member's bundle. |
| BundleRuns.TerminalIsForever | src/sutradhara/archive_bundle.py:517-592 | Sealed and void are terminal: no run changes the bundle row or any of its member rows. |
| BundleRuns.ClaimStartsHere | src/sutradhara/archive_bundle.py:517-556 | Only a claim with that token puts a bundle under it. |
| BundleRuns.ClaimHeldThroughout | src/sutradhara/archive_bundle.py:559-592 | If the token is not reused, a claim present at the end of a run was held in every state of it. |
| BundleRuns.SealedContentIsClaimedContent | src/sutradhara/archive_bundle.py:559-592 | A flusher that closes seals exactly the rows it claimed less rows now in held bundles, and no later run changes them. |
| BundleRuns.ReusedTokenSealsMore | src/sutradhara/archive_bundle.py:539-548 | With a reused token, claim, reap, append, claim and close end sealed over a row the first claim did not take. |
| BundleNames.RowLasts | src/sutradhara/archive_fanout.py:1279-1286 | No run deletes a row or changes what it names; links only grow; the bundle changes only into a held one. |
| BundleNames.RunKeepsStaging | src/sutradhara/archive_bundle.py:910-925 | In every run each recorded staging step stays true of its member: the final one has its path and digest, the first its logical hash, and steps are numbered apart. |
| BundleNames.RunNeverExhaustsNames | src/sutradhara/archive_bundle.py:758-823 | In every run over an admissible set of requests, no append of one of them runs out of names. |
| BundleNames.ReAddFindsTheRow | src/sutradhara/archive_bundle.py:725-823 | Re-adding a request to a bundle that is open, after any run that quarantined nothing out of it, returns the same row and leaves all counters alone. |
| BundleOrigins.AccumulatorColumns | src/sutradhara/archive_bundle.py:203-277 | An open succeeds exactly when the group has an accumulator or the id is new; a new accumulator has the given group, thresholds and time, is empty and unclaimed, has no archive id or flush stamp, and nothing else changes. |
| BundleOrigins.FunnelColumns | src/sutradhara/archive_bundle.py:391-420 | A minted funnel has the given group, thresholds and time and its archive id from the start; a funnel adopted instead is open, of the group, with an archive id. |
| BundleOrigins.AppendSucceedsExactly | src/sutradhara/archive_bundle.py:725-823 | An append succeeds exactly when the bundle is open, the asset known, and some rung of the ladder free or the request's own. |
| BundleOrigins.EnqueueSucceedsExactly | src/sutradhara/archive_bundle.py:301-444 | An enqueue succeeds exactly when the asset is known, the thresholds are positive, and the bundle it goes to, accumulator below the target and funnel from it on, is open or can be opened, with a name left. |
| BundleOrigins.FunnelRetryFindsRow | src/sutradhara/archive_bundle.py:358-390 | An enqueue whose lookup found a funnel lands on the row it holds, under the requested name, and makes neither row nor bundle. |
| BundleOrigins.MintedFunnelIsFound | src/sutradhara/archive_bundle.py:391-420 | A funnel minted for a member is one the lookup finds, so a crash-retry repeats nothing. |
| BundleOrigins.CreatedRowIsItem | src/sutradhara/archive_bundle.py:800-823 | A row an append makes has the request's class, hashes, size and metadata, under a name off its ladder. |
| BundleOrigins.StagingRecordedExactly | src/sutradhara/archive_bundle.py:891-943 | A staging step is recorded exactly when it fits its member and neither unique index holds it already. |
| BundleOrigins.OpeningOf | src/sutradhara/archive_bundle.py:251-277 | In every run each new bundle was opened by some enqueue or quarantine of it, and has that step's group, thresholds and time for good. |
| BundleOrigins.ColumnsStay | src/sutradhara/archive_bundle.py:517-592 | No run changes the group, thresholds or opening time of a bundle, or takes away its archive id. |
| BundleOrigins.FlushStampIsClaim | src/sutradhara/archive_bundle.py:517-556 | A flush stamp is the time of a claim of that bundle. |
| BundleOrigins.RowOrigin | src/sutradhara/archive_bundle.py:725-823 | In every run each new row was made by one of its appends, and still has that item's class, hashes, size, name and metadata. |
| BundleStore.Catalog.FindOpenAccumulator | src/sutradhara/archive_bundle.py:187-200 | Finds a visible open accumulator of the group exactly when there is one. |
| BundleStore.Catalog.GetOrCreateOpenBundle | src/sutradhara/archive_bundle.py:203-248 | Whatever the first read saw, the outcome is the atomic open-or-adopt step, whose columns `BundleOrigins.AccumulatorColumns` gives: the loser of the insert race adopts the winner. |
| BundleStore.Catalog.MergeMetadata | src/sutradhara/archive_bundle.py:145-184 | The row gets exactly the merged metadata, and a change is reported exactly when there is one. |
| BundleStore.StaleAppend | src/sutradhara/archive_bundle.py:758-799 | What a ladder run over a prefix of the rows implies for an append to all of them. |
| BundleStore.Catalog.AddBundleMember | src/sutradhara/archive_bundle.py:725-823 | The two-attempt append, each attempt on a view of its own, fails and changes nothing exactly when both lose their name to a row not seen, and otherwise ends as the atomic append. |
| AppendRace.RetryLosesTwice | src/sutradhara/archive_bundle.py:758-791 | Both attempts can lose: a rival takes the requested name after the first look and the next rung after the second. |
| BundleStore.FullViewKeepsName | src/sutradhara/archive_bundle.py:784-791 | A retry that sees today's rows does not lose its name. |
| BundleStore.Catalog.FunnelProbe | src/sutradhara/archive_bundle.py:358-373 | Returns the open funnel of the group that already holds this member and was opened first, if there is one. |
| BundleStore.Catalog.EnqueueArtifact | src/sutradhara/archive_bundle.py:301-444 | Ends exactly as the atomic enqueue on the probed funnel, or loses its name twice; leaves the catalog alone when it fails. |
| BundleStore.Catalog.ClaimForFlush | src/sutradhara/archive_bundle.py:517-556 | Succeeds exactly on an open bundle, and then is the atomic claim. |
| BundleStore.Catalog.CloseBundle | src/sutradhara/archive_bundle.py:559-592 | Succeeds exactly on a bundle flushing under that token, and then is the atomic close. |
| BundleStore.Catalog.QuarantineMember | src/sutradhara/archive_fanout.py:1246-1329 | The row, transform and counter updates together are the atomic quarantine. |
| BundleStore.Catalog.RecordStagingTransform | src/sutradhara/archive_bundle.py:891-943 | A transform row is added with its member's bundle exactly when its path and digests fit the member and neither unique index refuses it. |
| SourceMap.RenderSourceMap | src/sutradhara/arrangement.py:384-401 | The rendering loop produces the header and one line per entry. |
| SourceMap.MapRoundTripsExactly | src/sutradhara/arrangement.py:384-401 | Splitting the rendered map recovers the exact entry list, empty lineage distinct from any id, if and only if no path holds a tab or newline. |
| Attribution.LineAttributionExactly | src/sutradhara/archive_fanout.py:1223-1234 | Every failed map line is charged to exactly the row it describes, header, tail and out-of-range lines to none, if and only if no path holds a newline. |
| FailureText.LineMessageRow | src/sutradhara/archive_fanout.py:774-776 | A message naming line n is charged to that line's row, unless the text before it already names a line, which then decides. |
| FailureText.DigestMessageRowExactly | src/sutradhara/archive_fanout.py:777-779 | A digest message for row k is charged to row k if and only if its path ends the quoted match where it should, or, when the text reads as a map line, that line is row k's. |
| FailureText.LinePathMisleads | src/sutradhara/archive_fanout.py:1223-1243 | A path that reads as map line 3 has its digest failure charged to row 1. |
| FailureText.MarkerPathMisleads | src/sutradhara/archive_fanout.py:1235-1243 | A path that contains the end marker is cut there, and the row with the cut path is charged. |
| Attribution.NewlineBlamesTheNextRow | src/sutradhara/archive_fanout.py:1223-1234 | With a newline in the first row's path, line 3 is that row's own tail, and the second row is charged for it. |
| Arrangement.RejectControlChars | src/sutradhara/arrangement.py:630-634 | Accepts exactly control-free values, which therefore hold no separator. |
| Arrangement.CanonicalExactly | src/sutradhara/arrangement.py:404-424 | A member path is accepted, unchanged, exactly when it is non-empty, control-free, NFC, backslash-free and every segment is proper. |
| Arrangement.EntryIsClean | src/sutradhara/arrangement.py:427-481 | An accepted entry has clean paths and the digest and size of the file it names. |
| Arrangement.EntryAcceptedExactly | src/sutradhara/arrangement.py:427-481 | A row becomes an entry exactly when its path is canonical and its item is live, of the class, and names a file of the item's digest and size; the entry has that path, file, digest and size, and the item for lineage. |
| Arrangement.ActiveExactly | src/sutradhara/arrangement.py:427-441 | The active rows are the rows not excluded, each as often. |
| Arrangement.BuildSourceMapEntries | src/sutradhara/arrangement.py:427-481 | Succeeds exactly when every active row is acceptable and paths are distinct; then one entry per active row in path order, and the rendered map reads back. |
| Fanout.ValidateBuiltMembers | src/sutradhara/archive_fanout.py:963-1020 | Accepts exactly artifacts whose every member agrees with its input and which omit none. |
| Fanout.ValidCarriesOnceExactly | src/sutradhara/archive_fanout.py:963-1020 | An accepted artifact carries each member exactly once if and only if it has as many members as inputs. |
| Fanout.RepeatedMemberAccepted | src/sutradhara/archive_fanout.py:963-1020 | Repeating a member of an accepted artifact is accepted. |
| Fanout.MembersFromManifest | src/sutradhara/archive_fanout.py:2081-2147 | Succeeds exactly when inputs are distinct and the manifest names each once with its size and digest; the result is the manifest joined to the inputs. |
| Fanout.ManifestCarriesOnce | src/sutradhara/archive_fanout.py:2081-2147 | A joined, validated manifest carries each input exactly once. |
| Fanout.TarCarriesOnce | src/sutradhara/archive_fanout.py:1722-1778 | The tar builder's report validates, carries each input exactly once, and keeps its lineage. |
| Fanout.HonestManifestJoins | src/sutradhara/archive_fanout.py:2081-2147 | A manifest that reports each of the distinct inputs once, in any order, joins and validates. |
| FanoutPhases.BuildTarget | src/sutradhara/archive_fanout.py:1117-1144 | One target ends in a validated artifact exactly when its manifest joins and validates; a refusal is charged to the row its message names; everything else, an unsound manifest included, aborts. |
| FanoutPhases.HonestTargetBuilds | src/sutradhara/archive_fanout.py:1117-1144 | A tar target builds whatever its builder reports, and a rem target on an honest manifest. |
| FanoutPhases.PrepareTargets | src/sutradhara/archive_fanout.py:1116-1149 | The build phase ends with every target built and validated, or at the first that is not; it touches neither catalog nor media. |
| FanoutPhases.WriteTargets | src/sutradhara/archive_fanout.py:1151-1216 | The write loop with its savepoints refines the write-phase function, up to the first exception it does not absorb. |
| FanoutPhases.StoredFresh | src/sutradhara/catalog/copies.py:148-183 | With no row of this bundle and pool, a copy row is stored fresh or, when its locator is known, refused; reuse cannot happen. |
| FanoutPhases.StoredExactly | src/sutradhara/catalog/copies.py:148-183 | A new key makes a row; a known one is refused for another bundle or pool or a locator it has, and otherwise its row gains the locators and takes the new verdict. |
| FanoutPhases.WritesSound | src/sutradhara/archive_fanout.py:1503-1590 | For a bundle with no copy yet, every row the phase stores is new and has the pool and exactly the locators of its own target's artifact; the unsuspect ones are exactly the reported ones. |
| FanoutPhases.LaterWritesKeepRows | src/sutradhara/archive_fanout.py:1156-1194 | A later failure leaves the rows of earlier targets intact. |
| FanoutPhases.EscapesExactly | src/sutradhara/archive_fanout.py:1156-1194 | The phase escapes exactly when some write raised an exception it does not absorb, or returned a locator the catalog already holds. |
| FanoutPhases.WritesPartitionTargets | src/sutradhara/archive_fanout.py:1151-1216 | Otherwise each target gets exactly one write in order, and reported copies, transient and failed pools partition the targets. |
| FanoutPhases.TargetOutcome | src/sutradhara/archive_fanout.py:1151-1216 | Each target's write ends as its own answer says, whatever the others did: a placed one is reported with an unsuspect row, a failed one leaves a suspect row exactly when it had a locator, a transient one leaves none. |
| IdentityGate.ValidateIdentity | src/sutradhara/archive_fanout.py:898-960 | Passes exactly when the last row carrying each linked member matches its record. |
| IdentityGate.GateChecksEveryLink | src/sutradhara/archive_fanout.py:898-960 | When links are single, it passes exactly when every linked row matches every member it carries. |
| IdentityGate.GateSkipsEarlierRow | src/sutradhara/archive_fanout.py:918-930 | When two rows carry one member, a mismatch on the earlier goes unseen. |
| FlushRows.SortedRowsExact | src/sutradhara/archive_fanout.py:791-801 | The snapshot lists every row of the bundle once, in strict codepoint order of path, and nothing else. |
| FlushRows.ArtifactCovers | src/sutradhara/archive_fanout.py:1781-1799 | An artifact that carries each input once yields exactly one locator per row, with its path and hashes. |
| FlushPlan.ReadyIsFinal | src/sutradhara/archive_fanout.py:652-710 | Rows that fit, match, map and build on an attempt are charged to nobody, and refused only by the media. |
| Flush.Attempt | src/sutradhara/archive_fanout.py:652-710 | One pass writes only when the identity gate passed and every target has a validated artifact; a pass that quarantines charges the row its failure names; a pass that refuses gives the reason that holds; neither has written. |
| Flush.Retry | src/sutradhara/archive_fanout.py:711-731 | A charged failure quarantines one more row; the quarantine bound is unreachable. |
| Flush.FlushClaimed | src/sutradhara/archive_fanout.py:645-731 | The loop ends, on the number of remaining rows, with no write before the last pass. |
| Flush.FlushBundle | src/sutradhara/archive_fanout.py:563-764 | For any answers of builder and media: the flush is a run of protocol steps, a claim and then one quarantine per charged failure; it seals a non-empty part that passed the identity gate, with one locator per sealed row in every copy it stored and one write per target, or fails with no write, or an exception escaped the write phase. Each early refusal is given exactly for its reason, each later one for a reason that holds, and a bundle that can be sealed is. |
| Flush.FlushSucceeds | src/sutradhara/archive_fanout.py:563-764 | A flush of an open, non-empty bundle with targets, room for its bytes per target, rows that fit, match and map, targets that build and writes that can be stored ends sealed. |
| Flush.Preflight | src/sutradhara/archive_fanout.py:590-629 | The checks before the claim refuse exactly a missing, closed or empty bundle, one without targets, and one without room for its bytes per target, in that order. |
| Flush.SealedSplitsClaimed | src/sutradhara/archive_fanout.py:645-733 | Sealed and quarantined rows partition the claimed snapshot, in rows, bytes and counters; the sealed part is non-empty and other bundles' rows are untouched. |
| FlushIdentity.LinksCarriedOnce | src/sutradhara/archive_fanout.py:918-930 | Links single per submission member are single per member id, so no two rows of a snapshot carry one member. |
| FlushIdentity.SealedLinksMatch | src/sutradhara/archive_fanout.py:898-960 | Every submission link on every row of a sealed bundle matches its submission member on hash, staged digest, size and lineage. |
| Sweeper.NoBundleStranded | src/sutradhara/archive_sweeper.py:153-205 | In every reachable catalog a non-empty open bundle is selected by the next sweep or adopted by the next enqueue of a live class; from opened_at plus max_age on it is selected. |
| Sweeper.ReapedIsDueAnyway | src/sutradhara/archive_sweeper.py:187-205 | A reaped bundle below its target and before its age is due although `bundle_due` alone refuses it. |
| Sweeper.ReapStuckFlushing | src/sutradhara/archive_sweeper.py:248-300 | Exactly the flushing bundles without a live claim are reopened and reported; nothing else changes. |
| Sweeper.VoidSealOrphans | src/sutradhara/archive_sweeper.py:108-150 | Exactly the empty accumulators no live class derives are voided and reported, in order of opening time and id. |
| Sweeper.SealFreezesOthers | src/sutradhara/archive_fanout.py:645-733 | A flush that seals one bundle leaves every other bundle's row and member rows alone. |
| Sweeper.FlushInSavepoint | src/sutradhara/archive_sweeper.py:345-358 | A failed flush restores every table. |
| Sweeper.SweepBundles | src/sutradhara/archive_sweeper.py:303-377 | A bundle is flushed or recorded as failed exactly when it holds rows and is open at its byte target, past its age, of no live class, or reaped, now or by this sweep; flushed, it is sealed over a non-empty part of its rows with the rest held and one locator per row in each new copy; failed or not due, it keeps its row and member rows, but for the reap and the void. Reaped, voided and drained ids are reported exactly. |
| Sweeper.SelectedExactly | src/sutradhara/archive_bundle.py:475-505 | What a sweep selects, in rows and columns: open, non-empty, and of no live class, at its byte target, past its age, or reaped. |
| Sweeper.SweepFlushesExactly | src/sutradhara/archive_sweeper.py:303-377 | A sweep flushes or fails exactly the selected bundles and leaves every other bundle and its rows alone. |
| Sweeper.SweepFate | src/sutradhara/archive_sweeper.py:303-377 | The fate of each bundle over a whole sweep, from the catalog before it. |
| Sweeper.ReportsAll | src/sutradhara/archive_sweeper.py:303-377 | The reaped, voided and drained lists, from the catalog before the sweep. |
| Deadlines.OpenedIsDueInTime | src/sutradhara/archive_bundle.py:492-505 | A bundle opened by an enqueue at a time with a maximum age, after any run that leaves it open and non-empty, is selected by every sweep from the sum of the two on. |
| Deadlines.OpenedIsSwept | src/sutradhara/archive_sweeper.py:303-377 | So every such sweep flushes it or records its failure. |
| SubmissionLinks.LinksStaySound | src/sutradhara/archive_submission.py:109-161 | Over any interleaving with other producers, seals, reaps, quarantines and retries, each submission member is linked from at most one row, of its own content. |
| SubmissionLinks.LinkIsForever | src/sutradhara/archive_bundle.py:767-769 | A link stays on its row through merges, quarantine moves and every other step. |
| SubmissionLinks.UnguardedAppendLinksTwice | src/sutradhara/archive_submission.py:124-131 | Without the presence check, the same append around a seal links a member from two rows. |
| Submission.SubmissionBundleMembers | src/sutradhara/archive_submission.py:164-195 | The scan maps exactly the members found on rows of the submission's content. |
| Submission.ScanFindsLinked | src/sutradhara/archive_submission.py:164-195 | Scanning by content hash finds exactly the submission's linked members. |
| Submission.AlreadyIsAll | src/sutradhara/archive_submission.py:117-122 | Comparing the two sizes decides whether every member is linked. |
| Submission.ArchiveSubmission | src/sutradhara/archive_submission.py:85-161 | A call makes only guarded appends of its own members, each with its path, class, hash and size; a completed call leaves all of them linked, each on a row it can share, and every new row made for one of them; once they are, a call appends nothing. It is refused early exactly for its status, no members, or drifted sources, and fails later only for a name lost twice or a member that cannot be enqueued. |
| Submission.PartLands | src/sutradhara/archive_submission.py:124-159 | An append that goes through puts the member's link on a row of its class and content, under a name off its ladder. |
| Submission.CallRows | src/sutradhara/archive_submission.py:124-159 | Over a call the rows that were there keep all but their metadata, and each new row has the path ladder, size and digest of one of the members. |
| CanonicalJson.CharRoundTrip | src/sutradhara/bundle_group.py:77-83 | Every character survives ASCII escaping and reading back, surrogate pairs included, as section 7 of RFC 8259 requires. |
| CanonicalJson.BasisRoundTrip | src/sutradhara/bundle_group.py:77-83 | The canonical text of a basis reads back as that basis, so it is injective. |
| GroupIdentity.BasisIgnoresRowOrder | src/sutradhara/bundle_group.py:53-74 | However the catalog lists the rows, the basis is the same. |
| GroupIdentity.FingerprintIdentifiesRows | src/sutradhara/bundle_group.py:86-97 | Two classes have equal fingerprints if and only if their active (pool, representation) sets are equal, unless the hash collides on their two texts. |
| GroupIdentity.ComputeBundleGroup | src/sutradhara/bundle_group.py:53-97 | The computed basis is sorted, has exactly the active rows, and its fingerprint is the canonical one. |
| Thresholds.GroupThresholds | src/sutradhara/bundle_group.py:175-223 | The target is the largest declared one clamped up by the strictest pool floor, the age the smallest declared one. |
| Thresholds.EffectiveGroupThresholds | src/sutradhara/bundle_group.py:226-258 | Fails exactly on an empty basis or zero thresholds, and otherwise returns positive effective thresholds. |
| Thresholds.EffectiveUnique | src/sutradhara/bundle_group.py:175-223 | Effective thresholds are unique. |
| Thresholds.OpenerDoesNotMatter | src/sutradhara/bundle_group.py:175-223 | With an exact projection, the thresholds do not depend on which class of the group opens. |
| Placement.RunKeepsProjection | src/sutradhara/artifactclass_policy.py:329-379 | After any run of applies, representation changes and fences, every policy class's stored group equals its live derivation. |
| Placement.GuardsAgree | src/sutradhara/catalog/types.py:45-67 | The fence guard and the apply guard count the same families, since every backend kind maps to a named one. |
| Placement.DrainKeepsFloorsExactly | src/sutradhara/pools.py:94-182 | Draining a pool keeps every floor if and only if the guard finds no violation. |
| Placement.UnfenceKeepsFloors | src/sutradhara/pools.py:94-126 | Reopening a pool keeps every floor. |
| Placement.RunKeepsFloors | src/sutradhara/artifactclass_policy.py:417-441 | After any run of applies, representation changes and unforced fences, every policy class keeps its copies and families floor. |
| PolicyRuns.ApplySucceedsExactly | src/sutradhara/artifactclass_policy.py:395-441 | An apply succeeds exactly when every listed and preferred pool is registered and enough of the document's active pools, over enough families, accept writes. |
| PolicyRuns.AppliedGoverns | src/sutradhara/artifactclass_policy.py:293-379 | After an apply the class's record has the document's target, age, copies and families, its active pools are exactly the document's, and other classes' records and memberships are as before. |
| PolicyRuns.RunKeepsGoverning | src/sutradhara/pools.py:55-126 | A document stays in force over every run of other classes' applies, representation changes and unforced fences. |
| PolicyRuns.DocumentFloor | src/sutradhara/artifactclass_policy.py:417-441 | After an apply and any such run the class has at least the document's copies and families among its write-eligible pools. |
| PolicyRuns.SameFamilyExactly | src/sutradhara/catalog/types.py:45-67 | Two backend kinds share a family exactly when both are disk or both cloud storage. |
| PolicyRuns.RepresentExactly | src/sutradhara/pools.py:55-91 | A pool takes a representation exactly when it has it already or nothing was written to it; only that column of that pool changes. |
| PolicyRuns.FenceExactly | src/sutradhara/pools.py:94-126 | A pool takes a fence unless draining it unforced would leave a class below its floor; only that column of that pool changes. |
| PolicyRuns.UsedPoolKeepsRepresentation | src/sutradhara/pools.py:74-82 | A pool that was written to keeps its representation in every run. |
| PolicyRuns.SharedGroupExactly | src/sutradhara/bundle_group.py:53-97 | After any run two classes with policies share a group exactly when they have the same active pools. |
| PlacementCatalog.Tables.RefreshProjections | src/sutradhara/bundle_group.py:277-291 | Refresh writes the derived group of exactly the listed classes with a record. |
| PlacementCatalog.Tables.SetPoolRepresentation | src/sutradhara/pools.py:55-91 | The setter is the representation step, its refusals included. |
| PlacementCatalog.Tables.WriteFenceFloorViolations | src/sutradhara/pools.py:146-182 | The loop collects exactly the classes the fence would leave below their floor. |
| PlacementCatalog.Tables.SetPoolWriteFence | src/sutradhara/pools.py:94-126 | The setter is the fence step, its refusals included. |
| PlacementCatalog.Tables.ApplyArtifactclassPolicy | src/sutradhara/artifactclass_policy.py:293-379 | Apply succeeds exactly when the document can be applied, and then puts it in force: the record has its numbers, the active pools are its active ones, the floor is met, and no other class changes. It is the policy step, projection refresh included. |
| CopyEvidence.RunKeepsFold | src/sutradhara/evidence_recorder.py:28-146 | After any run, a copy's measured digest is the digest of its latest receipt. |
| CopyEvidence.RunKeepsTruth | src/sutradhara/evidence_recorder.py:55-91 | After any run a healthy copy with a measurement was measured to its expected digest, and every receipt's failure kind is the one its own digests and backend answer show. |
| CopyEvidence.MeasurementRecords | src/sutradhara/evidence_recorder.py:28-91 | What an accepted measurement leaves on the copy and on its receipt, and when it is accepted. |
| CopyEvidence.PromotionRecords | src/sutradhara/evidence_recorder.py:94-146 | What an accepted promotion leaves, and when it is accepted. |
| CopyEvidence.VerifiedOnlyByMeasurement | src/sutradhara/durability.py:435-451 | Only a clean measurement of a copy that is not deleted makes it count as verified. |
| CopyEvidence.VerifiedMeansHealthySince | src/sutradhara/durability.py:435-451 | A copy verified at the end of a run was measured clean at some step and has been healthy, undeleted and with that measurement in every state since. |
| CopyEvidence.ReleasedIsForever | src/sutradhara/retention.py:480-483 | A deleted copy keeps its deletion mark in every run and is never verified again. |
| CopyEvidence.MeasureReplayIsNoop | src/sutradhara/evidence_recorder.py:28-91 | Replaying a measurement execution after any further steps changes nothing. |
| CopyEvidence.PromotionReplayIsNoop | src/sutradhara/evidence_recorder.py:94-146 | Replaying a promotion after any further steps succeeds and changes nothing. |
| CopyEvidence.MissingJobExactly | src/sutradhara/evidence_recorder.py:94-163 | A well-formed promotion fails if and only if its execution left a receipt and the copy was never promoted. |
| CopyEvidence.MeasuredThenPromotedFails | src/sutradhara/evidence_recorder.py:94-163 | It does happen: a measurement and then a promotion under one execution, from an empty catalog. |
| Scrub.RefoundEffect | src/sutradhara/scrub.py:186-236 | Finding a copy again touches that row only, and leaves it missing exactly when the promotion is a replay. |
| Scrub.ScrubReconciles | src/sutradhara/scrub.py:68-110 | After a scrub the backend's non-missing rows are exactly the enumerated ones, save replayed promotions; unknown containers aside, everything enumerated is catalogued; no row is removed and no other backend changes. |
| Scrub.FreshRunReconciles | src/sutradhara/scrub.py:68-110 | With a fresh run id there is no exception. |
| Scrub.ScrubAddsExactly | src/sutradhara/scrub.py:113-183 | A scrub adds no row if and only if every object is catalogued or an unknown container. |
| Scrub.SecondScrub | src/sutradhara/scrub.py:85-110 | A second identical scrub marks nothing missing, and adds nothing if and only if no skipped container's asset is known by then. |
| ScrubLimits.SecondScrubAddsContainer | src/sutradhara/scrub.py:142-166 | It does happen: from an empty catalog, a container of an unknown asset and then a plain object of it; the second scrub adds the container's row. |
| ScrubLimits.ReplayedCopyStaysMissing | src/sutradhara/scrub.py:217-226 | From an empty catalog, a copy promoted under a run id and lost again stays missing in a scrub under that id that enumerates it intact. |
| Scrub.ScrubFailsOnPoolsOnly | src/sutradhara/scrub.py:186-236 | After any history, a scrub's promotions never fail: only a pool disagreement does. |
| ScrubDetails.ScrubDetailed | src/sutradhara/scrub.py:113-250 | After a scrub a catalogued copy that was enumerated is suspect for another integrity hash or a stored form that is not the logical one, is promoted on trust from missing or suspect unless this run already did, and otherwise keeps its health. |
| ScrubDetails.AddedRowHasRecord | src/sutradhara/scrub.py:142-183 | Every row a scrub adds has the logical and integrity hash and pool of an enumerated object, the pool's representation, and is healthy exactly when the two hashes agree, suspect otherwise. |
| ScrubDetails.CataloguesExactly | src/sutradhara/scrub.py:142-166 | An object is catalogued unless it is a container of an asset unknown at the start, and not catalogued if nothing enumerated before it registered the asset. |
| ScrubDetails.ScrubRegisters | src/sutradhara/scrub.py:142-166 | The assets registered are exactly those of the objects that got a new row. |
| ScrubDetails.ScrubSucceedsExactly | src/sutradhara/scrub.py:186-297 | After any history a scrub succeeds exactly when every object that names a pool names one of this backend, of the representation it shows, and the pool and representation of the row it finds. |
| Scrub.ScrubIsRun | src/sutradhara/scrub.py:68-236 | A scrub is a run of evidence steps, so it keeps what every run keeps. |
| CopyCatalog.Rows.RecordMeasured | src/sutradhara/evidence_recorder.py:28-91 | Accepted exactly for a real measurement by a recorder other than the scrub; a replay changes nothing; otherwise the copy is corrupt exactly when the digest differs, suspect exactly when it agrees and the backend failed or the identity is unproven, healthy otherwise, and the receipt says which. |
| CopyCatalog.Rows.RecordUnmeasuredPromotion | src/sutradhara/evidence_recorder.py:94-146 | The recorder is the promotion step; no replay, it makes the copy healthy, drops its measurement, says so on the receipt and queues the re-measure. |
| CopyCatalog.Rows.UpdateExistingCopy | src/sutradhara/scrub.py:186-236 | The row update is the refound step. |
| CopyCatalog.Rows.IngestRecord | src/sutradhara/scrub.py:113-183 | One record's ingest is the ingest step; on an error it has written exactly what the source writes before raising. |
| CopyCatalog.Rows.MarkStranded | src/sutradhara/scrub.py:103-108 | Exactly the rows left over become missing, and the count is of those that were not already. |
| CopyCatalog.Rows.ScrubBackend | src/sutradhara/scrub.py:68-110 | The pass is the scrub function, and with distinct locators it reconciles, each row it met or made is as the object calls for, and the report counts the rows added, met and newly missing; on an error the rows are those of the records before the failing one and what that one wrote. |
| ByteStreams.ChunkReader.ReadInto | src/sutradhara/archive_restore.py:158-171 | One read delivers a prefix of what is pending, and nothing only at the end. |
| ByteStreams.ChunkReader.ReadAll | src/sutradhara/archive_restore.py:148-171 | Whatever the chunk boundaries and buffer sizes, the reads deliver exactly the concatenation. |
| ByteStreams.RequireExactRange | src/sutradhara/archive_restore.py:1775-1788 | The generator refines the range-check function. |
| ByteStreams.ExactRangePasses | src/sutradhara/archive_restore.py:1775-1788 | A byte too many is a range failure at once; otherwise the stream's own failure goes through, and a clean end too early is a range failure; on a clean end all bytes have passed, and never more than expected. |
| ByteStreams.VerifyChunks | src/sutradhara/archive_restore.py:1791-1860 | All chunks pass, and the end is clean only for the expected digest and size. |
| ByteStreams.Folder.AtomicWriteVerified | src/sutradhara/restore.py:169-225 | The destination changes only to the whole stream, only when it ended cleanly with the expected size and digest; no temporary file stays. |
| Restore.ReverseTransforms | src/sutradhara/archive_restore.py:1812-1824 | The loop undoes reversible steps in descending order and refuses an unknown kind. |
| Restore.ReversalUndoesStaging | src/sutradhara/archive_restore.py:1812-1836 | Reversal recovers the plain bytes from the staged ones, for transform rows in any order and any chunking. |
| Restore.OpenMemberStream | src/sutradhara/archive_restore.py:217-244 | The opened stream is the four-stage pipeline. |
| Restore.CleanIsVerified | src/sutradhara/archive_restore.py:1839-1860 | A stream that ends cleanly has the catalog size and the asset's digest, whatever happened before it. |
| Restore.StagedCopyRestores | src/sutradhara/archive_restore.py:217-244 | A copy that stores the staged asset, delivered in any chunks, restores it. |
| Restore.RestoreAsset | src/sutradhara/archive_restore.py:698-766 | The reported copy is the first candidate that verifies; exactly the copies before it whose logical check failed become suspect; the destination is unchanged or holds the asset. |
| RestoreBlame.UntransformedEnds | src/sutradhara/archive_restore.py:217-244 | A copy stored as it is ends with the fault of its delivery; rotten bytes are a logical failure when the stored digest is the asset's and a stored one otherwise; sound bytes that are not the asset are a logical failure; otherwise the rename and the close decide. |
| RestoreBlame.TransformedEnds | src/sutradhara/archive_restore.py:1791-1836 | A transformed copy ends with the fault of its delivery, rotten bytes are a stored failure, and an unknown transform a staging failure. |
| RestoreBlame.RottenCopyTurnsSuspect | src/sutradhara/archive_restore.py:725-755 | A copy stored as the asset whose bytes rotted ends in a logical failure, and a restore that gets past it marks it suspect. |
| LocalArchive.Build | src/sutradhara/archive_fanout.py:332-392 | Each locator is its member's offset and size in the payload, and the object is length, header and payload. |
| LocalArchive.CopyRange | src/sutradhara/archive_restore.py:1868-1888 | The chunked copy equals one slice, or the range was invalid or not all there. |
| LocalArchive.TryExtract | src/sutradhara/archive_restore.py:1262-1295 | The extractor is the extraction function. |
| LocalArchive.BuildExtractRoundTrip | src/sutradhara/archive_fanout.py:332-392 | Extracting member i by its offset and size gives its source bytes if and only if the header is recognised and 1 byte to 16 MiB. |
| HeaderJson.ReadsBack | src/sutradhara/archive_fanout.py:382-383 | Every JSON value reads back from what it renders to. |
| ArchiveHeader.BuiltHeaderRecognised | src/sutradhara/archive_fanout.py:367-383 | The header the builder writes, for any members and labels, is ASCII and its format field reads back. |
| ArchiveHeader.BuildLocalArchive | src/sutradhara/archive_fanout.py:332-392 | Member i of the built archive extracts to its source bytes, by the readers' own recognition, if and only if the header is at most 16 MiB. |
| LocalArchive.LocalArchiveMemberStart | src/sutradhara/archive_restore.py:1335-1358 | The streaming reader's own header parse starts the member after the header, or at the bare offset when the format is not local. |
| LocalArchive.OpenLocatorRange | src/sutradhara/archive_restore.py:1299-1332 | The streamed range is the exact-range check over the delivered chunks; an empty member is not read. |
| LocalArchive.PathsAgree | src/sutradhara/archive_restore.py:1262-1358 | For every archive and chunking, the streaming path fails exactly when extraction finds the range short, and otherwise both give the same bytes; on a foreign format streaming reads at the bare offset. |

## Left out

- SQL isolation below transaction granularity: a flush is one transaction, so a quarantine is taken by the flusher that still holds the claim; only the two insert races and the savepoints are modelled.
- Two overlapping calls of `archive_submission` for one submission: a call is one transaction, so a member is appended only while it is unlinked.
- Subprocesses, threads, timeouts and signals around `rem` and systemd: operating-system behaviour.
- Real hashing, zstd, encryption, key epochs and tar layout: abstract functions or inputs.
- Filesystem detail (fsync, temporary names, permissions): a destination and a temporary file are two variables, and a failing rename is an input.
- `hold_bundle` (src/sutradhara/archive_bundle.py:595-606): an unguarded status write that nothing shown calls.
- Path escaping and source hashing on enqueue: the request carries the escaped path, the size and the digests.
- `_assert_open_witness` and the `group_basis` document: thresholds are plain columns here.
- Target resolution from the frozen basis, customer manifests, exclusions, conditions and outbox rows of a flush: targets are an input and the rest is reporting.
- `_submission_ingest_item_ids`: the lineage of a row is an input of the flush.
- `live_group_fingerprints`: the sweep takes the live fingerprints as an input; that the projection equals them is `Placement.RunKeepsProjection`.
- JSON headers spelled otherwise than the builder spells them (other whitespace, escapes, numbers): `ArchiveHeader.IsLocalHeader` reads the builder's spelling, and `LocalArchive.PathsAgree` holds for any recogniser.
- Candidate selection and ranking in `build_restore_plan`, bundle restores, and the admission checks of `restore_asset`: candidates are a given list.
- `_expected_stored_member_sha256`: a candidate carries its expected stored digest.
- Structured events, logs, CLI, HTTP and gRPC layers, job handlers and migrations other than the partial unique index: plumbing.
- Flush.FlushBundle: whether a row's source path encodes as UTF-8 is an input of the flush, since a Dafny string cannot hold a lone surrogate.
- FailureText.LineMessageRow: reads ASCII digits only, where the pattern's digit class takes any Unicode decimal digit.
- BundleStore.Catalog.QuarantineMember: moves transform rows without the unique index on bundle, stored path and step, which a recording made between two quarantines of one flush could meet.
