# ReDSTM verification

A Dafny model of the protocols ReDSTM depends on, with proofs about every run of them. `dafny verify
dfyconfig.toml` checks the whole project.

## What is modelled

**Publishing to R2** (`Publishing*.dfy`, `Publisher.dfy`; `scripts/publish_static.py`, the publish and
smoke tail of `scripts/control_runner.py`). The bucket, the remote pointer, the active and pending
ledgers, the smoke marker, the rollback counts and the local export are one state, and every file
replacement, unlink, object upload, object deletion and pointer copy is one write. Each operation is a plan, a sequence of
writes that depends on the state and on what the environment answers; a crash leaves any prefix of
it. `PublishingSafety` shows that the invariant holds after every prefix, `PublishingRuns` that it
holds over every run, `PublishingTrust` which releases are ever superseded or gone back to,
`PublishingBudget`, `PublishingCollecting`, `PublishingBooks` and `PublishingRecovery` what the ledgers
say, `PublishingOutcome` and `PublishingCycles` what every publish, smoke, rollback, cycle and collection
must do, spelled out on the site before, and `Publisher` that the code, step by step, makes exactly the
plan's writes.

**Static export** (`Journal.dfy`, `StaticRelease.dfy`, `ReleaseOrder.dfy`, `ReleaseContents.dfy`,
`ReleaseMeaning.dfy`, `Incremental.dfy`, `Fingerprint.dfy`, `ExportRuns.dfy`, `ExportLimits.dfy`,
`Valid*.dfy`, `Accepted*.dfy`; `scripts/export_static.py`). Rows, references, pages, search rows and
collection objects are values, and a hash is modelled by what it was taken of. What a full export says,
and in which order, is stated over the archive alone; an incremental export is shown to say what a full
export says, over whole runs with crashes; and the writer's releases are shown to be accepted by the
validator under an exact condition on the archive. Two releases say the same when they are equal
apart from views, which the source projection leaves out.

**Frontier and archive store** (`Frontier.dfy`, `FrontierStore.dfy`, `QueueOrder.dfy`,
`RetryBudget.dfy`, `Recovery.dfy`, `Ordering.dfy`, `Versions.dfy`; `crawler/frontier.py`, `crawler/store.py`,
`scripts/recover_queue.py`). One transaction is one step, times are integer seconds, tokens are
fresh. Settling checks the token and not the expiry, as the code does.

**Outbox, reports and commands** (`Outbox.dfy`, `ReportOrder.dfy`, `ReportLosses.dfy`, `Commands.dfy`,
`Compaction.dfy`;
`scripts/control_store.py`, `scripts/control_client.py`, `scripts/control_runner.py`). The bounded
queue with its eviction loop, the client in front of it with the fate of every report, the command
ledger across crashes and replays, and the combination of cycle reports.

**The two-system release** (`Release.dfy`, `ReleaseAnswers.dfy`; `scripts/release.py`,
`scripts/deploy_oracle.py`). Every command may fail before or after it took effect, chosen arbitrarily,
with no other writer, and is logged with its answer. `ReleaseAnswers` reads the exit code off the
answers alone; `Release` proves that the code returns it and that it is true of the systems.

**Reconciliation** (`Grouping.dfy`, `Reconcile*.dfy`; `crawler/collections.py`,
`scripts/reconcile_works.py`). `ReconcileDuties` says what each group of posts must become. Title parsing, author normalisation and the displayed title are given
functions; an episode's order key is five totally ordered numbers.

Operations that the source runs step by step are classes and loops here (`Publisher`, `ExportFiles`,
`PostRefs`, `Store`, `ArchiveStore`, `ControlStore`, `ControlClient`, `CommandStore`, `CycleReports`,
`Systems`, `BoardCollections`), each proved against the function the lemmas are about.

## What the proofs found

- **An explicit publish can forget the predecessor.** When the pointer already is the release to
  publish, a smoke marker holds it, and no ledger names it, an explicit publish writes an active
  ledger without the predecessor the marker still records. `PublishKeepsIff` shows that this is the
  only publish that breaks the invariant, `TwoCrashesReachIt` how to get there, and
  `CrashesLoseTheRelease` what it can cost.
- **A no-op publish can roll back blindly.** A runner's publish that moves nothing but recovers a
  pending ledger reports that ledger's predecessor as verified; if the smoke then fails, the runner
  goes back to it without a marker, although it may be the release that failed before.
  `PublishCycleTrustIff` gives the exact condition, on the site before the cycle, and
  `FailedPublishReachesIt` a run from a settled site that reaches it.
- **The marker's pair can miss the pointer.** An explicit publish goes on when it cannot read back the
  release it replaces, and a crash between marker and pointer then leaves the pointer outside the pair
  (`PairContainsPointerIff`, `PairMissesPointer`).
- **An aborted upload is invisible to the ledgers.** A publish cut between its first new upload and its
  pointer leaves them below the truth; cut later, recovery repairs them. `EventBooksIff` gives the
  exact cuts, `BooksStayRight` what holds over runs, and `PublishStaysWithinBudget` how far a release
  can pass the limits.
- **An interrupted collection can leave a ledger above the truth, and keep it there.** Exactly when it
  deleted from the bucket more than the ledger missed (`CollectCutIff`, `CutCollectionOverclaims`);
  cut after its last unlink, the next collection finds nothing to delete and measures nothing
  (`UnmeasuredStays`).
- **A relative date is a change.** The source date is read at capture time, so a page dated "32 minutes
  ago" is stored again whenever it is captured again, although nothing on it changed (`CapturingTwice`,
  `RelativeDatesMove`).
- **The no-op export shortcut can keep an old title.** The fingerprint does not cover the title of a
  post without a stored body, but the collection object of an entry without a title of its own shows
  it (`CollectionsUnderContent`, `ShortcutKeepsAnOldTitle`). Legacy placeholder posts are of this kind.
- **An incremental export publishes what a full export refuses.** The schema allows a post in two
  collections, and an entry on another board than its collection; `validate_release` refuses both, but of
  the exports only full ones run it. Incremental releases and refreshes pass a check of the
  collections' unavailable posts, which does not look at captured ones (`PlanIsAcceptedIff`,
  `ExportsMoveThePointerIff`, `IncrementalPublishesWhatFullRefuses`).
- **Report compaction can move the run id**, exactly when posts were selected in reports without one
  (`CompactionIff`).
- `crawler/settings.py:150` says that network failures are retried forever; the code stops at 24
  (`crawler/store.py:45-55`), and the model follows the code.

## Model

| member | source | states |
|---|---|---|
| PublishingRuns.PointerIsAlwaysComplete | scripts/publish_static.py:871-1139 | Over every run of runner cycles, explicit publishes, recorded activations, reconciles, confirmations, exports and garbage collections, each cut after any number of writes: every object of the live release is in the bucket, and so is every recorded rollback predecessor. Excluded is the one publish `ForgetsPredecessor` describes. |
| PublishingSafety.PublishKeeps | scripts/publish_static.py:871-1139 | A publish that does not forget the predecessor keeps that invariant after every single write, whatever ledgers, marker and pointer it starts from. |
| PublishingLimits.PublishKeepsIff | scripts/publish_static.py:871-1139 | The excluded publish is the only one: an explicit publish of a live attempt that no ledger names breaks the invariant, and every other publish keeps it. |
| PublishingSafety.PlannedCompletes | scripts/publish_static.py:291-356 | Uploading what a planned move names completes the new release, whether that is everything on disk or only the objects the predecessor lacks, because a live predecessor is complete; and the ledger it projects is readable. |
| PublishingSafety.RecoverPendingKeeps | scripts/publish_static.py:428-488 | Recovering the pending ledger keeps the invariant after every write, leaves no pending ledger when it goes on, and, unless a live attempt waits for its smoke, makes the active ledger the pointer's. |
| PublishingSafety.RecoverRolledBackKeeps | scripts/publish_static.py:526-569 | Rebuilding a rolled-back ledger keeps the invariant after every write. |
| PublishingSafety.CheckMarkerKeeps | scripts/publish_static.py:491-523 | Dropping a marker the pointer has left keeps the invariant after every write. |
| PublishingSafety.ActivateKeeps | scripts/publish_static.py:1305-1488 | Going back from an attempt its marker holds, or to the recorded predecessor of a settled site, keeps the invariant after every write. |
| PublishingSafety.ReconcileKeeps | scripts/publish_static.py:695-842 | Reconciling a pending smoke after a crash keeps the invariant after every write. |
| PublishingSafety.ConfirmKeeps | scripts/control_runner.py:2201-2232 | Confirming a smoke keeps the invariant when a ledger names the release, which is when the runner confirms. |
| PublishingSafety.CollectKeeps | scripts/publish_static.py:1171-1276 | Garbage collection, cut anywhere, never deletes an object of the live release or of its recorded predecessor. |
| PublishingRuns.PublishEnds | scripts/publish_static.py:871-1139 | A runner's publish of a site without a marker ends with a fresh marker and a record that names the release, or with a settled site; so the smoke that follows always has something to go back to. |
| PublishingRuns.UploadAndFinishEnds | scripts/publish_static.py:1002-1109 | A publish that uploads either leaves the pointer where it was or leaves marker, pending record and pointer agreeing on the new release. |
| PublishingLimits.ForgettingLosesTheRelease | scripts/publish_static.py:871-1139 | Why it is excluded: after it, a rollback, a publish and a collection, each cut after one write, leave the pointer at a release whose manifest is gone from the bucket. |
| PublishingLimits.TwoCrashesReachIt | scripts/publish_static.py:871-1139 | From a settled site two ordinary events reach the site of that publish: an explicit publish that loses its last ledger, then a rollback cut after its pending record. |
| PublishingLimits.CrashesLoseTheRelease | scripts/publish_static.py:871-1139 | Chained from a settled site, six ordinary cut events leave the pointer at the old release with its manifest gone from the bucket. |
| PublishingTrust.RunsStayTrusted | scripts/control_runner.py:1509-1683 | From a verified pointer, over every run without a blind rollback: without a marker the live release is verified; with one its predecessor is verified and the pointer is the attempt or a verified release. |
| PublishingTrust.MovesAreFair | scripts/control_runner.py:1509-1564 | In every event but a blind rollback, every single pointer move, wherever the event is cut, leaves a verified release or goes to one, and goes to a verified release or to the attempt its marker holds. |
| PublishingTrust.PublishCycleTrustIff | scripts/control_runner.py:1509-1683 | A runner's publish cycle is trusted after every write exactly when it is not a blind rollback, which is a condition on the site before the cycle and the smoke: no marker, the current release already live, its ledger still pending with an unverified predecessor, and the smoke fails. |
| PublishingLimits.PairContainsPointerIff | scripts/publish_static.py:913-935 | Wherever a publish is cut after it put its marker and before it moves the pointer, the pair (attempt, predecessor) contains the pointer if and only if the publish is incremental or the release it replaces could be read back, before the upload or after it. |
| PublishingLimits.PairMissesPointer | scripts/publish_static.py:1002-1078 | An explicit publish that cannot read it back goes on all the same, and cut before its pointer leaves the pointer outside the pair. |
| PublishingLimits.UnseenPredecessor | scripts/publish_static.py:913-935 | A concrete site and publish for which that happens. |
| PublishingTrust.ActivateTrust | scripts/publish_static.py:1380-1441 | Going back is trusted after every write if and only if it is refused, goes through a marker, or its target is verified. |
| PublishingLimits.FailedPublishReachesIt | scripts/control_runner.py:1509-1683 | The runner gets there by itself, in one run from a settled site: a publish whose smoke fails with a rollback that loses its last ledger write, the export of the release it is back at, and a publish of that whose smoke fails; the release that failed first is then live again, unverified and without a marker. |
| PublishingLimits.RolledBackThenRepublished | scripts/control_runner.py:1509-1683 | A blind rollback, cut after its pointer moved, leaves an unverified release live without a marker. |
| PublishingBooks.LedgersNeverOverclaim | scripts/publish_static.py:329-339 | Over every run, aborted uploads and cut publishes included, no ledger claims more bytes or objects than the bucket holds, provided its collections are cut harmlessly. |
| PublishingBooks.EventUnderIff | scripts/publish_static.py:1171-1276 | That provision is exact: from ledgers within the bucket, an event cut anywhere leaves them so if and only if it is not a collection cut harmfully. |
| PublishingCollecting.CollectCutIff | scripts/publish_static.py:1233-1270 | A collection cut anywhere leaves the ledgers within the bucket if and only if it ends, or there is no ledger, or what it deleted from the bucket so far is no more than the bucket held beyond the ledger. |
| PublishingCollecting.CollectCutExactIff | scripts/publish_static.py:1233-1270 | From exact books: if and only if it ends or nothing it deleted was in the bucket; and then the books are still exact. |
| PublishingCollecting.UnmeasuredStays | scripts/publish_static.py:1229-1270 | Cut after its last unlink and before its ledger, a collection leaves none of its garbage on disk, so no later collection of any of it deletes or measures anything, and the ledger stays. |
| PublishingCollecting.CutCollectionOverclaims | scripts/publish_static.py:1233-1270 | A site with exact books and a collection cut there, after which the ledger claims an object that is gone. |
| PublishingBooks.BooksStayRight | scripts/publish_static.py:329-339 | Conservation: from right books, over every run of exports, publishes, smokes, recoveries, rollbacks and collections that are cut where `EventBooksIff` allows, the ledger recovery goes by says exactly the size and count the bucket has, and the next recovery leaves every record exact. |
| PublishingBooks.EventBooksIff | scripts/publish_static.py:871-1139 | Those cuts are exact: from right books an event leaves right books if and only if it is not a publish cut between the first new upload and its pointer, not a collection cut after it deleted something the bucket had, and not a rollback cut right after its pending record while the active ledger is out of date. |
| PublishingBooks.PublishBooksIff | scripts/publish_static.py:871-1139 | For every cut of a publish of any site with right books: it leaves right books if and only if the copy brings nothing that is missing, or the cut is before the first upload or not before the pointer, or there was no pointer; and from exact books exact ones with the active ledger in the pointer's place. What is missing is known before the upload. |
| PublishingBudget.CollectMeasures | scripts/publish_static.py:1262-1270 | A collection that deletes anything and is not cut leaves exact books, whatever they said before. |
| PublishingBudget.ExactIsTrue | scripts/publish_static.py:572-590 | For the ledger of the live release, exact means equal to the size and count rclone measures. |
| PublishingRecovery.CrashedPublishRecovers | scripts/publish_static.py:1079-1122 | After a crash anywhere in a publish of a settled site with exact books, recovery goes on, leaves no pending ledger and makes the active ledger name the remote pointer; that ledger is exact if and only if the crash did not fall between a new upload and the pointer. |
| PublishingRecovery.FirstPublishIsUndone | scripts/publish_static.py:695-842 | A first publish, cut anywhere before there is a pointer, is undone by reconciling and recovering: nothing but the objects it uploaded is left. |
| PublishingRecovery.PublishStaysWithinBudget | scripts/publish_static.py:616-676 | From any site, what a publish makes live is within both limits by its ledger, and its true size is that ledger plus exactly what the previous ledger did not see (nothing if the books were exact or the bucket was measured); what it uploads stays within the limits up to the same amount. A projection over a limit uploads nothing. |
| PublishingRecovery.RejectedReleaseStaysOut | scripts/publish_static.py:984-990 | From any site, a release rolled back three times is neither uploaded nor made live by an automatic publish. |
| PublishingRecovery.RollbackCounts | scripts/publish_static.py:1442-1448 | A rollback through a marker counts its release once, unless the count itself cannot be written. |
| Publisher.Publisher.PublishStatic | scripts/publish_static.py:871-1139 | The step-by-step publish makes exactly the writes of the plan the invariants are proved about, in that order, whatever the environment answers. |
| Publisher.Publisher.RecoverPendingLedger | scripts/publish_static.py:428-488 | Same for the pending-ledger recovery, and it reports whether the publish goes on. |
| Publisher.Publisher.RecoverRolledBackLedger | scripts/publish_static.py:526-569 | Same for the rolled-back ledger. |
| Publisher.Publisher.PendingSmokeLedger | scripts/publish_static.py:491-523 | Same for the smoke marker. |
| Publisher.Publisher.FinishPublish | scripts/publish_static.py:1079-1122 | Both records are durable before the pointer moves, and the active ledger comes after it. |
| Publisher.Publisher.ActivateRemoteRelease | scripts/publish_static.py:1305-1488 | The step-by-step activation makes exactly the planned writes. |
| Publisher.Publisher.ReconcilePendingSmoke | scripts/publish_static.py:695-842 | The step-by-step reconcile makes exactly the planned writes and says whether it succeeded. |
| Publisher.Publisher.ConfirmPublishSmoke | scripts/control_runner.py:2201-2232 | The confirmation drops the marker of this release and of no other. |
| Publisher.Publisher.CollectStaticGarbage | scripts/publish_static.py:1171-1276 | The collector deletes from the bucket first, then locally, then rewrites the ledger with the measured rest. |
| Publisher.Publisher.Copy | scripts/publish_static.py:1023-1062 | A copy that stops early has uploaded a prefix of the wanted objects and nothing else. |
| PublishingOutcome.AutomaticPublish | scripts/publish_static.py:871-1139 | What an automatic publish does, on the site before: a release that is not live is tried exactly when it is current, on disk and rolled back fewer than 3 times, the live release was read back and the active ledger is its own, the new keys are on disk, and the ledger brought forward fits 20,000,000,000 bytes and 800,000 objects. Then exactly the missing new keys are uploaded, and the pointer moves exactly when all of them arrived; otherwise nothing changes. |
| PublishingOutcome.AutomaticPublishMovesIff | scripts/publish_static.py:1002-1078 | So the pointer becomes the release if and only if all of that holds. |
| PublishingOutcome.ExplicitPublish | scripts/publish_static.py:871-1139 | The same for an explicit publish: it needs the whole release on disk, ignores the rollback count, and where it cannot go on from the live release uploads everything on disk that is missing and measures the bucket, under the same two limits. |
| PublishingOutcome.LivePublish | scripts/publish_static.py:936-981 | Publishing what is live changes nothing, except that an explicit publish that measured the bucket writes the active ledger it misses. |
| PublishingOutcome.PublishAfterRecovery | scripts/publish_static.py:871-935 | From any site of a run: a publish first recovers the records; if a live attempt waits for its smoke then, pointer, bucket and marker stay; otherwise it does on the recovered site what the four laws above say. |
| PublishingOutcome.RecoveryGoesOnIff | scripts/publish_static.py:428-569 | Recovery lets a publish go on unless there is a pending record and no pointer; a first publish that was cut is the exception. |
| PublishingOutcome.ReconcileSucceedsIff | scripts/publish_static.py:695-842 | Reconciling succeeds exactly when the pointer is one of the marker's pair, or there is neither pointer nor any record but the first attempt's. |
| PublishingCycles.ActivationIff | scripts/publish_static.py:1305-1488 | A rollback moves the pointer to its target exactly when the target is on disk and in the bucket, the pointer is the expected release or the target, and a smoke marker, if any, is of that attempt; otherwise nothing changes. |
| PublishingCycles.SmokeDecides | scripts/control_runner.py:1509-1564 | The smoke of a live attempt decides: no answer changes nothing, a pass verifies the release and drops its marker, a failure goes back to the recorded predecessor, and the marker goes once that one has passed. |
| PublishingCycles.PassedRecoverySettles | scripts/control_runner.py:2201-2232 | A cycle that finds a marker of the pointer's pair and whose smoke passes ends without a marker, with the live release verified and the pointer where it was. |
| PublishingCycles.FailedRecoveryGoesBack | scripts/control_runner.py:1509-1564 | One whose smoke fails goes back to the predecessor exactly when the bucket still shows it. |
| PublishingCycles.OrdinaryCycle | scripts/control_runner.py:1509-1683 | A whole cycle with a new release that can be tried and copied: it goes live; a pass leaves it verified and without a marker, a failure takes the pointer back. |
| PublishingCycles.CollectionIff | scripts/publish_static.py:1171-1276 | A collection deletes its garbage, from bucket and disk, exactly when there is no marker and no pending record, there is a current release, and every file to go is on disk and belongs to no current, active, previous or recent release; the active ledger then says what is left. Otherwise nothing changes. |
| Journal.RecoveryIff | scripts/export_static.py:337-363 | Recovery returns a state exactly when the pointer is backed and the journal names it as base or pending; the state's base is then the pointer's release, with nothing pending, and is what is on disk. |
| Journal.RecoveryRepeats | scripts/export_static.py:337-363 | A crash inside recovery changes nothing about what the next recovery returns. |
| Journal.PromotionSurvivesACrash | scripts/export_static.py:1922-1948 | After a crash at any point of a promotion that started with base equal to the pointer, recovery returns the old base or the new one, whichever is in force. |
| Journal.StepKeepsRecoverableIff | scripts/export_static.py:1922-1948 | Once the journal names the pointer, exports, no-ops and crashes keep it so; only losing the state file, or moving the pointer by hand to a release it does not name, ends that. |
| Journal.StepKeepsHonest | scripts/export_static.py:1922-1948 | Whatever is true of every snapshot that exports record stays true of every snapshot the journal names, over every event and crash. |
| Journal.ExportFiles.RecoverState | scripts/export_static.py:337-363 | The step-by-step recovery makes the planned writes and returns the planned result. |
| Journal.ExportFiles.PromoteRelease | scripts/export_static.py:1922-1948 | The promotion writes journal, pointer, journal; a release that fails validation stops it after the first. |
| StaticRelease.MatchesIff | scripts/export_static.py:1371-1383 | A stored reference matches a row exactly when preparing the row again would change nothing but the views. |
| StaticRelease.EmitIff | scripts/export_static.py:450-488 | Writing rows succeeds exactly when every row has a reference that matches it, and then writes each row's own reference in order. |
| StaticRelease.SortOrders | scripts/export_static.py:450-470 | Pages and search hold every row once, in the order of the source's sort keys, a post without a parsed date standing where it was first seen. |
| ReleaseOrder.SearchIsNewestFirst | scripts/export_static.py:450-470 | In words: successive search rows are of posts whose created text, or first-seen text when there is none, never rises; on equal texts the number falls, and on equal numbers the board falls; and every captured post is there once. |
| ReleaseOrder.PagesAreNewestFirst | scripts/export_static.py:1788-1826 | A board page lists exactly the captured posts of its board, with strictly falling numbers. |
| ReleaseContents.PostIsOnItsPage | scripts/export_static.py:1788-1826 | What a full export says, over the archive alone: a captured post is in the page of its board with the columns of its row and its object. |
| ReleaseContents.PagesListPosts | scripts/export_static.py:1788-1826 | And a page lists nothing but captured posts of its board, with the columns of their rows. |
| ReleaseContents.SearchListsPosts | scripts/export_static.py:450-488 | The search index lists every captured post once, with its columns. |
| ReleaseContents.FullExportShowsCollections | scripts/export_static.py:1535-1700 | Every collection is in the shard of its id with its own columns and an entry for each of its rows, in order: the linked post's identity, availability and object, or the number it was made from as missing, under its own title first. Summaries count entries and those without an object, and a board's members are exactly the entries of its collections. |
| ReleaseContents.FullExportIff | scripts/export_static.py:1513-1626 | A full export succeeds if and only if the entries of every collection stand at 1, 2, 3, ... and each links a post or names the one it was made from. |
| Incremental.RepreparingIff | scripts/export_static.py:1404-1429 | After preparing a set of posts again every row matches its reference if and only if the set contains every stale post. |
| Incremental.NothingIsStale | scripts/export_static.py:1404-1429 | After preparing exactly the changed posts again no staleness, missing-object or count error can fire: a build fails only on collections without identity or with gaps in their positions. |
| Incremental.IncrementalSaysWhatFullSays | scripts/export_static.py:2161-2306 | Once its plan goes on to build, an incremental export from any base builds a release exactly when the full export does, with the same boards, search, collections and counts apart from views. The plan's own refusals are in `ExportRuns.IncrementalPlan`. |
| Incremental.PostRefs.ChangedPostIds | scripts/export_static.py:1404-1429 | The loop returns the current posts that were captured since the base or do not match their reference, and no others. |
| Incremental.PostRefs.PrepareAgain | scripts/export_static.py:2237-2283 | The references updated in place are the fresh ones for the chosen posts and the stored ones for all others. |
| Incremental.PostRefs.WriteRows | scripts/export_static.py:1788-1826 | The writing loop succeeds exactly when no row is stale. |
| ReleaseMeaning.BuildsAgree | scripts/export_static.py:1759-1910 | Two sets of references that agree apart from views give releases that agree apart from views, collections, shards and memberships included. |
| Fingerprint.ContentFixesPosts | scripts/export_static.py:745-819 | An unchanged content fingerprint means unchanged captured rows apart from views, and an unchanged place of every post. |
| Fingerprint.CollectionsUnderContent | scripts/export_static.py:1513-1532 | Under one fingerprint the collection objects agree except for titles of entries that have no post object, and are identical exactly when no entry changed its title. |
| Fingerprint.KeptReleaseSaysWhatFullSays | scripts/export_static.py:2204-2236 | A release kept by the no-op shortcut says what a full export of the current archive says, apart from views and the titles of entries without a post object; and those titles too if and only if no entry changed its title. |
| ExportRuns.PlanSaysWhatFullSays | scripts/export_static.py:2161-2306 | Whatever an export decides, what it promotes or keeps says what a full export of its snapshot says, and stays so for every later snapshot with the same content fingerprint. |
| ExportRuns.RefreshedSays | scripts/export_static.py:2083-2158 | Rebuilding only the collection objects of an unchanged snapshot also says what a full export says. |
| ExportRuns.RecoveredBaseSaysWhatFullSays | scripts/export_static.py:2309-2361 | Over every run of exports of a changing archive, crashes, lost state files and manual activations, the base recovery returns is the pointer's release and says what a full export of any archive with the recorded fingerprint says. |
| ExportRuns.FinishedExportIsCurrent | scripts/export_static.py:2309-2361 | An export that ran to its end without an error leaves the pointer on a release that says what a full export of that snapshot says. |
| ExportRuns.ExportStatic | scripts/export_static.py:2309-2361 | The export step by step makes exactly the writes of the event those results are about. |
| ExportRuns.LoadedAreFresh | scripts/export_static.py:904-981 | The references loaded back from a built release are fresh for the rows it was built from. |
| ExportLimits.UntrackedIff | scripts/export_static.py:2241-2252 | The untracked-projection error fires exactly when nothing was captured and no source projection changed but the projection rows did: row ids, version ids, or a missing date that became an empty one. |
| ExportLimits.IncrementalPlanIff | scripts/export_static.py:2161-2252 | An incremental export keeps the release exactly for an unchanged fingerprint under the current format; it is refused as rewound exactly when the source is behind the base, as untracked exactly as above, and as too large exactly when more posts changed than the limit allows. |
| ExportLimits.DeltaIsPromotedIff | scripts/export_static.py:2237-2306 | A delta is promoted if and only if it is neither of these and a full export would succeed. |
| ExportLimits.FullPlanIff | scripts/export_static.py:2309-2361 | A full export is made when asked for or when there is no base, unless only an incremental one may be; and it is promoted whenever it builds. |
| ExportLimits.ShortcutKeepsAnOldTitle | scripts/export_static.py:2204-2236 | A listing title that changes on a post without a body changes the collection object of a title-less entry but not the fingerprint. |
| ValidBoards.BoardsAndSearchFit | scripts/export_static.py:1025-1130 | Boards and search of every built release pass their checks: no post twice, search equal to boards, comment counts equal. |
| AcceptedReleases.IndexIff | scripts/export_static.py:1130-1262 | The collection index passes its checks exactly when every entry is on its collection's board and no post has two entries. |
| AcceptedReleases.BuiltIsAcceptedIff | scripts/export_static.py:1025-1291 | `validate_release` accepts a built release if and only if every post is in at most one collection and that collection is on the post's own board. |
| AcceptedReleases.ExportsAreAcceptedIff | scripts/export_static.py:1025-1291 | Full and incremental exports of one archive are acceptable under the same two conditions. |
| AcceptedReleases.FullExportMovesThePointerIff | scripts/export_static.py:1951-2076 | A full export run to its end moves the pointer to what it built exactly under those conditions, and otherwise leaves it. |
| AcceptedRuns.PlanIsAcceptedIff | scripts/export_static.py:2161-2306 | Whatever an export builds, whole, from a delta or by a refresh, `validate_release` accepts it if and only if every post is in at most one collection, on its own board. |
| AcceptedRuns.RefreshedIsAcceptedIff | scripts/export_static.py:2083-2158 | In particular the collection-only rebuild of a release whose boards and search fit. |
| AcceptedRuns.ExportsMoveThePointerIff | scripts/export_static.py:2309-2361 | After any run with crashes, an export that builds a release moves the pointer to it, unless it is full or has no base and that condition fails: an incremental export publishes what it built all the same. |
| AcceptedRuns.IncrementalPublishesWhatFullRefuses | scripts/export_static.py:2309-2361 | A run that shows it: a post is put into a second collection; the incremental export publishes a release the validator does not accept, and a full export of the same archive is refused. |
| Frontier.LeaseIsExclusive | crawler/frontier.py:131-222 | No step but its own settle changes a running row before its lease expires. |
| Frontier.LeaseHoldsOverRuns | crawler/frontier.py:58-118 | From a claim until its own settle or its expiry no run of frontier steps changes the row's state, token, expiry or attempts. |
| Frontier.SpentTokenNeverSettles | crawler/frontier.py:58-118 | A token whose row was settled or reclaimed can never settle again, over every run with fresh tokens. |
| Frontier.SettlingSpends | crawler/frontier.py:58-118 | Settling a lease spends its token. |
| Frontier.ReclaimingSpends | crawler/frontier.py:670-744 | Reclaiming an expired lease spends its token. |
| Frontier.StepKeepsSound | crawler/archive.py:135-139 | A row is running exactly when it has a lease, after every step. |
| Frontier.TokensComeFromClaims | crawler/frontier.py:291-352 | Only a claim gives a row a token, and only to a row without a live lease. |
| Frontier.LeavesDeadIff | crawler/frontier.py:606-668 | A dead row comes back exactly by a changed listing of a post that ran out of capped attempts or whose origin stopped answering, by a recovery sweep over network failures in scope, or by a request that names it or revives body-less posts. |
| Frontier.LeavesDoneIff | crawler/frontier.py:131-222 | A done row is fetched again exactly when a seed reopens it or a request names it. |
| Frontier.BackoffBounds | crawler/frontier.py:48-55 | The backoff lies in [120, 21600] seconds and never falls as attempts grow. |
| Frontier.NoClaimBeforeTime | crawler/frontier.py:670-744 | A row in retry is neither claimed nor changed before its time over every run, unless a person asks for it. |
| Frontier.RetrySpacing | crawler/store.py:563-580 | A failed attempt is retried no earlier than its backoff and no earlier than Retry-After. |
| RetryBudget.RetryBudgetHolds | crawler/store.py:45-75 | Between two resets of a row's attempts at most 4 capped failures and at most 23 network failures leave it in retry, over every run. |
| RetryBudget.DeadAtTheLimit | crawler/store.py:563-580 | A failure settles as dead exactly when its code's attempt limit is reached, and otherwise stays in retry at its backoff. |
| Frontier.FailedIs | crawler/store.py:563-580 | A failed attempt, in numbers: dead at the fifth attempt of a capped code and the twenty-fourth of a network error, and otherwise in retry at 120 seconds doubled per attempt, at most 21,600, or at Retry-After when that is later. |
| FrontierStore.Store.ClaimIdentity | crawler/frontier.py:291-352 | Claiming one post leases it exactly when it is due, and makes the step the invariants are about. |
| FrontierStore.Store.Claim | crawler/frontier.py:670-744 | A batch claim leases due rows, waiting ones whose time has come and running ones whose lease ran out, on enabled boards: as many as there are up to the limit, in falling priority, then board and post, and no unclaimed due row is ahead of a claimed one. Each is running with one attempt more, the token and the expiry. |
| FrontierStore.Store.SettleLease | crawler/frontier.py:58-118 | A stale or missing lease is refused and changes nothing. |
| FrontierStore.Store.RequeueFullContent | crawler/frontier.py:476-532 | Picks up to the limit rows of enabled boards that no live lease holds and that were not attempted in the round, never attempted ones first, then the longest ago, then board and post; those are pending with a fresh budget, and no other row changes. |
| QueueOrder.ClaimTakesTheBest | crawler/frontier.py:705-727 | The claim query over the swept rows takes what the claim's contract says, column by column. |
| QueueOrder.RoundTakesTheOldest | crawler/frontier.py:476-532 | The same for the query of a full-content round. |
| Ordering.SelectFirst | crawler/frontier.py:705-727 | The selection loop returns what ORDER BY and LIMIT describe. |
| Recovery.RecoveryIsFair | crawler/frontier.py:422-474 | Among due posts without a body the numbers taken from two boards differ by at most one unless the board that gave fewer is exhausted. |
| Recovery.BodylessFirst | crawler/frontier.py:422-474 | Every due post without a body comes before every post that has one. |
| Recovery.BoardsTakeTurns | crawler/frontier.py:422-474 | Of one board's candidates with a body, or without, a round takes those in the state it is for, then of higher priority, then with fewer attempts, then of lower number, before any it leaves. |
| Recovery.RevisitsTheStalest | crawler/frontier.py:562-606 | The revisited posts are done ones that were collected no later than any eligible one left out. |
| Recovery.BatchIsSound | scripts/recover_queue.py:48-79 | The batch has no duplicates, never exceeds the limit, keeps due and stale posts apart, keeps the slots reserved for stale ones, and drops a due post only for such a slot. |
| Recovery.RecoveryBatch | scripts/recover_queue.py:48-79 | The batch the code assembles over the store meets that contract and makes the two store steps it names. |
| Versions.RunsAreSound | crawler/store.py:171-420 | Over every run of captures: comment rows are those captured with the latest version, which belongs to the post; versions are neither removed nor duplicated; views never fall, and a known date is never lost. |
| Versions.ShrinksOnlyWhenComplete | crawler/store.py:199-237 | For a leased capture with an expected count the comment list shrinks only if the capture meets the count, and the lease settles as complete exactly then. |
| Versions.StoredIsLatest | crawler/store.py:312-391 | Storing a page makes its content and comments what readers get. |
| Versions.StoredIff | crawler/store.py:171-420 | The whole capture, column by column: a list shorter than the leased count and than the stored one is set aside, with the failure recorded and nothing else changed; any other page is stored, keeping an author, category or date it lacks and the higher views, with its content and comments as the latest version, and no other post changes; and the settlement is complete unless the leased count was missed. |
| Versions.UnchangedMeansUnchanged | crawler/store.py:257-391 | A capture is recorded as unchanged exactly when no column it compares, no version and no comment row changed. |
| Versions.CapturingTwice | crawler/store.py:186-391 | The same page captured again adds no version and touches no comment; it is recorded as unchanged if and only if its date, read at the later time, is unknown or the one stored. |
| Versions.RelativeDatesMove | scripts/legacy_common.py:191-252 | A page dated by a compact relative text is recorded as stored every time it is captured at another time, and its source date moves with the capture. |
| Versions.ArchiveStore.Store | crawler/store.py:171-420 | The stepwise store makes the transition those results are about and returns the settlement for the lease; if the lease is stale the whole transaction is undone. |
| Versions.ArchiveStore.Write | crawler/store.py:283-400 | Upsert, version row and comment rows together give the planned archive. |
| Outbox.EvictionIsJustEnough | scripts/control_store.py:426-451 | When the eviction loop succeeds it has removed unprotected rows of no higher priority, lowest and oldest first, and without its last removal there would be no room. |
| Outbox.EvictionIsUnique | scripts/control_store.py:426-451 | That promise leaves no choice: two evictions that keep it remove the same rows. |
| Outbox.RoomIff | scripts/control_store.py:426-451 | The loop gives up exactly when removing everything it may remove would not make room. |
| Outbox.EnqueueKeepsBounds | scripts/control_store.py:362-416 | A successful enqueue ends within both limits with the new item last and everything kept in place. |
| Outbox.EnqueueFullIff | scripts/control_store.py:362-416 | Enqueue raises exactly when no permitted eviction makes room. |
| Outbox.ProtectedSurvive | scripts/control_store.py:362-416 | No enqueue of another key ever drops a terminal report. |
| Outbox.TerminalReportsSurvive | scripts/control_store.py:28-36 | In words: reports of run starts, run ends and command ends outlive every later enqueue. |
| Outbox.OneOfItsKind | scripts/control_store.py:418-424 | A heartbeat takes the place of every queued heartbeat, a board's status of that board's, and nothing else is added. |
| Outbox.EvictsLowestAndOldest | scripts/control_store.py:426-451 | In numbers: an evicted row has a priority below 100 and not above the new report's, and every such row that stays has a higher priority, or the same and is newer. |
| Outbox.ControlStore.Enqueue | scripts/control_store.py:362-416 | Enqueue either raises and leaves the outbox as it was, the report it would replace included, or leaves the planned outbox. |
| Outbox.ControlStore.MakeRoom | scripts/control_store.py:426-451 | The loop terminates with the planned rows. |
| Outbox.ControlStore.Pending | scripts/control_store.py:453-470 | A page is the due head of the queue: a deferred row holds back everything behind it. |
| Outbox.ControlStore.Defer | scripts/control_store.py:525-530 | Deferring changes one row's attempts and time, and no place in the queue. |
| Outbox.ControlStore.Reject | scripts/control_store.py:476-501 | Rejecting removes that row and no other, and counts the rejection. |
| ReportOrder.ReportsArriveInOrder | scripts/control_client.py:344-425 | Over every run of submissions, flushes, heartbeats, restarts, waits and network answers, lost ones included, the Worker first accepts reports in submission order, and none is tried while an earlier one is queued. |
| ReportOrder.HeadTried | scripts/control_client.py:379-425 | Trying the head and settling its answer keeps that, and the loop goes on only once the head is gone. |
| ReportOrder.ControlClient.SendOrEnqueue | scripts/control_client.py:344-377 | The direct-send shortcut is taken only when nothing is queued, and says delivered only for a report the Worker has. |
| ReportOrder.ControlClient.Flush | scripts/control_client.py:379-425 | The flush loop makes the planned tries and stops at the first report that must wait; what it may lose is `ReportLosses.FlushLaw`. |
| ReportOrder.ControlClient.SendLatest | scripts/control_client.py:177-192 | A heartbeat moves only the cooldown and delivery times. |
| ReportLosses.FlushLaw | scripts/control_client.py:379-425 | The law of a flush. In a cooldown nothing happens. Otherwise due rows are tried from the head, at most 50; a tried row leaves only if its answer was delivered or rejected, unavailable at its 10th attempt or later with a delivery less than 600 s ago, or unreadable at its 3rd attempt or later. Any other answer stops the flush with the row in place, one attempt more and its next time 2, 5 or 15 s later (unchanged if the process died), and an unavailable one sets the 60 s cooldown. The rest stays as it was. |
| ReportLosses.DirectSendFallsBack | scripts/control_client.py:360-377 | A report sent with an empty queue is queued, as a fresh row, exactly when its answer was unavailable or unreadable and it is well formed and fits the limits alone; an unavailable answer sets the 60 s cooldown. |
| ReportLosses.CallFate | scripts/control_client.py:344-425 | Every call keeps a queued report, records it at the Worker, or ends it for a stated reason: given up under those limits, replaced by a report of its kind, or evicted for one that did not fit. |
| ReportLosses.EveryReportIsAccountedFor | scripts/control_client.py:344-425 | Over every run: each submitted report is queued, or its key is recorded by the Worker, or some call from its own on ended it, for one of those reasons, by refusing it, because its key was queued already, or by a rejection or a crash of its direct send. |
| Commands.BeginsAtMostOnce | scripts/control_store.py:223-235 | Over every run a command's work is started at most once. |
| Commands.RunsGoForward | scripts/control_store.py:268-353 | A terminal state and its result never change, and a report settles once as delivered or rejected. |
| Commands.RunningWasBegun | scripts/control_store.py:223-235 | A command that is running or was started has been started exactly once. |
| Commands.RunningIsResumedOrClosed | scripts/control_runner.py:717-764 | A command found running is never begun again: it ends in the state its resumed work ends in, or as interrupted, and its report is settled unless it had to be queued. |
| Commands.ResumedIff | scripts/control_runner.py:717-764 | Which are resumed: fills and retry batches always, catalog and content rounds exactly with their checkpoint; every other running command ends as interrupted. |
| Commands.ClaimedIsDone | scripts/control_runner.py:642-716 | A claimed command left alone is begun exactly once, under a run id of its own unless it is a marker, ends in the state of its work, and its report is settled as it was delivered. |
| Commands.PollsAreSafe | scripts/control_runner.py:642-663 | Over every sequence of polls, each cut anywhere, each command is begun at most once and results stay what they were. |
| Commands.CommandStore.BeginCommand | scripts/control_store.py:223-235 | Beginning succeeds exactly for a claimed command. |
| Commands.CommandStore.FinishCommand | scripts/control_store.py:268-304 | Finishing a finished command with the same result is accepted without change; with another it is refused. |
| Commands.CommandStore.RecordClaim | scripts/control_store.py:181-221 | A claim is recorded once; a replay returns the stored row. |
| Compaction.OneReportMore | scripts/control_runner.py:2235-2286 | What a combination says: one report more adds its selected, scheduled, changed and failed posts and its failure codes, and its other fields stand for the whole; changed and failed posts it does not count are its stored, and its unparsed and unfetched, ones. |
| Compaction.OneReportsOutcomes | scripts/control_runner.py:2242-2247 | And its outcomes, each under its name. |
| Compaction.RunIsLatest | scripts/control_runner.py:2256-2270 | The run id is that of the latest report that selected posts and has one. |
| Compaction.BoardsAreLatest | scripts/control_runner.py:2248-2252 | Every board is there once, with the last item any report has of it. |
| Compaction.CompactionIff | scripts/control_runner.py:2235-2286 | Replacing the first k cycle reports by their combination gives the combined report of all of them exactly unless no report that selected posts has a run id, some among the first k selected posts, and the k-th has a run id the last one has not. |
| Compaction.CompactionIsFaithful | scripts/control_runner.py:2235-2286 | When every report that selected posts carries a run id, compaction changes nothing, and the compacted list meets the same condition. |
| Compaction.CompactionCanMoveTheRun | scripts/control_runner.py:2259-2270 | Three reports for which compaction does move the run id. |
| Compaction.CombinedReport | scripts/control_runner.py:2235-2286 | The nested loops over reports and boards compute the combination. |
| Compaction.CycleReports.Append | scripts/control_runner.py:1053-1056 | With compaction above 16 reports the kept ones still combine to what all reports since the start combine to. |
| Release.Systems.DeployAll | scripts/release.py:712-865 | For every pattern of commands failing before or after they took effect: the log of a run is its parts in order, each there exactly when the one before calls for it (`Follows`); the exit code is the verdict of the answers alone; and it describes the true final pair, so the external-change and mismatch codes never appear without another writer. |
| ReleaseAnswers.SucceedsIff | scripts/release.py:769-773 | A run succeeds if and only if the host's status was read, the Worker half passed its smoke, the host was seen on the release and not reported incomplete, and the final smoke passed; and a passed final smoke is the last command of the run. |
| ReleaseAnswers.WorkerCodesIff | scripts/release.py:475-580 | The codes of the Worker half, each if and only if its step failed: no status, the database, a deploy no read showed, a failed smoke; and rolled back exactly when the rollback was confirmed. |
| ReleaseAnswers.InstallCodesIff | scripts/release.py:726-768 | The install codes appear exactly when the host was not seen on the release: incomplete when it is there unfinished, ambiguous when it could not be read or is on a third release, and otherwise it is where it was and the Worker is rolled back, confirmed or not. |
| ReleaseAnswers.FinalCodesIff | scripts/release.py:773-858 | With both systems up any other code means that the final smoke failed; and the coordinated one, that the host was seen back and the Worker confirmed or seen back. |
| Release.Systems.DeployCloudflare | scripts/release.py:475-580 | Success leaves the new deployment active and names the one before; every error code tells whether the Worker is back; and the result is the verdict of the answers, success exactly when the last of them is a passed smoke. |
| Release.Systems.RollbackCloudflare | scripts/release.py:421-472 | A rollback is commanded exactly when the active deployment was read, is the expected one and carries the expected message, and is not the target already unless forced; it succeeds exactly when the target was active or the command was reported and the last of at most five reads shows it; and it leaves the old or the requested version. |
| Release.Systems.InstallOracle | scripts/deploy_oracle.py:417-585 | Installed means the new release, not started means untouched, and anything else one of the two; installed exactly when the command finished and one of at most five reads shows the release not incomplete; and the host's own rollback is commanded exactly when the command ended with an exit status and left the host on the release, coming from another. |
| Release.Systems.BackOut | scripts/release.py:773-858 | After a failed final smoke the host is rolled back exactly from the new release to another one, the Worker follows exactly when the host is seen back, the host is restored exactly when the Worker is seen still on the new version, and the code is the verdict of these answers and describes the pair. |
| Release.Systems.CoordinatedRollback | scripts/release.py:868-990 | Every exit is the verdict of the answers and describes the true final pair, success leaves both systems on one release, and a matched pair stays matched under every code but the four after which only a status check can tell. |
| Release.Systems.RollbackOracleFirst | scripts/release.py:903-933 | Once every check has passed only the host moves, and only when it runs another release. |
| Release.Systems.CheckRollback | scripts/release.py:868-902 | The checks are reads alone, and pass exactly when the version is tagged with the release, the host runs a release, the active version is tagged with that one unless it is the target, and the Worker has not moved meanwhile. |
| ReleaseAnswers.ReachesIff | scripts/release.py:868-990 | A coordinated rollback reaches its target if and only if the checks passed, the host and the Worker were seen there, and the smoke passed; it is refused exactly when a check fails, and then nothing was commanded. |
| Release.CodesThatKeepTheMatch | scripts/release.py:712-865 | By what each exit code says of the final pair, the codes that allow a matched pair to end mismatched are exactly the listed seven. That runs end as their code says is `Release.Systems.DeployAll`. |
| Grouping.PreviewMakesGroups | crawler/collections.py:161-200 | Preview groups have at least two posts in strictly increasing episode order, and no post is in two groups. |
| Grouping.GroupedIff | crawler/collections.py:161-200 | A post is in a group exactly when its episode occurs once in its block and another such post is there. |
| Grouping.GroupsReadInOrder | crawler/collections.py:161-200 | Along a group season, volume, rank, start and end rise lexicographically. |
| Grouping.PreviewCollections | crawler/collections.py:161-200 | The loops compute that preview, and every post with an episode is in one group or rejected once. |
| Reconcile.ApplyingOnlyAppends | scripts/reconcile_works.py:115-149 | Existing collections keep ids, titles and entries, and new entries continue contiguously from the highest position. |
| ReconcileSafety.NoSecondCollection | scripts/reconcile_works.py:55-113 | A post that was in a collection stays in exactly the same ones, and any other joins at most one. |
| ReconcileKeeps.ReconcilingKeepsConstraints | scripts/reconcile_works.py:115-149 | Collection ids and titles stay unique, positions stay distinct, and no post is twice in a collection. |
| ReconcileTwice.SecondTimeIsQuiet | scripts/reconcile_works.py:55-149 | A second apply on the same posts proposes no entry and no collection and changes nothing. |
| ReconcileBoard.BoardCollections.Run | scripts/reconcile_works.py:19-162 | The stepwise reconcile applies exactly the decisions of its groups, or nothing without apply, and reports how many entries and collections they propose; what they must be is `ReconcileDuties`. |
| ReconcileBoard.BoardCollections.ReadMemberships | scripts/reconcile_works.py:36-66 | The dictionary built from the entry rows holds exactly each post's collections. |
| ReconcileBoard.BoardCollections.DecideGroup | scripts/reconcile_works.py:76-113 | Each group is decided by the memberships read at the start. |
| ReconcileBoard.RunTwice | scripts/reconcile_works.py:19-162 | Run twice, the second run reports zero proposals and zero collections. |
| ReconcileDuties.CreateIff | scripts/reconcile_works.py:76-93 | A group becomes a collection if and only if all authors are known, no post of it has an entry in a collection of the board, every post is available, and its displayed title is that of no collection and of no group before it that becomes one; and it does so whole. |
| ReconcileDuties.CreatedHolds | scripts/reconcile_works.py:115-135 | Applied, there is a new collection with that title and exactly the group's posts at positions 1 to n. |
| ReconcileDuties.NewCollectionsAre | scripts/reconcile_works.py:115-135 | As many collections are new as groups become one. |
| ReconcileDuties.AppendIff | scripts/reconcile_works.py:94-103 | A group adds to a collection if and only if its authors are known and exactly one collection holds posts of it, at least two, its last entry being the last of them. |
| ReconcileDuties.AppendAdds | scripts/reconcile_works.py:104-113 | It then adds to that one exactly the available posts behind that are in no collection, in order. |
| ReconcileDuties.GrownHolds | scripts/reconcile_works.py:136-149 | Applied, that collection has its entries as before and then exactly these posts, numbered on from its highest position. |
| ReconcileDuties.OthersStay | scripts/reconcile_works.py:136-149 | Every collection no group adds to is as it was. |

## Left out

- Publisher.Publisher.Copy: does not model the order in which `rclone` uploads objects, nor re-upload of an object that exists with other bytes; any order is allowed and objects are immutable.
- PublishingRuns.PointerIsAlwaysComplete: does not cover operator activation of an arbitrary release without a smoke marker (scripts/publish_static.py:1464-1478), which neither checks the target's objects nor always writes a ledger.
- PublishingBooks.BooksStayRight: does not cover a publish cut between its first new upload and its pointer, after which the ledgers are below the truth until a publish, a rollback or a collection measures the bucket.
- PublishingBooks.LedgersNeverOverclaim: does not cover a harmfully cut collection, after which the active ledger is above the truth until a publish, a rollback or a collection that finds something to delete measures the bucket.
- Release.Systems.DeployAll: does not model a remote command that takes effect after the local side has given up on it, nor the content of the D1 migrations; a command takes effect before it returns or never.
- Journal.RecoveryIff: does not model the shape checks of the state file field by field; a file that fails them counts as missing.
- AcceptedReleases.BuiltIsAcceptedIff: does not repeat the hash, size and JSON shape checks, since objects are read back as written; collections without a board are not part of this model.
- ReleaseContents.FullExportShowsCollections: does not order the rows inside a membership object by post number, which the validator does not look at, nor does it state the sums of views and comments in a collection summary.
- Incremental.IncrementalSaysWhatFullSays: does not compare views and a collection's newest source date, which the projection deliberately leaves out.
- Incremental.PostRefs.ChangedPostIds: does not sort the ids or hand them on in chunks; the posts prepared are the same.
- Outbox.ControlStore.Enqueue: does not model the byte encoding of payloads; a payload is its size.
- Recovery.RecoveryBatch: does not model the run record, the locks and the spider around the batch.
- Grouping.PreviewCollections: does not model regular expressions and Unicode normalisation, since parsing a title is a given function, nor several boards in one call.
- ExportRuns.PlanSaysWhatFullSays: does not model the cross-checks of a loaded base against its recorded counts and object files, which can only make an export stop earlier.
- ExportRuns.RefreshedSays: does not model the check of the collections' unavailable posts at the end of a refresh (scripts/export_static.py:2137), which can only stop it before the promotion.
- FrontierStore.Store.RequeueFullContent: does not model row ids; the rows up to the one given are a parameter.
- Versions.ArchiveStore.Store: does not model the run check, raw hashes, HTTP validators and body compression; date texts are read by a given function, and whether the lease is still held is a parameter.
- Commands.RunningIsResumedOrClosed: does not model what a resumed action does besides the ledger, and how long reports stay queued.
- The runner's publish and smoke cycle is modelled on values rather than as a class: its own state is only the files the publisher already holds.
- SQLite transactions, file locks, fsync and atomic replacement are assumed to do what they promise; one publisher runs at a time.
- Scrapy, HTTP, TLS, proxies, login sessions and WARC writing; the spider is an environment that claims and settles leases in any order.
- HTML sanitising, compression, SHA-256 and JSON encoding are injective or given functions.
- The archive import, backup and restore, retention, doctor, disk and timer probing, heartbeats and other best-effort telemetry.
- Paging of pending commands, conditional requests and inventory checkpoints: easy members beside the ones here.
- The Worker, the consoles and the reader.
