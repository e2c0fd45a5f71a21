# Maintenance tools of NetConsole: a verified model

NetConsole keeps its task results, optical treatment events and site files in SQLite
databases and directory trees, and looks after them with maintenance scripts. This
project models the scripts that are algorithms in their own right and proves what they
are trusted with.

- **Task results.** A result row moves from an inline JSON body to a shared
  content-addressed blob, and then loses its inline copy. The specification is a plain map
  from result identifiers to bodies. Batched migration, the update trigger, the ref-only
  plan with its backup and restore, and compaction by candidate replacement all have to
  implement that map, with a fault possible at every stage and a foreign writer in every
  window between stages. Modules `TaskResults`, `BlobMigration`, `MigrationRun`, `DryRun`,
  `MigrationSuccess`, `AuthorityAudit`, `RefOnlyPlan`, `RefOnlyClosure`, `DatabaseFiles`, `Compaction`,
  `Lifecycle`.
- **Stylesheets.** The block parser of the architecture checks, its index loops, and a
  printer it inverts. Modules `CssParser`, `CssRoundTrip`, `CssComments`.
- **Treatment events.** Token lists, merging, the backfill planner and its apply. Modules
  `Tokens`, `TreatmentEvents`, `BackfillPlan`, `BackfillSafety`, `BackfillRun`.
- **File migrations.** Merging several data roots into one, and copying legacy data out of
  a repository without overwriting. Modules `DataRootMigration`, `LegacyMigration`.
- **Inventory and accounting.** Directory traversal, table digests, report sections and the
  evidence laid over them. Modules `InventoryWalk`, `RowDigest`, `SiteStorage`,
  `ImpactEvidence`.
- **Kernels.** Two-level bounded top-K and proportional allocation. Modules `TopPayloads`,
  `SpaceAllocation`.
- `Bytes` and `Text` hold the few string and byte operations the others share.

Code that only computes is a function; a loop or an object with fields is a method or a
class, proved against such a function. What a later theorem says about the function then
holds of the loop.

## What is assumed

SHA-256 is a function parameter. Where a theorem needs it, its hypothesis says that the
hash does not collide (`SoundHash`, `Separates`). Where a tool only ever compares the
digest of a table, a row, a plan or a file, the digest is represented by what it digests.
Every write by a foreign process raises the modification time of the file it touches.
SQLite transactions commit as a whole or not at all. Case folding is modelled on ASCII
letters, and the trees files are merged into are case-insensitive.

## Where the code does less than one might expect

For each of these the members named say exactly what happens or when; several come with
a concrete example.

- The update trigger looks at one row and never at the blob table, so it admits marking a
  row as blob-backed before its blob exists; the body is then unreadable
  (`Lifecycle.RunImplementsIffSafe`, `Lifecycle.FlipWithoutBlobLosesBody`).
- The migration does not check parents, deterministic result identifiers or stray blobs,
  so a run without errors can end with a failing audit
  (`AuthorityAudit.MigrationPassesAuditIff`).
- `int(value or -1)` reads a stored zero as missing. A zero-length body
  (`TaskResults.EmptyBodyIsNeverRead`), a baseline store of zero bytes
  (`ImpactEvidence.MatchesBaselineIff`) and an empty inventory
  (`ImpactEvidence.BuildAcceptsReportIff`) are rejected for that reason.
- Compaction overwrites what another process commits between its last check and the
  replacement, and reports success (`Compaction.CompactProduction`,
  `Compaction.CommitSurvivesIff`, `Compaction.LateEventIsLost`). In the same way a restore
  after a failed check discards every foreign commit since the backup
  (`RefOnlyClosure.ApplyPlan`).
- The storage audit skips rows without an identifier before it counts orphans
  (`AuthorityAudit.AuditStorage`).
- The stylesheet parser drops a declaration whose value holds an opening brace, even
  inside quotes, and counts the reported line past the start of the declaration when the
  space after it is long (`CssRoundTrip.ReportedLineIsExactIff`). Comments are blanked
  inside quotes as well (`CssComments.QuotedCommentIsLost`).
- A second preserved conflict takes a tagged file name without looking whether that name
  is taken (`DataRootMigration.ConservedIff`, `ConflictsCanOverwriteEachOther`).
- A backed-up database need not be byte-identical to its source, so after a successful
  legacy migration a new plan can call it a conflict
  (`LegacyMigration.ReplanFindsNothingToCopy`). For the same reason a migration that
  stopped halfway is refused when it is started again, unless conflicts are skipped
  (`LegacyMigration.InterruptedApplyResumes`, `LegacyMigration.StoppedRunCanGetStuck`).
- A store filed as unknown by its identifier, but with a known data type, hides unmatched
  bytes in the report sections (`SiteStorage.SectionsFallShortBy`).

## Model

| member | source | states |
|---|---|---|
| `TaskResults.AdmittedUpdateKeepsBody` | `scripts/maintenance/migrate_task_result_blobs.py:108-136` | an update the trigger admits leaves a readable result readable with the same body if and only if it does not flip `blob_ready`, or the blob is already there |
| `TaskResults.UpdateIsAdmittedIff` | `scripts/maintenance/migrate_task_result_blobs.py:108-136` | under the trigger an update leaves a row as it is or marks an inline row as backed by the blob of its own digest, and nothing else |
| `TaskResults.InlineRowReadsIff` | `src/netconsole/repositories/task_result_blob_repository.py:100-130` | an inline row reads if and only if its body is not empty and fits digest, size, shape and identifier |
| `TaskResults.BlobReadsIff` | `src/netconsole/repositories/task_result_blob_repository.py:78-97` | a blob reads as its content if and only if codec, recorded length, digest and shape are those of the content and of the request |
| `TaskResults.BlobRowReadsIff` | `src/netconsole/repositories/task_result_blob_repository.py:100-130` | a blob-backed row reads as the content of the blob it names, or of the one under its own digest, if and only if that content is not empty and fits blob and row |
| `TaskResults.HalfMarkedRowIsRejected` | `src/netconsole/repositories/task_result_blob_repository.py:118-130` | a row that names a blob without being blob-backed is rejected |
| `TaskResults.EmptyBodyIsNeverRead` | `src/netconsole/repositories/task_result_blob_repository.py:113-130` | no row ever reads as the empty body, and what it reads as has the recorded size |
| `BlobMigration.EnsureBlobKeepsReads` | `src/netconsole/repositories/task_result_blob_repository.py:31-75` | storing a body adds at most its own digest, changes no stored blob, and reads back as that body |
| `BlobMigration.MigrateRowKeepsReads` | `scripts/maintenance/migrate_task_result_blobs.py:418-455` | migrating any one row changes what no readable result reads as, unmarks no row and touches nothing but rows and blobs |
| `BlobMigration.MigrateRowsKeepReads` | `scripts/maintenance/migrate_task_result_blobs.py:407-463` | the same for a whole batch of arbitrary rows |
| `BlobMigration.PendingAdvances` | `scripts/maintenance/migrate_task_result_blobs.py:139-158` | marking the first pending row leaves exactly the other rows pending |
| `BlobMigration.Selects` | `scripts/maintenance/migrate_task_result_blobs.py:139-158` | without resume every row is selected in key order, with it the legacy rows; a limit keeps that many of the first, a negative one none |
| `BlobMigration.PendingAfterPrefix` | `scripts/maintenance/migrate_task_result_blobs.py:139-158` | after any prefix of a run, a resume selects exactly the legacy rows of what was left, in order |
| `BlobMigration.ReadyRowsAreNoOps` | `scripts/maintenance/migrate_task_result_blobs.py:419-423` | skipping the blob-backed rows of a successful run does not change its outcome |
| `BlobMigration.ResumedRunReachesSameStore` | `scripts/maintenance/migrate_task_result_blobs.py:380-397` | a run cut after any number of rows and resumed reaches the store of the uninterrupted run, apart from SQLite's DDL counter |
| `BlobMigration.LimitedRunsAddUp` | `scripts/maintenance/migrate_task_result_blobs.py:139-158` | two resumed runs with limits reach the store of one run with both limits together |
| `MigrationRun.ApplyRow` | `scripts/maintenance/migrate_task_result_blobs.py:417-453` | one row inside the open transaction gets through if and only if the specified row migration does and its statement does not fail; the counters move as stated on success and on failure |
| `MigrationRun.ApplyBatch` | `scripts/maintenance/migrate_task_result_blobs.py:407-467` | the batch is committed if and only if every row migrates and no statement and no commit fails, with exactly the specified store; else the committed store is what it was |
| `MigrationRun.ApplyBatches` | `scripts/maintenance/migrate_task_result_blobs.py:387-397` | all rows are committed if and only if all migrate and no statement and no commit fails; else whole batches are, up to one that cannot be |
| `MigrationRun.MigrateDatabase` | `scripts/maintenance/migrate_task_result_blobs.py:353-404` | a run succeeds if and only if the batch-free migration does and no statement and no commit fails, for every batch size; then the stores are equal and its audit passes if and only if the store is settled; a stopped run committed whole batches only, up to one that cannot be |
| `MigrationRun.BatchStep` | `scripts/maintenance/migrate_task_result_blobs.py:389-394` | migrating a batch on top of a migrated prefix is migrating the longer prefix |
| `DryRun.CanonicalMetrics` | `scripts/maintenance/migrate_task_result_blobs.py:161-213` | the dry-run counters partition the rows, and unique plus duplicate contents are the migratable rows |
| `DryRun.CountRow` | `scripts/maintenance/migrate_task_result_blobs.py:171-196` | one row moves exactly the counters of its verdict |
| `DryRun.DryRunPredictsBlobs` | `scripts/maintenance/migrate_task_result_blobs.py:161-213` | a run that gets through ends with exactly the old blobs and the contents the dry run counted, and only if the dry run reported no mismatch and no failure |
| `MigrationSuccess.MigrateRowsSucceedIff` | `scripts/maintenance/migrate_task_result_blobs.py:407-467` | a run of rows gets through if and only if each inline row is convertible and meets no broken blob and, when asked to verify, each blob-backed row verifies against the blobs there are or those supplied before it |
| `MigrationSuccess.MigrationSucceedsIff` | `scripts/maintenance/migrate_task_result_blobs.py:353-397` | any run, limited or not, succeeds if and only if every row it selects goes through |
| `MigrationSuccess.MigrationEndsInPassIff` | `scripts/maintenance/migrate_task_result_blobs.py:353-404` | an unlimited run succeeds and passes its audit if and only if the store met conditions that can be checked beforehand |
| `AuthorityAudit.AuditAuthority` | `scripts/maintenance/migrate_task_result_blobs.py:248-350` | each counter is the size of the set it names, and PASS holds if and only if every row is ready, reads back and has its parent, and every blob is referenced |
| `AuthorityAudit.CountOrphanBlobs` | `scripts/maintenance/migrate_task_result_blobs.py:317-324` | counts exactly the blobs no ready row references |
| `AuthorityAudit.TallyRow` | `scripts/maintenance/migrate_task_result_blobs.py:325-342` | what one row adds to the counters |
| `AuthorityAudit.ScanRows` | `scripts/maintenance/migrate_task_result_blobs.py:325-342` | the row loop computes the sizes of the four row sets |
| `AuthorityAudit.NothingCountedIsSettled` | `scripts/maintenance/migrate_task_result_blobs.py:340-350` | all five sets are empty if and only if the store is settled |
| `AuthorityAudit.SettledIff` | `scripts/maintenance/migrate_task_result_blobs.py:295-350` | settled means: every result has its parent, reads, and is backed by the blob of its own digest, and no blob is left over |
| `AuthorityAudit.AuditStorageRow` | `scripts/maintenance/audit_task_storage_integrity.py:160-190` | what one row adds to the counters of the second audit; a row without an identifier is in no count |
| `AuthorityAudit.AuditStorage` | `scripts/maintenance/audit_task_storage_integrity.py:156-234` | counts the same blob orphans as the migration gate, and the same parent orphans if and only if no orphan has an empty identifier |
| `AuthorityAudit.CompleteRunMigratesAll` | `scripts/maintenance/migrate_task_result_blobs.py:379-397` | what an unlimited successful run has done to every row and every blob, told from the state before |
| `AuthorityAudit.RowSettlesIffMigratable` | `scripts/maintenance/migrate_task_result_blobs.py:325-350` | a row passes the closing audit if and only if it was migratable before |
| `AuthorityAudit.MigrationPassesAuditIff` | `scripts/maintenance/migrate_task_result_blobs.py:398-404` | an unlimited successful run ends in PASS if and only if the store met a condition that can be checked beforehand |
| `AuthorityAudit.OtherIdentifierMigratesAndFails` | `scripts/maintenance/migrate_task_result_blobs.py:424-453` | a concrete store that migrates without an error and then fails the audit |
| `RefOnlyPlan.ClearRowsExactly` | `scripts/maintenance/close_task_result_ref_only.py:862-872` | clearing succeeds only on distinct dual rows and empties the inline copy of exactly those |
| `RefOnlyPlan.InlineCopyIsNotRead` | `src/netconsole/repositories/task_result_blob_repository.py:100-130` | a blob-backed row reads the same without its inline copy |
| `RefOnlyPlan.ClosureClearsExactlyThePlan` | `scripts/maintenance/close_task_result_ref_only.py:837-877` | a committed closure clears exactly the planned rows, changes nothing else, and keeps every read |
| `RefOnlyPlan.CandidatesAreDualRows` | `scripts/maintenance/close_task_result_ref_only.py:380-412` | a preview lists exactly the rows kept both inline and as a blob |
| `RefOnlyPlan.CandidateBytesAreDualBytes` | `scripts/maintenance/close_task_result_ref_only.py:439-441` | the candidate bytes are the bytes of exactly those inline copies |
| `RefOnlyPlan.CollectedPlanClosesIff` | `scripts/maintenance/close_task_result_ref_only.py:837-877` | the transaction of a fresh plan succeeds if and only if the trigger is installed |
| `RefOnlyPlan.CollectsIff` | `scripts/maintenance/close_task_result_ref_only.py:368-460` | a preview succeeds if and only if every result reads, what is kept twice is the same twice, the task of each such row is terminal, readable, not online and not in long-term use, and the rollout is tracked |
| `RefOnlyPlan.TransactionCommitsIff` | `scripts/maintenance/close_task_result_ref_only.py:848-877` | the transaction commits if and only if the trigger is there and the items are different dual rows as they stand, of tasks that are terminal, not online and not in long-term use |
| `RefOnlyPlan.PostCheckIff` | `scripts/maintenance/close_task_result_ref_only.py:882-898` | the checks after a write pass if and only if identifiers, reference columns, snapshots, events, schema and trigger are what they were, and as many blobs |
| `RefOnlyPlan.AlreadyAppliedIff` | `scripts/maintenance/close_task_result_ref_only.py:695-712` | a plan counts as applied if and only if those checks pass and no row is dual, with the same rollout and the same blobs |
| `RefOnlyPlan.AppliedPlanIsRecognised` | `scripts/maintenance/close_task_result_ref_only.py:695-730` | a fresh plan for a store with its trigger closes; after that no row is dual, the released bytes are the difference, the parity checks hold and the plan is recognised as applied |
| `RefOnlyPlan.SameAuthorityReadsTheSame` | `scripts/maintenance/close_task_result_ref_only.py:313-345` | two verified databases with equal authority digests read the same |
| `RefOnlyClosure.ClearCandidates` | `scripts/maintenance/close_task_result_ref_only.py:862-872` | the UPDATE loop computes the specified rows, or fails when one update is not exact, and `released` is the sum of the candidate bytes |
| `RefOnlyClosure.RunTransaction` | `scripts/maintenance/close_task_result_ref_only.py:837-881` | the transaction is exactly the specified closure, or nothing when that fails or the commit does |
| `RefOnlyClosure.CheckedPlanKeepsReads` | `scripts/maintenance/close_task_result_ref_only.py:883-900` | when the parity checks hold every result reads as it did when the plan was made, whatever happened in between |
| `RefOnlyClosure.ApplyPlan` | `scripts/maintenance/close_task_result_ref_only.py:792-915` | every exit, with a fault possible at every stage and any foreign writer in every window: exactly when the plan is applied, restored, failed to restore, or recognised as applied; applied means the planned rows of what the transaction found and nothing else were cleared; whatever was written, the rows cleared were of terminal tasks, not online and not in long-term use; restored means the planned content is back; refused or recognised means nothing was written by the tool; a failed restore leaves the write, what a foreign writer made of it, or the planned content unchecked |
| `RefOnlyClosure.ApplyTwice` | `scripts/maintenance/close_task_result_ref_only.py:791-819` | a genuine plan applied without other writers succeeds if and only if no stage up to the checks fails; applying it again is a no-op whatever happens around it, and the file still holds exactly the closure |
| `DatabaseFiles.DatabaseFile.Switch` | `scripts/maintenance/compact_task_result_storage.py:73-87` | the candidate replaces the file if and only if no log pages are left and the rename succeeds; otherwise the content is untouched and at most an inactive shared-memory file is gone |
| `DatabaseFiles.DatabaseFile.Restore` | `scripts/maintenance/close_task_result_ref_only.py:621-648` | a restore that fails to bind or copy writes nothing, one that fails its check has written the backup, otherwise the backup is in place |
| `Compaction.SameLogicalReadsTheSame` | `scripts/maintenance/compact_task_result_production.py:302-317` | databases with equal logical contracts read the same |
| `Compaction.CompactProduction` | `scripts/maintenance/compact_task_result_production.py:531-600` | every exit for any foreign writer, success, restore and failed restore each if and only if: success means logical parity with a strictly smaller candidate; after a failed check the restored file holds exactly the planned content; skipped or refused means nothing written; a commit after the last check survives success if and only if it left the logical content as it was |
| `Compaction.ParityKeepsReads` | `scripts/maintenance/compact_task_result_storage.py:139-180` | the parity gates force every read of the source to carry over to the candidate and back |
| `Compaction.ParityIff` | `scripts/maintenance/compact_task_result_storage.py:139-180` | the gates pass if and only if both sides list the same tasks alike, have the same online sessions and read every result the same, under the same task and event type |
| `Compaction.CandidateHasParityIff` | `scripts/maintenance/compact_task_result_storage.py:213-281` | the candidate meets the gates if and only if every result of the source verifies |
| `Compaction.CompactDatabase` | `scripts/maintenance/compact_task_result_storage.py:284-329` | for any foreign writer: the source is replaced if and only if the gates pass, no log is left and the rename succeeds, by the strictly smaller candidate of the backup without inline duplicates, keeping every read, the task list and the online sessions the gates saw; otherwise the file is as the last writer left it |
| `Compaction.CommitSurvivesIff` | `scripts/maintenance/compact_task_result_storage.py:298-314` | a foreign commit survives a replacement if and only if nothing differs that compaction keeps between the backup and that commit; one before the backup always does |
| `Compaction.CompactionKeepsIff` | `scripts/maintenance/compact_task_result_storage.py:213-281` | two stores compact to the same logical content if and only if they differ in nothing but inline duplicates, the trigger text and the DDL counter |
| `Compaction.LateEventIsLost` | `scripts/maintenance/compact_task_result_storage.py:312-314` | a concrete commit after the gates that a successful compaction loses |
| `Lifecycle.StepKeepsGuard` | `scripts/maintenance/migrate_task_result_blobs.py:89-136` | every step keeps the trigger installed and the rows in place and unmarks none; every step but a foreign update keeps every read |
| `Lifecycle.StepImplementsIff` | `scripts/maintenance/migrate_task_result_blobs.py:108-136` | a step keeps the store an implementation of its map of bodies if and only if it is no admitted flip without its blob |
| `Lifecycle.RunImplementsIffSafe` | `scripts/maintenance/migrate_task_result_blobs.py:108-136` | over every interleaving of installs, batches, closures, replacements and admitted updates: each result reads as its original body at every commit point if and only if every admitted flip found its blob in place |
| `Lifecycle.RunKeepsGuard` | `scripts/maintenance/migrate_task_result_blobs.py:107-136` | at every commit point of every run the trigger is there, no row is unmarked and none is lost |
| `Lifecycle.FlipWithoutBlobLosesBody` | `scripts/maintenance/migrate_task_result_blobs.py:126-131` | a concrete store whose only result becomes unreadable by an update the trigger admits |
| `Lifecycle.MigratedByTwoSteps` | `scripts/maintenance/migrate_task_result_blobs.py:353-404` | installing the schema and migrating all that is pending leaves every result blob-backed and reading the same |
| `Lifecycle.ReleasedByClosure` | `scripts/maintenance/close_task_result_ref_only.py:848-877` | the closure a preview plans leaves no body kept twice and every read as it was |
| `Lifecycle.ReleasedByReplacement` | `scripts/maintenance/compact_task_result_storage.py:284-329` | so does the replacement by a candidate once every result verifies |
| `CssParser.BlankingKeepsLines` | `scripts/architecture/checks.py:174` | blanking comments changes no line count |
| `CssParser.MatchIsBalancing` | `scripts/architecture/checks.py:177-198` | the brace found is the first position at which the scan is balanced outside quotes, and it is found if there is one |
| `CssParser.QuotesHideBoth` | `scripts/architecture/checks.py:177-198` | between double or single quotes neither a semicolon ends a declaration nor a brace a block |
| `CssParser.MatchingBrace` | `scripts/architecture/checks.py:177-198` | the index loop computes that position, or -1 |
| `CssParser.Parser.EmitPiece` | `scripts/architecture/checks.py:230-243` | one piece appends what the declaration rules call for, with its reported line |
| `CssParser.PropertyNameIff` | `scripts/architecture/checks.py:239-241` | a property name is a word of letters, digits, underscores and hyphens that starts with a letter or underscore, in either case, or two hyphens and such a word |
| `CssParser.Parser.ScanBlock` | `scripts/architecture/checks.py:211-243` | one pass over a block appends its declarations as specified on the text |
| `CssParser.NextBlock` | `scripts/architecture/checks.py:203-208` | finds the next block of a range and the brace that closes it |
| `CssParser.Parser.ParseRange` | `scripts/architecture/checks.py:200-244` | the recursion on shrinking ranges appends what parsing the range as a text of its own gives |
| `CssParser.CssDeclarations` | `scripts/architecture/checks.py:172-249` | the whole parser equals its specification on text |
| `CssRoundTrip.EmitShown` | `scripts/architecture/checks.py:230-243` | a printed declaration is read back with its property folded and its value stripped, or dropped if its value holds an opening brace |
| `CssRoundTrip.FindShownBlock` | `scripts/architecture/checks.py:177-208` | the parser finds a printed block from its opening to its own closing brace |
| `CssRoundTrip.ParseShowSheet` | `scripts/architecture/checks.py:200-244` | printing any tree of rules and nested at-rules and parsing it returns its declarations in document order |
| `CssRoundTrip.RoundTrip` | `scripts/architecture/checks.py:172-249` | for every text, with or without comments: if blanking leaves a printed sheet, parsing returns its declarations |
| `CssComments.CommentedRoundTrip` | `scripts/architecture/checks.py:172-249` | printing any tree with comments in any of its spacing and parsing it returns its declarations, on the lines where the comments leave them |
| `CssComments.SeamThen` | `scripts/architecture/checks.py:174` | blanking goes piece by piece where every comment is closed |
| `CssComments.QuotedCommentIsLost` | `scripts/architecture/checks.py:174` | a comment inside quotes is taken out of the quoted text |
| `CssRoundTrip.ReportedLineIsExactIff` | `scripts/architecture/checks.py:239` | the reported line is that of the property name if and only if no newline lies where the count over-reaches |
| `Tokens.ReparsesIff` | `scripts/backfill_ap_optical_treatment_events.py:130-144` | a token list written out re-parses to itself if and only if its outer edges are not whitespace |
| `Tokens.JoinTokensIsOrderedUnion` | `scripts/backfill_ap_optical_treatment_events.py:138-144` | joining two token texts writes their union without repeats, the first text's tokens first |
| `Tokens.CollectTokens` | `scripts/backfill_ap_optical_treatment_events.py:130-144` | for any number of texts the append-if-new loops compute the joined union of their tokens |
| `TreatmentEvents.FoldSidesIsUnion` | `scripts/backfill_ap_optical_treatment_events.py:114-127` | merging any number of sides in any order names exactly the ends any of them saw |
| `TreatmentEvents.WorseOfTwo` | `scripts/backfill_ap_optical_treatment_events.py:83-94` | of two readings the smaller number is kept, infinities included, and a text that is no number loses to what is there |
| `TreatmentEvents.FoldWorseIsMinimum` | `scripts/backfill_ap_optical_treatment_events.py:83-94` | over any readings: nothing if there is none; a first reading that is no number stays for good; otherwise a smallest of the numbers since the last NaN, other texts ignored |
| `BackfillPlan.GroupingKeepsKeys` | `scripts/backfill_ap_optical_treatment_events.py:608-650` | grouping loses no candidate key, adds none, and keeps every summary group's own key |
| `BackfillPlan.HolderIsSummaryHolder` | `scripts/backfill_ap_optical_treatment_events.py:652-675` | a group meets an existing row only through its summary key; candidate-only groups never do |
| `BackfillPlan.DistinctRows` | `scripts/backfill_ap_optical_treatment_events.py:652-675` | two groups never update the same row |
| `BackfillPlan.ApplyWrites` | `scripts/backfill_ap_optical_treatment_events.py:711-740` | every row after applying a plan is an old row or the work of one operation, and every operation is visible |
| `BackfillSafety.BackfilledIsOk` | `scripts/backfill_ap_optical_treatment_events.py:711-751` | every row still records its key in its evidence and holds at most one summary key |
| `BackfillSafety.AllConsumed` | `scripts/backfill_ap_optical_treatment_events.py:439-447` | after an apply every summary and candidate key is consumed |
| `BackfillSafety.BackfillIsIdempotent` | `scripts/backfill_ap_optical_treatment_events.py:564-675` | planning again on the same inputs yields no operation, in whatever order the table is read back |
| `BackfillSafety.OneGroupPerKey` | `scripts/backfill_ap_optical_treatment_events.py:608-650` | with distinct candidate keys each key is evidence of one group only |
| `BackfillSafety.EvidenceIsConserved` | `scripts/backfill_ap_optical_treatment_events.py:608-740` | the key of every new accepted candidate ends up in the evidence of exactly one row |
| `BackfillSafety.EvidenceStaysWithItsAccessPoint` | `scripts/backfill_ap_optical_treatment_events.py:617-675` | the one row that ends up with a new candidate key is about the access point of that candidate |
| `BackfillSafety.OwnSummariesStay` | `scripts/backfill_ap_optical_treatment_events.py:269-271` | after a run every summary key is still evidence of its own access point only |
| `BackfillSafety.PlacedWhere` | `scripts/backfill_ap_optical_treatment_events.py:617-650` | a candidate joins the first summary of its access point in whose time it began, else the first group of its access point that began with it, else it is a group of its own |
| `BackfillSafety.MembersShareIdentity` | `scripts/backfill_ap_optical_treatment_events.py:555-562` | everything a group takes in is about its access point |
| `BackfillSafety.ConflictFreeIffOneOpenEach` | `scripts/backfill_ap_optical_treatment_events.py:677-689` | the conflict check passes if and only if applying leaves at most one open event per access point |
| `BackfillSafety.RepeatedBackfillsAreSafe` | `scripts/backfill_ap_optical_treatment_events.py:711-751` | over any sequence of runs with inputs of their own the table stays well-formed, no access point has two open events, and the last successful run is idempotent |
| `BackfillSafety.GroupJoinsItsMembers` | `scripts/backfill_ap_optical_treatment_events.py:490-503` | a group's worst side and each of its three worst readings are those of all its members folded together |
| `BackfillSafety.WorstSideIsJoin` | `scripts/backfill_ap_optical_treatment_events.py:490-494` | a group's worst side names an end if and only if some member saw it |
| `BackfillSafety.GroupGathersItsMembers` | `scripts/backfill_ap_optical_treatment_events.py:490-550` | a group stays the occurrence it started as; its token lists are those of its members merged in order, its audits theirs in turn, and each descriptive column is what the first member with anything there said |
| `BackfillSafety.UpdateAddsProvenance` | `scripts/backfill_ap_optical_treatment_events.py:450-487` | an update of a row touches nothing but provenance and adds to it |
| `BackfillRun.ConsumedKeys` | `scripts/backfill_ap_optical_treatment_events.py:439-447` | collects exactly the keys existing rows account for |
| `BackfillRun.IndexByKey` | `scripts/backfill_ap_optical_treatment_events.py:653-657` | maps each key to the last row that holds it |
| `BackfillRun.BuildGroups` | `scripts/backfill_ap_optical_treatment_events.py:608-650` | the grouping loop computes the specified groups |
| `BackfillRun.BuildOperations` | `scripts/backfill_ap_optical_treatment_events.py:652-675` | the operation loop computes the specified operations |
| `BackfillRun.HasConflict` | `scripts/backfill_ap_optical_treatment_events.py:677-689` | the counting loop reports a conflict if and only if some access point would have two open events |
| `BackfillRun.EventCountIsSize` | `scripts/backfill_ap_optical_treatment_events.py:741-750` | the recount is over the events of the access point, each once |
| `BackfillRun.EventStore.Backfill` | `scripts/backfill_ap_optical_treatment_events.py:711-754` | a run writes the whole plan and recounts every recurrence as max(0, events - 1), or leaves the store as it was; it gets through if and only if nothing is unresolved or conflicting and no statement fails |
| `DataRootMigration.MappedOutsideConflicts` | `scripts/maintenance/migrate_unified_data_root.py:428-467` | no mapped file can land under `migrations/conflicts` |
| `DataRootMigration.LeftBehindIff` | `scripts/maintenance/migrate_unified_data_root.py:428-434` | a file is left behind if and only if it is a runtime lock |
| `DataRootMigration.WhereFilesGo` | `scripts/maintenance/migrate_unified_data_root.py:428-467` | every other file goes to the one area of its root and keeps the stated tail of its path |
| `DataRootMigration.SharedTargetIff` | `scripts/maintenance/migrate_unified_data_root.py:428-467` | two files of one source share a target if and only if they go to the same area and are called the same there, case aside |
| `DataRootMigration.TagGoesBeforeSuffix` | `scripts/maintenance/migrate_unified_data_root.py:502-506` | the tag of a contested conflict goes before the last suffix of the name, and after a name without one |
| `DataRootMigration.RunKeepsInv` | `scripts/maintenance/migrate_unified_data_root.py:218-274` | decisions mirror the mapped files one by one, known slots hold what claimed them, and every payload file was written by a decision |
| `DataRootMigration.CopiesAreKept` | `scripts/maintenance/migrate_unified_data_root.py:232-256` | copies are never overwritten, distinct under case folding, and hold the content of every duplicate of them |
| `DataRootMigration.ConservedIff` | `scripts/maintenance/migrate_unified_data_root.py:257-274` | the content of every mapped file is kept at the place its decision names if and only if no tagged conflict name is taken by other content when it is used |
| `DataRootMigration.AllKeptIff` | `scripts/maintenance/migrate_unified_data_root.py:218-274` | every source file but the runtime locks is decided on and found at the place its decision names, if and only if no tagged conflict name is taken by other content when it is used |
| `DataRootMigration.DistinctTargetsConserve` | `scripts/maintenance/migrate_unified_data_root.py:257-274` | nothing is lost when within each source no two files have the same target |
| `DataRootMigration.ConflictsCanOverwriteEachOther` | `scripts/maintenance/migrate_unified_data_root.py:502-506` | five concrete files, for any hash, whose preserved conflicts overwrite each other |
| `DataRootMigration.ReportAddsUp` | `scripts/maintenance/migrate_unified_data_root.py:102-107` | one copy per distinct target, and copies, duplicates and preserved conflicts add up to the mapped files |
| `DataRootMigration.Migration.TakeIn` | `scripts/maintenance/migrate_unified_data_root.py:222-274` | the loop body updates payload, known targets and report as the step function says |
| `DataRootMigration.Migration.CopyAll` | `scripts/maintenance/migrate_unified_data_root.py:218-274` | the loop over all files, stopping at the first failure |
| `LegacyMigration.BuildPlan` | `scripts/maintenance/migrate_legacy_runtime_data.py:56-113` | the planning loop computes the specified plan |
| `LegacyMigration.PlanSays` | `scripts/maintenance/migrate_legacy_runtime_data.py:56-113` | every entry told from the destination and the first data file that goes to its slot: unsafe, skipped, present, copied, duplicate or conflict, with its kind and bytes |
| `LegacyMigration.PlannedCopiesAreFresh` | `scripts/maintenance/migrate_legacy_runtime_data.py:80-98` | planned copies go to pairwise distinct slots, none of which is taken |
| `LegacyMigration.Destination.Apply` | `scripts/maintenance/migrate_legacy_runtime_data.py:116-189` | for any plan and any destination nothing is overwritten, the copies made are a prefix of the plan's, and a stop has one of the stated reasons |
| `LegacyMigration.PlanDelivers` | `scripts/maintenance/migrate_legacy_runtime_data.py:56-189` | planning and then applying puts each wanted file whose slot is free, in walk order |
| `LegacyMigration.ReplanAfterStop` | `scripts/maintenance/migrate_legacy_runtime_data.py:56-113` | planning again after a stop anywhere returns every entry, its action decided by what has landed at its slot |
| `LegacyMigration.InterruptedApplyResumes` | `scripts/maintenance/migrate_legacy_runtime_data.py:147-189` | a run of an admitted plan stopped anywhere and planned again is admitted again if and only if conflicts are skipped or every copy made so far is byte-identical to its source; applied to the end, the second plan leaves the destination of the uninterrupted run |
| `LegacyMigration.StoppedRunCanGetStuck` | `scripts/maintenance/migrate_legacy_runtime_data.py:147-189` | a database and a file: stopped between them, with a backup that differs from the database, the run is refused when started again and the file stays missing |
| `LegacyMigration.ReplanFindsNothingToCopy` | `scripts/maintenance/migrate_legacy_runtime_data.py:76-98` | after a complete apply a new plan copies nothing; each entry's second action is stated, so copied regular files are present and databases only if their backup is identical |
| `InventoryWalk.WalkReportsExactly` | `scripts/maintenance/collect_global_storage_inventory.py:204-255` | the walk reports a path with an outcome if and only if following the path from the root calls for it |
| `InventoryWalk.WalkOnce` | `scripts/maintenance/collect_global_storage_inventory.py:204-255` | no path is reported twice |
| `InventoryWalk.OutcomeIs` | `scripts/maintenance/collect_global_storage_inventory.py:212-250` | a path through directories is reported as what lies at its end; only a top-level `sites` is left out, with all it holds, and only if that is asked for |
| `InventoryWalk.ScanDirectory` | `scripts/maintenance/collect_global_storage_inventory.py:212-250` | one directory: its files and skipped entries are reported, its subdirectories collected |
| `InventoryWalk.SnapshotFiles` | `scripts/maintenance/collect_global_storage_inventory.py:204-255` | the worklist loop terminates and reports what the recursive walk does, in the same order |
| `InventoryWalk.SnapshotIsExact` | `scripts/maintenance/collect_global_storage_inventory.py:204-255` | exactly the regular files reachable through directories that are no reparse points, outside an excluded `sites`, each once; every other entry met is skipped, once |
| `RowDigest.DecimalRoundTrip` | `scripts/maintenance/collect_global_storage_inventory.py:646` | an integer's decimal text reads back as the integer |
| `RowDigest.RowRoundTrip` | `scripts/maintenance/collect_global_storage_inventory.py:455-493` | marker, eight-byte length and payload of each value can be decoded back to the row |
| `RowDigest.EncodingIsInjective` | `scripts/maintenance/collect_global_storage_inventory.py:455-493` | equal hashed byte streams if and only if equal typed rows |
| `RowDigest.AggregateIsOrderIndependent` | `scripts/maintenance/collect_global_storage_inventory.py:489-492` | the hashed table stream is equal if and only if the row digests occur equally often |
| `RowDigest.TableDigestIsRowMultiset` | `scripts/maintenance/collect_global_storage_inventory.py:455-493` | two tables have the same digest if and only if they hold the same rows equally often |
| `RowDigest.SortedItems` | `scripts/maintenance/collect_global_storage_inventory.py:490` | the counter's items in ascending digest order |
| `RowDigest.ProfileRows` | `scripts/maintenance/collect_global_storage_inventory.py:455-555` | the profile loop yields that digest stream, and `duplicate_rows` is rows minus distinct rows |
| `Bytes.BigEndianRoundTrip` | `scripts/maintenance/collect_global_storage_inventory.py:461` | a length that fits in its bytes reads back from them |
| `Bytes.EightBytesFit` | `scripts/maintenance/collect_global_storage_inventory.py:461` | eight bytes hold exactly the lengths below 2 to the 64 |
| `TopPayloads.Offer` | `scripts/maintenance/analyze_task_payloads_dev.py:186-189` | fill-or-replace keeps a heap of exactly the K largest tokens offered |
| `TopPayloads.AnalyzeDatabase` | `scripts/maintenance/analyze_task_payloads_dev.py:155-189` | per database the kept tokens are exactly the K largest, the earlier of equal sizes first |
| `TopPayloads.TopSizesAreUnique` | `scripts/maintenance/analyze_task_payloads_dev.py:186-189` | there is only one multiset of the K largest sizes |
| `TopPayloads.TopOfTops` | `scripts/maintenance/analyze_task_payloads_dev.py:213-243` | keeping the K largest of each part and then of what was kept is keeping the K largest of everything, for every partition |
| `TopPayloads.OfferAll` | `scripts/maintenance/analyze_task_payloads_dev.py:236-243` | one database's heap, in any order, is offered to the report's |
| `TopPayloads.WriteReport` | `scripts/maintenance/analyze_task_payloads_dev.py:203-243` | the report's sizes are exactly the K largest of all records in readable current-site databases |
| `SpaceAllocation.ResidualIsSmall` | `scripts/maintenance/audit_tasks_db_space.py:160-173` | floors never exceed the live bytes and fall short by less than the number of objects |
| `SpaceAllocation.ShareIndexes` | `scripts/maintenance/audit_tasks_db_space.py:164-166` | each table's index bytes are the floors of its own indexes |
| `SpaceAllocation.EstimateAllocation` | `scripts/maintenance/audit_tasks_db_space.py:132-174` | table and index bytes add up to the live bytes exactly; every object has its floor, the first largest table the small residual as well |
| `SiteStorage.StoresAndUnmatchedAreAll` | `scripts/maintenance/finalize_site_storage_audit.py:899-943` | every byte is in exactly one store or unmatched |
| `SiteStorage.UnknownClassBytes` | `scripts/maintenance/finalize_site_storage_audit.py:946-981` | the UNKNOWN class holds the unmatched bytes and those of stores of that type |
| `SiteStorage.ClassificationTotals` | `scripts/maintenance/finalize_site_storage_audit.py:1969-1978` | one pass fills the class totals, which sum to the inventory total |
| `SiteStorage.StoreUsage` | `scripts/maintenance/finalize_site_storage_audit.py:1925-1966` | one pass fills files, bytes and protected bytes of every store |
| `SiteStorage.GroundStores` | `scripts/maintenance/finalize_site_storage_audit.py:1877-1885` | stores of the ground sites go to their section, whatever their known type, but the active raw store to the log section |
| `SiteStorage.OtherStores` | `scripts/maintenance/finalize_site_storage_audit.py:1877-1922` | stores without a routed identifier are filed as runtime files and sidecars, raw files, analyses, and then by data type alone |
| `SiteStorage.BuildSections` | `scripts/maintenance/finalize_site_storage_audit.py:1805-1874` | the loop over the stores builds every section as specified, the unlisted unknown bytes added to one |
| `SiteStorage.SectionsFallShortBy` | `scripts/maintenance/finalize_site_storage_audit.py:1805-1922` | the sections miss the inventory total by exactly the smaller of unmatched and misrouted bytes |
| `SiteStorage.SectionsReconcileIff` | `scripts/maintenance/finalize_site_storage_audit.py:1805-1922` | the sections sum to the total if and only if nothing is unmatched or nothing is misrouted |
| `SiteStorage.MisroutedStoreHidesUnmatched` | `scripts/maintenance/finalize_site_storage_audit.py:1847-1853` | a concrete inventory of eight bytes whose sections sum to five |
| `ImpactEvidence.BuildImpact` | `scripts/maintenance/build_site_storage_optimization_impact.py:72-176` | evidence is built if and only if every check holds, and is the overlay of the baseline with sums that match |
| `ImpactEvidence.OverlaySections` | `scripts/maintenance/build_site_storage_optimization_impact.py:113-153` | the loop and the two rewrites give every section its overlay |
| `ImpactEvidence.OverlayMoves` | `scripts/maintenance/build_site_storage_optimization_impact.py:113-158` | the two site totals differ by what the two stores shrank and the history gained; nothing else moves |
| `ImpactEvidence.MatchesBaselineIff` | `scripts/maintenance/build_site_storage_optimization_impact.py:198-213` | a store matches if and only if it is listed once, with the measured bytes, and these are not zero |
| `ImpactEvidence.BuiltEvidenceIsAccepted` | `scripts/maintenance/finalize_site_storage_audit.py:418-500` | built evidence passes every check of loading it for the same inventories |
| `ImpactEvidence.AcceptedStartsFromInventory` | `scripts/maintenance/finalize_site_storage_audit.py:418-500` | accepted evidence has every section without a negative figure and starts from the bytes of the inventory, which are not zero |
| `ImpactEvidence.HeaderIsDetermined` | `scripts/maintenance/finalize_site_storage_audit.py:418-500` | in evidence the audit accepts nothing of the header is free: it follows from the inventories and the sections |
| `ImpactEvidence.AppliedEvidenceFits` | `scripts/maintenance/finalize_site_storage_audit.py:1779-1802` | evidence that loads and fits a report section by section belongs to one whose sections sum to the inventory |
| `ImpactEvidence.BuildAcceptsReportIff` | `scripts/maintenance/build_site_storage_optimization_impact.py:72-158` | for the baseline of a report of the same files the exact reasons to refuse; the negative-overlay check never fires |

## Left out

- Bytes of SQLite files, write-ahead logs, PRAGMAs, `VACUUM`, zlib and SQL text: tables are maps or sequences of records, a file is its logical content with a size and a modification time.
- Table-exists and column-exists branches, schema creation and the exact value of SQLite's DDL counter: the tables are there, and the counter only moves.
- Authorization, production guards, maintenance locks, plan digests over JSON, path and reparse-point checks, backup placement: operating-system or policy checks around the modelled protocols.
- The rollout, capability and cleanup services are not part of this model; one uninterpreted predicate stands for the search for long-term references in a task snapshot.
- The table-row counts and the estimated compression savings of the migration report.
- Compaction.CompactProduction: the candidate that `VACUUM INTO` writes is an arbitrary image that has to pass the checks; building it and removing inactive sidecars are not modelled step by step, and a restore that is cut short is one outcome.
- RefOnlyClosure.ApplyPlan: a foreign write after the tool's own commit is constrained only by the checks that follow it; the final reading of the file size after the protected block is not modelled.
- The mapping of database rows and audit evidence to events (`_summary_event`, `_trace_event`), evidence JSON as text, event UUIDs and unique indexes of the event table: events carry the fields the planner works with, and that two summaries have distinct keys is a hypothesis (`InputOk`). The table's unique constraint on site and access point does not quite give it, since the key falls back to another column and is stripped. That a summary key is made of site and access point is used where it is needed (`OwnSummaries`).
- TreatmentEvents.FoldWorseIsMinimum: what a text is as a number is a parameter; rounding of decimal text to a float is not modelled.
- BackfillRun.EventStore.Backfill: plan and apply act on one state; a writer between the planning read and the transaction is not modelled.
- DataRootMigration.ConservedIff: publishing the payload and the three files rewritten after the copy loop are not modelled, and a clash between a file and a directory of the same name counts as a failing copy.
- LegacyMigration.Destination.Apply: the destination is a flat map of files, so a clash between a file and a directory created on the way counts as a failing copy; nothing acts between the existence check and the rename.
- InventoryWalk.SnapshotFiles: entries come in the order the listing is sorted to, the final sort of the two result lists and entries that cannot be read are not modelled.
- RowDigest.ProfileRows: content, identity and time columns and the large-value counters of the table profile are independent tallies and left out, and so are values SQLite does not return.
- TopPayloads.WriteReport: the heap is its elements in ascending order, not `heapq`'s array, and the statement is about sizes, since among equal sizes the order inside a heap decides; percentiles and categories are left out.
- SpaceAllocation.EstimateAllocation: floors are exact, where the script divides floating-point numbers; weights are given.
- Path patterns of the storage registry, validation of the registry, classification of database tables, the merge of two raw inventories and the groups of duplicate files.
- ImpactEvidence.BuiltEvidenceIsAccepted: evidence path lists are left out; that the values are JSON integers is a matter of types here.
- The remaining architecture checks, workspace checks, benchmarks, report printing and command-line parsing.
