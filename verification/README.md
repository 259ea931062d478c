# ai-wiki, verified

A Dafny model of the deterministic bookkeeping of ai-wiki, with proofs of what it promises. Each module
follows one part of the program:

| files | part |
|---|---|
| `Workspace`, `WorkspaceHistory`, `WorkspaceDir` | `ai-wiki workspace pull`: the three-way merge as atomic disk steps, its crashes while the server publishes, and the directory object that takes them |
| `Ledger`, `LedgerSafety`, `LedgerStrays`, `LedgerBounds`, `LedgerBuilds`, `LedgerHistories`, `LedgerRunner`, `LedgerMeaning` | the durable ledger of `ai-wiki maintain`, the writer it talks to, the driver over both, and its guards in the fields of the jobs |
| `Listing`, `ListingMeaning`, `Delta`, `Collectors` | incremental issue collection: paging over a changing list, windows and cursors, compare-and-swap between collectors |
| `Spill`, `Frontmatter`, `Bookkeeping`, `BookkeepingLaws`, `BookkeepingMeaning`, `BookkeepingIdempotence` | service-owned bookkeeping of a concept: spilled lines, key surgery, restoring, stamping, verdicts |
| `Policy`, `PolicyMeaning`, `PolicyExample` | the policy that judges concepts from the documents alone |
| `EditDistance` | the banded edit distance and the mistyped snapshot reference |
| `Text`, `Strings`, `Dates`, `Log`, `LogLaws`, `LogMeaning`, `LogHistory`, `LogPattern` | Python's text operations, string and calendar order, and the date-grouped log with its validator |
| `Packing`, `Retry`, `Cache`, `CacheMeaning` | greedy packing, the retry clock, the locked LRU caches |
| `Prelude` | optional values, map lookup, distinct sequences |

`dafny verify dfyconfig.toml` checks everything.

Loops and objects of the program are Dafny loops and classes, each proved equal to a function or to a step
of a state machine; what the program promises is proved of those. The `…Meaning` modules say what these
functions come to without them: in contents, fields, lines and counts. Crashes, lost answers, refusals and
interleavings are events of the state machines, so the main results speak of every run.

## Assumptions

- **Hashes** are injective: a file is modelled by its content. No published path ends in `.mine` and none is
  a prefix of another, so `.mine` copies have a map of their own.
- **YAML** is the record `Bookkeeping.Yaml` of reading and writing functions; the laws need only the four facts of
  `BookkeepingLaws.Faithful`, which `PolicyExample.SmallIsFaithful` shows can hold. Two loaders are kept apart: the
  bookkeeping leaves timestamps as text, the policy reads them as times.
- **Times** are integers finer than a second; the retry clock is real-valued and time passes only while an
  attempt waits and while the client sleeps.
- **The writer** answers a POST as `src/aiwiki/service/ingest.py` does: it reuses the newest reusable job
  for the same bytes or parent and grants one fresh review after a verdict slip.
- **The issue server** shows what happened up to `as_of`, and lists an issue as changed no earlier than its
  activity (`Delta.Sees`); in `Collectors` nothing happens longer than the settle margin ago.
- **Idempotence** has an exact condition on repeated keys (`IdempotentExactly`, `DuplicateKeysMoveTheStamp`): where no
  frontmatter was before, a key in front of the stamp, or of the status the service adds, must not be written again
  behind it; where an edit is discarded, the old document must hold each key of the service once.

## Where the code does not do what it says

Each of these is a lemma below: the exact condition, or a concrete history.

- A local edit can be lost when `pull` crashes while `discard` is not empty and the server's version equals the
  discarded bytes: the rerun takes the half-merged path for committed and drops the `.mine` that holds the
  edit (`EditsSurviveCrashes`, `OvertakenIsLost`, `OvertakenHappens`). Without a crash nothing is lost.
- When the server publishes again between a crash and the rerun, the rerun sets the half-merged version aside over
  the `.mine` that holds the edit. It happens if and only if the path goes through three different versions, the
  second one a file (`EditsSurvivePublications`, `TwoPublicationsBury`).
- A directory that holds `.ai-wiki/` but no `workspace.json` is pulled into "afresh"; local files there are
  overwritten where the server publishes, and left as strays where it does not (`EditsSurvivePull`,
  `PullIsThreeWayMerge`).
- The attempt caps do not bound a failure class without a cap (`auth`, `disk`, `input`) that a record marks
  retryable (`PastTheBound`, `UncappedIsUnbounded`).
- The comment on `_extra_build` says that each build earns at most one attempt; the entry remembers only the
  last build. The promise holds if and only if the reports of `/health` never return to a build that they left
  (`BuildsEarnOnce`, `BuildsEarnOnceExactly`); two builds that take turns earn any number (`TwoBuildsEarnForever`).
- A refused repeat of a POST drops the flag that covered the job of a lost answer, and a fresh review after a
  verdict slip can leave the slipped audit unrecorded (`LostThenRefused`, `SlippedWhileLost`). A job is forgotten
  only if its flag was up already when the POST was sent and an answer that named it was lost (`AnswerForgets`);
  a run that loses no answer forgets none (`NothingLostNothingForgotten`). `StrayOrigins` gives every origin.
- A row that the next page reads again, deleted and appended again under its old id, hides another row from the
  listing (`ReusedIdHidesARow`).
- The bookkeeping stamps an edit that only respells a timestamp, and the policy refuses that stamp
  (`BookkeptDocumentsPass`, `RespellingNeedsAKey`, `RespelledTimestampIsRefused`). The policy also refuses a stamp that
  had to move past the pass time, and a changed concept that had no valid `generated.at`.
- The docstring of `normalize_snapshot_reference` asks that exactly one source fails to resolve; the code
  asks that exactly one *unresolved source is near* the snapshot. It rewrites against the docstring if and only if
  another source fails to resolve (`DocstringIsStricter`, `RewrittenDespiteAnother`).
- `append_log` joins the operation and the file names as they are: a line break in one, or white space at
  the end of the last file when the bullet is the day's first, changes the log's other lines or the bullet
  (`AppendIsExact`).

## Model

| member | source | states |
|---|---|---|
| Workspace.PlanWhole | src/aiwiki/cli/workspace.py:184-214 | what a whole pull leaves of every path, its `.mine`, the base, the staging directory and the state file |
| Workspace.PlanPrefix | src/aiwiki/cli/workspace.py:178-214 | after any prefix of the disk steps each path is between its old and its final slot, and the state file is old until the last step |
| Workspace.PullIsThreeWayMerge | src/aiwiki/cli/workspace.py:184-214 | the tree after a pull is the published one overridden exactly on `kept`, which the server did not change, if and only if there was a base or no stray file |
| Workspace.EditsSurvivePull | src/aiwiki/cli/workspace.py:188-206 | an uncommitted edit that differs from the published bytes survives at its path or `.mine`, if and only if there was a base, or nothing is published there, or `.mine` already held it |
| Workspace.CommittedIsNoConflict | src/aiwiki/cli/workspace.py:188-209 | a path that still holds its `discard` bytes is never kept nor a conflict: it takes the server's version and loses its `.mine` |
| Workspace.SecondPullIsQuiet | src/aiwiki/cli/workspace.py:170-214 | a second pull at the same revision is answered 304, updates and conflicts on nothing and changes no file |
| Workspace.CrashStep | src/aiwiki/cli/workspace.py:173-214 | from any state a crashed pull can leave, a further pull stopped after any number of steps leaves such a state again, and an uninterrupted one ends in the final slots |
| Workspace.CrashSafePull | src/aiwiki/cli/workspace.py:151-216 | any number of pulls killed after any prefix, then one that finishes, end like one uninterrupted pull: files, base and state always, every `.mine` when `discard` is empty |
| Workspace.EditsSurviveCrashes | src/aiwiki/cli/workspace.py:188-209 | a local edit survives every crash history if and only if the server's version of its path is not the discarded one |
| Workspace.OvertakenIsLost | src/aiwiki/cli/workspace.py:188-209 | the crash after the moves that loses an overtaken edit |
| Workspace.OvertakenHappens | src/aiwiki/cli/workspace.py:188-209 | a directory, a publication and a crash in which such an edit is lost |
| WorkspaceHistory.HeldBetween | src/aiwiki/cli/workspace.py:186-206 | an unfinished pull keeps an uncommitted edit in its place or its `.mine`, unless the path reaches a third version |
| WorkspaceHistory.EditsSurvivePublications | src/aiwiki/cli/workspace.py:151-216 | over all histories of killed pulls and new publications, an uncommitted edit survives if and only if its path does not go through three different versions of which the second is a file |
| WorkspaceHistory.TwoPublicationsBury | src/aiwiki/cli/workspace.py:186-206 | two publications of an edited file, with a crash between the pulls, that lose the edit |
| WorkspaceDir.Directory.Changes | src/aiwiki/cli/workspace.py:112-123 | exactly the paths whose local content differs from the recorded hashes, and the local content; nothing without a state file |
| WorkspaceDir.Directory.Fetch | src/aiwiki/cli/workspace.py:169-184 | not modified exactly when the base is whole and its revision current; otherwise the published tree is staged |
| WorkspaceDir.Directory.MergePath | src/aiwiki/cli/workspace.py:188-206 | one turn takes exactly the disk steps of the path's fate and reports it: a conflict if and only if the local, the base and the published content, absence included, are pairwise different and the local one is not the discarded one; kept if and only if it changed here alone; unchanged if and only if neither side moved |
| WorkspaceDir.Directory.Merge | src/aiwiki/cli/workspace.py:186-206 | the loop takes the steps of all paths in order, and its three lists report every path so |
| WorkspaceDir.Directory.DropResolved | src/aiwiki/cli/workspace.py:207-209 | the `.mine` of exactly the committed paths go |
| WorkspaceDir.Directory.InstallIncoming | src/aiwiki/cli/workspace.py:210-212 | the old base goes file by file and the staged tree takes its place |
| WorkspaceDir.Directory.Pull | src/aiwiki/cli/workspace.py:151-216 | every path is reported by what changed on which side; a kept path stays, a conflict is set aside, anything else is the published one; base and state file are the server's; and a directory with files that never was a workspace is refused unchanged |
| WorkspaceDir.LeavesPath | src/aiwiki/cli/workspace.py:184-214 | what a pull leaves of a path and its `.mine`, in the contents before it alone |
| WorkspaceDir.Directory.Revert | src/aiwiki/cli/workspace.py:435-450 | exactly the given paths hold the pulled base again and lose their `.mine`; with a whole base they count as unchanged |
| WorkspaceDir.Directory.NoteCommitted | src/aiwiki/cli/workspace.py:480-484 | committed bytes are merged into `discard`, so every such path that holds them is no conflict for the next pull |
| Ledger.Newest | src/aiwiki/service/ingest.py:126-143 | the newest reusable job for a key, ingests kept for conversion or in the inbox included, and none exactly when no job for it is reusable |
| LedgerMeaning.WriterAnswers | src/aiwiki/service/ingest.py:126-193 | a POST is answered by the newest job for its bytes or parent in a reusable state, and by a new one if and only if there is none or it is a garbled audit and the only one |
| LedgerMeaning.PostIsDue | src/aiwiki/cli/maintain.py:252-334 | exactly when a POST is allowed, in the fields of the recorded jobs: the caps per class over the failures that are no capacity ones, the rollback, the stage, and another reported build |
| LedgerMeaning.BuildIsSpent | src/aiwiki/cli/maintain.py:282-332 | a build is spent and noted if and only if the cap is reached |
| LedgerMeaning.StopsExactly | src/aiwiki/cli/maintain.py:323-328 | a capacity failure stops the batch unless the last four attempts are all capacity failures |
| LedgerMeaning.CompletedShows | src/aiwiki/cli/maintain.py:89-112 | in every reachable state a completed entry has an ingest and an audit whose receipts show a validated result, the very revision they name committed and pushed, or else no changed file, and a verdict of the audit of that ingest |
| LedgerMeaning.ReceiptsExactly | src/aiwiki/cli/maintain.py:89-112 | two jobs count as such receipts if and only if they show that much |
| LedgerBounds.SubmitBelowBound | src/aiwiki/cli/maintain.py:252-290 | an allowed POST starts below the bound, counting the extra attempt it spends |
| LedgerBounds.AttemptsAreBounded | src/aiwiki/cli/maintain.py:34-40 | in every run the counted failures of a stage are at most three plus the extra attempts granted, if no uncapped class is marked retryable |
| LedgerBounds.PastTheBound | src/aiwiki/cli/maintain.py:268-290 | at the bound another POST without a grant is allowed if and only if the last failure is retryable, rolled back, of this stage, and of a class without a cap |
| LedgerBounds.GrantsNeverRepeat | src/aiwiki/cli/maintain.py:252-265 | in every run no build earns two extra attempts of a stage in a row |
| LedgerBuilds.GrantsAreReported | src/aiwiki/cli/maintain.py:252-265 | the extra attempts of a run are granted to builds reported to it, in the order of the reports |
| LedgerBuilds.BuildsEarnOnce | src/aiwiki/cli/maintain.py:252-265 | in every run whose reports to a stage never return to a build they left, each build earns at most one extra attempt of it |
| LedgerBuilds.RepeatsWhenSpentBefore | src/aiwiki/cli/maintain.py:252-265 | an event makes some build earn twice if and only if it spends one that was spent before |
| LedgerHistories.AnyReportsHappen | src/aiwiki/cli/maintain.py:277-334 | for any list of reports a run from an empty ledger that sees them and grants each one that is not the build granted last |
| LedgerHistories.BuildsEarnOnceExactly | src/aiwiki/cli/maintain.py:252-265 | reports let no run grant a build twice if and only if they never return to a build they left |
| LedgerHistories.UncappedIsUnbounded | src/aiwiki/cli/maintain.py:277-290 | for every number a run from an empty ledger records that many failures of an uncapped class marked retryable |
| LedgerHistories.TwoBuildsEarnForever | src/aiwiki/cli/maintain.py:252-265 | for every number a run with that many extra attempts, granted to two builds in turns |
| LedgerSafety.DoneMeansReceipts | src/aiwiki/cli/maintain.py:89-112 | in every reachable state a completed entry holds a validated ingest and a validated audit of that ingest, and a superseded one only rolled-back or needs-conversion ingests |
| LedgerSafety.SubmitSound | src/aiwiki/cli/maintain.py:223-233 | saving the flag before the POST keeps every live job recorded or announced |
| LedgerSafety.TakeSound | src/aiwiki/service/ingest.py:146-173 | so does the writer's answer, whether it reuses a job or makes one |
| LedgerSafety.RecordSound | src/aiwiki/cli/maintain.py:234-249 | so does adopting the answered job and dropping the flag |
| LedgerSafety.PollSound | src/aiwiki/cli/maintain.py:335-341 | so does replacing the last attempt by what the writer says of it |
| LedgerSafety.OtherSound | src/aiwiki/cli/maintain.py:302-314 | so do lost and refused answers, refused polls, superseding, finishing, giving up and being killed |
| LedgerSafety.NoJobIsForgotten | src/aiwiki/cli/maintain.py:215-249 | in every reachable state every queued, running, done or inbox job of a POST is recorded, announced by the saved flag, superseded, or a stray |
| LedgerStrays.StrayOrigins | src/aiwiki/cli/maintain.py:408-416 | in every reachable state a job becomes a stray if and only if it is live and unrecorded, an answer that named it was lost, and either the repeat of its POST is refused, or a fresh review is granted to that repeat or to another entry with the same parent |
| LedgerStrays.ForgottenWasLost | src/aiwiki/cli/maintain.py:215-249 | in every reachable state each forgotten job was named by an answer that was lost |
| LedgerStrays.NothingLostNothingForgotten | src/aiwiki/cli/maintain.py:215-249 | a run that loses no answer and is not killed forgets no job |
| LedgerStrays.AnswerForgets | src/aiwiki/cli/maintain.py:215-249 | from a state that forgets nothing, and whatever the writer does meanwhile, a refusal or an answer of a POST forgets a job if and only if the flag was up before the POST and the job is live, unrecorded, of this stage, named by a lost answer and not by this one |
| LedgerHistories.LostThenRefused | src/aiwiki/cli/maintain.py:408-416 | a run from an empty ledger that forgets a queued job |
| LedgerHistories.SlippedWhileLost | src/aiwiki/service/ingest.py:164-173 | a run that forgets a done audit whose verdict slipped |
| LedgerRunner.AnswerIsRecorded | src/aiwiki/cli/maintain.py:234-249 | an answered POST leaves its job as the last attempt, not failed, and the flag cleared |
| LedgerRunner.Runner.Post | src/aiwiki/cli/maintain.py:215-249 | a POST only takes steps of the machine: an answer leaves its job recorded and the flag gone, a lost one leaves the flag up and the entry pending, a refusal takes the flag down and is for repair unless it may pass, and unreadable evidence is never sent |
| LedgerRunner.Runner.Attempt | src/aiwiki/cli/maintain.py:299-334 | the first half of a turn POSTs if and only if that is due, gives way if and only if a later version is there and every ingest is dead, and leaves a failed attempt alone while the cooldown runs or after this run's attempt |
| LedgerRunner.Runner.Follow | src/aiwiki/cli/maintain.py:335-341 | an unfinished attempt is read again; no answer leaves the entry pending, and a refusal leaves it in repair unless it may pass |
| LedgerRunner.Runner.Weigh | src/aiwiki/cli/maintain.py:346-361 | a done job goes on with a receipt, is for repair without, and is POSTed again only for a garbled verdict below the bound |
| LedgerRunner.Runner.Judge | src/aiwiki/cli/maintain.py:335-367 | the second half goes on only with a validated receipt and no review due, ends in repair for a rejected receipt, a refused poll, or evidence that waits for conversion, and returns to the loop for a failure |
| LedgerRunner.Runner.RunStage | src/aiwiki/cli/maintain.py:295-367 | a stage ends with its receipt, or with the entry pending, in repair or superseded, or killed; it gains one attempt at most, an audit one more after a garbled verdict, and a failed attempt none while the cooldown runs |
| LedgerRunner.Runner.Process | src/aiwiki/cli/maintain.py:293-370 | an entry is completed only with both receipts, is superseded when a later version is there and its ingests are dead, and repeats no failed attempt while the cooldown runs |
| LedgerRunner.Runner.RunSources | src/aiwiki/cli/maintain.py:373-422 | no entry is worked on while an earlier version of its source is pending; exactly those behind one wait; nothing after the entry that stopped the batch changes; and whatever the outside world does, the state is reachable, sound, within the bounds, holds its receipts, and forgets only jobs that a lost answer named |
| Listing.ListIssues | src/aiwiki/maint/issue_delta.py:56-86 | the paging loop computes the recursive listing, page by page |
| ListingMeaning.ListingMeans | src/aiwiki/maint/issue_delta.py:56-86 | whatever the server does: each page begins with the row its predecessor ended with; a listing holds the rows of all its pages once and as many as the last page says; and each failure is its reason |
| Listing.SamePlaceSamePrefix | src/aiwiki/maint/issue_delta.py:57-60 | a row that kept its position across deletions and appends proves that nothing before it moved |
| Listing.LookIsExact | src/aiwiki/maint/issue_delta.py:64-85 | a page ends the listing with the whole list, or fails it, or keeps what was found a prefix of the list |
| Listing.ListingIsExact | src/aiwiki/maint/issue_delta.py:56-86 | if rows are only deleted or appended, and no row that the next page reads again goes and comes back, a listing that returns is exactly the list at the last request; every other history fails |
| Listing.QuietListIsListed | src/aiwiki/maint/issue_delta.py:56-86 | a list that does not change is returned unless it needs more than the allowed pages |
| Listing.ReusedIdHidesARow | src/aiwiki/maint/issue_delta.py:73-81 | when that row does come back, the listing can succeed and miss another |
| Delta.Window | src/aiwiki/maint/issue_delta.py:153-158 | exactly the issues after the cursor, in key order |
| Delta.Comments | src/aiwiki/maint/issue_delta.py:180-196 | exactly the activity after the cursor's time and up to `as_of` |
| Delta.WindowMeans | src/aiwiki/maint/issue_delta.py:153-158 | a row is in the window when it changed after the cursor, or at its time under a later id |
| Delta.ReportedIsNew | src/aiwiki/maint/issue_delta.py:160-196 | nothing is reported from before the cursor, after `as_of`, of an excluded issue, or of one that did not change |
| Delta.Run | src/aiwiki/maint/issue_delta.py:139-224 | the reported activity is that of the listed, not excluded issues in the window; the next cursor is the latest settled key or the old cursor |
| Delta.RunReports | src/aiwiki/maint/issue_delta.py:160-185 | a run reports all activity between its cursor and its `as_of`, also on deferred issues |
| Delta.CursorIsSettled | src/aiwiki/maint/issue_delta.py:159-160 | over a chain of runs the cursor stays behind every `as_of` that moved it |
| Delta.NoGaps | src/aiwiki/maint/issue_delta.py:148-224 | over any chain of runs, all activity on issues not excluded after the first cursor and up to some run's `as_of` is reported, by the first run whose `as_of` reaches it |
| Delta.NoIssueIsSkipped | src/aiwiki/maint/issue_delta.py:153-160 | an issue changed after the first cursor is in the window of some run, ties on the time included |
| Collectors.EvidenceBeforeCursor | src/aiwiki/cli/maint.py:313-333 | in every interleaving of collectors, crashes, lost answers and reruns, all activity up to the writer's cursor has been enqueued |
| Collectors.OnlyACurrentReaderMoves | src/aiwiki/cli/maint.py:146-149 | the cursor moves only from the record its collector read, after all its batches were enqueued |
| Collectors.OneMovePerRead | src/aiwiki/cli/maint.py:146-149 | of two collectors that read the same cursor the first moves it to the end of its listing; the other is refused |
| Collectors.RunTakesAllSettled | src/aiwiki/cli/maint.py:313-333 | a collector that reads, lists, sends and moves while nobody else moves the cursor leaves no settled row of its listing after the cursor |
| Collectors.PositionNeverGoesBack | src/aiwiki/cli/maint.py:146-149 | in no run does the cursor go back |
| Collectors.BatchesAreWhole | src/aiwiki/cli/maint.py:158-170 | cutting the items into batches loses none |
| Collectors.BatchesAre | src/aiwiki/cli/maint.py:158-170 | the batches are the items in order, twenty in each but the last |
| Spill.Look | src/aiwiki/engine/validate.py:316-344 | one turn of the scan takes as many lines as specified, the recursive look below a fence included |
| Spill.SplitBodySpill | src/aiwiki/engine/validate.py:305-347 | the loop, which terminates despite its recursion, returns the spilled lines and the rest |
| Spill.SplitPartitionsBody | src/aiwiki/engine/validate.py:305-358 | spill and rest partition the body: a prefix whose non-blank lines are the spill, then the rest; the rest has no spill |
| Spill.ScanMeans | src/aiwiki/engine/validate.py:305-347 | which lines are spill, by the patterns they match and the lines around them, and where the scan stops |
| Spill.ParsedSpill | src/aiwiki/engine/validate.py:350-358 | the parsed body shows the same spill as the lines |
| Spill.NormalizeRest | src/aiwiki/engine/bookkeeping.py:260-267 | removing spill does not change the normal form of a body |
| Spill.ParsedDecidesNormal | src/aiwiki/engine/bookkeeping.py:260-267 | bodies that parse the same have the same normal form |
| Spill.NormalTells | src/aiwiki/engine/bookkeeping.py:260-267 | two bodies have the same normal form if and only if, below their spill, they have the same paragraphs of right-stripped lines |
| Spill.OtherTextIsOtherContent | src/aiwiki/engine/bookkeeping.py:260-267 | bodies with other right-stripped lines have other normal forms |
| Frontmatter.SplitBlocks | src/aiwiki/engine/bookkeeping.py:114-125 | the blocks join to the lines and each starts with its key |
| Frontmatter.BlocksAreUnique | src/aiwiki/engine/bookkeeping.py:114-155 | blocks that join to the same lines are the same blocks |
| Frontmatter.PutBlock | src/aiwiki/engine/bookkeeping.py:177-202 | the loop and the search for a place compute `Put` |
| Frontmatter.FindPlace | src/aiwiki/engine/bookkeeping.py:189-202 | after the last block of the nearest earlier peer, else before the first of the nearest later one, else at the end |
| Frontmatter.PlaceMeans | src/aiwiki/engine/bookkeeping.py:189-202 | a missing key goes right behind the last block of its nearest earlier peer, else right before the first of its nearest later one, else to the end, by the old order or the canonical one |
| Frontmatter.LinesPut | src/aiwiki/engine/bookkeeping.py:158-202 | putting a key sets its value and no other |
| Frontmatter.OthersPut | src/aiwiki/engine/bookkeeping.py:177-202 | putting a key leaves every other block as written and in order |
| Frontmatter.PutReinserts | src/aiwiki/engine/bookkeeping.py:177-202 | a key taken out of tidy blocks and put back by the written order is where it was |
| Frontmatter.PutBack | src/aiwiki/engine/bookkeeping.py:189-202 | the same while another key is missing too |
| Bookkeeping.RestoreOwned | src/aiwiki/engine/bookkeeping.py:512-519 | the loop restores every service key and reports exactly the ones the edit changed |
| Bookkeeping.DropStray | src/aiwiki/engine/bookkeeping.py:520-524 | exactly the stray event fields go |
| BookkeepingLaws.LinesStamped | src/aiwiki/engine/bookkeeping.py:548-565 | the stamp of a new or disowned generation rewrites `generated` and no other key; without one nothing changes; it bears the editor's name, or the old author's when a verdict alone is withdrawn |
| BookkeepingLaws.LinesMarked | src/aiwiki/engine/bookkeeping.py:566-571 | a verdict writes its event and the status that the service insists on, and no other key |
| Bookkeeping.ApplyBookkeeping | src/aiwiki/engine/bookkeeping.py:460-593 | the whole pass computes `Apply`: result, repairs and the refusal of displaced keys, which the lemmas of `BookkeepingMeaning` describe in the document's own terms |
| BookkeepingMeaning.OwnsServiceKeys | src/aiwiki/engine/bookkeeping.py:512-519 | the keys that the editors of each stage cannot change |
| BookkeepingMeaning.SubstantiveExactly | src/aiwiki/engine/bookkeeping.py:270-289 | an edit is substantive if and only if it gives a key that the service does not own another value, or the body other paragraphs |
| BookkeepingMeaning.EditIsTakenExactly | src/aiwiki/engine/bookkeeping.py:532-546 | an edit that changes knowledge is taken with its body and its text of every key it may set; any other one is not |
| BookkeepingMeaning.StatusOfResult | src/aiwiki/engine/bookkeeping.py:506-510 | the status of a result: an audit's, a deprecation's, a new concept's, or else the edit's or the old one |
| BookkeepingMeaning.StampIs | src/aiwiki/engine/bookkeeping.py:548-565 | a result is stamped if and only if knowledge changed or a verdict is withdrawn: in the first whole second from now on that is after every recorded instant, in the name it must bear |
| BookkeepingMeaning.EventIs | src/aiwiki/engine/bookkeeping.py:568-571 | the event of a verdict: whose, and of the first whole second that does not predate the generation |
| BookkeepingMeaning.CurrentMeans | src/aiwiki/engine/document.py:229-252 | which events confirm the current generation, the delay for an author's own included |
| BookkeepingMeaning.RepairsNameKeys | src/aiwiki/engine/bookkeeping.py:514-518 | the repairs name exactly the owned keys whose value the edit changed |
| BookkeepingMeaning.RepairsShowStray | src/aiwiki/engine/bookkeeping.py:520-524 | the repairs show exactly the event fields that slipped to the top level |
| BookkeepingMeaning.NoticeMeans | src/aiwiki/engine/bookkeeping.py:537-543 | no notice means that nothing of an edit was thrown away |
| BookkeepingMeaning.SpillIsAccounted | src/aiwiki/engine/bookkeeping.py:573-587 | every line of the body that was taken is in the result, blank, or reported as spill, as often as it was there |
| BookkeepingMeaning.SpilledKeysStay | src/aiwiki/engine/bookkeeping.py:573-580 | a pass is refused if and only if it would leave out a spilled line with a key that is not the service's and not in the result |
| BookkeepingLaws.LinesRestored | src/aiwiki/engine/bookkeeping.py:512-524 | a restored edit holds the service's keys of the old document and the other keys of the new one |
| BookkeepingLaws.NotBeforeIsTight | src/aiwiki/engine/bookkeeping.py:446-453 | trusted time is never behind a recorded event and never further ahead of it than it must be |
| BookkeepingLaws.SubstantiveEditIsStamped | src/aiwiki/engine/bookkeeping.py:548-556 | a substantive result is stamped by its actor strictly after every earlier valid instant, by at most a second, and no earlier event confirms it under any delay |
| BookkeepingLaws.VerdictNeverPredates | src/aiwiki/engine/bookkeeping.py:568-571 | a `verified` verdict adds one event, never before the generation it confirms |
| BookkeepingLaws.UnverifiedLeavesNoneCurrent | src/aiwiki/engine/bookkeeping.py:557-565 | after a reviewer's `unverified` verdict no event is current by the plain rule |
| BookkeepingLaws.ResultFramesKnowledge | src/aiwiki/engine/bookkeeping.py:521-546 | a substantive result keeps every non-service block of the edit verbatim and in order but for stray fields; any other result keeps those of the old document |
| BookkeepingLaws.ResultHasNoSpill | src/aiwiki/engine/bookkeeping.py:573-588 | a result that was written passes `body_spill_errors` |
| BookkeepingIdempotence.BookkeepingIsIdempotent | src/aiwiki/engine/bookkeeping.py:460-593 | for `curate` and `changeset` without deprecate, the pass applied to its own result returns it with no repairs, for every edit of a document with frontmatter; without, if the keys left in are distinct; and for a discarded edit, if the old document holds each service key once |
| BookkeepingIdempotence.DiscardedIsIdempotent | src/aiwiki/engine/bookkeeping.py:525-546 | a discarded edit is discarded in silence the next time if and only if the old document holds each service key once |
| BookkeepingIdempotence.NewConceptIsIdempotent | src/aiwiki/engine/bookkeeping.py:189-202 | where no frontmatter was before, the second pass returns the result if and only if the key in front of the stamp, and the one in front of an added status, are not written again behind it |
| BookkeepingIdempotence.IdempotentExactly | src/aiwiki/engine/bookkeeping.py:460-593 | the three cases together: exactly when a second pass of `curate` or `changeset` without deprecate returns the first one's result with no repairs |
| BookkeepingIdempotence.DuplicateKeysMoveTheStamp | src/aiwiki/engine/bookkeeping.py:189-202 | a new concept with a key written twice whose stamp the second pass moves |
| Policy.JudgeConcepts | src/aiwiki/runtime/policy.py:321-412 | the loop over the bundle reports exactly the errors of each concept |
| Policy.JudgeBundle | src/aiwiki/runtime/policy.py:307-415 | exactly the errors of each concept, and one for every concept that is gone; `PolicyMeaning` says of any document when each is due |
| PolicyMeaning.JudgeMeans | src/aiwiki/runtime/policy.py:348-412 | each error is reported of any document, new or known, exactly when its reason holds |
| PolicyMeaning.JudgeAccepts | src/aiwiki/runtime/policy.py:348-412 | a document has no error if and only if it is acceptable: the events it had, a generation that changed only with knowledge, by the actor, in time and strictly later, and no event that confirms new knowledge; or a draft without events |
| PolicyMeaning.CleanBundle | src/aiwiki/runtime/policy.py:307-415 | nothing is reported of a bundle if and only if every document is acceptable over what was remembered of its path and no concept is gone |
| Policy.RespellingNeedsAKey | src/aiwiki/runtime/policy.py:214-220 | when the bookkeeping sees a change and the policy does not, some key holds a value in another spelling; no body makes them disagree |
| Policy.PolicyFindsExactly | src/aiwiki/runtime/policy.py:348-412 | the exact list of errors the policy finds in a bookkept document |
| Policy.BookkeptDocumentsPass | src/aiwiki/runtime/policy.py:348-412 | a bookkept document passes if and only if its stamp is not past the pass time and, for a changed concept, the old instant was valid and the change no respelling |
| Policy.BookkeptBundlePasses | src/aiwiki/runtime/policy.py:307-415 | the policy reports nothing of a bundle of bookkept documents if and only if each of them is admissible and no concept is gone |
| PolicyExample.SmallIsFaithful | src/aiwiki/engine/bookkeeping.py:216-257 | the assumptions on YAML can be met |
| PolicyExample.RespelledTimestampIsRefused | src/aiwiki/runtime/policy.py:372-379 | an edit that respells one timestamp is stamped by the bookkeeping and refused by the policy |
| EditDistance.SomeScriptCosts | src/aiwiki/engine/bookkeeping.py:292-307 | some edit script of the distance's cost turns one string into the other |
| EditDistance.NoScriptCostsLess | src/aiwiki/engine/bookkeeping.py:292-307 | no edit script costs less than the distance |
| EditDistance.Triangle | src/aiwiki/engine/bookkeeping.py:292-307 | the distance obeys the triangle inequality |
| EditDistance.RowsNeverShrink | src/aiwiki/engine/bookkeeping.py:304-305 | once a row is over the limit every later row is, so the early exit is right |
| EditDistance.NextRow | src/aiwiki/engine/bookkeeping.py:298-303 | the band computes the next row of the table, capped just above the limit |
| EditDistance.Distance | src/aiwiki/engine/bookkeeping.py:292-307 | for every limit, the Levenshtein distance when it is at most the limit and otherwise nothing |
| EditDistance.LimitIs | src/aiwiki/engine/bookkeeping.py:344-345 | one error in every sixteen characters, at least one and at most eight |
| EditDistance.ChooseReference | src/aiwiki/engine/bookkeeping.py:337-359 | the reference to rewrite: the only near unresolved source, strictly closer to the snapshot's name than to any other existing source's; none exactly when there is none |
| EditDistance.DocstringIsStricter | src/aiwiki/engine/bookkeeping.py:310-359 | a source is what the docstring wants rewritten if and only if it is what the code rewrites and no other source fails to resolve |
| EditDistance.RewrittenDespiteAnother | src/aiwiki/engine/bookkeeping.py:338-351 | two unresolved sources of which one is near: the code rewrites it, the docstring forbids it |
| EditDistance.WrongDirectoryIsMistyped | src/aiwiki/engine/bookkeeping.py:320-359 | the snapshot's own name in a wrong directory is rewritten if and only if no other source is near and no other existing source has that name |
| EditDistance.FarNamesNeverRival | src/aiwiki/engine/bookkeeping.py:352-359 | where other existing names are more than twice the limit away from the snapshot's, the only near source is rewritten |
| Dates.StringOrderIsCalendarOrder | src/aiwiki/engine/append_log.py:80 | for valid dates, string order is the order of day numbers |
| LogMeaning.DateIs | src/aiwiki/engine/append_log.py:33-40 | which dates there are: the days of the months, and the leap day in the years of the calendar |
| LogMeaning.CalendarRepeats | src/aiwiki/engine/append_log.py:33-40 | four centuries have 146097 days |
| Log.FindHeadings | src/aiwiki/engine/append_log.py:47-61 | the first line that no log may hold, or where the headings stand |
| Log.LogIsCut | src/aiwiki/engine/append_log.py:63-74 | the parts of a log are the stretches between its headings |
| Log.ParseLog | src/aiwiki/engine/append_log.py:44-74 | the loops compute the parsed log or the first fault |
| LogMeaning.LinesAre | src/aiwiki/engine/append_log.py:46 | `splitlines`: the text comes apart at its breaks, a carriage return and a line feed together, and at nothing else |
| LogMeaning.CheckMeans | src/aiwiki/engine/append_log.py:50-61 | a log is read if and only if every line with two hashes is a calendar day that does not stand above; otherwise the first bad line is reported with its fault |
| LogMeaning.ParseMeans | src/aiwiki/engine/append_log.py:63-74 | the introduction is what stands above the first heading; the days are those of the headings, and each holds the lines up to the next heading |
| LogMeaning.TrimIs | src/aiwiki/engine/append_log.py:69-72 | without the blank lines at both ends and no other |
| Log.SortNewest | src/aiwiki/engine/append_log.py:80 | the days, latest first |
| Log.RenderLog | src/aiwiki/engine/append_log.py:77-83 | the printed log |
| LogMeaning.RenderStarts | src/aiwiki/engine/append_log.py:77-79 | a log without an introduction is printed with the standard one |
| Log.Append | src/aiwiki/engine/append_log.py:102-119 | the new text, or the first refusal: of the date, the entry, then the log |
| LogLaws.ParseAfterRender | src/aiwiki/engine/append_log.py:44-83 | a printed log parses to the log that was printed |
| LogLaws.RenderAfterParse | src/aiwiki/engine/append_log.py:44-83 | on a printed log, printing what was parsed is the identity |
| LogLaws.AppendAddsExactly | src/aiwiki/engine/append_log.py:114-118 | appending to a printed log adds exactly one bullet under its day, if and only if the bullet is one line and a day's only bullet does not end in white space |
| LogMeaning.EntryTells | src/aiwiki/engine/append_log.py:86-99 | an entry tells the operation, every word of the subject and of the note, and every file, in this order |
| LogMeaning.EntryExactly | src/aiwiki/engine/append_log.py:86-92 | there is an entry if and only if there are an operation and a subject that is not all white space |
| LogMeaning.WordsAre | src/aiwiki/engine/append_log.py:90-95 | `split`: no character of a word is lost and no word runs on |
| LogHistory.EntryIs | src/aiwiki/engine/append_log.py:86-99 | when an entry is one line and ends bare, by operation and files; subject and note never matter |
| LogHistory.AppendIsExact | src/aiwiki/engine/append_log.py:102-119 | the same condition in terms of what the caller passes |
| LogHistory.ValidateLog | src/aiwiki/engine/validate.py:469-492 | exactly the errors of the headings: those that are no date, no calendar day, or repeated, and days out of order; none if and only if the body can be read and they are calendar days, newest first |
| LogPattern.ScanFindsAll | src/aiwiki/engine/validate.py:29 | the scan row by row finds what `findall` finds of the heading pattern in the text, greedy and lazy repeats, line feeds and all |
| LogHistory.PrintedLogIsAccepted | src/aiwiki/engine/validate.py:469-492 | a printed log is accepted unless it opens with a fence that no readable frontmatter closes |
| LogHistory.ReplayTells | src/aiwiki/engine/append_log.py:102-119 | after any clean history a printed log is printed again, with the history's bullets above the old ones |
| LogHistory.LogTellsItsHistory | src/aiwiki/engine/append_log.py:102-119 | a log started by the program parses to its whole history, newest first, and is accepted |
| Packing.Pack | src/aiwiki/maint/planner.py:168-182 | groups in order whose blocks are the input, each within the limit or a single block, none with room for the next block |
| Packing.GreedyIsOptimal | src/aiwiki/maint/planner.py:168-182 | no contiguous partition into such groups has fewer |
| Packing.TightIsUnique | src/aiwiki/maint/planner.py:168-182 | greedy packing is the only one without room for the next block |
| Retry.Client.Backoff | src/aiwiki/cli/main.py:424-433 | it sleeps exactly while budget is left, for half a step to a step, or to the deadline |
| Retry.Client.Send | src/aiwiki/cli/main.py:457-517 | each attempt is given its time, a retry what is left of the window or three seconds; all but the last failed for a reason to retry; a read gives up within max(T, R + 3) s, and on a failure to retry only when the window is over; a write is sent once within T |
| Retry.Client.Http | src/aiwiki/cli/main.py:326-372 | every attempt is given the whole timeout; a GET gives up within 2 T + W s, its window counted from the first failure; any other method is sent once |
| Retry.StepIs | src/aiwiki/cli/main.py:424-433 | the steps are half a second, one, two, and four from then on |
| Retry.InTime | src/aiwiki/cli/main.py:475-517 | however attempts fail they end within the deadline and the last of them, and there are not many |
| Cache.Shared.Lookup | src/aiwiki/engine/document.py:121-124 | the first critical section finds the entry and makes it the latest; the counter stays exact |
| Cache.Shared.Store | src/aiwiki/engine/document.py:132-138 | the second one stores, evicts the least recently used until the budget holds, and keeps the counter exact |
| Cache.Shared.Load | src/aiwiki/engine/document.py:113-139 | a call alone answers what the uncached computation answers, and then holds the answer as the latest if it may be cached and fits |
| Cache.EvictKeepsLongestEnd | src/aiwiki/runtime/policy.py:273-279 | eviction keeps the longest end of the entries within the budget |
| Cache.HitKeepsRecent | src/aiwiki/engine/document.py:121-124 | a hit keeps the entries the longest end, by last use, of all entries ever stored |
| Cache.MissKeepsRecent | src/aiwiki/runtime/policy.py:273-279 | so does storing after a miss |
| Cache.CacheIsTransparent | src/aiwiki/engine/document.py:113-139 | under any interleaving of threads every answer is the uncached one, the budget holds, and exactly the latest used entries that fit are held |
| CacheMeaning.HoldsLatestUsed | src/aiwiki/engine/document.py:113-139 | after any history of any threads the cache holds, of all keys found or stored in the order of their last use, the longest end that fits, each with its true value |
| CacheMeaning.TouchIs | src/aiwiki/engine/document.py:121-124 | a found entry moves behind all the others, which stay in order |
| CacheMeaning.InsertIs | src/aiwiki/engine/document.py:132-138 | a new entry goes last and the longest end that fits is kept; a held key is not stored again |

## Left out

- HTTP, subprocesses, Git, tar extraction, symlinks, directories and file permissions; only the disk steps of `pull` and the outcomes of requests are modelled.
- Torn file copies, and edits made between two pulls of one crash history.
- YAML, UTF-8, and regular expressions but for the log's headings: lines carry what the program's patterns say about them, blocks what the loaders read in them; `_require_plain_keys`, line endings, and a document that does not parse are not modelled.
- The writer beyond its deduplication: its queue, its rollbacks and its restarts are the `Progress` events of the ledger.
- Imported and discovered receipts, dropped sources, and POSTs by other clients, in the ledger; the times of cooldowns are inputs.
- The repository collector and the inbox of `ai-wiki maint collect`, and the excerpts and counts of an issue run.
- Deprecate operations in the idempotence and policy results; the bookkeeping itself models them.
- The policy's clauses on `sources` resources, and the provenance check of `src/aiwiki/runtime/policy.py:418-448`.
- The rewriting of the chosen reference in `src/aiwiki/engine/bookkeeping.py:360-374`, `append_sources` and `rewrite_source_resource`: text replacement through `Put`.
- `str.title` of a log operation.
- Pickling: a cached value is a value, so copies cannot alias.
- Retrying after the answer's body failed to parse, and the wording of every message.
- Retry.Client.Send: takes the timeout for a bound on the whole attempt, where `urllib` bounds each wait on the socket.
- Retry.Client.Http: assumes a clock after zero, because the program takes a deadline of exactly zero for none.
- Policy.BookkeptDocumentsPass: is about the stage `changeset` without deprecate, because the other stages own other keys than the policy assumes.
