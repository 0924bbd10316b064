# SeekTalent in Dafny

A model of the algorithms and protocols at the heart of SeekTalent, with proofs about every input,
every run and every interleaving. `dafny verify dfyconfig.toml` checks the whole project.

| files | what they model |
|---|---|
| `BenchmarkInput`, `BenchmarkScheduler`, `BenchmarkUploader`, `BenchmarkCommand` | `seektalent benchmark`: numbering the input rows, the bounded-concurrency loop with retries, the uploader thread, the command around them |
| `CandidateIdentity`, `CandidateMerging`, `CandidateKeys`, `CandidateProjection`, `CandidateOrder`, `CandidateRanking` | which review items denote one candidate, the incremental merge into groups, the ranking of the groups, what the order of the input decides |
| `SqlText`, `SqlLexer`, `SqlColumns`, `SqlChecks` | the schema parser of the maintenance command: parenthesis matcher, comma splitter, identifiers, CHECK scanner |
| `Restore` | restoring the database file, where any step may fail |
| `OpenClaw` | the budgeted multi-round search baseline, driven by an arbitrary responder |
| `Metrics`, `Judging`, `JudgeLimiter`, `LabelStore`, `Evaluation` | the evaluation metrics, the label cache with its concurrent judge calls, the limiter and the label store that concurrent evaluations share, the evaluation of a run |
| `Cursor`, `EventStream`, `JobRunner` | paging by signed cursors, the resumable event stream, the thread registry with threads dying between any two of its steps |
| `Options`, `Order`, `Ranges` | an option type, lexicographic keys and stable sorting, finite index ranges |

How the models are built:

- Code that changes state is a class or a method with loops, proved against a specification function
  on values; the lemmas are about that function. Concurrency is a choice: which future is done, which
  worker runs next, how many turns a thread takes, where a connection is cut.
- A specification function is not taken at its word: what it computes is said again over indexes, sets
  or fields (which commas cut, which item beats which, which calls are sent), without its name.
- Everything outside is an oracle: a remote call, a judge, a search service, a file operation or a
  thread start may do anything its type allows, failing included. HMAC digests and judge answers are
  unknown functions. Floats are reals, and `1/log2(rank + 1)` is any positive, strictly falling
  sequence.

## What is false of the code

Each of these has lemmas with an input where it fails or the exact condition.

- **Restore.** When moving one of the SQLite files to quarantine raises, the rollback deletes all
  three database files and moves back only those already quarantined. The originals survive exactly
  when no original was left to move (`Restore.RollbackRestoresIff`; `Restore.RollbackCanLose` has a
  database with a write-ahead log as the example). The error text "original database restored"
  belongs to failures after the quarantine, where it is right: it is raised exactly when every step of
  the rollback succeeds (`Restore.Restorer.SwapIn`).
  Removing the temporary or the quarantined files can fail after the new database is in place. The
  restore stays exactly when none of its first `AttemptSteps` steps fails, and the caller is told of
  success exactly when none of all `RestoreSteps` does (`Restore.Restorer.Restore`); so over any
  database there is an error although the restore stays (`Restore.ErrorThoughRestored`).
- **OpenClaw.** The round instructions demand at least one CTS search in every round, but the loop
  counts refused calls too. A search is sent exactly when one of the round's first `max_attempts`
  calls asks for a page within the page limit (`OpenClaw.RoundSearchedIff`).
- **Canonical item.** Which item stands for a group is independent of the order of the input exactly
  when no two different items of the group tie on every part of the canonical key
  (`CandidateOrder.InputOrderFreeIff`); any of the tied items can be made canonical by some order
  (`CandidateOrder.CanBeCanonical`). The fit bucket of a group is independent of it exactly when the
  items with the greatest score key share one (`CandidateOrder.BucketOrderFreeIff`), and the whole
  ranking exactly when both hold of every group (`CandidateRanking.RankingFreeIff`).
- **Benchmark report.** The command reports exactly when none of its own session writes fails. One
  that fails aborts it and the results are lost, but everything handed over by then is still uploaded
  (`BenchmarkCommand.Benchmark`).
- **Session statuses.** A run session ends completed where its row succeeded and failed elsewhere
  exactly when no run left its session in the status opposite to its outcome
  (`BenchmarkScheduler.FinalStatuses`). A run can: closing a session sets the status before it writes
  the manifest, so a failed write raises and leaves it completed
  (`BenchmarkScheduler.FailedWriteLeavesCompleted`).
- **Schema parser.** A column is lost exactly when its name is a constraint keyword, quoted or not
  (`SqlColumns.KeywordColumnDropped`), and a table's columns are all found exactly when none is
  (`SqlColumns.TableRecoveredIff`).
- **CHECK scan.** It stops at the first CHECK whose parenthesis is never opened or closed: it covers
  every CHECK exactly when there is none such outside earlier fragments (`SqlChecks.AllCoveredIff`).
  It does not see quotations: it finds the real constraints exactly when every quoted CHECK lies
  inside a real fragment or behind a stop (`SqlChecks.ChecksAreRealIff`). A default value can be taken
  for a constraint (`SqlChecks.QuotedCheckTaken`) or hide one (`SqlChecks.RealCheckMissed`).
- **Worker lanes.** A call that fills a lane leaves a live worker in it exactly when one of those it
  lists has not died during the call's work on the lane (`JobRunner.LaneStaffedIff`). All may have
  died before it returns (`JobRunner.FilledLaneMayBeIdle`); each was alive at some moment of it
  (`JobRunner.FilledLane`).
- **Stored labels.** A label once stored stays, whatever is answered, exactly when no evaluation
  writes a key between another's lookup of it and that other's write (`LabelStore.LabelsKeptIff`). Two
  rows with one task can do that, and the later answer wins (`LabelStore.LaterAnswerWins`).
- **Stage rows.** Labels are looked up by candidate id and the last candidate with an id wins, so a
  row can show the label of another snapshot than the one it names: exactly when an id comes with two
  snapshots (`Evaluation.RowsShowOwnLabelsIff`).

The event stream rests on a condition on event names: a listener to `workbench_event` sees every event
once exactly when no event of the stream itself carries that name (`EventStream.ExactlyOnceIff`). The
code in this repository appends no such event.

## Model

| member | source | states |
|---|---|---|
| `BenchmarkInput.LoadRows` | src/seektalent/cli.py:497-518 | a file loads exactly when no line is bad and some line is a row; its rows are its payload lines in order, numbered on from the start index; an error names the first bad line |
| `BenchmarkInput.LoadDirectory` | src/seektalent/cli.py:525-532 | the directory loads exactly when there is a file and every file loads; its rows are those of all files in order; otherwise the error is that of the first file that does not load |
| `BenchmarkInput.PayloadsInOrder` | src/seektalent/cli.py:497-518 | each row line gives one row, and the rows stand in the order of their lines |
| `BenchmarkInput.RowsOfFile` | src/seektalent/cli.py:525-532 | the rows of a file stand together, behind those of the files before it |
| `BenchmarkInput.NumberedThroughout` | src/seektalent/cli.py:514-532 | row k of the directory has input index k, across all files |
| `BenchmarkInput.CaseRunsLoseNoRow` | src/seektalent/cli.py:1326-1327 | keying run sessions by input index therefore keeps every row and invents none |
| `BenchmarkScheduler.StepKeepsInvariant` | src/seektalent/cli.py:1399-1459 | any submission or completion, successful or not, keeps every row in exactly one of pending, running and results, the concurrency limit, the attempt and session accounting and the distinct completion indexes, and uses up part of a finite measure |
| `BenchmarkScheduler.ReachableInvariant` | src/seektalent/cli.py:1399-1459 | so does every run, for any completion order |
| `BenchmarkScheduler.RunsAreBounded` | src/seektalent/cli.py:1405-1452 | no run has more than two events for each attempt the rows may use, whatever fails |
| `BenchmarkScheduler.NeverStuck` | src/seektalent/cli.py:1405-1410 | an unfinished state with at least one worker can always move |
| `BenchmarkScheduler.RunningEntryStable` | src/seektalent/cli.py:1385-1443 | while an attempt runs, no event other than its own completion changes its run session, which is open before the event and after it |
| `BenchmarkScheduler.FinishedIsComplete` | src/seektalent/cli.py:1399-1459 | a finished run has one result per row; failed rows used exactly retries + 1 attempts and others at most that; completion indexes are 0..n-1 once each; no session is open; there is one session per attempt |
| `BenchmarkScheduler.HandedOnce` | src/seektalent/cli.py:1411-1455 | along any run a row is handed to the uploader at most once, never after it has a result; where there is an uploader, the rows handed over are exactly those that have succeeded with an evaluation, and otherwise there are none |
| `BenchmarkScheduler.UploadsEachSuccessOnce` | src/seektalent/cli.py:1399-1455 | so a whole benchmark hands over each evaluated success once and nothing else, which is what the uploader relies on |
| `BenchmarkScheduler.ResultsAreOutcomes` | src/seektalent/cli.py:1411-1452 | over any run, a row's result shows an outcome of an attempt exactly when some event ended that attempt in this way and it returned or was the last one allowed |
| `BenchmarkScheduler.HandedIff` | src/seektalent/cli.py:1453-1454 | a row is handed to the uploader exactly when there is one and some event ended an attempt of the row as returned with an evaluation |
| `BenchmarkScheduler.PlaysWorked` | src/seektalent/cli.py:1411-1452 | where each attempt does what a function of row and attempt says, every result is that of the row's first attempt that returns, or of its last one when none does |
| `BenchmarkScheduler.CompletionOrder` | src/seektalent/cli.py:1433-1452 | rows are numbered in the order in which they get their results |
| `BenchmarkScheduler.SubmittedInOrder` | src/seektalent/cli.py:1400-1408 | rows are started in input order, and none is retried before all have been started |
| `BenchmarkScheduler.FinalStatuses` | src/seektalent/cli.py:788-823 | in a finished benchmark exactly the sessions a row succeeded in are completed and all others failed, if and only if no run left its session in the status opposite to its outcome; runs may close their own session or leave it open |
| `BenchmarkScheduler.StatusesToldIff` | src/seektalent/cli.py:788-823 | at any point of any run the statuses tell the outcomes exactly when they did before and no run since has opposed its outcome |
| `BenchmarkScheduler.FailedWriteLeavesCompleted` | src/seektalent/artifacts/store.py:260-270 | a run that fails while closing its session leaves a failed row with a completed session |
| `BenchmarkScheduler.Scheduler.CreateCaseRuns` | src/seektalent/cli.py:1326-1327 | creating the run sessions gives one session and one first attempt per row, exactly when no write fails |
| `BenchmarkScheduler.Scheduler.FillSlots` | src/seektalent/cli.py:1406-1408 | after filling, either nothing is pending or all slots are taken |
| `BenchmarkScheduler.Scheduler.SettleSlot` | src/seektalent/cli.py:1411-1452 | a done future changes the state as the specification's completion step when the session writes succeed: the row's result has the future's own outcome unless it is retried, and the row is handed over exactly when that outcome is a success with an evaluation and there is an uploader; a failed write records nothing and hands nothing over |
| `BenchmarkScheduler.Scheduler.SettleDone` | src/seektalent/cli.py:1409-1452 | one wait, with any set of done futures in any order, is a run of completion steps in which each attempt ends as it did; it keeps the invariant and makes progress, unless a write fails: then some row has no result and exactly the evaluated successes so far were handed over |
| `BenchmarkScheduler.Scheduler.Run` | src/seektalent/cli.py:1405-1452 | the loop is a run of the step machine on what the attempts do; it ends with the guarantees of a finished run exactly when no session write failed, and otherwise aborted as after such a wait |
| `BenchmarkScheduler.Scheduler.FailAll` | src/seektalent/cli.py:1342-1361 | a failed preflight reports every row failed after one attempt, in input order, and closes every session as failed, exactly when no write fails |
| `BenchmarkUploader.UploadedIff` | src/seektalent/cli.py:307-336 | a row is listed as uploaded exactly when its evaluation exists and one of the attempts allowed succeeds |
| `BenchmarkUploader.Uploader.Submit` | src/seektalent/cli.py:282-283 | submitting appends to the queue and keeps the worker's invariant |
| `BenchmarkUploader.Uploader.Upload` | src/seektalent/cli.py:307-336 | a row ends skipped, succeeded with the number of its first successful attempt, or failed after retries + 1 attempts with the last error |
| `BenchmarkUploader.Uploader.Work` | src/seektalent/cli.py:297-305 | the worker takes the oldest entry, or stops at the sentinel |
| `BenchmarkUploader.Uploader.Close` | src/seektalent/cli.py:285-295 | closing waits until every submitted upload has been processed, in order; a failed report write turns exactly the uploaded rows into failures |
| `BenchmarkUploader.FinalMeaning` | src/seektalent/cli.py:285-336 | after closing, a row is marked succeeded exactly when it was uploaded and no report write failed, and took at most retries + 1 attempts |
| `BenchmarkUploader.UploadAll` | src/seektalent/cli.py:272-336 | the outcome is the same for every interleaving of submissions and worker turns |
| `BenchmarkCommand.UploadHanded` | src/seektalent/cli.py:1453-1458 | the uploader deals with every row handed over: at most the attempts allowed, and marked as uploaded exactly when one succeeds and the final write does not fail; that write fails exactly when it would and the first successful upload of some row brought back a report row |
| `BenchmarkCommand.UploadColumns` | src/seektalent/cli.py:1411-1458 | from the loop's and the uploader's guarantees: which rows of the report show an upload |
| `BenchmarkCommand.Session.Finalize` | src/seektalent/cli.py:889-921 | the session gets its child list, its summary and its status, in three writes, the first that fails being the last; the status is failed exactly when a row is |
| `BenchmarkCommand.Benchmark` | src/seektalent/cli.py:1298-1465 | the command rejects a limit below 1 or a negative number of retries of either kind; otherwise it reports exactly when none of its session writes failed, and then its own session lists the case runs, holds the results as its summary and is closed, failed exactly when a row is; in any case the results show what the attempts did, exactly the evaluated successes so far were handed over and all of them are dealt with by the uploader; a report is complete and shows a row as uploaded exactly when it succeeded with an evaluation, an attempt at its upload succeeded and the final write of the upload report did not fail |
| `CandidateIdentity.KeysIff` | src/seektalent_ui/final_top_candidates.py:50-71 | exactly which keys an item has: runtime identities, provider hashes by source, the field key, and the review key only for want of any other |
| `CandidateIdentity.KeysInOrder` | src/seektalent_ui/final_top_candidates.py:50-71 | and their order, the first of which names a new group: runtime identities, CTS hashes and Liepin hashes, each sorted and once, then the field key |
| `CandidateIdentity.FieldKeyInjective` | src/seektalent_ui/candidate_identity.py:12-30 | two field keys are equal only for equal name, company, title and location |
| `CandidateIdentity.ProviderKeyInjective` | src/seektalent_ui/final_top_candidates.py:54-61 | two provider keys are equal only for the same source and hash |
| `CandidateIdentity.SharedKeyMeansSameCandidate` | src/seektalent_ui/final_top_candidates.py:50-71 | sharing a key means sharing a runtime identity, a provider hash of one source, a full set of fields, or being one anonymous review: no key of one kind is taken for another |
| `CandidateMerging.JoinGroups` | src/seektalent_ui/final_top_candidates.py:28-34 | folding the touched groups into one keeps a partition, moves every member and redirects every key |
| `CandidateMerging.ChooseGroup` | src/seektalent_ui/final_top_candidates.py:25-28 | an item joins the least of the groups it touches, else a new one; the groups it touches are listed once each |
| `CandidateMerging.AddItem` | src/seektalent_ui/final_top_candidates.py:23-36 | one turn of the loop keeps the merge invariant for one more item, and does to groups and keys what the next row says |
| `CandidateMerging.AddedAdds` | src/seektalent_ui/final_top_candidates.py:23-36 | the groups the item's keys point to become one under the first of their names in increasing order; its members are theirs, group by group in that order, and then the item; an item that touches none starts a group named by its first key; all its keys and all keys of the joined groups point there, and nothing else changes |
| `CandidateMerging.FirstItemKept` | src/seektalent_ui/final_top_candidates.py:21-34 | a group keeps its first item, the one that started it, so the order of first items is the order in which the dict lists the groups |
| `CandidateMerging.ChainOneOwner` | src/seektalent_ui/final_top_candidates.py:21-36 | under the invariant, all items of a chain of shared keys are in one group |
| `CandidateMerging.MergedIsComponents` | src/seektalent_ui/final_top_candidates.py:21-36 | the invariant makes the groups the connected components |
| `CandidateMerging.MergeAll` | src/seektalent_ui/final_top_candidates.py:21-36 | two items end in one group exactly when a chain of shared keys connects them; every live group id maps to itself and a key maps to a group exactly when an item of the group carries it |
| `CandidateMerging.ConnectedPermuted` | src/seektalent_ui/final_top_candidates.py:21-36 | reordering the items does not change who is connected to whom |
| `CandidateMerging.GroupsPermuted` | src/seektalent_ui/final_top_candidates.py:21-36 | so every group of a reordered input has the members of a group of the original |
| `CandidateKeys.LatestDate` | src/seektalent_ui/candidate_identity.py:33-45 | the freshness scan finds the greatest date, a bare year counting as December |
| `CandidateKeys.Latest` | src/seektalent_ui/candidate_identity.py:33-45 | that date is one of the dates found, or 0/0, and no date found exceeds it |
| `CandidateKeys.BeatsIff` | src/seektalent_ui/final_top_candidates.py:101-114 | the canonical key puts an item first exactly when it carries a current marker and the other does not, then when its last date is later, then by its evidence level, its score with a missing one below any other, and the time of its update |
| `CandidateKeys.OutscoresIff` | src/seektalent_ui/final_top_candidates.py:117-122 | the score key compares scores, then evidence levels, then the time of the update |
| `CandidateKeys.OutranksIff` | src/seektalent_ui/final_top_candidates.py:39-46 | the ranking compares scores, then evidence levels, then the canonical review ids |
| `CandidateProjection.MergedSourceBadges` | src/seektalent_ui/final_top_candidates.py:125-134 | the badge loop collects the badges the specification lists |
| `CandidateProjection.BadgesMeaning` | src/seektalent_ui/final_top_candidates.py:125-134 | each badge of the members appears once; the multiple-source badge appears exactly when more than one source contributed, whatever the members claim |
| `CandidateProjection.ProjectDescribes` | src/seektalent_ui/final_top_candidates.py:74-98 | a group's response lists all its review ids sorted, stands for an item that no other of the group beats, carries the score and the bucket of one that no other outscores, all evidence of the members in order, and each of their badges once in the order of first appearance, with the multiple-source badge last exactly when two sources contributed |
| `CandidateProjection.ProjectFollowsFirst` | src/seektalent_ui/final_top_candidates.py:75-79 | where several items tie, the response follows the first of them in the group's list |
| `CandidateProjection.CanonicalOrderFreeIff` | src/seektalent_ui/final_top_candidates.py:75-78 | the greatest item of a list is the same for every arrangement of the list exactly when no two different items tie |
| `CandidateProjection.ProjectFinalTopCandidates` | src/seektalent_ui/final_top_candidates.py:20-47 | the groups are the components, the ranking lists each group's response once and best first, of two that tie the older group's first, and the output is its front, numbered from 1 |
| `CandidateProjection.RankedDescribes` | src/seektalent_ui/final_top_candidates.py:38-47 | each ranked response describes exactly the items of its group |
| `CandidateProjection.MergedIff` | src/seektalent_ui/final_top_candidates.py:38-98 | an item's review id is in a response exactly when the item is in that response's group |
| `CandidateProjection.ProjectionConserves` | src/seektalent_ui/final_top_candidates.py:20-98 | every item is merged into exactly one response, and two items into the same one exactly when a chain of shared keys connects them |
| `CandidateProjection.OutputIsFront` | src/seektalent_ui/final_top_candidates.py:47 | what is returned is the front of the ranking with ranks 1..k: as long as the limit allows, a negative limit dropping from the end |
| `CandidateProjection.NoneOutranked` | src/seektalent_ui/final_top_candidates.py:39-47 | nothing further down the ranking, returned or not, outranks or outscores anything further up, compared field by field |
| `CandidateProjection.OrderInsensitive` | src/seektalent_ui/final_top_candidates.py:20-98 | reordering the input gives responses with the same list of merged ids and the same score, with the same canonical item and level where the group has no tie, and with the same fit bucket where its best items share one |
| `CandidateMerging.MergeOfMerged` | src/seektalent_ui/final_top_candidates.py:21-36 | the merge as a function of the items, with its new group ids, keeps the merge invariant |
| `CandidateOrder.ZeroLeads` | src/seektalent_ui/final_top_candidates.py:21-36 | when the component of the first item comes first, each item joined to an earlier one, its group's list starts with that item |
| `CandidateOrder.LeadingOrder` | src/seektalent_ui/final_top_candidates.py:21-36 | every item can be put first in that way by some reordering of the input |
| `CandidateOrder.CanonicalInOutput` | src/seektalent_ui/final_top_candidates.py:38-78 | the response of an item's group shows the review id and the level of the group's canonical item and the bucket of its best one |
| `CandidateOrder.CanBeCanonical` | src/seektalent_ui/final_top_candidates.py:20-78 | some order of the input makes any given greatest item of a group its canonical one |
| `CandidateOrder.InputOrderFreeIff` | src/seektalent_ui/final_top_candidates.py:20-78 | the canonical item of a group is the same for every order of the whole input exactly when no two different items of the group tie |
| `CandidateOrder.BucketOrderFreeIff` | src/seektalent_ui/final_top_candidates.py:20-79 | the fit bucket of a group is the same for every order of the whole input exactly when all its items with the greatest score key share one bucket |
| `CandidateRanking.RankingFreeIff` | src/seektalent_ui/final_top_candidates.py:20-98 | every order of the input gives the same ranking, place by place in canonical id, merged ids, score, level and fit bucket, exactly when no group has two different items tied for canonical or best items in different buckets |
| `CandidateRanking.RankingExists` | src/seektalent_ui/final_top_candidates.py:38-46 | every input has such a ranking |
| `SqlText.NormalizeIdempotent` | src/seektalent_ui/maintenance.py:891-892 | normalised text is trimmed and normalising it again changes nothing |
| `SqlText.NormalizeSpells` | src/seektalent_ui/maintenance.py:891-892 | the text is words separated by runs of whitespace, with whitespace perhaps at the ends; normalising keeps the same words in the same order with one space between any two and none at the ends |
| `SqlText.StripIs` | src/seektalent_ui/maintenance.py:793-856 | stripping takes whitespace off both ends, all of it and nothing else |
| `SqlText.SpacesAre` | src/seektalent_ui/maintenance.py:793-892 | which characters are whitespace |
| `SqlLexer.MatchingParen` | src/seektalent_ui/maintenance.py:865-888 | the matcher that skips doubled quotes agrees with a scanner that just toggles its quote state |
| `SqlLexer.MatchIsLeast` | src/seektalent_ui/maintenance.py:865-888 | that scanner's answer is the least index at which the unquoted depth returns to zero, and none exactly when there is none |
| `SqlLexer.QuotedIff` | src/seektalent_ui/maintenance.py:807-888 | a place is inside a quotation exactly when a single or double quote outside of quotations stands before it and the same quote does not follow in between |
| `SqlLexer.DepthCounts` | src/seektalent_ui/maintenance.py:807-888 | the depth is the number of opening less that of closing parentheses outside of quotations |
| `SqlLexer.BodyIsBalanced` | src/seektalent_ui/maintenance.py:768-776 | in the text handed to the splitter the depth never goes negative and quotes are closed at the end |
| `SqlLexer.SplitTopLevelCsv` | src/seektalent_ui/maintenance.py:807-836 | the splitter returns what its specification says |
| `SqlLexer.SplitMeans` | src/seektalent_ui/maintenance.py:807-836 | that is the trimmed text before, between and behind the commas that stand outside of quotations at depth zero, all of them, without an empty piece at the end |
| `SqlChecks.CheckConstraintFragments` | src/seektalent_ui/maintenance.py:744-759 | the scan terminates and returns the normalised texts of the CHECK spans |
| `SqlChecks.FragmentsOfChecks` | src/seektalent_ui/maintenance.py:744-759 | fragment i is the normalised text of span i |
| `SqlChecks.ChecksInOrder` | src/seektalent_ui/maintenance.py:744-759 | every span is a CHECK with its matching parenthesis, and the spans are disjoint and in order |
| `SqlChecks.ChecksEnd` | src/seektalent_ui/maintenance.py:744-759 | the scan ends where the next CHECK is missing or has a parenthesis that is never opened or closed |
| `SqlChecks.ChecksMissNoneBefore` | src/seektalent_ui/maintenance.py:744-759 | a CHECK outside all spans lies beyond that end |
| `SqlChecks.AllCoveredIff` | src/seektalent_ui/maintenance.py:744-759 | the scan covers every CHECK of the text exactly when each CHECK outside the closed fragments of earlier ones has a parenthesis that is opened and closed |
| `SqlChecks.UnclosedMeans` | src/seektalent_ui/maintenance.py:744-759 | in a text with no parenthesis left open, one is not closed only when no parenthesis follows or the next one is quoted or stands at negative depth |
| `SqlChecks.ChecksAreRealIff` | src/seektalent_ui/maintenance.py:744-759 | the scan agrees with one that looks only at CHECKs outside quotations exactly when every quoted CHECK lies in a fragment of the latter or behind a CHECK at which it stops |
| `SqlChecks.QuotedCheckTaken` | src/seektalent_ui/maintenance.py:744-752 | a CREATE TABLE whose default value is the word CHECK: it is taken for a constraint, with the text up to the end of the real one |
| `SqlChecks.RealCheckMissed` | src/seektalent_ui/maintenance.py:744-757 | a CREATE TABLE whose default value is CHECK and a parenthesis: the scan stops there and misses the real constraint |
| `SqlColumns.ReadSqlIdentifier` | src/seektalent_ui/maintenance.py:839-856 | the identifier reader returns the first token, quoted or not, and the trimmed rest |
| `SqlColumns.UnquoteQuote` | src/seektalent_ui/maintenance.py:859-862 | unquoting undoes quoting with doubled quotes, for every name |
| `SqlColumns.ReadQuoted` | src/seektalent_ui/maintenance.py:839-856 | reading a quoted name back yields exactly its token, whatever quotes, commas or parentheses it holds and whatever follows its closing quote |
| `SqlColumns.QuotedSignature` | src/seektalent_ui/maintenance.py:792-856 | any definition that starts with a closed quotation, printed or not: its name is the quoted one and its text the name and the normalised rest, unless the name is a constraint keyword |
| `SqlColumns.PlainSignature` | src/seektalent_ui/maintenance.py:792-856 | the same for a definition that starts with any other word |
| `SqlColumns.BlankSignature` | src/seektalent_ui/maintenance.py:793-795 | a blank definition declares nothing |
| `SqlColumns.UnclosedSignature` | src/seektalent_ui/maintenance.py:839-862 | a quotation that is never closed takes the whole definition as the name |
| `SqlColumns.KeywordIff` | src/seektalent_ui/maintenance.py:799-800 | the constraint keywords are five words in any case of their ASCII letters |
| `SqlColumns.UpperBeyondAscii` | src/seektalent_ui/maintenance.py:799-800 | other letters that upper case takes to letters of these words |
| `SqlColumns.CollectMeans` | src/seektalent_ui/maintenance.py:775-782 | a name has the text of the last definition that declares it, and no other names are there |
| `SqlColumns.ColumnDefinitionFragments` | src/seektalent_ui/maintenance.py:768-804 | the parser returns the map of the specification |
| `SqlColumns.ColumnsMean` | src/seektalent_ui/maintenance.py:768-777 | that map is collected from the pieces of the text between the first parenthesis and the one that closes it, in any statement |
| `SqlColumns.NoColumns` | src/seektalent_ui/maintenance.py:768-774 | a statement without a parenthesis that is opened and closed has no columns |
| `SqlColumns.PrintSignature` | src/seektalent_ui/maintenance.py:792-804 | a printed column, quoted or not and with any rest, is read back as its name and definition, or as nothing if its name is a constraint keyword |
| `SqlColumns.ParsePrintedTable` | src/seektalent_ui/maintenance.py:768-862 | parsing a printed table of distinct balanced normalised columns gives exactly the map from names to definitions of those not named by a keyword |
| `SqlColumns.TableRecoveredIff` | src/seektalent_ui/maintenance.py:768-862 | every column of a printed table is found with its definition exactly when none is named by a constraint keyword |
| `SqlColumns.KeywordColumnDropped` | src/seektalent_ui/maintenance.py:792-801 | a printed column is dropped exactly when its name is a constraint keyword |
| `SqlColumns.KeywordColumnExample` | src/seektalent_ui/maintenance.py:792-801 | a quoted column named check is dropped |
| `Restore.RollbackRestoresIff` | src/seektalent_ui/maintenance.py:1120-1141 | rolling back after k files restores the originals exactly when no original was left to move |
| `Restore.RollbackCanLose` | src/seektalent_ui/maintenance.py:1132-1141 | a database with a write-ahead log is a case where it does not |
| `Restore.QuarantinedFiles` | src/seektalent_ui/maintenance.py:1120-1131 | moving the first k originals to quarantine moves exactly those, content intact |
| `Restore.Disk.Rollback` | src/seektalent_ui/maintenance.py:1136-1141 | after any number of its steps, all or up to the one that fails, the files are those of that many deletions and moves back in order; it finishes exactly when none of its steps fails, and then leaves the originals of the function the two lemmas above are about, whatever was moved; run after a complete quarantine it never leaves an original in neither place |
| `Restore.Disk.QuarantineOne` | src/seektalent_ui/maintenance.py:1124-1130 | moving one file keeps every original at its own path or in quarantine, wherever it fails; a failure changes nothing but perhaps an older file of the quarantine name |
| `Restore.Disk.Quarantine` | src/seektalent_ui/maintenance.py:1120-1135 | success leaves exactly the files of the quarantine function, all originals safe; an ordinary failure behind k files is rolled back exactly when no step of the rollback fails, and a rollback leaves the originals of rolling those k back, the case the two lemmas above decide; an interrupt is not rolled back |
| `Restore.Restorer.Swap` | src/seektalent_ui/maintenance.py:1098-1107 | swapping and auditing leaves the quarantined originals alone; it succeeds exactly when none of its three steps fails, and then the audited backup is in place and the temporary file gone; a failing move changes nothing, and a failing change of mode leaves the backup in place |
| `Restore.Restorer.SwapIn` | src/seektalent_ui/maintenance.py:1098-1112 | a failed swap is rolled back exactly when the failure is an ordinary one and every step of the rollback succeeds, and then the original failure is raised |
| `Restore.Restorer.DeleteQuarantined` | src/seektalent_ui/maintenance.py:1144-1146 | the final clean-up touches nothing but quarantined files, and deletes them in order up to the first removal that fails |
| `Restore.Restorer.Attempt` | src/seektalent_ui/maintenance.py:1093-1112 | what the originals are after a failure at each stage; the attempt succeeds exactly when none of the steps it takes over these files fails; a failure names its step, the first that fails, and an ordinary one at quarantine or swap is rolled back exactly when no step of the rollback fails |
| `Restore.Restorer.CleanUp` | src/seektalent_ui/maintenance.py:1113-1117 | the finally clause changes nothing said of the originals, removes the quarantined ones only after success, and reports success exactly when the attempt succeeded and no removal fails |
| `Restore.Restorer.Restore` | src/seektalent_ui/maintenance.py:1083-1117 | all or nothing: the new database is in place exactly when none of the steps up to the audit fails, a number known from the files before the call, and success is reported exactly when no step of the clean-up fails either; a failure before quarantine leaves the originals as they were, one after it does so once the rollback has run, which is exactly when the failure is an ordinary one and no step of the rollback fails, and one inside it does so exactly when nothing was left to move; what is raised is the failure or that of its rollback, unless the clean-up fails; until success each original is at its own path or in quarantine in every state on the way; the temporary file is gone whenever its removal succeeded |
| `Restore.ErrorThoughRestored` | src/seektalent_ui/maintenance.py:1114-1117 | over any files: the removal after the attempt raises, an error for the caller with the audited backup in place |
| `OpenClaw.RankedCandidates` | experiments/openclaw_baseline/adapters.py:26-43 | ranking yields the known ids in order, each once, as many as the limit allows, with the candidates now stored under them, and raises exactly when no id is known |
| `OpenClaw.KnownMeaning` | experiments/openclaw_baseline/adapters.py:33-38 | the known ids of a list are the listed ids that are in the store, without repetition, in the order of first appearance |
| `OpenClaw.InvokeOk` | experiments/openclaw_baseline/cts_tools.py:96-141 | after every call the whole tool follows from the calls so far: a request is sent exactly when its page is allowed, fewer requests than the attempts allowed precede it in its round and fewer than ten searches in the run; the counts are those of requests and sent ones; each found id is stored with the candidate last found; the first-search list is the ids of the first ten candidates of the first search that found any; the round's new ids are those first found in it, in order; the call raises exactly when it is another tool, invalid, or a sent search that fails |
| `OpenClaw.StartRoundOk` | experiments/openclaw_baseline/cts_tools.py:52-55 | so does starting a round |
| `OpenClaw.ReceiveOk` | experiments/openclaw_baseline/cts_tools.py:134-141 | whatever a search finds, the store, the first-search list and the new ids are again those of all that was found |
| `OpenClaw.RoundSearchedIff` | experiments/openclaw_baseline/harness.py:219-231 | a round that starts with budget sends a search exactly when one of its first requests asks for an existing page |
| `OpenClaw.RoundWithoutSearch` | experiments/openclaw_baseline/harness.py:230-231 | a refused call alone satisfies the loop's test for a search |
| `OpenClaw.SearchTool.InvokeAsync` | experiments/openclaw_baseline/cts_tools.py:96-160 | the tool changes its fields exactly as the specification's call |
| `OpenClaw.CallTools` | experiments/openclaw_baseline/harness.py:216-228 | a response's calls are made in order, all of them unless one raises, which is then the last |
| `OpenClaw.RunRound` | experiments/openclaw_baseline/harness.py:181-246 | for every sequence of responses: how the round ends, and that nothing earlier ends it: a raising call, no request before the first text, an empty text, a valid snapshot, a second unusable text, or three responses more than the attempts allowed |
| `OpenClaw.FirstSearchRanks` | experiments/openclaw_baseline/harness.py:330-336 | once anything is stored, the first search ranks, to all its ids in order, each once |
| `OpenClaw.ShortlistStable` | experiments/openclaw_baseline/harness.py:330-331 | a shortlist taken from the store ranks to itself |
| `OpenClaw.PlayRound` | experiments/openclaw_baseline/harness.py:308-336 | one turn of the round loop fails only in the round itself or because a snapshot has no known id; otherwise its shortlist is the first ten known ids of the snapshot, and the ranking it makes when there is none yet is that of the first search that found any, as stored then |
| `OpenClaw.RunBaseline` | experiments/openclaw_baseline/harness.py:306-361 | for every sequence of responses: the finished rounds, each continuing where the one before ended; every round but the last goes on, because the agent does, both budgets last and it found new ids or changed the shortlist; the stop reason says why the last does not; at most ten searches, counted exactly; the first ranking is that of the first search, the final one the last shortlist, and neither can raise |
| `Metrics.Dcg` | src/seektalent/evaluation.py:533-537 | the loop computes the discounted gain of the first ten scores |
| `Metrics.SwapGains` | src/seektalent/evaluation.py:533-537 | moving a better score ahead never loses gain, and wins some when it enters the first ten |
| `Metrics.DescendingIsBest` | src/seektalent/evaluation.py:533-537 | among all orders of a score list the descending one has the greatest gain |
| `Metrics.BestIff` | src/seektalent/evaluation.py:533-537 | an order attains it exactly when no better score stands behind one of the first ten |
| `Metrics.NdcgRange` | src/seektalent/evaluation.py:540-546 | the normalised gain is in [0, 1] and is 1 exactly when the first ten scores exist and are all 3 |
| `Metrics.NdcgMonotone` | src/seektalent/evaluation.py:540-546 | raising a score never lowers it, and raising one of the first ten raises it |
| `Metrics.NdcgIs` | src/seektalent/evaluation.py:533-546 | it is the sum of the first ten scores, each times the discount of its place, over that of ten threes |
| `Metrics.PrecisionCounts` | src/seektalent/evaluation.py:549-552 | ten times the precision is the number of places among the first ten with a score of at least 2 |
| `Metrics.PrecisionRange` | src/seektalent/evaluation.py:549-552 | precision is in [0, 1] and is 1 exactly when the first ten scores exist and are at least 2 |
| `Metrics.TotalCounts` | src/seektalent/evaluation.py:549-556 | each relevant score among the first ten is worth 0.07 of the total, and a full normalised gain 0.3 |
| `Metrics.TotalRange` | src/seektalent/evaluation.py:555-556 | the total is in [0, 1] and is 1 exactly for ten best scores |
| `Metrics.TotalMonotone` | src/seektalent/evaluation.py:555-556 | the total never falls when a score rises |
| `Judging.AliasesMeaning` | src/seektalent/evaluation.py:383-384 | the candidates grouped under a snapshot are exactly those that carry it |
| `Judging.FirstIsAsked` | src/seektalent/evaluation.py:371-384 | a cached snapshot has its cached label; for any other the agent is shown the first candidate that carries it |
| `Judging.LookUp` | src/seektalent/evaluation.py:371-384 | cached candidates are labelled from the cache and the others grouped by snapshot, in order |
| `Judging.Spread` | src/seektalent/evaluation.py:403-404 | all aliases of a snapshot get its judgement and nobody else does |
| `Judging.Finish` | src/seektalent/evaluation.py:391-422 | a worker labels its aliases and leaves one pending write, or fails with the agent |
| `Judging.JudgeMany` | src/seektalent/evaluation.py:353-430 | for every order of the workers: judging succeeds exactly when the agent answers for every uncached snapshot; then every candidate is labelled with its snapshot's label, there is exactly one call and one pending write per distinct uncached snapshot, and calls in flight never exceed the limit |
| `Judging.LogCall` | src/seektalent/evaluation.py:300-310 | a call that starts while fewer than the limit are running keeps the limit |
| `JudgeLimiter.SharedBound` | src/seektalent/evaluation.py:300-310 | however the judgings of concurrent rows join, interleave, fail and are cancelled, the calls in flight over all of them stay within the limit, and there are at most two events for each snapshot |
| `JudgeLimiter.ReleaseNeverRaises` | src/seektalent/evaluation.py:309-310 | a call that ends always has a slot to give back, so the bounded semaphore never overflows |
| `JudgeLimiter.StartsIff` | src/seektalent/evaluation.py:300-310 | a judging can join at any time, and each of its waiting calls can start exactly while fewer calls than the limit are in flight over all judgings |
| `JudgeLimiter.NeverStuck` | src/seektalent/evaluation.py:304-310 | with a positive limit, as long as a call is waiting or running some call can start or end |
| `JudgeLimiter.AllAnswered` | src/seektalent/evaluation.py:391-430 | when nothing is left, every snapshot of every judging has been answered or lost, and none of a judging is lost unless a call of that judging failed |
| `Evaluation.CollectUnique` | src/seektalent/evaluation.py:1234-1236 | the dictionary of unique candidates, in insertion order |
| `Evaluation.UniqueMeaning` | src/seektalent/evaluation.py:1234-1236 | it holds, for each id, exactly the last candidate with it |
| `Evaluation.UniqueOrder` | src/seektalent/evaluation.py:1234-1236 | the ids stand in the order in which they first appear |
| `Evaluation.UniqueCovers` | src/seektalent/evaluation.py:574-608 | every stage candidate is represented by one with its id, so the lookup of its label never misses |
| `Evaluation.Record` | src/seektalent/evaluation.py:1258-1280 | recording writes stores each write under its key and changes no other label |
| `Evaluation.RecordedByWrites` | src/seektalent/flywheel/store.py:1238-1319 | the writes of one successful judging add exactly the snapshots it found uncached and change no label it found |
| `LabelStore.LabelsKeptIff` | src/seektalent/flywheel/store.py:1238-1343 | over every run of lookups and writes of concurrent evaluations: no label ever changes, whatever they answer, exactly when no evaluation writes a key between another's lookup of it and that other's write |
| `LabelStore.SecondRaces` | src/seektalent/flywheel/store.py:1280-1343 | a write of a key that has a label belongs to an evaluation that looked before the first write |
| `LabelStore.LaterAnswerWins` | src/seektalent/flywheel/store.py:1280-1293 | two evaluations of one task both miss a snapshot, and the later answer replaces the earlier |
| `Evaluation.StageResult` | src/seektalent/evaluation.py:574-608 | a stage has a row for each of its first ten candidates in rank order, with the candidate's id and snapshot hash and the label and cache flag judged for the id, and the metrics of those rows |
| `Evaluation.EvaluateRun` | src/seektalent/evaluation.py:1213-1280 | the evaluation raises exactly when judging does, with the labels as they were; otherwise both stages are fully labelled and the new labels recorded |
| `Evaluation.OrderFree` | src/seektalent/evaluation.py:391-430 | stages and stored labels are the same for every interleaving of the workers |
| `Evaluation.RerunIsSilent` | src/seektalent/flywheel/store.py:1321-1343 | once recorded, judging the same snapshots makes no call and gives the same labels, whatever the agent would now answer |
| `Evaluation.RerunScoresAlike` | src/seektalent/evaluation.py:1213-1280 | a rerun of the whole evaluation has nothing to ask, leaves the stored labels as they are and scores both stages as before, whatever the agent would now answer |
| `Evaluation.StageTotal` | src/seektalent/evaluation.py:555-608 | a stage's total is in [0, 1], and 1 exactly for ten rows with the best score |
| `Evaluation.RowsShowOwnLabelsIff` | src/seektalent/evaluation.py:574-608 | whatever the cache and the agent, every row of both stages shows the label of the snapshot it names, exactly when no id comes with two snapshots |
| `Evaluation.EvaluationExists` | src/seektalent/evaluation.py:1213-1280 | every input whose snapshots all have labels has an evaluation |
| `Cursor.FromToBytes` | src/seektalent_ui/workbench_candidate_graph.py:666-698 | big-endian bytes give the number back |
| `Cursor.UnmaskBits` | src/seektalent_ui/workbench_candidate_graph.py:669-697 | masking twice with the same pad changes nothing |
| `Cursor.DecodeIff` | src/seektalent_ui/workbench_candidate_graph.py:666-698 | a cursor decodes to an offset exactly when it is that offset's encoding |
| `Cursor.RoundTrip` | src/seektalent_ui/workbench_candidate_graph.py:666-698 | every offset below 2^64 survives encoding, and no two offsets share a cursor |
| `Cursor.AcceptedReencodes` | src/seektalent_ui/workbench_candidate_graph.py:678-698 | any accepted cursor re-encodes to the same 24 bytes |
| `Cursor.EncodeLayout` | src/seektalent_ui/workbench_candidate_graph.py:666-675 | a cursor is eight bytes of the offset, most significant first and each masked with the pad's byte in its place, and sixteen of their signature; an offset has none exactly from 2^64 on |
| `Cursor.XorBitsAt` | src/seektalent_ui/workbench_candidate_graph.py:669 | a masked byte has a bit set where exactly one of byte and pad has it set |
| `Cursor.PageIs` | src/seektalent_ui/workbench_candidate_graph.py:88-135 | the answer to an accepted cursor: the items from its offset on, as many as asked for within 1 and 100, and the cursor of the next page exactly when items are left |
| `Cursor.NotFoundIff` | src/seektalent_ui/workbench_candidate_graph.py:88-92 | a cursor is not found exactly when no offset encodes to it |
| `Cursor.PageFollows` | src/seektalent_ui/workbench_candidate_graph.py:88-135 | a page carries on exactly where the items so far end, and its cursor names exactly where it ends |
| `Cursor.WalkCovers` | src/seektalent_ui/workbench_candidate_graph.py:88-135 | following cursors with any limits never fails, repeats or skips, ends within as many pages as there are items, and has read the whole list exactly when there is no next cursor |
| `EventStream.SinceFromPosition` | src/seektalent_ui/workbench_store.py:2389-2412 | asking the store again from the m-th event's number gives exactly the events after it |
| `EventStream.SinceMembers` | src/seektalent_ui/workbench_store.py:2389-2412 | a poll finds exactly the stream's own events with a greater number |
| `EventStream.StartIs` | src/seektalent_ui/event_routes.py:66 | a stream starts after the greater of the number in the query and the id in the header, a negative one counting as none |
| `EventStream.Send` | src/seektalent_ui/event_routes.py:128-142 | the events of one poll are sent in order, two frames each |
| `EventStream.Generate` | src/seektalent_ui/event_routes.py:101-143 | over any growing log the generator sends, in order, exactly the first events after its start, each poll a page or all that is left |
| `EventStream.QuietLogDrains` | src/seektalent_ui/event_routes.py:111-143 | while the log stays quiet every poll delivers a page until all is delivered |
| `EventStream.StartIsPosition` | src/seektalent_ui/event_routes.py:66 | the resume rule continues exactly after the last event whose first frame arrived |
| `EventStream.GeneratedConnects` | src/seektalent_ui/event_routes.py:52-143 | what the generator sends over any logs, cut anywhere, is a connection of the model |
| `EventStream.ResumesWithoutGaps` | src/seektalent_ui/event_routes.py:52-143 | across any cuts and resumes the client has received exactly both frames of a prefix of the events, in order, without the second frame of each event that was cut between its two, whatever the events are called |
| `EventStream.HandledInRun` | src/seektalent_ui/event_routes.py:52-143 | under the common name the client has seen exactly those events, in order and once each, when none of them carries that name |
| `EventStream.ExactlyOnceIff` | src/seektalent_ui/event_routes.py:130-141 | a listener to the common name sees no event twice exactly when no event carries that name itself |
| `EventStream.CommonNameTwice` | src/seektalent_ui/event_routes.py:132-141 | one that does is seen twice |
| `JobRunner.StepKeeps` | src/seektalent_ui/job_runner.py:54-187 | every step of a triage call, a wake call or a cleanup, failing or not, and every thread death between them keeps the registry invariant |
| `JobRunner.MutualExclusion` | src/seektalent_ui/job_runner.py:54-187 | in every state of every interleaving, the middle of calls included, at most one triage thread per session is between start and cleanup, and the live workers never exceed two for cts and one for liepin |
| `JobRunner.RefusedIff` | src/seektalent_ui/job_runner.py:64-72 | a triage call is refused exactly when it kept a thread of its session; that thread was alive when the call looked at it, and where it kept none no thread of the session is registered alive or running |
| `JobRunner.DecidePrunes` | src/seektalent_ui/job_runner.py:64-72 | a triage call keeps every registration whose thread is alive, and drops none but those whose thread it did not find alive |
| `JobRunner.LaunchIsOnly` | src/seektalent_ui/job_runner.py:64-81 | a triage thread starts while no other of its session is running, and is then the only one |
| `JobRunner.FilledLane` | src/seektalent_ui/job_runner.py:175-187 | a call that fills a lane leaves exactly two entries for cts and one for liepin, each alive at some moment of the call: when it was looked at or when it was started |
| `JobRunner.LaneStaffedIff` | src/seektalent_ui/job_runner.py:175-198 | of the workers a filled lane lists exactly those are alive that have not died during the call's work on it, so the lane has a live worker exactly when one of them has not |
| `JobRunner.FilledLaneMayBeIdle` | src/seektalent_ui/job_runner.py:175-198 | a run in which both workers end before the call returns: the list is full and no worker is alive |
| `JobRunner.Registry.StartRequirementTriage` | src/seektalent_ui/job_runner.py:59-81 | with threads dying between its steps, the method takes only steps of the machine; it refuses only where it saw a live thread of the session, fails only where recording or starting does, and otherwise its thread is the session's only running one; notes that fail leave the session unregistered, a start that fails leaves a thread registered that never ran; a call that is not wanted changes nothing |
| `JobRunner.Registry.CleanUpTriage` | src/seektalent_ui/job_runner.py:139-145 | a thread removes exactly the registration that names it, and is no longer running for its session |
| `JobRunner.DeregisteredMeans` | src/seektalent_ui/job_runner.py:139-145 | after a cleanup no thread is running for the session, and every other registration stands |
| `JobRunner.Registry.StartLaneWorkers` | src/seektalent_ui/job_runner.py:175-187 | it succeeds exactly when every start does; then the lane's list is full of workers that were alive at some moment of the call, and the other lane's list is untouched |
| `JobRunner.Registry.WakeUp` | src/seektalent_ui/job_runner.py:54-57 | it succeeds exactly when every start does, and then the lists hold two and one workers; a failing start ends the call |

## Left out

- BenchmarkCommand.Benchmark: runs the uploader on what the loop has handed over, as its outcome is the same for every interleaving; an aborted command still waits for running attempts, whose results are dropped.
- BenchmarkScheduler.Scheduler.Run: result rows are records under their input index, without the run's texts, timestamps and error messages; whether a returned run has an evaluation, and the status it leaves its session in, are part of its outcome.
- BenchmarkUploader.Uploader.Upload: what a remote call does is a function of the row and the attempt, and rows are named by id instead of shared as dictionaries.
- CandidateIdentity.SharedKeyMeansSameCandidate: starts from normalised fields; Unicode case folding and the list of masked names are parameters.
- CandidateProjection.OrderInsensitive: claims nothing about badges and evidence, whose order follows the input; a missing score and a score of -1 count as the same.
- CandidateKeys.LatestDate: starts from the dates a regular expression finds; the expression itself is left out, and so is the public digest of a group id.
- SqlColumns.ParsePrintedTable: `upper` is modelled where it can make a keyword, not for all of Unicode.
- Restore.Restorer.Restore: promises the originals after a failed swap only when the rollback itself succeeds; a step counts as failed when it raises; the backup copy and the schema validation are steps that succeed or fail.
- OpenClaw.RunRound: a response is its tool calls and whether its text parses; prompts, traces and the HTTP client are left out, and a search that fails ends the round. The responses are a sequence instead of a responder that sees the prompts: any responder answers some such sequence.
- Judging.JudgeMany: stops at the first failing answer, as the results of calls still running are dropped; their slots are followed in the limiter's model.
- Judging.LookUp: a stored label is always valid; the fields behind the contract hash are constant within a run.
- Evaluation.EvaluateRun: snapshots, artifacts and experiment logging around the labels are left out.
- Cursor.DecodeIff: is about the 24 raw bytes; the base64 text and its prefix are left out, and so is the strength of the HMAC.
- EventStream.Generate: sees a log whose sequence numbers increase; event payloads, keep-alive pings and the parsing of the header text are left out, and an ended user session is an end of polling.
- JobRunner.MutualExclusion: is safety only; a worker that has just found no job can still count as alive, so no claim is made that a woken lane runs a job. A thread's own work and its waits for the lock are not steps.
- Counting coverage of graph candidates, building candidate rows, browser and provider clients, settings, command-line parsing, the terminal and web front ends: tables and plumbing.
- The Claude Code and job-description baselines: thinner repeats of the OpenClaw rounds.
- SQLite, threads and files below the operations named here, clocks, and the rounding of floats.
