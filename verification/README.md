# Aeontra: a verified model of its durable protocols

Aeontra runs an Edge agent that updates itself, keeps a private memory ("Brain"), drives Git
checkouts and works on long jobs, on machines where any step may fail. This project models the
parts of it whose correctness is spread over several steps, files or processes, and proves what
they promise.

| module | part of the system |
|---|---|
| `Releases`, `WindowsUpdater` | release order; the Windows updater's write-ahead transaction over two marker files, a transaction file and the service configuration |
| `Links`, `Notes`, `BrainIndex`, `BrainSources`, `BrainGit`, `BrainStore`, `Excerpt` | note format and wiki links; the derived cache; the scan of the sources and what passing time changes; the one-branch Git history; the three-store write with its compensation; search excerpts |
| `Lifecycle`, `EdgeWorkers` | one leased control operation over every schedule; any number of workers, the gate, the bundle receipt and crashes |
| `CommitGraph`, `GitPlans` | reachability in the commit graph; single-use plans for fast-forward and publication, executed side by side while others change the repositories |
| `Autopilot` | the durable job, its counters against the full history of cycles, the cycle driver |
| `Scanner` | the chunked search of an image against a search of the whole file |
| `Text` | the string operations the others share |

How the model is built:

- A step that can fail is given its outcome as a parameter (`Faults`, `Plumbing`, `CommitFaults`
  and so on), so a contract covers every combination of failures. Outcomes include commands that
  report a failure although they took effect.
- Code that changes state step by step is a class or a loop. Concurrent code is a transition
  function over single steps; its theorems quantify over every finite schedule of steps. A crash
  is a step, or, in `WindowsUpdater`, the return to any state recorded in the journal.
- Clocks, random identifiers, the YAML codec, the redactor, SHA-256 and the files' permissions are
  parameters or assumed to answer yes or no. Text is a sequence of Unicode characters with its
  UTF-8 length; `Excerpt` works on bytes.
- A rename, an exclusive create, a hard link and an SQLite transaction are atomic.

Where the code does not do what it promises, the model follows the code; a lemma gives the input
and another the exact condition:

- A committed update may leave the release order unchanged: `p15.1.0` and `p15.01.0` are different
  releases with equal numbers (`Releases.LeadingZero`, `Releases.EqualKeys`,
  `WindowsUpdater.Updater.UpdateStable`).
- The two Windows markers may name the same release while a transaction is pending. They do so
  exactly when the markers are half written in one of two ways (`WindowsUpdater.MarkersMeetIff`);
  `WindowsUpdater.MeetInRollback` and `WindowsUpdater.MeetInRecovery` reach them by the updater's
  own steps. Without a transaction file they never do.
- The Brain's `head` reads a failing `rev-parse` as a branch without commits. The next commit is
  then a root commit and the old history is dropped (`BrainGit.UnseenHeadLosesHistory`);
  `BrainStore.Store.Serve` keeps the history whenever the head can be read or there is none.
- If a ref update moves the branch, reports a failure and cannot be re-read, the branch holds the
  new note and the other two stores the old one (`BrainStore.Store.WriteAgent`, the `Failed` case).
- A rolled-back write may change the cache: it restores it exactly when what the cache held about
  the slug was what its source says (`BrainIndex.UndoRestoresIff`, `BrainStore.Store.WriteAgent`).
- The cache is not always what a rebuild gives. A write keeps it so exactly when redaction does not
  see whether CRLF in the body was normalised, which holds of every body without CRLF
  (`BrainStore.CurrentAfterWrite`). Over time it differs in the column `expired`, exactly for notes
  whose review date has passed since they were taken in (`BrainSources.CurrentUpToExpiry`,
  `BrainSources.SameIffNothingPassed`).
- `makeExcerpt` indexes past the end of the body when lower-casing makes the text longer
  (`Excerpt.LongerLowerCaseFails`); `Excerpt.MakeExcerpt` says exactly when.
- A publication pushes the branch, not the planned commit, so a commit made in between is
  published (`GitPlans.PublishTakesLaterCommit`). It is not reported as a success, because the
  inspection afterwards looks at branch and head (`GitPlans.SuccessReported`).
- A fast-forward merges into whatever is checked out, and the inspection afterwards does not look at
  the branch. If somebody checks out another branch in between, success may be reported although
  the planned branch has not moved (`GitPlans.SuccessOnOtherBranch`; `GitPlans.SuccessWithoutLanding`
  is a whole run). `GitPlans.SuccessReported` and `GitPlans.FromCommandOn` say exactly when.
- Removing a bundle receipt is a read followed by a removal. A worker that never got the gate but
  acknowledges a cancellation can remove another operation's receipt, after which that operation
  is started twice (`EdgeWorkers.DeniedAcknowledgementStartsTwice`). The server does not let a
  leased bundle operation be cancelled (internal/edge/operation_lifecycle.go, lines 91 and
  185-192); `EdgeWorkers.Accepted` is that condition, and under it the promise holds.
- A receipt is written before the start it stands for. If it is left without its start, the next
  lease takes it for one, starts nothing and reports how the updater's unit stands
  (`EdgeWorkers.UntidyStepIsTaken`). That takes one of the steps `EdgeWorkers.Tidy` names: a crash
  between the two, a link reported as failed, a start given up before its command ran, or the
  receipt of a failed start that cannot be read or removed. Without them it never happens
  (`EdgeWorkers.ReceiptMeansStarted`).
- A receipt may outlive its operation, and then blocks every later bundle operation
  (`EdgeWorkers.LeftBehindBlocks`). That takes one of the steps `EdgeWorkers.Leaves` names: a crash
  before the removal (`EdgeWorkers.CrashLeavesReceipt`), a reading or removal that fails and is
  ignored (`EdgeWorkers.IgnoredRemovalLeaves`), an end the server records without the answer coming
  through, an operation the server gives up, or a receipt written for one it is already done with.
  After each of them a crash leaves the receipt for good, and without them none is left
  (`EdgeWorkers.LeavingStepLeaves`, `EdgeWorkers.NothingLeftBehind`).
- The root units of two operations may be at work at once: a start that timed out is reported as
  ended and its receipt cleared (`EdgeWorkers.TimedOutStartIsHasty`). It takes the acknowledgement of
  an operation whose unit may be at work; each such one lets any other operation start beside it, and
  without one there is never more than one unit (`EdgeWorkers.HastyEndOverlaps`,
  `EdgeWorkers.OneUnitAtATime`).

## Model

| member | source | states |
|---|---|---|
| `WindowsUpdater.Updater.Commit` | cmd/mcp-bundle-updater/main_windows.go:434-461 | every state passed through without a transaction file is the old pair or the target pair with the matching configured binary; over the single steps: it commits exactly when all of them succeed, the final verification of the new service among them, restores exactly when the service is brought back to the old binary and the old markers are written, does not start or stays pending otherwise; and the state in each case, half-written markers included |
| `WindowsUpdater.Updater.Activate` | cmd/mcp-bundle-updater/main_windows.go:448-461 | once the markers are written: commits exactly when the service is stopped, reconfigured, started and verified and the last two writes succeed; otherwise restores exactly when the service is back on the old binary |
| `WindowsUpdater.Updater.Restore` | cmd/mcp-bundle-updater/main_windows.go:464-478 | exactly when it ends the transaction with the old markers; which binary is configured and what the markers say in every case |
| `WindowsUpdater.Updater.Recover` | cmd/mcp-bundle-updater/main_windows.go:480-510 | exactly when it leaves no transaction, and then the target pair if the service runs the target and the old pair if it runs the old one; the exact machine after one cut off by a failing write; the configured binary never changes; an interrupted recovery does not change what a complete one does |
| `WindowsUpdater.Updater.Finish` | cmd/mcp-bundle-updater/main_windows.go:492-508 | writes the chosen pair and drops the transaction, or leaves the transaction in place |
| `WindowsUpdater.Updater.RecoverRepeatedly` | cmd/mcp-bundle-updater/main_windows.go:480-510 | any number of interrupted recoveries and a complete one give the state one complete recovery gives, for a service in a fixed state |
| `WindowsUpdater.SettleEnds` | cmd/mcp-bundle-updater/main_windows.go:480-510 | a complete recovery is lawful, ends the transaction with the pair whose binary is configured if the service runs and does nothing otherwise, and is idempotent |
| `WindowsUpdater.SettleIgnores` | cmd/mcp-bundle-updater/main_windows.go:480-510 | recovery depends neither on the recorded phase nor on what the markers say |
| `WindowsUpdater.Updater.WriteMarkers` | cmd/mcp-bundle-updater/main_windows.go:512-523 | the active marker first, then the previous one, present or absent, and what is written when either fails; every intermediate state belongs to the pending transaction |
| `WindowsUpdater.Updater.WriteTransaction` | cmd/mcp-bundle-updater/main_windows.go:965-994 | the file is replaced or left alone, and the history stays lawful |
| `WindowsUpdater.Updater.ClearTransaction` | cmd/mcp-bundle-updater/main_windows.go:996-1005 | the file is removed or left alone, and the history stays lawful |
| `WindowsUpdater.Updater.SwapAndStart` | cmd/mcp-bundle-updater/main_windows.go:1078-1117 | success exactly when every step succeeds, and the configured binary branch by branch: a failed start is reverted, a reconfiguration may take effect and be reported as failed |
| `WindowsUpdater.AfterSwap` | cmd/mcp-bundle-updater/main_windows.go:1100-1116 | success means the new binary is configured; a failure leaves the old or the new one |
| `WindowsUpdater.Updater.UpdateConfig` | cmd/mcp-bundle-updater/main_windows.go:1104-1112 | one change of the service configuration, refused, applied, or applied and reported as failed |
| `WindowsUpdater.Updater.UpdateStable` | cmd/mcp-bundle-updater/main_windows.go:358-409 | after a recovery, whatever was pending: declined exactly when a step fails, a release cannot be compared or the channel is older; unchanged exactly for the active release; committed exactly when all steps of the commit succeed, and then the release is not lowered and is raised strictly unless both are legacy releases with the same numbers; otherwise nothing changes |
| `WindowsUpdater.Updater.Rollback` | cmd/mcp-bundle-updater/main_windows.go:411-432 | after a recovery, whatever was pending: declined exactly when a step fails or there is no previous release; committed exactly when all steps of the commit succeed, and then the two markers are exchanged; otherwise nothing changes |
| `WindowsUpdater.Updater.RollbackTwice` | cmd/mcp-bundle-updater/main_windows.go:411-432 | two committed rollbacks restore the whole state |
| `WindowsUpdater.Updater.Crash` | cmd/mcp-bundle-updater/main_windows.go:434-523 | a crash leaves the machine in a state it has passed through, and that state is lawful |
| `WindowsUpdater.Updater.Session` | cmd/mcp-bundle-updater/main_windows.go:358-523 | over any sequence of updates, rollbacks and recoveries, each cut off anywhere by a crash, the history is one chain of lawful states |
| `WindowsUpdater.SettledPairs` | cmd/mcp-bundle-updater/main_windows.go:434-523 | between two states without a transaction file the markers are unchanged or were replaced as a pair |
| `WindowsUpdater.MarkersMeetIff` | cmd/mcp-bundle-updater/main_windows.go:512-523 | in every lawful state with a pending transaction: both markers name one release exactly when they are half written back to the old pair, or on to a target that is the previous release |
| `WindowsUpdater.MeetInRollback` | cmd/mcp-bundle-updater/main_windows.go:411-446 | for any two releases, a rollback cut off between its marker writes leaves both markers naming one |
| `WindowsUpdater.MeetInRecovery` | cmd/mcp-bundle-updater/main_windows.go:480-523 | for any three, an update that fails and a recovery that is cut off leave both markers naming the old active one |
| `Releases.CompareRelease` | internal/bundle/manifest.go:79-103 | decides the lexicographic order of generation and fields; fails exactly when a field exceeds 64 bits |
| `Releases.ReleaseOrder` | internal/bundle/manifest.go:105-130 | the generation and the three numbers, or an error exactly when one exceeds 64 bits |
| `Releases.LessTotal` | internal/bundle/manifest.go:79-103 | the order of keys is total and irreflexive |
| `Releases.LessTransitive` | internal/bundle/manifest.go:79-103 | the order of keys is transitive |
| `Releases.OrderMeans` | internal/bundle/manifest.go:79-130 | every legacy release is before every semantic one; semantic releases are ordered by their three numbers, legacy ones by their two |
| `Releases.ComparableMeans` | internal/bundle/manifest.go:105-130 | a release can be compared exactly when its numbers fit 64 bits |
| `Releases.ValueIsDecimal` | internal/bundle/manifest.go:105-130 | digits stand for their number in the decimal system |
| `Releases.CanonicalInjective` | internal/bundle/manifest.go:64 | fields without leading zeros are determined by their number |
| `Releases.EqualKeys` | internal/bundle/manifest.go:63-64 | different releases compare as equal exactly when both are legacy and write the same numbers |
| `Releases.LeadingZero` | internal/bundle/manifest.go:63 | two different legacy releases that compare as equal |
| `BrainStore.Store.WriteAgent` | internal/brain/write.go:14-101 | exactly which drafts are rejected, and that nothing changes then; a written note is the draft's own, is in source, cache and branch, and over an existing note keeps its author, creation and console texts; a failure without a failed rollback leaves sources and branch as they were, with the one exception of an unnoticed ref update, and the cache as it was exactly when its rows of the slug were current or it was not reached; it is written whenever every store works, and exactly when a rollback fails |
| `BrainStore.Store.Prepare` | internal/brain/write.go:21-60 | the checks pass exactly for a draft that proposes a note, and give that note and the prior one |
| `BrainStore.ProposalMeans` | internal/brain/write.go:21-60 | exactly which drafts ask for a note: a valid slug without a curated note, and where there is a working note one that can be read and has the same author |
| `BrainStore.Store.Publish` | internal/brain/write.go:61-100 | the state of all three stores for each ending |
| `BrainStore.Store.Record` | internal/brain/write.go:80-100 | the commit, or the compensation of source and cache |
| `BrainStore.Store.UndoIndex` | internal/brain/write.go:85-97 | the prior rows are put back, or the slug is deleted with its cascades |
| `BrainStore.Store.ReadWorkingRaw` | internal/brain/write.go:103-125 | the prior note, unreadable exactly when the file does not parse |
| `BrainStore.Store.RestoreSource` | internal/brain/write.go:127-139 | puts back exactly the directory as it was before the overwrite |
| `BrainStore.Store.Serve` | internal/brain/write.go:14-101 | at any clock readings: the cache keeps holding what each source said when it was taken in after every ending but a failed rollback, for a written note exactly when its body is plain; the branch keeps holding the sources and only grows while its head can be read |
| `BrainStore.Store.ServeAll` | internal/brain/write.go:14-101 | the same for any sequence of writes over any length of time, asking plain bodies of written notes only; with clocks that do not run backwards the cache is at the end what a rebuild gives, except for `expired`, which differs exactly where a review date has passed |
| `BrainStore.HeadAfterWrite` | internal/brain/git.go:283-348 | a commit on top of the head extends the history, changes one allowed path, and its tree holds the source of every slug written |
| `BrainStore.CurrentAfterWrite` | internal/brain/write.go:61-78 | writing a note and updating its rows keeps the tables current, whenever the other sources were read, exactly when the body is plain |
| `BrainStore.RenderedRows` | internal/brain/write.go:61-78 | the rows of a note are those its own source gives exactly when redaction does not see the normalised line ends |
| `BrainSources.CurrentUpToExpiry` | internal/brain/index.go:330-372 | tables kept current at whatever clock readings equal a rebuild at any later one in every column but `expired`, which differs exactly for the notes whose review date has passed since |
| `BrainSources.SameIffNothingPassed` | internal/brain/index.go:330-372 | so they are a rebuild exactly when no review date has passed |
| `BrainSources.EntriesLater` | internal/brain/model.go:234-293 | sources that could be read can be read at every later clock reading, and say the same up to their expiry |
| `BrainStore.Store.Reindex` | internal/brain/index.go:306-328 | succeeds exactly on indexable sources with an open cache, leaves the cache a rebuild of them, and does not change a cache that was one |
| `BrainSources.ScanSources` | internal/brain/index.go:330-372 | succeeds exactly when every source is readable, no slug is in both directories and the bounds hold; lists the sanitised entry of every source once, in the order of the slugs |
| `BrainSources.ScanDirectory` | internal/brain/index.go:339-366 | the inner loop accepts a directory exactly when every file is good and all of them fit |
| `BrainSources.ScanFile` | internal/brain/index.go:340-365 | one file is accepted exactly when its slug is valid and new, it fits, and it parses |
| `BrainSources.SortBySlug` | internal/brain/index.go:367-371 | the same entries in strictly ascending order of their slugs |
| `BrainSources.SanitizedRebuildsSame` | internal/brain/index.go:384-391 | with an idempotent redactor it does not matter how often a note is sanitised on the way |
| `BrainSources.EntriesAfterWrite` | internal/brain/index.go:330-372 | writing one working file, or reading it again, replaces one entry of the scan |
| `BrainIndex.Index.UpsertNoteTx` | internal/brain/index.go:487-530 | replaces everything the four tables hold about the slug by the note's rows, and keeps the foreign keys |
| `BrainIndex.Index.Upsert` | internal/brain/index.go:532-548 | all of it or nothing |
| `BrainIndex.Index.Delete` | internal/brain/index.go:550-566 | removes the slug from all tables with its outgoing links; links to it stay |
| `BrainIndex.Index.ReplaceAll` | internal/brain/index.go:461-485 | whatever the cache held, it holds exactly the rows of the sources |
| `BrainIndex.IncrementalIsRebuild` | internal/brain/index.go:487-530 | updating one note in rebuilt tables gives the rebuilt tables of the updated notes |
| `BrainIndex.DeleteIsRebuild` | internal/brain/index.go:550-566 | deleting one note with its cascades gives the rebuilt tables of the rest |
| `BrainIndex.UndoRestoresIff` | internal/brain/write.go:85-97 | for any tables: compensating a write restores them exactly when they held about the slug what is put back, and nothing if nothing is |
| `BrainIndex.RebuildUnique` | internal/brain/index.go:461-485 | a rebuild has one result |
| `BrainIndex.RowsKeep` | internal/brain/index.go:384-530 | every column of a note's rows: free texts redacted, the rest as it is |
| `BrainIndex.SameRowsUpToExpiry` | internal/brain/index.go:487-530 | entries that differ in expiry alone give tables that differ in the column `expired` alone, and there as the entries do |
| `BrainGit.LocalGit.CommitPath` | internal/brain/git.go:283-348 | over the single commands: exactly when it reports success, and the branch and the staged tree in every case |
| `BrainGit.LocalGit.Record` | internal/brain/git.go:302-347 | the commit on the head it was given, for every failing command |
| `BrainGit.NextKeepsHistory` | internal/brain/git.go:283-348 | a commit on the head keeps the whole history, one allowed path per commit |
| `BrainGit.UnseenHeadLosesHistory` | internal/brain/git.go:258-271 | a commit made while the head could not be read keeps no commit and no other path of the old history |
| `BrainGit.NotePathAllowed` | internal/brain/git.go:284-293 | the path of a valid slug is allowed |
| `BrainGit.AllowedPathIff` | internal/brain/git.go:284-293 | the allowed paths are the ignore file and the working notes of valid slugs |
| `BrainGit.NotePathInjective` | internal/brain/write.go:80 | different slugs have different paths |
| `Notes.RoundTrip` | internal/brain/model.go:325-389 | parsing the rendering of an accepted note gives the note back exactly when its body has no CRLF, also with `---` lines in it |
| `Notes.ParseOfRender` | internal/brain/model.go:254-293 | at any clock reading: the note comes back with CRLF read as LF and its expiry of then, or nothing does, exactly when its stamp is still in the future |
| `Notes.UnixKeepsScan` | internal/brain/model.go:254-322 | normalising line ends breaks no link: a scan that succeeds finds the same targets afterwards |
| `Notes.BuildAccepts` | internal/brain/model.go:325-374 | what holds of every note an agent draft may become |
| `Notes.BuiltNote` | internal/brain/model.go:325-374 | not the owner's; over an existing note only a working one of the same slug and author, with its creation and console texts kept; every other field the draft's own or the server's stamp; nothing the redactor would change |
| `Notes.BuildIff` | internal/brain/model.go:325-374 | exactly which drafts become a note |
| `Notes.ValidateIff` | internal/brain/model.go:184-251 | exactly which metadata is accepted, with every limit spelled out |
| `Notes.ParseIff` | internal/brain/model.go:254-293 | exactly when a source with a front matter parses, and to what, by the parts of its text |
| `Notes.ParseNeedsHeader` | internal/brain/model.go:258-266 | a source without one never does |
| `Notes.UnixReplaces` | internal/brain/model.go:258 | every CRLF becomes one line end, and what is around it is normalised on its own |
| `Notes.Validate` | internal/brain/model.go:184-251 | accepted metadata is well formed and reports its expiry |
| `Notes.UnixIdentity` | internal/brain/model.go:258 | normalising line ends changes a text exactly when it holds CRLF |
| `Links.ExtractLinks` | internal/brain/model.go:296-322 | fails exactly when the left-to-right scan meets an unclosed or invalid link; otherwise the strictly sorted set of all targets |
| `Links.CollectTargets` | internal/brain/model.go:298-315 | the loop collects exactly the targets of the scan |
| `Links.Sorted` | internal/brain/model.go:316-321 | the sorted list of a set |
| `Links.ScanRecoversSlugs` | internal/brain/model.go:296-322 | slugs woven into any texts that open no link of their own are recovered in order |
| `Links.ScannedAreSlugs` | internal/brain/model.go:296-322 | every target found is a valid slug |
| `Links.ScanFails` | internal/brain/model.go:303-312 | an unclosed link and a target that is no slug fail, whatever follows |
| `Links.SlugIff` | internal/brain/model.go:57 | slugs are the texts of the grammar of words joined by single dashes, up to 64 characters |
| `Links.LessIff` | internal/brain/model.go:320 | the order is that of the first difference, with a proper prefix first |
| `Links.SortedUnique` | internal/brain/model.go:316-321 | a strictly sorted list is determined by its elements |
| `Excerpt.TruncateUtf8` | internal/brain/index.go:730-742 | the longest prefix within the limit that ends on a character boundary |
| `Excerpt.TruncationIsLongestValidPrefix` | internal/brain/index.go:730-742 | of valid UTF-8 it is the longest valid prefix that fits (section 3 of RFC 3629) |
| `Excerpt.TruncationIsTight` | internal/brain/index.go:730-742 | at most three bytes of the limit stay unused |
| `Excerpt.CutIffBoundary` | internal/brain/index.go:730-742 | a cut of valid UTF-8 is valid exactly at a character boundary |
| `Excerpt.ValidIff` | internal/brain/index.go:730-742 | a text is valid exactly when it is the encoding of some sequence of Unicode scalar values (section 3 of RFC 3629) |
| `Excerpt.ByteLenIs` | internal/brain/model.go:254-256 | the length of a text in bytes is that of its encoding |
| `Excerpt.MakeExcerpt` | internal/brain/index.go:695-728 | at most 480 bytes, valid for a valid body, around the first match; indexes out of range exactly when the wanted offset is past the body |
| `Excerpt.Match` | internal/brain/index.go:700-706 | the earliest position of any term |
| `Excerpt.BackUp` | internal/brain/index.go:716-718 | the start of the character at an offset |
| `Excerpt.Frame` | internal/brain/index.go:719-727 | the framed fragment is valid, within the limit and shows the body from the start |
| `Excerpt.SafeWhenLowerIsNotLonger` | internal/brain/index.go:700-718 | the index is in range whenever lower-casing does not lengthen the body |
| `Excerpt.LongerLowerCaseFails` | internal/brain/index.go:700-718 | a family of valid bodies whose lower case is longer and for which the index is out of range |
| `Lifecycle.Session.Serve` | cmd/mcp-edge/control_operations_unix.go:85-135 | for every schedule: the log conforms, the round finishes exactly when an event ends it, a finished round leaves no executor at work and no gate held; a terminal message is sent exactly when that event is the executor's exit or the first answer asks to cancel; it is a cancellation exactly when an answer before it asked for one, and otherwise completes with the executor's code, "cancelled" without the gate, or "workspace_registration_failed" for an empty code that could not be registered |
| `Lifecycle.Session.Execute` | cmd/mcp-edge/control_operation_lifecycle_unix.go:42-105 | returns exactly when a reply or an event ends it, and only after a started executor has exited; its code, cancellation, gate and failure are those the first ending event and the events before it give |
| `Lifecycle.Session.Supervise` | cmd/mcp-edge/control_operation_lifecycle_unix.go:64-104 | the select loop, for every order of ticks, grants, exits and shutdowns: the code is the executor's exactly if it got the gate before, and "cancelled" otherwise; whether a cancellation was asked for, whether the gate is held and whether it aborts, read off the schedule |
| `Lifecycle.Session.Finish` | cmd/mcp-edge/control_operation_lifecycle_unix.go:66-75 | the result is kept, also when the finalizing report is lost |
| `Lifecycle.Session.AwaitExit` | cmd/mcp-edge/control_operation_lifecycle_unix.go:83-103 | a cancelled executor has exited when the wait ends, and a gate it still got is accounted for |
| `Lifecycle.RevisionsCount` | cmd/mcp-edge/control_operation_lifecycle_unix.go:43-87 | the revisions of a conforming log are 1, 2, 3 and so on |
| `Lifecycle.StoppingFollowsCancel` | cmd/mcp-edge/control_operation_lifecycle_unix.go:78-82 | every report names "finalizing" exactly after the executor's exit, before it "stopping" exactly after an answer asked to cancel, and the operation's own phase otherwise |
| `Lifecycle.TerminalOnce` | cmd/mcp-edge/control_operations_unix.go:85-135 | at most one terminal message, none after a lost report; gate and executor at most once; nothing terminal after the gate is given back |
| `Lifecycle.TerminalAfterExit` | cmd/mcp-edge/control_operations_unix.go:85-135 | a terminal message comes after the executor's exit and is a cancellation exactly when one was asked for |
| `Lifecycle.ControlPhase` | cmd/mcp-edge/control_operation_lifecycle_unix.go:110-121 | each kind's own phase, never "stopping" or "finalizing" |
| `EdgeWorkers.AtMostOneStart` | cmd/mcp-edge/control_operations_unix.go:451-497 | for any number of workers, leases, crashes and failures, in runs where the end of a bundle operation is not accepted from a worker that was denied the gate: an operation whose start has not definitely failed and whose end is not acknowledged keeps its receipt, is not started again, and no other is started |
| `EdgeWorkers.AlwaysInvariant` | cmd/mcp-edge/control_operations_unix.go:566-621 | the receipt invariant holds in every reachable state of such a run |
| `EdgeWorkers.StepKeepsInvariant` | cmd/mcp-edge/control_operations_unix.go:451-497 | every step keeps it |
| `EdgeWorkers.GateSafety` | cmd/mcp-edge/control_operation_gate.go:20-51 | in every reachable state a worker that entered for a bundle operation is alone from before its effect until after its acknowledgement, when it leaves; one that entered for an ordinary operation keeps bundle operations out as long; the lock is taken exactly as often as it is held; what is given back is held |
| `EdgeWorkers.GateStep` | cmd/mcp-edge/control_operation_gate.go:20-51 | every step keeps the gate's state equal to what the workers hold |
| `EdgeWorkers.GateGiven` | cmd/mcp-edge/control_operation_gate.go:42-51 | a worker that leaves gives back a lock that is held |
| `EdgeWorkers.AcquireIff` | cmd/mcp-edge/control_operation_gate.go:20-41 | exactly when a waiting worker gets the gate, and what it takes |
| `EdgeWorkers.ReceiptMeans` | cmd/mcp-edge/control_operations_unix.go:459-480 | what each kind of receipt makes of an executor; no receipt is written over another |
| `EdgeWorkers.StartMeans` | cmd/mcp-edge/control_operations_unix.go:481-497 | what each ending of a start keeps of the receipt and the record |
| `EdgeWorkers.DeniedAcknowledgementStartsTwice` | cmd/mcp-edge/control_operation_lifecycle_unix.go:133-144 | a run in which a worker that was denied the gate acknowledges and another operation is started twice |
| `EdgeWorkers.CrashLeavesReceipt` | cmd/mcp-edge/control_operations_unix.go:121-125 | a run in which a crash between acknowledgement and removal leaves the receipt to nobody |
| `EdgeWorkers.LeftBehindBlocks` | cmd/mcp-edge/control_operations_unix.go:459-466 | once the receipt names an operation the server is done with and nobody works on it: it stays for every schedule, no worker ever gets to write a receipt or start an updater again, and no start is added to the record |
| `EdgeWorkers.NothingLeftBehind` | cmd/mcp-edge/control_operations_unix.go:118-125 | in every reachable state of a run without a step that leaves a receipt, each receipt the server is done with has a worker with the gate that is about to clear it, so none is left behind |
| `EdgeWorkers.LeavingStepLeaves` | cmd/mcp-edge/control_operations_unix.go:566-621 | from any state, every step that leaves a receipt, followed by a crash, ends with it left behind for good |
| `EdgeWorkers.IgnoredRemovalLeaves` | cmd/mcp-edge/control_operations_unix.go:616-621 | for any operation and any bystanders: a removal that fails leaves the receipt behind without any crash |
| `EdgeWorkers.OneUnitAtATime` | cmd/mcp-edge/control_operations_unix.go:481-497 | if no end is acknowledged while its unit may be at work, at most one unit is ever at work, over every schedule |
| `EdgeWorkers.HastyEndOverlaps` | cmd/mcp-edge/control_operations_unix.go:118-134 | from any state with one unit at most, an acknowledgement that is not so lets any other operation be started beside it |
| `EdgeWorkers.TimedOutStartIsHasty` | cmd/mcp-edge/control_operations_unix.go:490-492 | a run that reaches such an acknowledgement by a start that timed out |
| `EdgeWorkers.ReceiptMeansStarted` | cmd/mcp-edge/control_operations_unix.go:459-497 | in a run without the steps that leave a receipt without its start, an executor that finds its own receipt always waits for an updater whose start was made and has not definitely failed |
| `EdgeWorkers.UntidyStepIsTaken` | cmd/mcp-edge/control_operations_unix.go:459-497 | and after any such step from a reachable state, a crash and the next lease of its operation make an executor take the receipt for a start, or leave it behind if the server is done with the operation |
| `GitPlans.SingleUse` | cmd/mcp-edge/project_git_sync_unix.go:153-233 | over every interleaving with crashes, at most one merge or push in a plan's name, by an execution whose time is before the expiry and whose action and identity are the plan's, of a plan then marked used, which saw a clean checkout with the plan's branch, head and remote head, and the ancestor relation the action needs |
| `GitPlans.MutationLands` | cmd/mcp-edge/project_git_sync_unix.go:169-226 | over every interleaving, whatever others did to the repositories since the checks: the planned commit is on the planned branch after the command exactly when the repositories it met satisfy `Lands`, and they do if they still are as planned |
| `GitPlans.SuccessReported` | cmd/mcp-edge/project_git_sync_unix.go:169-233 | over every interleaving: success is reported only after the plan's one command succeeded, with the planned commit on both sides of the branch checked out; for a publication that is the planned branch; after a fast-forward that nobody disturbed since, the planned branch holds the commit exactly when it was checked out at the command or held it before |
| `GitPlans.FromCommandOn` | cmd/mcp-edge/project_git_sync_unix.go:169-233 | for any repositories at the command and any way the command and the inspection go: exactly when the execution reports success, and what it leaves |
| `GitPlans.QuietRunSucceeds` | cmd/mcp-edge/project_git_sync_unix.go:153-233 | an execution that nobody disturbs, on repositories as planned, lands if its command works, and reports success exactly when the checkout is clean and the inspection does not fail |
| `GitPlans.SuccessOnOtherBranch` | cmd/mcp-edge/project_git_sync_unix.go:172-175 | a family of repositories on which a fast-forward is reported as a success and the planned branch has not moved |
| `GitPlans.SuccessWithoutLanding` | cmd/mcp-edge/project_git_sync_unix.go:131-178 | a run from the preview on that ends so, with "feature" checked out before the merge of a plan for "main" |
| `GitPlans.LandsIff` | cmd/mcp-edge/project_git_sync_unix.go:169-226 | for every plan and all repositories: where the branch ends, read off the repositories before the command |
| `GitPlans.AlwaysInvariant` | cmd/mcp-edge/project_git_sync_unix.go:153-233 | in every reachable state the exclusive marker has one owner, every recorded command did what its plan stands for, and every reported success was inspected |
| `GitPlans.StepKeepsInvariant` | cmd/mcp-edge/project_git_sync_unix.go:153-233 | every step keeps the invariant |
| `GitPlans.StepsMoveForward` | cmd/mcp-edge/project_git_sync_unix.go:169-220 | only a recorded mutation moves the repositories, and it makes no commit unreachable |
| `GitPlans.AnsweredIsRelated` | cmd/mcp-edge/project_git_sync_windows.go:144-285 | on both platforms the checks pass only with the needed ancestor relation, with or without counts |
| `GitPlans.FastForwardIssued` | cmd/mcp-edge/project_git_sync_unix.go:131-151 | exactly when a fast-forward plan is issued on each platform |
| `GitPlans.PublishIssued` | cmd/mcp-edge/project_git_sync_unix.go:180-200 | exactly when a publication plan is issued on each platform |
| `GitPlans.PlanIssued` | cmd/mcp-edge/project_git_sync_unix.go:131-200 | an issued plan holds the branch and heads seen, the caller's identity and action, is unused and expires after five minutes |
| `GitPlans.IssueCreates` | cmd/mcp-edge/project_git_sync_unix.go:272-308 | a preview creates its plan, never over another one, and changes nothing else |
| `GitPlans.ReadPlanEnds` | cmd/mcp-edge/project_git_sync_unix.go:153-157 | exactly when an execution ends on reading its plan: it is missing, used, expired, of another action or another's |
| `GitPlans.FastForwardAdmitted` | cmd/mcp-edge/project_git_sync_unix.go:158-161 | exactly which observations let an execution go on to merge, on each platform |
| `GitPlans.PublishAdmitted` | cmd/mcp-edge/project_git_sync_unix.go:207-215 | exactly which observations let one go on to push, on each platform |
| `GitPlans.CommandMeans` | cmd/mcp-edge/project_git_sync_unix.go:169-226 | exactly when Git accepts the command, and that it moves one branch on one side |
| `GitPlans.NothingLost` | cmd/mcp-edge/project_git_sync_unix.go:169-220 | neither command makes a commit unreachable on either side |
| `GitPlans.PublishTakesLaterCommit` | cmd/mcp-edge/project_git_sync_unix.go:223-226 | for every publication plan: a commit made in between is published in its name, so the planned one does not land |
| `CommitGraph.NoSurplus` | cmd/mcp-edge/project_git_sync_unix.go:96-111 | one side of the count is zero exactly when its commit is an ancestor of the other |
| `CommitGraph.EvenIsSame` | cmd/mcp-edge/project_git_sync_unix.go:96-111 | both counts are zero exactly when the commits are one |
| `CommitGraph.ReachTransitive` | cmd/mcp-edge/project_git_sync_unix.go:96-111 | reachability is transitive |
| `Autopilot.Store.RecordCycle` | internal/autopilot/state.go:155-231 | exactly when it succeeds; a completing cycle completes the job and a blocked provider blocks it, each with its code; otherwise it is blocked exactly when its last two cycles repeated an action without progress or a checkpoint, its last three failed with one code, or its last two made no progress, with the code of the first of these, and runs on otherwise, after a failure with its backoff; every other field; and every stored counter is the run length in the history since the last start or resume |
| `Autopilot.Advance` | internal/autopilot/state.go:177-213 | the incremental counters equal the counters read off the extended history |
| `Autopilot.AppendCycle` | internal/autopilot/state.go:177-213 | how each run of the history changes with one more cycle |
| `Autopilot.TrailingRunIsLongest` | internal/autopilot/state.go:177-213 | a run length is the number of last cycles that all match |
| `Autopilot.ActionRunIsLongest` | internal/autopilot/state.go:200-213 | the repetition count is the longest run of last cycles with one action, all but the first without progress or a checkpoint |
| `Autopilot.ProgressBound` | internal/autopilot/state.go:155-231 | cycles are at most twice the progress revision plus two per start or resume, and the counters of a running job are bounded |
| `Autopilot.OrdinaryCycleKeepsInvariant` | internal/autopilot/state.go:177-231 | one more cycle keeps the bound, the summary and the schedule invariant |
| `Autopilot.Store.Serve` | internal/autopilot/state.go:67-231 | over any run of requests, the last steps of a driver pass among them with others coming in between, the invariant and the bound hold, and a finished job changes only by a fresh start |
| `Autopilot.Store.RunCycle` | internal/autopilot/cycle.go:71-140 | leaves the job alone unless it is running and its backoff has elapsed; then the first failing guard or an observation that cannot be kept stops it with its code, and otherwise exactly one cycle is counted, the one the answer and the execution give; a repeated observation is never progress; exactly when it fails |
| `Autopilot.Store.RecordExecution` | internal/autopilot/cycle.go:117-140 | the job is stopped if the observation cannot be kept, and otherwise is the job after the cycle the execution achieved, with an observation equal to the previous one counting as no progress; exactly when it succeeds, and which observation is kept |
| `Autopilot.AchievedMeans` | internal/autopilot/cycle.go:117-140 | every field of the cycle an executed action gives |
| `Autopilot.DrivenMeans` | internal/autopilot/cycle.go:100-140 | the cycle each kind of answer gives |
| `Autopilot.HaltMeans` | internal/autopilot/cycle.go:71-96 | which guard stops the job with which code, in the driver's order |
| `Autopilot.Store.Start` | internal/autopilot/state.go:67-91 | a live job is returned unchanged, a finished or missing one replaced by a job fresh in every field; exactly when it succeeds |
| `Autopilot.Store.Transition` | internal/autopilot/state.go:140-153 | finished jobs are left alone; others change state, code, schedule and time alone |
| `Autopilot.Store.Pause` | internal/autopilot/state.go:118 | succeeds exactly for a readable job that is finished or can be written; pauses it with its code and no next cycle, leaves every other field and every finished job as it is |
| `Autopilot.Store.Cancel` | internal/autopilot/state.go:138 | the same for a cancellation |
| `Autopilot.Store.Resume` | internal/autopilot/state.go:119-137 | succeeds exactly for a paused or blocked job; clears the summary of the history, the code and the schedule, stamps the time, and keeps every other field |
| `Autopilot.RetryBackoff` | internal/autopilot/state.go:233-245 | two to the number of failures in seconds, at most 120, and zero without failures |
| `Autopilot.BackoffMonotone` | internal/autopilot/state.go:233-245 | the delay never shrinks with more failures |
| `Autopilot.BackoffDoubles` | internal/autopilot/state.go:233-245 | two seconds after the first failure, doubled up to the sixth, two minutes from the seventh on |
| `Scanner.ScanChunks` | scripts/verify-runtime-remediation.py:36-50 | however the file is cut, each flag says whether its signature occurs anywhere in it |
| `Scanner.CarryIsEnough` | scripts/verify-runtime-remediation.py:40-43 | a carry of k bytes loses no occurrence of a pattern of at most k + 1 bytes |
| `Scanner.ShorterCarryLosesMatches` | scripts/verify-runtime-remediation.py:43 | and it loses one of every longer pattern |
| `Scanner.CarryOfCarry` | scripts/verify-runtime-remediation.py:40-43 | the carried bytes are always the last ones of all that was read |
| `Scanner.InspectArchive` | scripts/verify-runtime-remediation.py:22-55 | clean exactly when the archive is within its budget and no file is the shell; the inventory is exact |
| `Scanner.BudgetMeans` | scripts/verify-runtime-remediation.py:28-47 | the budget with every limit spelled out |

## Left out

- WindowsUpdater: the final `status` call, the signature checks, the archive extraction and the installation are one answer each; an update that commits may still report an error.
- WindowsUpdater: service configuration changes by anybody but the updater.
- Releases.CompareRelease: a release is its fields; the text around them is not parsed.
- BrainStore.Store.WriteAgent: an SQLite commit that takes effect and reports an error is not modelled.
- BrainSources.ScanSources: directory entries that are not regular Markdown files.
- BrainSources.CurrentUpToExpiry: the calendar is a parameter; the date of a later clock reading is taken not to be earlier.
- BrainIndex: the time of the last indexing (`indexed_at`), which upserts and rebuilds write, ranking, full-text search and `safeConsoleMetadata`, which is a function parameter.
- BrainGit: repository initialisation and the ignore file's first commit.
- Notes: the YAML codec, assumed to invert itself on valid metadata and to emit no bare `---` line and no CRLF.
- Excerpt.MakeExcerpt: lower-casing is a parameter; the body may be any bytes, trimmed or not.
- EdgeWorkers: the kind stored in a receipt, taken as determined by the operation, and the contents of `waitBundleUnitCompletion`, which starts nothing.
- EdgeWorkers.AtMostOneStart: after the acknowledgement a worker with a lapsed lease may start the same operation again; the promise ends there.
- EdgeWorkers: a start that fails for another reason than its context is taken to have ended its unit; operations of one kind share a unit, so a start beside one at work may join it.
- EdgeWorkers: the Windows workers, which have the same gate and no receipt.
- Lifecycle: report timeouts and the autopilot report after a completion.
- GitPlans: the branches, remotes and upstreams an inspection rejects outright, and fetching.
- GitPlans: deletion of plan files or markers by somebody else.
- GitPlans.SuccessReported: the inspection reads the checkout at one moment and the remote at another; the commands it is made of are not separate steps.
- Autopilot: 64-bit overflow of the counters, and lost updates between processes that share the file without a lock.
- Scanner: the tar format and the normalisation of member names.
- HTTP handlers, the console, command lines, environment configuration, result mapping and log redaction: plumbing or finite tables.
