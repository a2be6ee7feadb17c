# Verified models of DealDesk's stateful cores

DealDesk runs agents in git worktrees and remote sandboxes. The parts of it that move state between
those places are modelled here in Dafny, each in the form its source has (loops and classes where the
source updates things in place, state machines where parties interleave, functions elsewhere), and
what they are for is proved.

| files | what they model |
|---|---|
| `Paths`, `WorkspaceTree`, `WorkspaceMerge`, `MergeTheorems` | snapshots of a directory tree and the three-way merge that brings a remote run's tree back into a local one |
| `Bridge`, `BridgeInvariants`, `BridgeHistory`, `BridgeRuns`, `BridgeAnswers` | the sandbox callback bridge: clients, the host worker, its failure path and `stop`, interleaved over request and response files |
| `BridgeFaults` | what the loop does when I/O fails |
| `BridgeLocks`, `BridgeStops`, `BridgeThreats` | when `stop` is sure to have every request answered |
| `HistoryTypes`, `ImportOrder`, `FreeNumbers`, `Revisions`, `HistoryPlan`, `HistoryApply` | planning and applying the import of one worktree's issue history into another database |
| `HistoryOutcome`, `HistoryClosure`, `HistoryRevisions`, `HistoryDocuments`, `HistoryTheorems`, `HistoryReimport`, `HistoryConservation`, `HistoryAssets` | what follows for planner and applier together |
| `CommitSearch`, `StatsPool`, `CommitMetrics` | the commit search by recursive halving with its cache, the pool of stats fetchers, and the run that puts them together |
| `TailBuffer` | the bounded buffer for a process's output |
| `Shell`, `Base64`, `SandboxFiles` | shell quoting, and file transfer through quoted scripts and base64 |
| `WorktreeConfig`, `EnvFile`, `EnvLines`, `WorktreeEnv`, `WorktreeRepair` | port allocation, repair of a worktree's config and env file, and what repeating it at every start leads to |
| `Optional`, `Sets` | shared helpers |

## What is proved

**Merge.** `IsMerge` says for every path which entry a completed merge leaves there, from baseline, source
and target alone; the three deletion and copy loops of `MergeWithBaseline` are proved to produce exactly
that, and to complete exactly when no unchanged source directory is a file or symlink in the target above
a changed source path. The merge is idempotent, leaves the target alone for an unchanged source, and gives
an untouched target the source's content exactly when no deleted directory still holds excluded content.
Excluded is what the list names and what lies beneath, and nothing else (`ExcludedIff`).

**Bridge.** For every interleaving, whatever fails: the first answer wins, the handler runs only after
authorisation and at most once per request (and once more for each removal of the request file that fails
silently, a bound that is met), a late result is suppressed, and what a client receives has its cause in the
run: a text and its status are what the handler returned for the request it filed (`ClientsAnswer`). As long as I/O succeeds, no request is lost and `stop` drains the queue. That every request is
*answered* when `stop` returns is not true in general. In `StopMayReturnFirst` nothing throws and no I/O
fails: a stop whose drain time has run out removes a request that the loop is about to read, the loop
therefore ends in its own abort, and that abort has removed the next request and not yet written its 503
when `stop` returns. `StopAnswersExactly` is the exact condition on the state in which a stop starts its
abort: no unanswered request is held, or still to be read, by another abort, and none is filed that the
running loop does not have in hand (it may end before it gets there, for an authoriser may throw).
A loop that has settled is a special case (`StopAnswersAll`); `StopAnswersIff` is exact at the moment of
return.

**History import.** Preview numbers are the applied ones; every row is written after the rows it refers
to, at every prefix of the transaction; the latest revision of every document exists and carries the
number shown on the document; target rows survive; what arrives is the source's row, its references cleared
exactly if their row is missing, and back to todo exactly if it was in progress and nobody holds it any more;
and importing the same source twice leaves the database as importing it once. A document's revisions are
numbered once by a unique index; from that it follows that no import lowers a revision's number. No insert
of an asset meets an id or object key that is taken exactly if the inserted ones differ from each other and
from the target's (`AssetsNewIff`), which the tables' indexes give (`PlannedAssetsNew`).

**Search.** Only the first page's `incomplete_results` is checked, and a cached window is taken over as it
is, so a completed search may miss commits. With distinct shas it returns exactly those dated in its window
if and only if nothing it looks at lacks anything (`NothingLost`, which follows the halves the search takes):
every cached window that it takes over holds all its commits, and no later page of an unsplit window loses
one. It completes exactly if every window it reaches is cached or can be read or split (`Splittable`). Both
hold with the cache and, refreshing, without; what is found is never foreign. `LaterPageLoses` shows a commit
lost on a second page. A total counts a sha found in two repositories twice unless the window was split
(`TotalCountsShasIff`). `CollectMetrics` follows the found shas through pool, owner filter and export rows.

**Config repair.** The repair is one step over config, env file and process environment, and starts are
repeated. The next start is the same instance and writes neither file exactly if this one left the env file
alone or its six wanted values are settled: no quote, backslash, control character or line separator and
nothing to trim (`NextStartSettlesIff`); from the first start that leaves the env file alone, no later one
writes anything (`QuietForGood`). `JSON.stringify` escapes are not undone when the file is read, and `.` in
the parser's regular expression does not match U+2028 or U+2029. A config that was written is written again
exactly if the root that is read back does not hold the old one or a port is taken there
(`ConfigMovesIff`). So a home directory that comes back as another one has the config moved
(`OtherHomeMovesConfig`), as `/a\b` does on POSIX, which comes back with its backslash doubled
(`BackslashMovesConfig`). If the config path itself does not come back, every later start rewrites the env file
(`EnvRewrittenAtEveryStart`). Two instances have ports apart once the later starter sees the other
(`LaterStarterIsApart`); instances outside the two directories that are searched see nothing and keep the
ports they have (`UnseenStayAsTheyAre`). A database port may meet a sibling's *server* port, exactly if that
is the first port no database claims (`DatabasePortMeetsSiblingServerIff`; an instance:
`DatabasePortMeetsSiblingServer`).

## Model

| member | source | states |
|---|---|---|
| Paths.ExclusionIsByComponent | packages/adapter-utils/src/workspace-restore-merge.ts:16-22 | the string test of an exclusion entry holds exactly for the entry's path and what lies beneath it, component by component |
| Paths.ExcludedIff | packages/adapter-utils/src/workspace-restore-merge.ts:16-22 | whatever strings the list holds, it excludes exactly the paths that it names and what lies beneath them |
| Paths.ExcludedBelow | packages/adapter-utils/src/workspace-restore-merge.ts:20-22 | everything beneath an excluded path is excluded, so a pruned walk misses nothing it should report |
| WorkspaceMerge.Directory.WalkDirectory | packages/adapter-utils/src/workspace-restore-merge.ts:34-72 | the pruned recursive walk adds exactly the entries beneath its directory that the exclusions neither name nor have above them, as they are, to what was collected before |
| WorkspaceMerge.Directory.CaptureSnapshot | packages/adapter-utils/src/workspace-restore-merge.ts:203-212 | a snapshot holds exactly the entries of the tree that the exclusions neither name nor have above them, and is itself tree-shaped |
| WorkspaceMerge.Directory.CopySnapshotEntry | packages/adapter-utils/src/workspace-restore-merge.ts:174-201 | copying an entry succeeds exactly if nothing but directories lies above it; then it makes those directories, puts the entry, removes what lay beneath a new leaf, changes nothing else; on failure nothing changes; the tree stays a tree |
| WorkspaceMerge.Directory.DeleteLeaves | packages/adapter-utils/src/workspace-restore-merge.ts:224-231 | of the baseline's files and symlinks that the source deleted, exactly those are gone that the target still had as in the baseline |
| WorkspaceMerge.Directory.DeleteDirs | packages/adapter-utils/src/workspace-restore-merge.ts:233-239 | deepest first, exactly those directories the source deleted are gone beneath which nothing survives |
| WorkspaceMerge.Directory.CopyChanges | packages/adapter-utils/src/workspace-restore-merge.ts:241-247 | ancestors first, the copies complete exactly if nothing obstructs them, and then the whole merge is as characterised |
| WorkspaceMerge.Directory.MergeWithBaseline | packages/adapter-utils/src/workspace-restore-merge.ts:214-249 | for every baseline, source and target: success exactly if not obstructed; every path ends as the characterisation says; the result is tree-shaped; what the exclusions name, and what lies beneath, is untouched unless beneath a new source leaf, even when the merge stops half way |
| MergeTheorems.MergedTreeShaped | packages/adapter-utils/src/workspace-restore-merge.ts:220-247 | the characterised result is prefix-closed |
| MergeTheorems.UnchangedSource | packages/adapter-utils/src/workspace-restore-merge.ts:220-247 | a source equal to the baseline leaves the target as it is and cannot fail |
| MergeTheorems.UntouchedTarget | packages/adapter-utils/src/workspace-restore-merge.ts:220-247 | a target equal to the baseline ends as the source off the exclusions, exactly when no deleted directory still holds excluded content |
| MergeTheorems.MergeTwice | packages/adapter-utils/src/workspace-restore-merge.ts:220-247 | running the same merge again cannot fail and changes nothing |
| MergeTheorems.DeletedDirGoneIffEmpty | packages/adapter-utils/src/workspace-restore-merge.ts:233-239 | a directory the source deleted is gone from the result exactly when the result has nothing beneath it |
| MergeTheorems.TargetEditKept | packages/adapter-utils/src/workspace-restore-merge.ts:224-247 | where the source stayed with the baseline the target's version is kept; a deleted directory comes back only above a changed path |
| MergeTheorems.SourceEditTaken | packages/adapter-utils/src/workspace-restore-merge.ts:224-247 | where the target stayed with the baseline a file takes the source's version, absence included |
| MergeTheorems.SequentialRestores | packages/adapter-utils/src/workspace-restore-merge.test.ts:19-60 | of two restores from one stale baseline, what the first changed and the second left alone survives the second |
| BridgeRuns.Reached | packages/adapter-utils/src/sandbox-callback-bridge.ts:511-771 | the invariants on names, locks, first answers, losses and handler calls hold after every run |
| BridgeRuns.NoRequestLost | packages/adapter-utils/src/sandbox-callback-bridge.ts:620-711 | with I/O succeeding, a client's request file is gone only if a response was written or an aborter that read it is about to write its 503 |
| BridgeRuns.FirstAnswerWins | packages/adapter-utils/src/sandbox-callback-bridge.ts:511-585 | whatever fails, the response a client reads is the first ever written for its id, and carries that id |
| BridgeRuns.HandlerCalls | packages/adapter-utils/src/sandbox-callback-bridge.ts:620-753 | whatever fails, the handler is called for an id at most once and once more per removal of its request file that failed silently, and only for requests the authoriser accepted |
| BridgeRuns.EveryLossMayCallAgain | packages/adapter-utils/src/sandbox-callback-bridge.ts:445-446 | for every number of silent losses there is a run with that many and one call more: the bound is met |
| BridgeRuns.HandlerAtMostOnce | packages/adapter-utils/src/sandbox-callback-bridge.ts:653-680 | whatever else fails, at most once per id with a queue client that reports failing removals |
| BridgeRuns.StopDrains | packages/adapter-utils/src/sandbox-callback-bridge.ts:684-770 | with I/O succeeding, when a stop that listed after the server stopped returns, no request file is left, and each client's request is answered unless another aborter is about to answer it; a handler may still be running |
| BridgeRuns.StopAnswersIff | packages/adapter-utils/src/sandbox-callback-bridge.ts:684-770 | when such a stop returns, all clients are answered exactly if whatever another aborter still holds has been answered |
| BridgeThreats.StopAnswersExactly | packages/adapter-utils/src/sandbox-callback-bridge.ts:684-770 | a stop starts its abort with the server down: every run of the others in which it returns without I/O failing and without another stop starting one leaves all clients answered, exactly if no unanswered request is held or still to be read by another abort, or filed without the running loop having it in hand |
| BridgeThreats.StopAnswersAll | packages/adapter-utils/src/sandbox-callback-bridge.ts:758-770 | in particular if the loop has settled and no other abort is under way |
| BridgeRuns.StopMayReturnFirst | packages/adapter-utils/src/sandbox-callback-bridge.ts:737-770 | a run without any I/O failure or throwing authoriser in which `stop` returns while a removed request has no response yet |
| BridgeRuns.LateResultSuppressed | packages/adapter-utils/src/sandbox-callback-bridge.ts:511-541 | once a request is removed, a worker result not yet checked against it is never written, in any continuation |
| BridgeAnswers.AnswersFit | packages/adapter-utils/src/sandbox-callback-bridge.ts:620-753 | whatever fails, every response written has its cause in the run: a text and its status are what the handler returned for that request, within the size limit; 502 tells of a handler that threw that message, returned too much, or whose result could not be written; 403 has the reason of the denial; 400 goes to a file no client wrote; the loop's abort says 503 after the loop failed, a stop's after `stop` was called |
| BridgeFaults.LoopGoesOnSettled | packages/adapter-utils/src/sandbox-callback-bridge.ts:616-682 | whatever fails, the loop goes on to the next request only when a client's request is answered or its file is gone |
| BridgeFaults.FailedWrites | packages/adapter-utils/src/sandbox-callback-bridge.ts:653-680 | a failed write of a result is followed by a 502, a failed write of that by a removal that passes the failure on, a failed refusal ends the loop at once |
| BridgeFaults.RethrowEnds | packages/adapter-utils/src/sandbox-callback-bridge.ts:678-740 | a removal that passes a failure on ends the loop in its own abort |
| BridgeFaults.DeadlineEnds | packages/adapter-utils/src/sandbox-callback-bridge.ts:724-735 | between two requests the deadline ends the loop exactly if `stop` was called |
| BridgeFaults.EmptyListing | packages/adapter-utils/src/sandbox-callback-bridge.ts:716-723 | an empty listing ends the loop exactly if `stop` was called |
| BridgeAnswers.ClientsAnswer | packages/adapter-utils/src/sandbox-callback-bridge.ts:620-753 | end to end, whatever fails: what a client reads is such a response to the very request it filed, and never a 400 |
| ImportOrder.DepthsExistIffAcyclic | cli/src/commands/worktree-merge-history-lib.ts:283-309 | issues have depths exactly when their parent links have no cycle |
| ImportOrder.DepthMemo.DepthFor | cli/src/commands/worktree-merge-history-lib.ts:287-309 | terminates on every parent graph, cycles included; if true depths exist it returns them and the memo never leaves them, whatever was asked before |
| ImportOrder.DepthMemo.Sort | cli/src/commands/worktree-merge-history-lib.ts:311-317 | a permutation, ordered by true depth, then creation, then id, although comparing changes the memo |
| ImportOrder.SortIssuesForImport | cli/src/commands/worktree-merge-history-lib.ts:283-317 | the same, from an empty memo: lower depths first, then earlier issues, then smaller ids |
| ImportOrder.ParentsPrecede | cli/src/commands/worktree-merge-history-lib.ts:283-317 | in import order every parent that is imported too precedes its children |
| Revisions.NumbersDistinct | cli/src/commands/worktree-merge-history-lib.ts:609-625 | renumbering gives pairwise distinct numbers, none in use before |
| Revisions.KeptIffFree | cli/src/commands/worktree-merge-history-lib.ts:609-625 | a revision keeps its number exactly if neither the target nor an earlier revision has it, and else gets one above all the target's |
| Revisions.NeverLower | cli/src/commands/worktree-merge-history-lib.ts:609-625 | with distinct source numbers none ends below its source number |
| Revisions.OrderKept | cli/src/commands/worktree-merge-history-lib.ts:603-625 | if the target uses exactly 1..m, increasing source numbers stay increasing |
| HistoryPlan.PlanProjects | cli/src/commands/worktree-merge-history-lib.ts:390-418 | exactly the requested projects that the source has and the target lacks are imported, references to missing agents and goals cleared, with their workspaces |
| HistoryPlan.PlanIssues | cli/src/commands/worktree-merge-history-lib.ts:419-515 | for each issue in import order: skipped exactly if present; else the source's row with each reference kept exactly if its row will be there, a project kept, mapped, imported or cleared in that order, and set back to todo exactly if in progress without agent and user; numbers count up |
| HistoryPlan.RenumberLoop | cli/src/commands/worktree-merge-history-lib.ts:598-639 | the loop with its set of used numbers and running next number computes the renumbering of the revisions the target lacks |
| HistoryPlan.PlanDocuments | cli/src/commands/worktree-merge-history-lib.ts:571-691 | each document in order: missing parent, conflicting key, already matching, or put with its latest revision and renumbered revisions |
| HistoryPlan.BuildPlan | cli/src/commands/worktree-merge-history-lib.ts:340-725 | the whole plan is made of the parts above, over one import order |
| HistoryPlan.PrimaryComesFirst | cli/src/commands/worktree-merge-history-lib.ts:405-411 | an imported project's primary workspaces come first, older ones before newer ones |
| HistoryPlan.PlannedByCreation | cli/src/commands/worktree-merge-history-lib.ts:255-281 | comments, documents and attachments are planned in the order of their creation |
| HistoryRevisions.PlannedNumbersDistinct | cli/src/commands/worktree-merge-history-lib.ts:598-639 | a document's planned numbers are distinct and none is the target's, for every source and target |
| HistoryRevisions.PlannedNumbersNeverLower | cli/src/commands/worktree-merge-history-lib.ts:598-639 | by the source's unique index on document and number, no planned number is below its source number |
| HistoryRevisions.PlannedNumbersKeepOrder | cli/src/commands/worktree-merge-history-lib.ts:598-639 | if the target's numbers are exactly 1..m the planned numbers keep the source's order |
| HistoryApply.Target.ApplyProjects | cli/src/commands/worktree.ts:2570-2639 | writes the projects and workspaces not there yet, every reference in place when its row is written |
| HistoryApply.Target.ApplyIssues | cli/src/commands/worktree.ts:2641-2708 | raises the counter by the number of inserts and gives them the numbers in between, in order |
| HistoryApply.Target.ApplyDocuments | cli/src/commands/worktree.ts:2746-2871 | puts each planned document whose issue exists and whose slot is free, then its revisions |
| HistoryApply.Target.ApplyAttachments | cli/src/commands/worktree.ts:2873-2936 | writes asset and attachment for each insert whose stored object is found |
| HistoryApply.Target.Apply | cli/src/commands/worktree.ts:2560-2951 | the transaction's outcome as a function of the database before and the plan; a legal sequence of writes |
| HistoryOutcome.DocumentsOutcome | cli/src/commands/worktree.ts:2746-2871 | plans that keep apart are all carried out in full and nothing else changes, whatever their order |
| HistoryOutcome.SlotsStayUnique | cli/src/commands/worktree.ts:2761-2771 | whatever the plans, stale ones included, no issue gets two documents under one key |
| HistoryOutcome.OwnRevisionsStay | cli/src/commands/worktree.ts:2848-2857 | whatever a document's plan says, revisions that the document has stay as they are |
| HistoryClosure.ParentInFront | cli/src/commands/worktree-merge-history-lib.ts:419-430 | an issue's parent is in the target or among the inserts before it |
| HistoryClosure.ClosedAtEveryPrefix | cli/src/commands/worktree.ts:2569-2936 | from a closed database, legal writes leave no dangling reference after any number of them |
| HistoryClosure.PlanIsReady | cli/src/commands/worktree-merge-history-lib.ts:390-725 | a plan made from a closed target and an acyclic source can be applied with every reference in place |
| HistoryClosure.ImportHistory | cli/src/commands/worktree.ts:2560-2951 | plan, then apply: the outcome, reached by writes each of which finds the rows it refers to |
| HistoryDocuments.PlansFit | cli/src/commands/worktree-merge-history-lib.ts:571-691 | with unique rows the planner's document plans never collide in id, slot or revisions, with each other or with the target |
| HistoryTheorems.PreviewEqualsApply | cli/src/commands/worktree.ts:2641-2708 | applied issue numbers are the previewed ones, consecutive from the counter; the counter grows by their count; existing issues keep their rows; every source issue is there |
| HistoryTheorems.NumbersStayUnique | cli/src/commands/worktree.ts:2656-2708 | if the counter bounds every number it does so afterwards, and numbers are unique afterwards exactly if they were before |
| HistoryReimport.LatestStaysConsistent | cli/src/commands/worktree-merge-history-lib.ts:641-660 | afterwards every document's latest revision exists, is its own, and carries the number on the document |
| HistoryReimport.RevisionNumbersStayUnique | cli/src/commands/worktree-merge-history-lib.ts:598-639 | a document's revision numbers are unique afterwards exactly if they were before |
| HistoryReimport.ReimportPlansNothing | cli/src/commands/worktree-merge-history-lib.ts:418-725 | planning again after applying finds no project, issue, comment, document or revision to write, and only attachments whose object is missing |
| HistoryReimport.ImportIsIdempotent | cli/src/commands/worktree.ts:2560-2951 | importing the same source a second time changes nothing, whichever objects are found |
| HistoryReimport.ImportTwice | cli/src/commands/worktree.ts:2560-2951 | the command run twice: the second plan writes nothing and the database is as after the first |
| HistoryConservation.TargetRowsKept | cli/src/commands/worktree.ts:2569-2936 | every row of the target survives as it was; a merged document keeps its slot, creator and creation times |
| HistoryConservation.DocumentArrives | cli/src/commands/worktree.ts:2746-2871 | an importable source document ends with the source's text, times, editor and latest revision, and has all its source revisions; one the target did not have also with the source's creator and creation times |
| HistoryConservation.DocumentThereIff | cli/src/commands/worktree-merge-history-lib.ts:571-588 | a source document is there afterwards exactly if the target had it, or its issue is there and no document of the target is in its slot |
| HistoryConservation.NumberShown | cli/src/commands/worktree-merge-history-lib.ts:641-647 | the number on an imported document is that of its latest revision, or the source's if that revision is missing |
| HistoryConservation.ProjectsArrive | cli/src/commands/worktree-merge-history-lib.ts:390-418 | exactly the requested projects of the source arrive, as they are but for a lead or goal that is missing, each with all its workspaces as they are |
| HistoryConservation.CommentsArrive | cli/src/commands/worktree-merge-history-lib.ts:522-556 | planned and applied, a comment is added exactly if comments are in scope, the source has it and its issue is there; with its author if that agent exists |
| HistoryConservation.RevisionContentArrives | cli/src/commands/worktree.ts:2848-2871 | a source revision the target lacks arrives with its text and time, under its document; only its number may change |
| HistoryConservation.AttachmentArrives | cli/src/commands/worktree-merge-history-lib.ts:692-725 | planned and applied, an attachment arrives exactly if its issue is there and its object is found, with its comment and creator as far as those are there |
| HistoryAssets.AssetsNewIff | cli/src/commands/worktree.ts:2873-2936 | no insert of an asset meets an id or object key that is taken exactly if the inserted ones differ from each other and from the target's in both |
| HistoryAssets.PlannedAssetsNew | cli/src/commands/worktree.ts:2873-2936 | by the unique indexes on assets and attachments, and if an asset on both sides came with its attachment, no planned asset meets one |
| HistoryAssets.AssetArrives | cli/src/commands/worktree.ts:2911-2924 | an attachment that arrives brings its asset with its object key, and its creator if that agent is there |
| HistoryConservation.ClearedOnlyIfMissing | cli/src/commands/worktree-merge-history-lib.ts:430-515 | an imported issue loses a reference exactly if its row is missing after the import, a project in the target is kept and only another one mapped, the status changes exactly if in progress without agent and user, and nothing else changes but the number |
| CommitSearch.HalvesPartition | scripts/dealdesk-commit-metrics.ts:411-421 | the halves share nothing, leave nothing out, and differ in length by at most a millisecond |
| CommitSearch.Cache.IngestSearchItems | scripts/dealdesk-commit-metrics.ts:515-530 | each item's sha is collected and gets its commit; nothing else changes |
| CommitSearch.Cache.ReadPages | scripts/dealdesk-commit-metrics.ts:433-441 | the pages of an unsplit window, none beyond 9, give exactly the shas those pages show, all of them dated in the window |
| CommitSearch.Cache.SearchWindow | scripts/dealdesk-commit-metrics.ts:390-451 | without refreshing a cached window is given back and nothing asked or changed; else, over the cache or when refreshing over none: completes exactly if every window it reaches is cached or can be read or split; gives only shas dated in the window, all of them if nothing it looks at lacks anything, and with distinct shas only then; stores no window outside its own, keeps the cache sound, totals included, and an exact cache exact then; every cached sha has its commit |
| CommitSearch.LaterPageLoses | scripts/dealdesk-commit-metrics.ts:406-441 | a later page flagged incomplete loses a commit, its sha distinct, without an error |
| CommitSearch.TotalCountsShasIff | scripts/dealdesk-commit-metrics.ts:421-450 | the total of a window found in full is the number of its shas exactly if the window was split or no sha is found twice |
| CommitMetrics.CollectMetrics | scripts/dealdesk-commit-metrics.ts:152-176 | search, pool, owner filter and export together: exported are the found shas but for excluded owners; whatever the pool's interleaving each has a row of its own, with its stats unless they are skipped or the limit cut the list; and what is found is all that is dated in the window exactly if the search lost nothing |
| StatsPool.NeverFetchedTwice | scripts/dealdesk-commit-metrics.ts:593-626 | in every interleaving no two workers fetch the same index and none is fetched again |
| StatsPool.PoolFetchesAll | scripts/dealdesk-commit-metrics.ts:598-626 | when all workers have returned exactly the pending commits that are cached were fetched, each once, and hold what was fetched for them; `fetched` is the pending count exactly if every pending sha is cached; other stats are untouched |
| StatsPool.EachIndexClaimedOnce | scripts/dealdesk-commit-metrics.ts:601-618 | when all workers have returned, each pending index was claimed exactly once, by one worker |
| StatsPool.EveryShaHasStats | scripts/dealdesk-commit-metrics.ts:593-626 | unless the limit cut the list, every sha then has stats |
| TailBuffer.TailOfTail | scripts/dev-runner-output.ts:31-46 | trimming after each append keeps what trimming once at the end would |
| TailBuffer.CapturedOutputBuffer.Append | scripts/dev-runner-output.ts:22-47 | after any appends the chunks are the last min(total, limit) bytes, the counters their lengths, `truncated` set exactly if the total exceeds the limit |
| TailBuffer.CapturedOutputBuffer.Trim | scripts/dev-runner-output.ts:31-46 | the trimming loop restores that invariant |
| TailBuffer.CapturedOutputBuffer.Finish | scripts/dev-runner-output.ts:49-64 | the result holds those bytes, and names limit and total exactly if something was cut |
| Shell.QuoteReadsBack | packages/adapter-utils/src/command-managed-runtime.ts:35-37 | in any unquoted position a quoted value reads back as itself, whatever characters it holds |
| Shell.ScriptMeans | packages/adapter-utils/src/command-managed-runtime.ts:79-95 | a script of words, operators and quoted values has exactly those tokens |
| Shell.NestedScriptMeans | packages/adapter-utils/src/sandbox-managed-runtime.ts:269-277 | a quoted script handed to `sh -c` reaches the inner shell unchanged and means there what it meant |
| Base64.RoundTrip | packages/adapter-utils/src/command-managed-runtime.ts:81-100 | decoding undoes encoding for all bytes |
| Base64.Alphabet | packages/adapter-utils/src/command-managed-runtime.ts:81-100 | the digits are those of RFC 4648, table 1 |
| Base64.QuadIsNumber | packages/adapter-utils/src/command-managed-runtime.ts:81-100 | four digits are the number that three bytes make, highest first |
| Base64.PaddingIs | packages/adapter-utils/src/command-managed-runtime.ts:81-100 | four characters for every three bytes begun, two pad characters for one byte left over, one for two |
| Base64.StripWrapped | packages/adapter-utils/src/command-managed-runtime.ts:97-100 | stripping white space undoes the line breaks of `base64`, at any width |
| SandboxFiles.ScriptRuns | packages/adapter-utils/src/command-managed-runtime.ts:66-95 | the sandbox runs exactly the and-list of commands and redirections the client wrote |
| SandboxFiles.Client.AppendChunks | packages/adapter-utils/src/command-managed-runtime.ts:89-92 | the 32 KiB chunks append up to the whole body |
| SandboxFiles.Client.WriteFile | packages/adapter-utils/src/command-managed-runtime.ts:81-96 | for every path and content the file holds the bytes, the temporary file is gone, all else is unchanged |
| SandboxFiles.Client.ReadFile | packages/adapter-utils/src/command-managed-runtime.ts:97-100 | gives back exactly the bytes of the file, or fails if there is none |
| EnvLines.LineMeans | server/src/worktree-config.ts:46-69 | a well-written line sets its key to the text of its value: quotes of either kind taken off, a comment behind a bare value left out, whatever white space and `export` stand around |
| EnvLines.ParsedForm | server/src/worktree-config.ts:50-53 | only a line with an identifier and an equals sign, behind white space and perhaps `export`, sets an entry |
| EnvLines.CommentLineMeans | server/src/worktree-config.ts:47-48 | blank lines and lines that start with a hash set nothing |
| EnvLines.LoneQuoteMeans | server/src/worktree-config.ts:60-65 | a quote that stands alone is an empty value |
| EnvLines.BreakSplits | server/src/worktree-config.ts:46 | a line feed ends a line and takes a carriage return in front with it |
| EnvFile.OrderedEntriesAre | server/src/worktree-config.ts:43-72 | a parsed file has each key once, an identifier, with the value of the last line that sets it; nothing else sets an entry |
| EnvFile.PutKeepsPlaces | server/src/worktree-config.ts:425-433 | setting a key that is there keeps the order of the keys, a new one comes last |
| EnvLines.JsonReadsBack | server/src/worktree-config.ts:79-86 | `JSON.stringify` escapes so that a JSON reader gets the value back |
| EnvFile.FormattedLineParses | server/src/worktree-config.ts:50-86 | a formatted line parses to its key and escaped value, or is skipped if the value holds a line or paragraph separator |
| EnvFile.FormatThenParse | server/src/worktree-config.ts:43-86 | reading a formatted file back escapes each value once and loses those entries |
| EnvFile.RoundTripIffPlain | server/src/worktree-config.ts:43-86 | parsing undoes formatting exactly when no value holds a quote, backslash, control character or separator and no key is `__proto__` |
| WorktreeConfig.FindNextUnclaimedPort | server/src/worktree-config.ts:218-224 | the first port from the preferred one, and from 1, that is not claimed |
| WorktreeConfig.RepairConfig | server/src/worktree-config.ts:385-422 | a config is written exactly if a directory is outside the root or a port is a sibling's; each directory is then its own one in the root, ports collide with no sibling, are the first free ones from the configured or past the default, and the database port differs from the server port; a free port, and everything else, stays; a local base URL gets the server port |
| WorktreeConfig.RepairSettles | server/src/worktree-config.ts:385-422 | for the same directories and unchanged siblings a second repair writes nothing |
| WorktreeConfig.StartWritesIff | server/src/worktree-config.ts:165-216 | a start writes the config exactly if it is not in its root or shares a port with another instance that it sees |
| WorktreeConfig.LaterStarterIsApart | server/src/worktree-config.ts:165-216 | after any sequence of start-ups, two instances of which the later starter sees the other's config have different server ports and different database ports |
| WorktreeConfig.RanHasOwnPorts | server/src/worktree-config.ts:388-418 | after any sequence of start-ups an instance that has run shares neither port with an instance that it sees and that sees it |
| WorktreeConfig.UnseenStayAsTheyAre | server/src/worktree-config.ts:165-216 | instances that see nothing keep their ports, shared ones included, as long as their directories are their own |
| WorktreeConfig.DatabasePortMeetsSiblingServerIff | server/src/worktree-config.ts:400-408 | a repaired database port is a sibling's server port exactly if such a port is the first from the preferred one on that no database claims and that was not chosen as the server port |
| WorktreeConfig.DatabasePortMeetsSiblingServer | server/src/worktree-config.ts:400-408 | a configuration for which it is |
| WorktreeEnv.EnvRepairSettlesIff | server/src/worktree-config.ts:424-444 | after an env repair the next start resolves the same instance and leaves the file alone exactly when the wanted values are plain and trimmed |
| WorktreeEnv.BackslashUnsettles | server/src/worktree-config.ts:424-442 | a worktree name with a backslash anywhere does not settle |
| WorktreeEnv.ContextIsFrom | server/src/worktree-config.ts:109-149 | name, instance and home come from the env file, else from the process environment, else from the worktree's place, the name and the home of all worktrees |
| WorktreeRepair.Worktree.MaybeRepairFiles | server/src/worktree-config.ts:370-445 | config, env file and process environment after a start as a function of those before; outside a worktree nothing changes |
| WorktreeRepair.EnvironmentAfter | server/src/worktree-config.ts:379-383 | from the exported variables alone the same context is resolved exactly if its names and paths resolve to themselves; the context path is the home's; every other variable is as it was |
| WorktreeRepair.NextStartSettlesIff | server/src/worktree-config.ts:370-445 | with the same config path and unchanged siblings, the next start is the same instance and writes neither file exactly if this one left the env file alone or its values are settled |
| WorktreeRepair.NextStartWritesNothingIff | server/src/worktree-config.ts:370-445 | it writes neither file exactly if this one left the env file alone, or the escaped values are what it wants and the config needs nothing at the root they lead to |
| WorktreeRepair.ConfigMovesIff | server/src/worktree-config.ts:288-312 | a config that a start wrote is written again by the next exactly if the root read back does not hold the old one or a port is taken there; it then lies in that root and a free port is kept |
| WorktreeRepair.OtherHomeMovesConfig | server/src/worktree-config.ts:109-149 | where each home directory has its own instances, a home directory that comes back as another one has a written config written again at the next start |
| WorktreeRepair.BackslashMovesConfig | server/src/worktree-config.ts:370-445 | so it is for the home directory `/a\b` on POSIX |
| WorktreeRepair.QuietForGood | server/src/worktree-config.ts:370-445 | once a start leaves the env file alone, no later start writes either file or resolves another instance, however many there are |
| WorktreeRepair.EnvRewrittenAtEveryStart | server/src/worktree-config.ts:424-444 | if `DEALDESK_CONFIG` is set outside the env file, or the path is found from the working directory, so that every start uses the same config path, and that path does not come back as it was, then a repair of the env file is followed by another at every start |

## Left out

- Lock directories: their crash recovery treats a missing owner record as stale; critical sections are assumed exclusive, and nothing is claimed about the lock code.
- Files: a sha256 digest stands for content; symlinks are leaves and never followed; modes of directories, a missing target root, races with outside processes and failing I/O inside the merge are not modelled; `beforeApply` is an earlier change of the target.
- Sorting: `localeCompare` is any total preorder that puts a path before what lies beneath it (merge), or the order of numbers that stand for ids (history); `Array.prototype.sort` is an insertion sort.
- Bridge: time-outs are steps that may happen at any time; the queue depth limit, request and response headers, route patterns (an arbitrary authoriser instead) and liveness are left out; body sizes are counted in characters; request JSON that parses to something other than a request object is not modelled; a client's removal of its response succeeds.
- BridgeThreats.StopAnswersExactly: the authoriser may throw, as any supplied one can; stops that start an abort meanwhile are not followed (`StopAnswersIff` covers them at the moment of return).
- BridgeRuns.HandlerAtMostOnce: the file-system queue client swallows a failing removal, and the loop then lists the file again; `HandlerCalls` covers it.
- History: one company; ids are numbers; columns that are only copied are one field; adjustment counts, drift keys and the printed report are left out; a key violation in SQL (duplicate ids under different parents) is excluded by the hypotheses `UniqueRows` (the tables' unique keys and indexes) and `SharedRowsAgree`; documents that have no link to an issue are not modelled; requested project ids are a set listed once each.
- Search: the service answers from a fixed corpus and drops only what it flags; query text, date formatting, tokens, retries and saving the cache are left out.
- CommitSearch.Cache.SearchWindow: with a sha in several repositories the condition for exactness is only sufficient, as another copy may stand in for a lost one.
- CommitMetrics.CollectMetrics: the order of the exported rows and the printed summary.
- HistoryApply.Target.ApplyAttachments: an asset id or object key that is taken, at which the source's insert fails and the transaction with it, is overwritten; `AssetsNewIff` says when none is.
- StatsPool.PoolFetchesAll: asks that no sha is the empty string, at which a worker returns early.
- TailBuffer: decoding of the bytes as UTF-8 and the wording of the notice.
- Shell: expansions and here-documents are not read, a word that would expand has no meaning here; `set -eu` scripts of the bridge are not interpreted.
- SandboxFiles: `mkdir -p`, `rm -f`, `printf` and redirections always succeed; file names that start with a dash would be read as options; directories are not modelled; `listFiles` and `remove` are left out.
- EnvFile: strings are sequences of Unicode scalar values, so lone surrogates, which `JSON.stringify` escapes too, do not occur.
- Config: paths are resolved component lists; rewriting a URL's port is an uninterpreted function; which instances an instance sees is an arbitrary relation (the source looks at the configs of its home directory's instances and of the repository's managed worktrees); ports are whole numbers; sibling configs that do not parse, and persisting ports chosen at run time, are left out.
- WorktreeRepair: the config path is taken to be the same at every start, as loading `DEALDESK_CONFIG` from the env file by dotenv, which could name another path, is not modelled; path functions of the host are arbitrary; no worktree name is blank; failing writes are left out.
- SQL, Postgres, S3, git, fetch, prompts, the React interface and the service worker.
