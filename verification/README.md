# Threadplane coordination model

A Dafny model of the durable coordination state of Threadplane: notes and tasks joined by transclusion
links, the task dependency graph, lease-backed claims, idempotent commands, the event log with its graph
projection, workspace policies, the string normalisers they rest on, and the command-line triage. Tables
are maps, sets and sequences; classes update them in place as the handlers do, and each method is proved
against a function or relation on table contents about which the main results are then proved.

`dafny verify dfyconfig.toml` checks the whole project.

## Layout

| files | part |
|---|---|
| `Common`, `Tables`, `Graphs`, `Sorting` | vocabulary, walks and recursive queries, sorting |
| `Dependencies` | edges, cycle check, offers, depth chains |
| `Transclusion`, `SharedText` | group tables, and their refinement of connected components with shared text |
| `Projection`, `ProjectionRuns` | the clique builder, its interleavings with commits, rebuilding from the log |
| `Listing`, `BatchListing` | task listings and batch-read entries |
| `Claims`, `ClaimStore` | leases over time, the claim tables, `claim_next` over a stale list |
| `Idempotency`, `ClaimReceipts` | receipts inside the transaction of their command, and those of `claim_next` |
| `EventLog`, `Replay`, `ClaimLog`, `Tail` | ordered queries, catch-up, what claims log, tailing |
| `Governance`, `GovernanceStore` | policy validation, replacement, bootstrap merge |
| `Normalise`, `Uuids` | relation types, identifiers, labels, owners, printed ids |
| `Triage`, `TriageClient`, `TriageRuns`, `KeyedTriage`, `TriageTexts` | the keyed requests a task needs, the client that sends them, when its runs settle, and what they do to text |

## Assumptions

- Each transaction is atomic and transactions are serial. Interleaving is modelled where the code leaves
  gaps between transactions: `claim_next` lists candidates before its transactions, projections read
  current tables after commit and in several statements, and triage reads before it writes.
- One non-decreasing clock serves the server and SQL `now()`.
- A fresh UUID is an id never used before; ids are natural numbers and their order is that of UUIDs.
- Timestamps and lease seconds are mathematical integers in microsecond ticks, up to a latest
  representable timestamp.
- Where SQL leaves the order of tied rows open, the model allows every order.

## Where the code says less than its documentation

The model follows the code.

- `README.md:410` promises that an expired lease returns its task to the pool. Nothing resets the status:
  the task stays `claimed`, is not listed as ready, and cannot be released
  (`Claims.ExpiredLeaseStaysClaimed`, `Claims.ExpiredLeaseCannotBeReleased`; `Claims.LeaseExpiresUnreleased`
  is a run that gets there).
- Claiming checks neither status nor readiness, so a completed task can be claimed again
  (`Claims.ClaimIgnoresStatus`, and the run `Claims.CompletedTaskIsClaimedAgain`).
- `claim_next` looks at its receipt only once per candidate: with no candidate left, a retry is answered
  with nothing instead of the stored claim (`Idempotency.ClaimNextReplaysOnlyWithCandidates` says exactly when,
  `ClaimReceipts.ClaimNextRetryLosesItsAnswer` and `ClaimReceipts.OnlyTaskIsOffered` show it).
- Tailing without a starting event returns the latest page, so older events are skipped when they do not
  fit (`Tail.FirstPageIsTheLatest`) and never printed (`Tail.TailFromTheFirstPage`, `Tail.OlderEventIsSkipped`).
- The bootstrap is merged on every touch and fails when a priority missing by name finds its rank taken
  (`GovernanceStore.Store.EnsureWorkspaceGovernance`, and the store of `GovernanceStore.BootstrapCanCollide`).
- The event of a `claim_next` carries a payload without `task_id`, which its projector cannot read: a
  catch-up that meets one stops there for good, unless a handler moves the cursor past it, and the server
  catches up before it serves (`Replay.UnreadableBlocksForever`). Over the whole log of a run this happens
  iff some `claim_next` took a task (`ClaimLog.FullCatchUpIffNoClaimNext`, `ClaimLog.ClaimNextBlocksCatchUp`).
- In a listing a shared epic is carried only by the first task that names it
  (`BatchListing.EpicIsCarriedOnce`, `BatchListing.SecondEntryLacksItsEpic`).
- Triage sends back the text it read, so a concurrent rename is undone on every member of a group
  (`TriageTexts.StaleTriageOverwritesText`); `TriageTexts.TriageKeepsTextsIff` says exactly when it is not.
- A triage with a root key that was used before is answered from its receipts: it succeeds and reports
  updates that it does not make (`KeyedTriage.KeyedTriageIsNotRepeated`; `TriageRuns.TriageFixpointIff` says
  exactly when repeating a triage does nothing).

## Model

| member | source | states |
|---|---|---|
| `Dependencies.CycleCheckIsReachability` | crates/threadplane-server/src/storage/dependencies/writes.rs:115-143 | On every finite edge set, cyclic or not, the recursive UNION query ends and answers true exactly when `task_id` can be reached from `depends_on_task_id` in one or more steps |
| `Graphs.RecursiveUnionIsReachability` | crates/threadplane-server/src/storage/dependencies/writes.rs:124-136 | The round-by-round evaluation of a recursive UNION yields exactly the nodes reachable by a non-empty walk |
| `Dependencies.CycleCheckIsExact` | crates/threadplane-server/src/storage/dependencies/writes.rs:55-59 | For two distinct tasks of an acyclic graph the check refuses exactly the edges that would close a cycle |
| `Dependencies.DependencyStore.AppendTaskDependency` | crates/threadplane-server/src/storage/dependencies/writes.rs:20-113 | The whole new state and every refusal in terms of reachability, not of the query: self edge, missing ends, repeated edge, closed cycle; otherwise one edge, one event and one touched row |
| `Dependencies.DependencyStore.AddTaskDependency` | crates/threadplane-server/src/handlers/tasks/mutations/dependencies.rs:3-74 | One edge in its own transaction keeps the graph acyclic and inside workspaces; a refusal changes nothing |
| `Dependencies.UniqueTaskIds` | crates/threadplane-server/src/storage/mod.rs:160-168 | The distinct ids, each once, in the order of first occurrence |
| `Dependencies.DependencyStore.OfferTask` | crates/threadplane-server/src/handlers/tasks/mutations/offer.rs:4-104 | An offer commits iff its priority is one of the workspace, its epic, if any, belongs to the workspace and every listed dependency is a task of it; it never fails with the cycle conflict, inserts an open row with title, details, epic and priority as sent and its labels and owner in normal form, adds exactly the distinct listed edges with their events in order, and otherwise rolls everything back |
| `Dependencies.DependencyStore.PersistOfferedTask` | crates/threadplane-server/src/handlers/tasks/mutations/offer.rs:4-59 | The task row and its edges one by one: accepted iff every listed dependency is a task of the workspace, and then one edge and one event for each distinct dependency |
| `Dependencies.NewTaskIsOffered` | crates/threadplane-server/src/handlers/tasks/mutations/offer.rs:12-44 | The row of a new task, column by column: open, with title, details, epic and priority as sent, the time of the call, the normal list of its labels, and its owner between outer blanks or none |
| `Dependencies.OfferStep` | crates/threadplane-server/src/handlers/tasks/mutations/offer.rs:46-56 | Inside an offer each further dependency is accepted iff it is a task of the workspace, because nothing can reach the new task |
| `Dependencies.OfferKeepsSound` | crates/threadplane-server/src/handlers/tasks/mutations/offer.rs:46-56 | All edges of an offer together keep the graph acyclic and within one workspace |
| `Dependencies.RunsStaySound` | crates/threadplane-server/src/storage/dependencies/writes.rs:20-113 | Every run of offers, added dependencies and row updates keeps the graph acyclic and every edge within one workspace |
| `Dependencies.ChainRowsAreWalks` | crates/threadplane-server/src/storage/dependencies/reads.rs:75-100 | The `(task, depth)` recursion produces exactly the pairs for which a walk of that length exists |
| `Dependencies.ChainIsShortestWalk` | crates/threadplane-server/src/storage/dependencies/reads.rs:68-124 | In every sound state the chain lists exactly the transitive dependencies (or dependents), each once, at the length of the shortest walk |
| `Dependencies.ChainRoundsAreBounded` | crates/threadplane-server/src/storage/dependencies/reads.rs:75-100 | Without a cycle guard of its own the recursion still ends within as many levels as there are tasks |
| `Dependencies.ChainsMirrorEachOther` | crates/threadplane-server/src/storage/dependencies/reads.rs:17-29 | `b` is a dependency of `a` at depth `n` iff `a` is a dependent of `b` at depth `n` |
| `Transclusion.TransclusionStore.SetEntityTransclusion` | crates/threadplane-server/src/storage/transclusion/mutations.rs:130-152 | Exactly the one entity joins the group |
| `Transclusion.TransclusionStore.UpsertXanaduGroup` | crates/threadplane-server/src/storage/transclusion/mutations.rs:154-198 | The surviving group carries the source text, the merged group is gone and its rows have moved |
| `Transclusion.TransclusionStore.JoinGroups` | crates/threadplane-server/src/storage/transclusion/mutations.rs:77-110 | The six statements together amount to one join: both ends and all members of both groups end in the surviving group with the source text |
| `Transclusion.LinkStatementsJoin` | crates/threadplane-server/src/storage/transclusion/mutations.rs:77-198 | On every row of either table the sequence of UPDATE statements equals that one join |
| `Transclusion.TransclusionStore.AddXanaduLink` | crates/threadplane-server/src/handlers/links/xanadu.rs:8-88 | A committed link or the first error of its two ends with nothing changed: the source's group survives, else the target's, else a new one; both ends are in it, the target's other group is gone, and the link is logged with both ids |
| `SharedText.LinkChoosesGroup` | crates/threadplane-server/src/storage/transclusion/mutations.rs:77-110 | On the tables of any run the same choice, and a new group's id is one that no group, member, entity or link ever had |
| `Transclusion.TransclusionStore.UpdateText` | crates/threadplane-server/src/handlers/content/note.rs:139-169 | A text update rewrites an ungrouped entity alone, or its group and every member |
| `SharedText.LinkKeepsSound` | crates/threadplane-server/src/storage/transclusion/mutations.rs:77-198 | A link keeps every group live, of one workspace, with one text, and equal to a connected component of links |
| `SharedText.UpdateKeepsSound` | crates/threadplane-server/src/handlers/tasks/mutations/update.rs:3-41 | A grouped or ungrouped update keeps the same invariant |
| `SharedText.TouchKeepsSound` | crates/threadplane-server/src/handlers/tasks/claims/shared.rs:60-71 | Claims, releases and completions, which move only `updated_at`, keep it too |
| `SharedText.ConnectedWithNewLink` | crates/threadplane-server/src/storage/transclusion/mutations.rs:77-110 | What one more link connects, and nothing else |
| `SharedText.StepRefines` | crates/threadplane-server/src/storage/transclusion/mutations.rs:36-110 | Each command has the same outcome, or the same error, on the group tables and on the naive model that rewrites text along chains of links |
| `SharedText.UnionCorrectness` | crates/threadplane-server/src/storage/transclusion/mutations.rs:77-198 | After any commands two distinct entities share a transclusion id iff a chain of committed links joins them, and joined entities are in a live group with one workspace and one text |
| `SharedText.GroupedIffLinked` | crates/threadplane-server/src/storage/transclusion/mutations.rs:77-110 | After any commands an entity has a transclusion id iff it was ever linked, if only to itself, and the group of that id is live, of its workspace, and carries its text |
| `SharedText.SharedTextRefinement` | crates/threadplane-server/src/storage/transclusion/mutations.rs:36-110 | Over every run the group tables show exactly what the naive model shows |
| `Projection.GraphProjection.ReprojectTransclusionGroup` | crates/threadplane-server/src/projections/transclusion.rs:12-94 | Undisturbed, a projection leaves exactly the clique of the group's members under its label, drops the merged label and touches no other edge |
| `Projection.GraphProjection.DrawClique` | crates/threadplane-server/src/projections/transclusion.rs:70-91 | The nested loops draw exactly the ordered pairs of refs |
| `Projection.SortedRefs` | crates/threadplane-server/src/projections/transclusion.rs:34-70 | The refs drawn between are the member notes and tasks, strictly sorted |
| `Projection.RefOrderIsTextOrder` | crates/threadplane-server/src/projections/transclusion.rs:70-70 | The order of refs by kind and id is that of their printed text, by which the code sorts them |
| `Projection.PairsAreOrderedPairs` | crates/threadplane-server/src/projections/transclusion.rs:71-75 | The edges owed are one for each ordered pair of members |
| `ProjectionRuns.CommitKeepsInvariant` | crates/threadplane-server/src/handlers/links/xanadu.rs:42-86 | A commit between any two phases of a running projection keeps every edge justified or about to be dropped, and every pair drawn or owed |
| `ProjectionRuns.OwedIsTheGroupAfterwards` | crates/threadplane-server/src/handlers/links/xanadu.rs:42-86 | A commit owes the projection of the group its entity is in afterwards, a link also the dropping of the target's other group, and nothing else owes any |
| `ProjectionRuns.TextUpdateReplaysItsGroup` | crates/threadplane-server/src/replay/projectors.rs:71-102 | A replayed text update projects the group its entity is a member of by then |
| `ProjectionRuns.NextKeepsInvariant` | crates/threadplane-server/src/app/state.rs:116-129 | So does every begin, phase and replay, one projection at a time |
| `ProjectionRuns.GraphConverges` | crates/threadplane-server/src/projections/transclusion.rs:12-94 | For every interleaving of commits, replays and mutex-guarded projections, in any order, the edges are exactly the cliques of the live groups whenever nothing is pending |
| `ProjectionRuns.UndisturbedProjection` | crates/threadplane-server/src/projections/transclusion.rs:12-94 | The phases of the interleaved model, with no commit in between, do what the projection promises |
| `ProjectionRuns.FinishIsAdvancing` | crates/threadplane-server/src/projections/transclusion.rs:12-94 | That undisturbed projection is one of the interleavings |
| `ProjectionRuns.StepKeepsHistory` | crates/threadplane-server/src/handlers/links/shared.rs:19-32 | Every live group is named by a logged link, and a merged group never comes back to life |
| `ProjectionRuns.RebuildDrawsReplayedGroups` | crates/threadplane-server/src/replay/projectors.rs:71-168 | After replaying any events onto any graph, link events and text updates mixed, it holds exactly the cliques of the live groups they reproject, and of its edges before those of groups no event names |
| `ProjectionRuns.RebuildFromLog` | crates/threadplane-server/src/replay/projectors.rs:71-168 | Replaying all links of any run, in any order, with any repetition and with any text updates in between, repairs every graph: from whatever edges under logged labels, it gives exactly the canonical cliques |
| `ProjectionRuns.CatchUpFromCursor` | crates/threadplane-server/src/replay/batch.rs:14-110 | Onto a graph that was canonical at an earlier point of the run, replaying the events logged since, in any order and with any earlier events among them, gives exactly the canonical cliques of the tables as they are now |
| `ProjectionRuns.UnnamedGroupKeepsMembers` | crates/threadplane-server/src/storage/transclusion/mutations.rs:55-181 | A group that no link logged during a run names keeps its members through the run |
| `Claims.NormalizedLeaseSeconds` | crates/threadplane-server/src/lifecycle.rs:22-31 | A request of at least 30 seconds is granted as asked, without one the default if it is that long, and 30 seconds otherwise |
| `Claims.FetchActiveClaim` | crates/threadplane-server/src/storage/reads/claims.rs:35-54 | The active claim of the latest `claimed_at`; none exactly when no claim is unreleased and unexpired |
| `Claims.LeaseExclusion` | crates/threadplane-server/src/handlers/tasks/claims/shared.rs:3-85 | Over every run no moment lies in two claims of one task |
| `Claims.EveryLeaseLasts` | crates/threadplane-server/src/handlers/tasks/claims/shared.rs:20-60 | Over every run every lease is granted for at least 30 seconds |
| `Claims.EveryClaimIsGranted` | crates/threadplane-server/src/lifecycle.rs:17-31 | Every claim of any run was granted by one of its commands, for exactly the seconds that command asked for, or the default, raised to 30; while it is not released it is active exactly until then |
| `Claims.ClaimDoes` | crates/threadplane-server/src/handlers/tasks/claims/shared.rs:20-85 | A claim adds one row that expires when the granted seconds are over, one event whose payload names the task or not, and sets the status and the update time of that task alone |
| `Claims.ReleaseDoes` | crates/threadplane-server/src/handlers/tasks/claims/lifecycle.rs:37-86 | A release succeeds iff an active claim of the task is the caller's; it ends that claim, opens the task and logs one event |
| `Claims.CompleteDoes` | crates/threadplane-server/src/handlers/tasks/claims/lifecycle.rs:140-186 | A completion succeeds iff nobody else holds the task; it ends the active claims, completes the task and logs one event |
| `Claims.ActiveClaimImpliesClaimed` | crates/threadplane-server/src/handlers/tasks/claims/shared.rs:20-85 | At any moment of any run a task with an active claim has status `claimed` |
| `Claims.OnlyTheHolderEndsALease` | crates/threadplane-server/src/handlers/tasks/claims/lifecycle.rs:37-183 | While a lease is live nobody else claims, releases or completes its task, and its holder can release or complete it |
| `Claims.ExpiredLeaseStaysClaimed` | crates/threadplane-server/src/handlers/tasks/claims/shared.rs:60-71 | An expired lease leaves its task `claimed` and out of every ready listing until that task is claimed again or completed |
| `Claims.ExpiredLeaseCannotBeReleased` | crates/threadplane-server/src/handlers/tasks/claims/lifecycle.rs:37-56 | Once its lease has expired, not even the former holder can release the task |
| `Claims.LeaseExpiresUnreleased` | crates/threadplane-server/src/handlers/tasks/claims/shared.rs:60-71 | A run from the empty board that gets there: a task is offered and claimed for 30 seconds, 30 seconds pass, and it is `claimed` without an active claim |
| `Claims.ClaimIgnoresStatus` | crates/threadplane-server/src/handlers/tasks/claims/shared.rs:20-41 | A claim succeeds iff the task is in the workspace, unclaimed, and its expiry is representable: status and readiness play no part, so `completed` is not terminal |
| `Claims.ClaimSucceedsIff` | crates/threadplane-server/src/handlers/tasks/claims/shared.rs:20-41 | A claim succeeds iff the task is in the workspace, no claim of it is active, and the end of the granted lease is representable |
| `Claims.CompletedTaskIsClaimedAgain` | crates/threadplane-server/src/handlers/tasks/claims/shared.rs:20-71 | A run from the empty board in which a completed task is claimed again |
| `Claims.RunKeepsSound` | crates/threadplane-server/src/handlers/tasks/claims/lifecycle.rs:3-205 | The invariant behind these results holds after every run under a non-decreasing clock |
| `ClaimStore.Store.EnsureTaskIsUnclaimed` | crates/threadplane-server/src/handlers/tasks/claims/shared.rs:3-17 | A conflict exactly when some claim of the task is active |
| `ClaimStore.Store.PersistClaim` | crates/threadplane-server/src/handlers/tasks/claims/shared.rs:20-85 | One claim for the time asked, one event and the status, or nothing at all |
| `ClaimStore.Store.Release` | crates/threadplane-server/src/handlers/tasks/claims/lifecycle.rs:3-86 | The holder's active claim ends, the task opens, one event; or nothing at all |
| `ClaimStore.Store.Complete` | crates/threadplane-server/src/handlers/tasks/claims/lifecycle.rs:106-186 | Every active claim of the task ends, the task completes, one event; or nothing at all |
| `ClaimStore.Store.ClaimNextTask` | crates/threadplane-server/src/handlers/tasks/claims/acquire.rs:75-180 | With arbitrary commits before each of its transactions, the first candidate not refused as claimed decides the call, and failed turns leave no trace |
| `ClaimStore.Store.ClaimCandidate` | crates/threadplane-server/src/handlers/tasks/claims/acquire.rs:109-165 | One transaction of the loop: claimed with everything recorded, or refused with nothing changed |
| `ClaimStore.RefusedMeansClaimed` | crates/threadplane-server/src/handlers/tasks/claims/acquire.rs:131-165 | A turn is refused as claimed exactly when its candidate has an active claim at that turn |
| `ClaimStore.ClaimNextOverStaleList` | crates/threadplane-server/src/handlers/tasks/claims/acquire.rs:106-179 | A call without error takes the earliest candidate with no active claim at its own turn, adding one claim and one event; it returns none, and adds nothing, iff every candidate had one |
| `ClaimStore.ReadyFiltersKeepAll` | crates/threadplane-server/src/handlers/tasks/claims/acquire.rs:97-106 | The call lists the ready tasks that match every filter it was given |
| `ClaimStore.ClaimNextTakesTopReadyTask` | crates/threadplane-server/src/handlers/tasks/claims/acquire.rs:91-179 | With no other writer, however much time passes between the listing and the transactions, it takes a ready task that no ready task outranks, and returns none iff no task is ready |
| `Listing.ReadinessAgrees` | crates/threadplane-server/src/storage/dependencies/reads.rs:126-146 | The COUNT, the NOT EXISTS and the CASE definitions of readiness coincide: the task is open and every stored task it depends on is completed |
| `Listing.StatusNames` | crates/threadplane-server/src/storage/listings/task.rs:13-30 | The three status names and what they select |
| `Listing.ListingIsByRank` | crates/threadplane-server/src/storage/listings/task.rs:75-97 | Listed rows fall by creation time, and in a ready listing by rank, then update time, then creation time |
| `Listing.FetchTasksForListing` | crates/threadplane-server/src/storage/listings/task.rs:13-104 | The answer lists, in listing order and up to the limit, exactly the matching tasks; an unknown status is the only error |
| `Listing.BuildQuery` | crates/threadplane-server/src/storage/listings/task.rs:30-74 | The clauses pushed branch by branch are exactly those the filters contribute |
| `Listing.QueryMeansMatches` | crates/threadplane-server/src/storage/listings/task.rs:13-74 | A row satisfies all pushed clauses iff it matches the filters |
| `Listing.RunQuery` | crates/threadplane-server/src/storage/listings/task.rs:75-97 | ORDER BY and LIMIT: no omitted row sorts before a listed one, and rows are omitted only by the limit |
| `BatchListing.BuildTaskListEntries` | crates/threadplane-server/src/storage/listings/task_entries.rs:3-27 | Every entry's claim, dependencies, dependents, readiness and epic answer the reads of that one task, and on the board of any run its claim is the very claim of the single read; a repeated task comes with no claim and no edges |
| `BatchListing.FetchActiveClaims` | crates/threadplane-server/src/storage/listings/task_entries.rs:29-64 | For each listed task an answer of the single read: an active claim of the latest `claimed_at`, ties open, and none iff none is active |
| `BatchListing.DistinctOnTask` | crates/threadplane-server/src/storage/listings/task_entries.rs:37-53 | Of rows ordered by task and falling `claimed_at`, DISTINCT ON keeps for each task one row that no other row of the task is later than |
| `BatchListing.ClaimAnswerIsUnique` | crates/threadplane-server/src/storage/reads/claims.rs:35-54 | Under the invariant of claims the single read has one answer, so batch and single read agree; without it tied rows may differ |
| `BatchListing.FetchDependencyRowsForTasks` | crates/threadplane-server/src/storage/listings/task_entries.rs:66-117 | The grouped rows of each listed task are an answer to its own dependency query |
| `BatchListing.FetchDependencyRows` | crates/threadplane-server/src/storage/dependencies/reads.rs:31-66 | The read of one task: its joined dependencies or dependents, each once, latest first |
| `BatchListing.DependencyAnswerMeansEdges` | crates/threadplane-server/src/storage/dependencies/reads.rs:31-66 | In terms of edges: the stored tasks this one depends on, and for dependents those that depend on it |
| `BatchListing.DependencyAnswerIsUnique` | crates/threadplane-server/src/storage/dependencies/reads.rs:31-66 | With distinct creation times that query has only one answer, so batch and single reads agree as lists |
| `BatchListing.FetchEpicsForTasks` | crates/threadplane-server/src/storage/listings/task_entries.rs:133-159 | Every epic named by a listed task and stored is found |
| `BatchListing.FetchReadyStates` | crates/threadplane-server/src/storage/listings/task_entries.rs:161-197 | The batch readiness of every listed task equals `task_is_ready` |
| `BatchListing.EpicIsCarriedOnce` | crates/threadplane-server/src/storage/listings/task_entries.rs:15-21 | An epic shared by several listed tasks is carried by exactly one entry, the first that names it |
| `BatchListing.SecondEntryLacksItsEpic` | crates/threadplane-server/src/storage/listings/task_entries.rs:15-21 | Two listed tasks of one epic, of which only the first entry carries it |
| `Idempotency.Ledger.HandleCommand` | crates/threadplane-server/src/idempotency/flow.rs:14-130 | Receipt, body and completed receipt commit together or not at all |
| `Idempotency.KeysIgnoreOuterBlanks` | crates/threadplane-server/src/idempotency/types.rs:56-70 | Keys that differ only in blanks around them are one key, and a normalised key stays as it is |
| `Idempotency.KeyIsTheMiddle` | crates/threadplane-server/src/idempotency/types.rs:56-70 | A header names a key iff it is plain text with 1 to 255 characters between its outer blanks, and that part is the key |
| `Idempotency.KeysAreEqualIff` | crates/threadplane-server/src/idempotency/flow.rs:24-60 | Two commands share a key iff workspace, actor, kind and the header without outer blanks agree |
| `Idempotency.FirstCallRuns` | crates/threadplane-server/src/idempotency/flow.rs:14-130 | A command that finds no receipt runs: its effect, its answer and a receipt with its kind, key, payload and a fresh id all stand, or nothing does |
| `Idempotency.ReceiptsAreCompleted` | crates/threadplane-server/src/idempotency/flow.rs:96-130 | After every run each committed receipt is completed and carries its answer |
| `Idempotency.KnownKeyConflictsOnlyOverPayload` | crates/threadplane-server/src/idempotency/flow.rs:132-177 | So the in-progress and missing-response branches are unreachable: a known key conflicts iff its payload differs |
| `Idempotency.ReceiptsPersist` | crates/threadplane-server/src/idempotency/flow.rs:144-154 | A receipt once committed keeps everything but the time it was last seen |
| `Idempotency.ExactlyOnce` | crates/threadplane-server/src/idempotency/flow.rs:132-177 | After a keyed command committed, every later call with its key that reaches the receipt check changes nothing but `last_seen_at`: an equal payload gets the first answer with `replayed` set, another is refused |
| `Idempotency.CommitsAtMostOnce` | crates/threadplane-server/src/idempotency/flow.rs:14-177 | Each workspace, actor, kind and trimmed key commits its effects at most once in any run |
| `Idempotency.RefusedLeavesNoTrace` | crates/threadplane-server/src/idempotency/flow.rs:14-130 | A failed call leaves no receipt and no effect |
| `Idempotency.ClaimNextReplaysOnlyWithCandidates` | crates/threadplane-server/src/handlers/tasks/claims/acquire.rs:106-131 | A retried `claim_next` is replayed iff the new candidate list is non-empty |
| `Idempotency.ClaimNextTakesFirstUnclaimed` | crates/threadplane-server/src/handlers/tasks/claims/acquire.rs:109-179 | With a key not seen before, the first candidate not refused as claimed decides the call |
| `ClaimReceipts.NothingElseIsReady` | crates/threadplane-server/src/handlers/tasks/claims/acquire.rs:91-106 | Once the only listed task is claimed, no task that matches the filters of the call is ready, and its only listing is the empty one |
| `ClaimReceipts.ClaimNextRetryLosesItsAnswer` | crates/threadplane-server/src/handlers/tasks/claims/acquire.rs:106-180 | A keyed `claim_next` that claims the only ready task stores its answer, yet a retry with the same key at any later time lists no candidate and is answered with nothing |
| `ClaimReceipts.OnlyTaskIsOffered` | crates/threadplane-server/src/handlers/tasks/claims/acquire.rs:106-180 | Such a run from the empty board: one task is offered, claimed under a key, and the retry answers with nothing |
| `EventLog.FetchEventRowsAfterCursor` | crates/threadplane-server/src/storage/events/queries.rs:90-126 | The first rows after the cursor in the total order of `created_at`, `event_id` |
| `EventLog.FetchEventRowsAfterWorkspaceCursor` | crates/threadplane-server/src/storage/events/queries.rs:44-88 | With a cursor the first later rows of the workspace; without one the last rows, oldest first |
| `EventLog.Order` | crates/threadplane-server/src/storage/events/queries.rs:90-126 | Ordering a finite set of events with distinct ids has one result |
| `EventLog.OrderIsByTime` | crates/threadplane-server/src/storage/events/queries.rs:90-126 | Rows come by the time of their event, and by its id among events of one time |
| `EventLog.PageIsFull` | crates/threadplane-server/src/storage/events/queries.rs:90-126 | A page after a cursor is as long as the limit and the pending rows allow, and every pending row it leaves out comes after every row of the page |
| `EventLog.WorkspacePageIsFull` | crates/threadplane-server/src/storage/events/queries.rs:44-88 | So is a page of one workspace; without a cursor the rows left out come before those of the page |
| `EventLog.AdvancingDropsAPrefix` | crates/threadplane-server/src/storage/events/cursor.rs:9-17 | Moving the cursor to the n-th pending event leaves exactly the pending events after it |
| `Replay.Replayer.ReplayBatch` | crates/threadplane-server/src/replay/batch.rs:29-42 | The cursor moves only after the whole batch was projected; a failure projects a proper prefix and leaves it |
| `Replay.Replayer.CatchUp` | crates/threadplane-server/src/replay/batch.rs:14-27 | For every batch size it ends; it succeeds iff the projector accepts every pending event, each then projected exactly once in log order and the saturated count returned, and otherwise stops at the first one that fails |
| `Replay.CursorNeverPassesUnprojected` | crates/threadplane-server/src/replay/batch.rs:29-60 | However a catch-up fails, the cursor never passes an event that was not projected |
| `Replay.UnreadableBlocksForever` | crates/threadplane-server/src/replay/projectors.rs:106-107 | A pending claim event whose payload names no task fails every further catch-up and stays pending, whatever else fails and whatever is appended, as long as no handler moves the cursor |
| `Replay.SucceedsIffAllReadable` | crates/threadplane-server/src/replay/projectors.rs:106-107 | When all readable events go through, a catch-up succeeds iff no pending event is unreadable, and otherwise has projected every event before the first such one |
| `ClaimLog.RunLogs` | crates/threadplane-server/src/handlers/tasks/claims/acquire.rs:8-43 | Over every run the log holds a claim that names no task iff some `claim_next` took a task; a `claim_task` always names its task |
| `ClaimLog.LogShowsEvents` | crates/threadplane-server/src/handlers/tasks/claims/acquire.rs:8-43 | Every event of the board is a row of the log with its kind, workspace, payload and time |
| `ClaimLog.FullCatchUpIffNoClaimNext` | crates/threadplane-server/src/replay/batch.rs:14-27 | A catch-up from the start over the log of any run, the events of other commands included, succeeds iff no `claim_next` of the run took a task |
| `ClaimLog.ClaimNextBlocksCatchUp` | crates/threadplane-server/src/handlers/tasks/claims/acquire.rs:109-140 | A run from the empty board that gets there: one task is offered, `claim_next` takes it, and the first catch-up fails |
| `Tail.TailEvents` | crates/threadplane-server/src/handlers/reads/events.rs:19-38 | One page, or not found when the starting event is not of the workspace |
| `Tail.ListLimits` | crates/threadplane-server/src/handlers/shared.rs:139-143 | The limit asked for within 1 to 200, and 25 when none is asked for |
| `Tail.HandleTailEvents` | crates/threadplane-cli/src/command/executor/reads.rs:84-112 | The loop prints and keeps exactly what the successive pages say; a failed poll ends it |
| `Tail.PageIsSpan` | crates/threadplane-server/src/storage/events/queries.rs:44-88 | A page lists, of the later events, exactly those up to its own last event |
| `Tail.TailHasNoGapAndNoDuplicate` | crates/threadplane-cli/src/command/executor/reads.rs:84-112 | For any limits and any growth of the log, what was printed is, in log order and once each, every later event up to the cursor except those that arrived behind it |
| `Tail.TailIsComplete` | crates/threadplane-cli/src/command/executor/reads.rs:84-112 | When appended events sort after the cursor, nothing is missing |
| `Tail.FirstPageIsTheLatest` | crates/threadplane-server/src/storage/events/queries.rs:44-88 | Without a starting event the first page is the latest one, and older events are left out iff they do not fit |
| `Tail.TailFromTheFirstPage` | crates/threadplane-cli/src/command/executor/reads.rs:84-112 | A session without a starting event goes on from the last event of its first page with no gap and no repetition, and never prints an event which that page left out |
| `Tail.OlderEventIsSkipped` | crates/threadplane-cli/src/command/executor/reads.rs:84-112 | Such a session: two events, a limit of one, and the older event is never printed |
| `Governance.ValidatePriorityPolicy` | crates/threadplane-core/src/types/governance.rs:172-208 | Ok iff priorities are present, names and ranks are pairwise distinct and the default is among them; an error names the first fault |
| `Governance.ValidateWorkspacePolicy` | crates/threadplane-core/src/types/governance.rs:142-163 | Ok iff the algorithms and the priorities are well formed |
| `Governance.RankForFinds` | crates/threadplane-core/src/types/governance.rs:71-84 | With distinct names, `rank_for` finds the rank of exactly the named priority |
| `Governance.StoredIsWellFormed` | crates/threadplane-server/src/storage/governance/policy.rs:19-74 | Whatever is read back from a sound store validates and agrees with the table on every priority |
| `GovernanceStore.Store.ReadPriorities` | crates/threadplane-server/src/storage/governance/policy.rs:40-50 | All rows of the workspace, each once, by falling rank |
| `GovernanceStore.Store.FetchWorkspacePolicy` | crates/threadplane-server/src/storage/governance/policy.rs:19-74 | The stored policy, or not found |
| `GovernanceStore.Store.UpsertWorkspacePolicy` | crates/threadplane-server/src/storage/governance/policy.rs:76-144 | A policy that does not validate or a TTL outside i32 changes nothing; any other replaces the workspace's rows and no constraint refuses an insert |
| `GovernanceStore.Store.ReplacePriorities` | crates/threadplane-server/src/storage/governance/policy.rs:122-140 | After the delete every insert succeeds, and the table holds exactly the new rows beside the other workspaces' |
| `GovernanceStore.NextRowIsFree` | crates/threadplane-server/src/storage/governance/policy.rs:127-140 | While a replacement inserts, the next name and rank are both free |
| `GovernanceStore.ReplaceKeepsSound` | crates/threadplane-server/src/storage/governance/policy.rs:76-144 | A replacement keeps every stored policy valid |
| `GovernanceStore.ReplacementIsExact` | crates/threadplane-server/src/storage/governance/policy.rs:76-144 | After a replacement the workspace holds exactly the submitted rows, descriptions included, and its policy row; every row of every other workspace is as before |
| `GovernanceStore.ReadBackAgrees` | crates/threadplane-server/src/storage/governance/policy.rs:76-164 | The refetched policy validates, ranks every priority as the submitted one did, and supports exactly the priorities of the table |
| `GovernanceStore.InsertMissing` | crates/threadplane-server/src/storage/governance/bootstrap.rs:88-133 | Keeps every old row and adds, for each missing key, the first listed row |
| `GovernanceStore.Store.InsertPrioritiesIfMissing` | crates/threadplane-server/src/storage/governance/bootstrap.rs:64-86 | Succeeds iff no priority missing by name finds its rank taken |
| `GovernanceStore.Store.EnsureWorkspaceGovernance` | crates/threadplane-server/src/storage/governance/bootstrap.rs:3-62 | Succeeds iff the TTL fits and there is no such collision; adds exactly the missing rows, alters none, leaves every stored policy valid, and changes nothing on failure |
| `GovernanceStore.ReusedRankCollides` | crates/threadplane-server/src/storage/governance/bootstrap.rs:64-86 | After any replacement that drops a bootstrap priority and gives its rank to another, the bootstrap collides |
| `GovernanceStore.BootstrapCanCollide` | crates/threadplane-server/src/storage/governance/bootstrap.rs:3-62 | A store that gets there from an empty one: the bootstrap's `low` goes in, an administrator renames it `high` and keeps the rank, and the next touch fails |
| `GovernanceStore.MissingRowMeetsOnlyOldRanks` | crates/threadplane-server/src/storage/governance/bootstrap.rs:64-86 | The rows a bootstrap has added clash with no later row of its own |
| `GovernanceStore.MergeKeepsSound` | crates/threadplane-server/src/storage/governance/bootstrap.rs:3-133 | A merge keeps every stored policy valid |
| `GovernanceStore.MergeIsExact` | crates/threadplane-server/src/storage/governance/bootstrap.rs:3-133 | Row by row: a row that was there stays as it was, and each missing one is as the bootstrap lists it first |
| `GovernanceStore.MergeIsIdempotent` | crates/threadplane-server/src/storage/governance/bootstrap.rs:3-133 | Once merged, a bootstrap meets no collision and merges to the same tables again |
| `Normalise.RelationType` | crates/threadplane-core/src/types/mod.rs:165-183 | The pass with its flag and final trim equals: the maximal alphanumeric words, upper-cased, joined by one underscore |
| `Normalise.CharactersAreAscii` | crates/threadplane-core/src/types/mod.rs:165-183 | The word characters are the ASCII letters and digits, and the case mappings exchange the two alphabets letter by letter |
| `Normalise.WordsSplit` | crates/threadplane-core/src/types/mod.rs:165-183 | Splitting a text at a separator splits its words |
| `Normalise.WordsOfJoin` | crates/threadplane-core/src/types/mod.rs:165-183 | Joining words and splitting again gives the same words |
| `Normalise.NormalisersAreCanonical` | crates/threadplane-core/src/types/mod.rs:165-187 | Both normalisers are idempotent, and two inputs normalise alike iff they have the same words |
| `Normalise.NormalizeIdentifierList` | crates/threadplane-core/src/types/records.rs:224-233 | Strictly sorted, and exactly the non-empty normalised inputs |
| `Normalise.NormalizeTaskLabels` | crates/threadplane-core/src/types/tasks.rs:143-152 | Strictly sorted, and exactly the non-empty trimmed lower-case inputs |
| `Normalise.NormalListIsUnique` | crates/threadplane-core/src/types/tasks.rs:150-151 | Those two facts determine the list, whatever the unstable sort does |
| `Normalise.NormalLabelsAreTheNormalList` | crates/threadplane-core/src/types/tasks.rs:143-152 | Sorting and removing repetitions yields the same list as inserting label by label |
| `Normalise.NormalListsAreIdempotent` | crates/threadplane-core/src/types/records.rs:224-233 | Both list normalisers are idempotent |
| `Normalise.TrimIgnoresOuterBlanks` | crates/threadplane-core/src/types/tasks.rs:143-160 | Blanks around a label or an owner make no difference |
| `Normalise.LabelIsTheMiddle` | crates/threadplane-core/src/types/tasks.rs:143-152 | A label is what stands between the outer blanks of its text, in lower case |
| `Normalise.OwnerIsTheNamedOne` | crates/threadplane-core/src/types/tasks.rs:156-160 | An owner is what stands between the outer blanks of its text, or nobody when nothing is left |
| `Normalise.OwnerTwice` | crates/threadplane-core/src/types/tasks.rs:156-160 | So is the owner normaliser |
| `Uuids.UuidTextOrder` | crates/threadplane-core/src/types/mod.rs:113-123 | Printed ids of 128 bits sort as the ids do, and different ids are printed differently |
| `TriageClient.DedupTaskIdsListsEach` | crates/threadplane-cli/src/command/task/triage.rs:32-39 | Every listed id once, in increasing order |
| `Triage.PatchOptions` | crates/threadplane-cli/src/command/task/helpers.rs:60-89 | Option by option: cleared labels and owner are gone, named ones are set in normal form, those not named stay, and a priority is set or refused when it has no name |
| `Triage.ChangesAskSomething` | crates/threadplane-cli/src/command/task/helpers.rs:106-118 | A triage counts as one with changes iff there is a task of which it would ask something |
| `Triage.SettledShowsWhatIsAsked` | crates/threadplane-cli/src/command/executor/task/mutations.rs:70-139 | A task needs nothing more iff its columns, as read back, show the labels, owner, priority, epic and status that were asked for |
| `Triage.PatchIsStable` | crates/threadplane-cli/src/command/task/helpers.rs:60-89 | A patch applied, stored, read back and applied again changes nothing |
| `Triage.UpdateKeepsWhatItIsNotSent` | crates/threadplane-server/src/handlers/tasks/mutations/update.rs:24-67 | An update that is carried out stores the normal list of the labels sent, the owner sent between outer blanks, and the priority sent, all of which read back unchanged; it never changes the status and keeps the epic unless sent one of the workspace |
| `Triage.UpdateIsCarriedOutIff` | crates/threadplane-server/src/handlers/tasks/mutations/update.rs:72-120 | An update is carried out iff its task is one of the workspace and so is its epic, if it has one; any other is not found |
| `Triage.PayloadsAgree` | crates/threadplane-server/src/handlers/tasks/mutations/update.rs:77-97 | Two requests count as one payload iff they ask the same of the same task, up to the normal form of labels and owner |
| `Triage.HandleExecutesOrReplays` | crates/threadplane-server/src/idempotency/flow.rs:14-177 | A request that succeeds is carried out, unless its child key has a receipt: then nothing changes but the receipts |
| `Triage.HandleKeepsReceipts` | crates/threadplane-server/src/idempotency/flow.rs:14-177 | Receipts stay, and the one a request adds or is answered from is for that very request |
| `Triage.RequestsSayWhatIsAsked` | crates/threadplane-cli/src/command/executor/task/mutations.rs:70-139 | At most one update, with the text as read, the patched metadata and the epic asked for or else the one read, then a completion iff one is missing; the key names the purpose |
| `Triage.ReceiptsAreShared` | crates/threadplane-server/src/idempotency/flow.rs:24-60 | Two requests of one caller share a receipt iff kind and trimmed key agree |
| `Triage.CompletionIsThatOfClaims` | crates/threadplane-server/src/handlers/tasks/claims/lifecycle.rs:106-186 | Completing through triage meets the same refusals and leaves the same claims and statuses as completing in the claims model |
| `Triage.SettledNeedsNothing` | crates/threadplane-cli/src/command/executor/task/mutations.rs:70-139 | A task needs no request iff nothing the triage asks for is missing from it |
| `TriageClient.Client.TriageTaskRecord` | crates/threadplane-cli/src/command/executor/task/mutations.rs:70-139 | The requests sent are those the record needs, up to the first one refused, and the outcome says which |
| `TriageClient.Client.TriageTasks` | crates/threadplane-cli/src/command/executor/task/mutations.rs:142-202 | A patch without changes sends nothing; otherwise each distinct id is taken in turn, a failure leaves exactly what was sent before it, and the summary lists ids, labels, owner and priority as the patch asks for them |
| `TriageClient.SummaryShowsThePatch` | crates/threadplane-cli/src/command/executor/task/mutations.rs:156-201 | The summary has the labels and the owner asked for in normal form, the priority as an identifier, nothing where nothing is asked, and each id once in order |
| `TriageRuns.TriageReports` | crates/threadplane-cli/src/command/executor/task/mutations.rs:156-181 | Whatever others write, each distinct id is untouched iff it is in neither updated nor completed, and those lists name exactly the ids for which such a request was sent |
| `TriageRuns.RequestsSettle` | crates/threadplane-cli/src/command/executor/task/mutations.rs:70-139 | With no other writer, a task whose requests all succeed, under a root key or without one, has everything the triage asked for iff none of them is answered from a receipt |
| `TriageRuns.TriageSettles` | crates/threadplane-cli/src/command/executor/task/mutations.rs:142-202 | After a triage that succeeds with no other writer, a listed task has everything asked for iff no request it needed at the start had a receipt under its child key |
| `TriageRuns.TriageDoesWhatIsAsked` | crates/threadplane-cli/src/command/executor/task/mutations.rs:142-202 | After a triage that succeeds with no other writer, each listed task that no receipt answers reads back with exactly the labels, owner, priority, epic and status asked for and everything else as before; one that a receipt answers has nothing changed that was not asked for |
| `TriageRuns.TriageFixpointIff` | crates/threadplane-cli/src/command/executor/task/mutations.rs:83-202 | After a triage that succeeds, the same triage with the same key at any later time and with no other writer sends no request, changes nothing but the clock and reports every task untouched, iff no request needed at the start of the first had a receipt under its child key |
| `TriageRuns.TriageFixpoint` | crates/threadplane-cli/src/command/executor/task/mutations.rs:83-202 | So it is idle when no child key of the root key has a receipt beforehand, and always without a root key |
| `KeyedTriage.ChildKeyIsAccepted` | crates/threadplane-cli/src/command/executor/task/mutations.rs:90-130 | With a root key of visible text, short enough, the child key is the normalised key of the request |
| `KeyedTriage.ChildKeysAreDistinct` | crates/threadplane-cli/src/command/executor/task/mutations.rs:90-130 | The children of one root key have different keys unless purpose and task are the same |
| `KeyedTriage.KeyedTriageIsNotRepeated` | crates/threadplane-cli/src/command/executor/task/mutations.rs:83-202 | Three calls with one key: a triage sets an epic, another writer sets another epic, and the same triage succeeds, reports the task updated and changes nothing, as does every further one |
| `TriageTexts.UpdateKeepsTextIffCurrent` | crates/threadplane-server/src/handlers/tasks/mutations/update.rs:3-41 | An update that is carried out leaves the text of everything joined to its task as it was iff the text sent is the text stored, and never touches anything else |
| `TriageTexts.HandleKeepsTextsIffCurrent` | crates/threadplane-server/src/handlers/tasks/mutations/update.rs:3-41 | A request leaves every text of the server alone iff it is no update, is answered from a receipt, or sends the text that is stored |
| `TriageTexts.TriageKeepsTextsIff` | crates/threadplane-cli/src/command/executor/task/mutations.rs:83-139 | Whatever others write between any two calls, as long as it keeps the group tables sound as every handler does, every turn of a triage leaves each text as the other writers left it iff every update that is carried out, and not answered from a receipt, finds the text its turn has read |
| `TriageTexts.TriageKeepsTexts` | crates/threadplane-cli/src/command/executor/task/mutations.rs:83-123 | With no other writer a triage keeps the text of every note and task, even when it fails half way |
| `TriageTexts.StaleTriageOverwritesText` | crates/threadplane-cli/src/command/executor/task/mutations.rs:83-123 | A whole triage, on tables that a run reaches, in which a rename committed between its read and its write is undone on another member of the group |

## Left out

- HTTP routing, extractors, configuration, pools, timeouts and tracing: plumbing around the modelled operations.
- SQL and Cypher engines: each query is modelled by the rows it selects or changes; locks, isolation levels and constraint races inside a transaction are not part of this model.
- JSON and UUID parsing and printing: payloads are values with equality, entity refs already parsed values.
- Role checks, signed commands and capability tables of the handlers: finite cases settled before the modelled transactions.
- Notes, memories and epics as plain records, enum name round trips and the compact text output: nothing beyond one branch each.
- User-declared graph links: a relation that normalises to `XANADU_LINK` would collide with projected edges and is assumed away.
- Node MERGE in the projection (`project_note`, `project_task`): it writes no `XANADU_LINK` edge.
- Replay.Replayer.CatchUp: holds for a log that does not grow while no request handler writes the cursor, because handlers overwrite it whatever was projected before (`storage/events/cursor.rs:37-66`).
- ProjectionRuns.GraphConverges: covers projections that are delayed, reordered or repeated, not ones that stop half way with a graph error, which the code loses until a replay of the log from before them (`ProjectionRuns.RebuildFromLog`).
- Replay.Replayer.ReplayEvents: takes the failures of the graph and of timeouts as given, call by call; of payloads only the `task_id` of claims is modelled, because every other payload is read as the request that wrote it.
- Dependencies.ChainIsShortestWalk: speaks of ids and depths, not of the titles, statuses and row order that the query also returns, nor of the width of `depth`.
- TriageClient.Client.TriageTasks: does not model the role checks of the handlers, nor a root key that the HTTP library itself refuses to send.
- The text of a policy's algorithms as stored and parsed: taken as values.
- The bench crate, build metadata and shutdown: apart from the coordination state.
