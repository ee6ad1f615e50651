# Verification of the Git write path

GitOps Reverser mirrors the state of Kubernetes clusters into Git repositories. Watch events
arrive at a branch worker, which gathers them into commit windows, turns each window into a
commit, retains the commits until they are pushed, and replays them when someone else has
moved the branch. This project models that write path in Dafny 4.11 and proves what every
run of it keeps. `dafny verify dfyconfig.toml` checks everything.

## How the project is built

| file | what it models |
|---|---|
| `PrunePolicy.dfy` | the deletion policy of a target |
| `Documents.dfy`, `Batches.dfy` | documents by slot (folder and identity), the effect of an event, of several in order and of a batch, and when the last two agree |
| `Writes.dfy`, `Tightening.dfy`, `QueueReplay.dfy` | pending writes, what replaying them does, and what it does under tightened deletion policies |
| `OpenWindow.dfy`, `Coalescing.dfy` | the commit window, and what committing it instead of its events means |
| `Repository.dfy`, `Push.dfy`, `PushEdges.dfy` | commits, the remote and its other writers, compare-and-set pushes, replay, and where their guarantees end |
| `ReplayedModes.dfy` | which deletion rights a retained write holds after replays |
| `BranchWorker.dfy` | the worker object: push, retry, replay, tightening |
| `LoopSpec.dfy` | the event loop as a transition function |
| `LoopInvariants.dfy`, `LoopRequests.dfy`, `LoopTheorems.dfy` | what every step keeps, and the theorems about all runs |
| `ClosingWrites.dfy` | what closing a window, an atomic request and a resync leave on the branch |
| `LoopOutcomes.dfy`, `LoopGate.dfy` | what the outcomes of requests tell, and what a closed gate keeps out |
| `LoopPacing.dfy`, `LoopWakes.dfy` | time in the loop, and what each kind of wake comes to |
| `LoopSchedule.dfy`, `LoopRuns.dfy` | when the queue is left unscheduled, and concrete runs |
| `EventLoop.dfy` | the loop object, each method proved equal to its transition |
| `Ordering.dfy`, `Paths.dfy` | string order, slash paths and `path.Clean` |
| `RenderScope.dfy` | read scope and write jail of a target's folder |
| `PlanFlush.dfy`, `WriteBatch.dfy` | the plan-then-flush batch on files: theorems and object |
| `FolderBatch.dfy` | the batch on files refines the batch on slots |
| `FlushGuards.dfy` | what an accepted flush satisfies on the worktree |
| `RenderFidelityGate.dfy` | the gate that stops writes while renders differ from live |
| `PathOwnership.dfy` | one owner per folder |
| `SourceScope.dfy` | which source namespaces a rule may watch |

Code that updates objects in place is a class here, with a `View()` of its fields; each method
ensures that the new view is a function of the old one, and the theorems are proved about those
functions. Everything the code asks of the outside world is an input: the clock, the gate,
builds, fetches, failures, what other writers do and when, the order of a map range.

Commit hashes are commit values, so there are no hash collisions. Other writers only append
to branches. A write is applied to a tree as a whole or not at all; a folder that is refused
because of its structure is a write that fails. A document of a sensitive type is encrypted and
alone in its file.

## What the proofs found

Some plain claims do not hold of the code. For each, the lemmas named give a concrete run or
input where it fails, the exact condition under which it holds, or both.

- A field patch that follows an upsert of the same object in one window replaces it
  (`FieldPatchOverUpsertLosesIt`, `CoalescingPreservesMeaningExactly`).
- An object that arrives both without a path and with its target's path is kept twice in the
  window, and a new one is written twice (`MixedPathsWriteTwice`, `WindowMeansTheSameExactly`).
- A batch looks identities up in the folder as it was before the batch. An atomic write that
  upserts and deletes one identity leaves it absent where it was present and present where it was
  absent, so every replay undoes the last one; a field patch after the upsert of a new object is
  dropped and applied by the replay (`ReplayFlips`, `ReplayExactly`, `BatchIsInOrderExactly`).
- A push cycle rooted on the default branch does not compare the target branch
  (`ConcurrentTargetBranchIsReplaced`, `NeverReplacesExactly`).
- After a replay that stopped part-way, the up-to-date shortcut reports success for writes that
  are not on the remote (`AbortedReplayLosesWrite`, `StoppedReplayLandsExactly`).
- A queue that was pushed without an acknowledgement and is replayed under tightened modes can
  bring back what it deleted (`TightenedReplayRevives`, `TightenedReplayExactly`).
- A replay under tightened modes can delete a document that the queue as planned would have left:
  without the sweep before it, a write that flips meets the document it would have created
  (`SweepThenFlip`, `TightenedKeepsExactly`).
- A request that rides a retained write is not recognised when it is sent again
  (`RiderIsRegisteredTwice`, `RegisteringARiderDuplicatesIt`).
- A rider whose replayed write has no difference left is forgotten without an outcome
  (`RiderIsForgotten`, `RiderResolvedExactly`).
- An atomic request or a resync that fails after closing a window leaves the window's commit
  without a push or a timer, and so does a failed push (`AtomicRequestStrandsWindow`,
  `ResyncStrandsWindow`, `StrandedExactly`).
- A whole-file write of a sensitive document removes a sibling, or brings back what the batch
  deleted, when an earlier delete left at most one document, although its comment says it never
  drops siblings (`RewriteTakesSibling`, `NeverMisdirectedExactly`, `DeletedIsRevivedExactly`).
- An identity placed twice in one batch is written twice (`TwoUpsertsOneIdentity`,
  `RepeatedIdentityIsWrittenTwice`).
- After `Forget` the gate's epochs start over, so an old result is accepted
  (`ForgottenEpochIsAccepted`, `EarlierResultExactly`).
- A path the writer rejects takes no part in the conflict check, whose comment says the write
  itself fails; the writer reads it as the repository root (`InvalidPathSharesRoot`,
  `PassingTargetsShareExactly`).
- A namespace that does not exist is tried with no labels, so a selector that admits the empty
  label set admits it by name, although the comment there says it cannot match and the
  expansion of `*` does not have it (`AbsentNamespaceIsAdmittedByName`,
  `WildcardAgreesEverywhere`).

Where code and comment disagree the model follows the code. One edge is only of the types: a new,
empty file would be shown to the render oracle and never written (`OracleJudgesWhatIsCommitted`),
but a rendered document is never empty, and then the two agree (`RealContentIsNotEmpty`).

## Model

| member | source | states |
|---|---|---|
| `PrunePolicy.MoreRestrictiveOf` | api/v1alpha3/prune_policy.go:72-142 | for all strings, unknown and empty ones included, each deletion right of the result is the conjunction of the two defaulted inputs' rights, and the result is one of the two |
| `Documents.EffectIdempotent` | internal/git/plan_flush.go:277-312 | the effect of any sequence of single events on a slot, run twice, is the effect run once |
| `Documents.BatchActsBySlot` | internal/git/plan_flush.go:277-312 | at every slot a batch does one of two things that do not depend on anything else: it creates documents if the scan had none, or has an effect on the one that was there |
| `Batches.HeldExactly` | internal/git/plan_flush.go:716-795 | the effect on a document that was there is that of the events in order, except that a plain document once deleted stays away |
| `Batches.CreatedBy` | internal/git/plan_flush.go:343-443 | what is created starts with the document of the first upsert, and is that alone exactly for a sensitive identity or one upserted once |
| `Batches.SlotSettlesExactly` | internal/git/plan_flush.go:277-312 | a slot is left in a state that a second application accepts and keeps if and only if the identity is not upserted, or its upsert lasts: one that was absent is created by the only upsert with no delete beside it and no later patch that changes it, one that was present is not deleted |
| `Batches.OneEachIsSteady` | internal/git/open_window.go:75-91 | events of pairwise different identities are steady |
| `OpenWindows.OpenWindow.constructor` | internal/git/open_window.go:51-60 | a new window carries the event's author, attribution and target and nothing else |
| `OpenWindows.OpenWindow.Append` | internal/git/open_window.go:75-81 | the key keeps its first place, the event replaces an older one at the key, and the window stays consistent |
| `OpenWindows.OpenWindow.Ordered` | internal/git/open_window.go:85-91 | one event per key, in first-seen order |
| `OpenWindows.AddKeepsConsistent` | internal/git/open_window.go:62-81 | every key is listed once and every event belongs to the window's author, attribution and target |
| `OpenWindows.WindowKeepsLast` | internal/git/open_window.go:75-91 | the window's event for a key is the last arrival with that key |
| `OpenWindows.WindowKeepsFirstSeenOrder` | internal/git/open_window.go:75-91 | two keys stand in the window in the order of their first arrivals |
| `OpenWindows.CoalescingPreservesMeaningExactly` | internal/git/open_window.go:75-101 | for every stream one window can hold, applying the window's events equals applying every event in order, for all trees, if and only if no field patch absorbed an earlier effect it does not cover |
| `OpenWindows.WholeObjectStreamsCoalesce` | internal/git/open_window.go:75-101 | streams of whole-object upserts and deletes always coalesce without loss |
| `OpenWindows.FieldPatchOverUpsertLosesIt` | internal/git/open_window.go:75-101 | a concrete stream, an upsert then a field patch of the same new object, where the window commits nothing |
| `Coalescing.MeansTheSameExactly` | internal/git/commit_executor.go:160-198 | a write leads from every accepted branch where a stream of events leads if and only if it is steady and its own events have the effects of the stream |
| `Coalescing.WriteIsWindow` | internal/git/pending_writes.go:107-147 | if no identity arrives under two spellings of its path, giving the window's events their paths is the same as collecting events that have them |
| `Coalescing.WindowMeansTheSameExactly` | internal/git/pending_writes.go:15-44 | for every stream one window can hold, the write the loop makes of the window equals, from every accepted branch, the events as they arrived, if and only if it is steady with the same effects; if no identity arrives under two spellings of its path it is steady, and the condition is that no field patch absorbed an earlier effect it does not cover |
| `Coalescing.MixedPathsWriteTwice` | internal/git/pending_writes.go:107-147 | a concrete stream, two upserts of a new object without and with the path, that is written as two documents |
| `Writes.ReplayExactly` | internal/git/commit_executor.go:160-198 | for every write and every branch that accepts it: applied again it is accepted and changes nothing if and only if each identity it upserts lasts there, as above |
| `Writes.ReplaysEverywhereExactly` | internal/git/commit_executor.go:160-198 | a write can be replayed on every branch if and only if it is steady: the first upsert of each identity is what its events in order lead to and, for a plain one, the only upsert with no applied delete beside it |
| `Writes.BatchIsInOrderExactly` | internal/git/plan_flush.go:87-94 | a write means the same as its events one after the other, on every branch, if and only if it is steady |
| `Writes.ReplayFlips` | internal/git/plan_flush.go:1372-1388 | on every branch: an upsert and a delete of one identity in one write, in either order, leave it absent where it was present and present where it was absent; an upsert and a field patch create the object without the patch |
| `Writes.ReplayIdempotent` | internal/git/commit_executor.go:18-44 | for every queue of steady writes and every tree, applying the queue to a tree that already has it changes nothing |
| `QueueReplay.QueueReplaysExactly` | internal/git/commit_executor.go:18-44 | a queue of any writes that upsert no plain identity twice can be replayed on every branch that accepts it, each write accepted both times and the second run changing nothing, if and only if the second run changes nothing after the empty branch |
| `QueueReplay.TightenedQueueExactly` | internal/git/branch_worker.go:1281-1312 | a tightened queue deletes no document the original one leaves, on any branch, if and only if that holds on the empty branch and on those of one document |
| `Tightening.TightenedReplayDeletesNoMore` | internal/git/branch_worker.go:1281-1312 | a queue with tightened modes keeps every document the original queue keeps, if no write of it leaves deleted where present an identity it would create where absent |
| `Tightening.TightenedKeepsExactly` | internal/git/branch_worker.go:1281-1312 | a write can follow every tightened write without deleting what it would have left if and only if it is not such a write |
| `Tightening.SweepThenFlip` | internal/git/branch_worker.go:1281-1312 | for every such write, a concrete queue of a sweep and the write that keeps a document, and deletes it when the sweep is tightened away |
| `Tightening.TightenedReplayExactly` | internal/git/branch_worker.go:1242-1312 | for steady writes, replaying a tightened queue over a tree that already has the original one changes nothing if and only if it creates, out of nothing, no document the original one does not |
| `Tightening.TightenedReplayRevives` | internal/git/branch_worker.go:1281-1312 | a concrete queue, a commit that creates and a commit that deletes, that brings the document back when it is replayed under a mode without deletes |
| `Repository.BuiltIsFold` | internal/git/commit_executor.go:18-44 | a head built from a root by executing writes has the tree of the root with those writes applied in order |
| `Repository.BuiltHashesAreReal` | internal/git/commit_executor.go:34-41 | every recorded hash is a commit on the head's own history, made from exactly its write, with the root among its ancestors |
| `Repository.BuiltRecordsExactly` | internal/git/commit_executor.go:34-41 | a grouped write has a recorded hash if and only if it changes the root's tree with the writes before it applied |
| `Repository.ExecuteBuilds` | internal/git/commit_executor.go:18-44 | executing a queue on a tip yields a head built from it, with a hash recorded per write that made a commit |
| `Repository.ResyncRecordsNone` | internal/git/commit_executor.go:34-41 | a resync that is executed has no hash recorded |
| `Push.ReceiveKeepsHistoryExactly` | internal/git/git_atomic_push.go:109-192 | an applied compare-and-set keeps every earlier tip of the branch if and only if the old value is in the history of the new one |
| `Push.PushRefinesFold` | internal/git/branch_worker.go:1169-1263 | from root plus retained writes, under every interleaving of other writers, losses and failures: success without a replaced branch leaves the remote tip as a base with all tightened writes applied in order, the base being the recorded root, a tip the target branch had, or a commit of the default branch, and every earlier tip in its history; every failing exit keeps the same relation for the recorded root unless a replay stopped part-way |
| `Push.PushOnlyTightens` | internal/git/branch_worker.go:1281-1312 | over any sequence of retries and policy reads, each retained write only loses deletion rights and nothing else of it changes |
| `ReplayedModes.PassIsExact` | internal/git/branch_worker.go:1281-1312 | after a tightening pass a write holds a deletion right exactly when it held it and, if the pass got that far, the policy read for its target grants it; a missing target grants none |
| `ReplayedModes.PassCompletesExactly` | internal/git/branch_worker.go:1290-1298 | the pass completes if and only if no policy it needs is unreadable |
| `ReplayedModes.CompletedReplayIsExact` | internal/git/branch_worker.go:1242-1312 | after a completed replay every retained write holds exactly the rights that its captured mode and the current policy both grant |
| `ReplayedModes.ModesAreExact` | internal/git/branch_worker.go:1169-1312 | over all retries of a push call a write is left with a right exactly when it had it and every policy a replay came to read for it grants it |
| `PushEdges.RootedOnTargetNeverClobbers` | internal/git/git_atomic_push.go:58-106 | a push cycle rooted on the target branch never replaces another writer's commits |
| `PushEdges.ConcurrentTargetBranchIsReplaced` | internal/git/git_atomic_push.go:83-101 | a concrete run rooted on the default branch in which a target branch created meanwhile is replaced and the push reports success |
| `PushEdges.NeverReplacesExactly` | internal/git/branch_worker.go:1169-1263 | no behaviour of other writers can make a push call, retries included, replace their commits if and only if the cycle is rooted on the target branch, or the branch it is rooted on has moved and the target branch exists or is the default branch |
| `PushEdges.SendsOnlyFromItsRoot` | internal/git/git_atomic_push.go:58-106 | a push changes the remote only if the root branch is still advertised or the cycle started on nothing, with the root unmoved if the target exists, and then the target is the local head |
| `PushEdges.NothingToPush` | internal/git/git_atomic_push.go:197-231 | with nothing committed and no such branch a push succeeds and changes nothing |
| `PushEdges.SuccessEndsCycle` | internal/git/branch_worker.go:1197-1212 | a push call that succeeds clears the recorded root |
| `PushEdges.AbortKeepsMovedRoot` | internal/git/branch_worker.go:1242-1263 | after a replay stopped part-way the recorded root is an earlier tip of its branch and no longer the tip |
| `PushEdges.SuccessLandsExactly` | internal/git/git_atomic_push.go:58-106 | a successful attempt leaves a base with every retained write applied on the remote if and only if the local head was that, as it always is from a coherent state for the recorded root; steady writes then have nothing left to do there |
| `PushEdges.StoppedReplayLandsExactly` | internal/git/branch_worker.go:1242-1263 | if the attempt after a stopped replay succeeds, the remote is the tip the replay started from with every retained write applied if and only if the writes from the stop on change nothing |
| `PushEdges.MovedRootSucceedsExactlyOnShortcut` | internal/git/git_atomic_push.go:92-102 | in that state the next attempt succeeds if and only if the remote has not moved, through the up-to-date shortcut |
| `PushEdges.AbortedReplayLosesWrite` | internal/git/git_atomic_push.go:92-102 | a concrete run in which such a success drops a retained write that is not on the remote |
| `PushEdges.AppliedPushMovesRoot` | internal/git/branch_worker.go:1214-1222 | rooted on the target branch, a push that was applied without an acknowledgement is seen as a moved root, whatever others do |
| `PushEdges.UnacknowledgedIsReplayed` | internal/git/branch_worker.go:1197-1263 | such a push is replayed on the target branch with whatever others added, under the tightened modes; if they added nothing and the writes are steady, the documents stay the same if and only if the tightened queue creates nothing that the queue as pushed goes on to delete |
| `PushEdges.RebuiltQueueLands` | internal/git/branch_worker.go:1197-1240 | the rebuilt queue is pushed when the target branch stays where it is, whatever happens to other branches |
| `PushEdges.UnacknowledgedIsKept` | internal/git/git_atomic_push.go:92-102 | while the root branch has not moved, as for the first push of a new branch, the call gives up with everything kept, and the next attempt that finds the target unmoved succeeds through the shortcut with the queue on the remote |
| `BranchWorkers.BranchWorker.constructor` | internal/git/branch_worker.go:209-237 | a worker starts with no local head and no push cycle |
| `BranchWorkers.BranchWorker.OthersMove` | internal/git/git_atomic_push.go:157-164 | other writers append to any branch before the next exchange with the remote |
| `BranchWorkers.BranchWorker.PushAtomic` | internal/git/git_atomic_push.go:58-231 | validate against the advertised references, then compare-and-set the one reference: new repository state and result |
| `BranchWorkers.BranchWorker.ExecutePendingWrites` | internal/git/commit_executor.go:18-44 | one commit per write that changes the tree, its hash written back on the write; stops at the first failure |
| `BranchWorkers.BranchWorker.TightenPendingPruneModes` | internal/git/branch_worker.go:1281-1312 | the in-place loop with its memo of policies equals tightening write by write; an unreadable policy stops it |
| `BranchWorkers.BranchWorker.SyncToRemote` | internal/git/git.go:381-414 | the head is reset to the target branch, else the default branch, else nothing |
| `BranchWorkers.BranchWorker.RebuildPendingWrites` | internal/git/branch_worker.go:1242-1263 | reset, tighten, execute; the root is recorded only when all three succeeded |
| `BranchWorkers.BranchWorker.PushOrRebuild` | internal/git/branch_worker.go:1184-1240 | one pass of the retry loop: pushed, given up, or rebuilt for another attempt |
| `BranchWorkers.BranchWorker.PushPendingCommits` | internal/git/branch_worker.go:1169-1240 | the bounded retry loop equals the push protocol of Push |
| `EventLoops.EventLoop.constructor` | internal/git/branch_worker.go:624-626 | an idle loop over a worker, with every invariant when the repository is fresh |
| `EventLoops.EventLoop.ResolveCommitRequest` | internal/git/commit_request_attach_loop.go:30-43 | records the outcome, forgets outcomes older than fifteen minutes and forgets the request |
| `EventLoops.EventLoop.HandleAttachCommitRequest` | internal/git/commit_request_attach_loop.go:68-96 | registers a request with its deadline unless it is resolved or waiting already |
| `EventLoops.EventLoop.DropOpenWindow` | internal/git/branch_worker.go:987-993 | drops the window and fails the request it claims |
| `EventLoops.EventLoop.CommitPendingWrite` | internal/git/branch_worker.go:1102-1163 | a first write prepares the branch and records the root; a commit is made only if the tree changes |
| `EventLoops.EventLoop.FinalizeOpenWindow` | internal/git/branch_worker.go:886-983 | gate, build and commit decide between dropping the window and retaining it as one write |
| `EventLoops.EventLoop.RetainWindow` | internal/git/branch_worker.go:940-983 | bytes move from the window to the queue; a claiming request rides the write, or is resolved at once when nothing changed |
| `EventLoops.EventLoop.ResolvePushedCommitRequests` | internal/git/branch_worker.go:1052-1064 | every request riding a write with a hash is resolved Committed with that hash |
| `EventLoops.EventLoop.PushPending` | internal/git/branch_worker.go:1022-1046 | success resolves the riders and clears the queue; failure keeps the queue as the push left it |
| `EventLoops.EventLoop.MaybeSchedulePush` | internal/git/branch_worker.go:1000-1016 | push now if the cooldown is over, else arm the timer once |
| `EventLoops.EventLoop.ApplyResync` | internal/git/resync_flush.go:90-149 | a resync closes the window first unless it is a heal, commits, and pushes if anything was committed |
| `EventLoops.EventLoop.ApplyDeferredHeals` | internal/git/resync_flush.go:62-71 | parked heals are drained in order, only without an open window |
| `EventLoops.EventLoop.StashDeferredHeal` | internal/git/resync_flush.go:42-56 | a heal replaces the parked one of the same target and scope in its place, else is appended |
| `EventLoops.EventLoop.HandleResyncRequest` | internal/git/resync_flush.go:30-36 | a heal waits while a window is open |
| `EventLoops.EventLoop.RefusalTarget` | internal/git/git_path_refusal.go:74-84 | the first named target of an atomic request |
| `EventLoops.EventLoop.HandleAtomicRequest` | internal/git/branch_worker.go:788-815 | gate, close the window, drain heals, then commit and retain the atomic write |
| `EventLoops.EventLoop.HandleLiveEvents` | internal/git/branch_worker.go:724-782 | each event joins the window, after closing one it cannot join; the cap and a zero window close at once |
| `EventLoops.EventLoop.HandleQueueItem` | internal/git/branch_worker.go:699-782 | dispatch by kind of item |
| `EventLoops.EventLoop.AttachWaitingCommitRequests` | internal/git/commit_request_attach_loop.go:114-142 | an unclaimed window takes the matching waiting request with the earliest deadline |
| `EventLoops.EventLoop.CollectDue` | internal/git/commit_request_attach_loop.go:146-154 | the requests whose deadline has passed |
| `EventLoops.EventLoop.ProcessDueCommitRequests` | internal/git/commit_request_attach_loop.go:146-173 | a due request closes the window it claims, any other is resolved without one |
| `EventLoops.EventLoop.RearmAttachTimer` | internal/git/commit_request_attach_loop.go:192-218 | the timer is armed for the earliest deadline, or stopped |
| `EventLoops.EventLoop.ServiceCommitRequests` | internal/git/commit_request_attach_loop.go:101-109 | attach, serve what is due, re-arm |
| `EventLoops.EventLoop.Step` | internal/git/branch_worker.go:628-666 | one iteration: wake, service requests, drain heals |
| `EventLoops.EventLoop.Serve` | internal/git/branch_worker.go:628-666 | the loop over any sequence of wakes is the run the theorems are about, and keeps every invariant of a worker that started fresh |
| `EventLoops.EventLoop.HandleShutdown` | internal/git/branch_worker.go:817-829 | close, drain, push without the cooldown |
| `LoopInvariants.FinalizeLedger` | internal/git/branch_worker.go:886-983 | closing a window keeps the byte accounts exact and never raises the retained total |
| `LoopInvariants.StepLedger` | internal/git/branch_worker.go:628-666 | every iteration keeps the byte accounts, the cap and the silence timer |
| `LoopRequests.FinalizeSound` | internal/git/branch_worker.go:886-983 | closing a window keeps the repository relation, the request lifecycle and the truth of outcomes |
| `LoopRequests.PushPendingSound` | internal/git/branch_worker.go:1022-1064 | so does a push, whatever happens during it |
| `LoopRequests.HandleItemSound` | internal/git/branch_worker.go:699-815 | so does every queue item |
| `LoopTheorems.OldestIsEarliestEligible` | internal/git/commit_request_attach_loop.go:114-130 | the request attached is a matching waiting one and none such has an earlier deadline |
| `LoopTheorems.ClaimedFinalizeForgets` | internal/git/commit_request_attach_loop.go:159-167 | closing the window a request claims always forgets the request, so the fallback after it is unreachable |
| `LoopTheorems.ServiceLeavesNothingOverdue` | internal/git/commit_request_attach_loop.go:101-218 | after a service pass no request due at its start is pending, and the timer is armed exactly for the minimum deadline, or at once when that has passed |
| `LoopTheorems.StepSound` | internal/git/branch_worker.go:628-666 | one iteration on any wake keeps every invariant |
| `LoopTheorems.RunSound` | internal/git/branch_worker.go:628-666 | every run keeps every invariant |
| `LoopTheorems.CommittedIsTrue` | internal/git/branch_worker.go:1022-1064 | in every run without a re-registered rider, a success out of a stopped replay or a replaced branch: a request reported Committed carries the hash of a commit on the remote branch, made from exactly the events of its window, for its author, target and message |
| `LoopTheorems.RequestIsInOnePlace` | internal/git/commit_request_attach_loop.go:68-218 | in every such run an id is in at most one of waiting, attached, riding one write, resolved; it is attached exactly when the open window claims it |
| `LoopTheorems.RiderIsOwner` | internal/git/branch_worker.go:886-959 | a request rides only a write of its own author, target, named-actor class and message |
| `LoopTheorems.BooksAreExact` | internal/git/branch_worker.go:695-697 | at every loop boundary the byte counters are exact, an open window is below the cap with its timer running, and every window and write has one author, attribution and target |
| `LoopTheorems.RemoteHistoryIsKept` | internal/git/branch_worker.go:1169-1263 | in every run that replaces no foreign branch, every tip the branch ever had is in its history, and the local head is the root with the queue applied unless a replay stopped part-way |
| `LoopTheorems.ShutdownDrains` | internal/git/branch_worker.go:817-829 | a shutdown after any run leaves no window and no parked heal, and nothing unpublished unless its one push fails |
| `LoopTheorems.RegisteringARiderDuplicatesIt` | internal/git/commit_request_attach_loop.go:68-96 | registering keeps a request in one place if and only if its id is resolved, pending, or not riding a retained write |
| `LoopTheorems.RiderResolvedExactly` | internal/git/branch_worker.go:1052-1064 | a successful push, not out of a stopped replay, resolves a rider if and only if its write changes the tip the queue was last built on with the writes before it applied, and then with its commit; otherwise the request is in no place at all |
| `ClosingWrites.GroupedMeans` | internal/git/pending_writes.go:15-147 | on every branch and slot the write made of a window leaves what its events leave under the target's own prune mode at its folder and the default elsewhere |
| `ClosingWrites.AtomicMeans` | internal/git/pending_writes.go:46-105 | so does the write of an atomic request |
| `ClosingWrites.ResyncMeans` | internal/git/resync_flush.go:305-420 | the write of a resync leaves what its snapshot leaves under the target's prune mode |
| `ClosingWrites.EventsRemoveNothing` | internal/git/plan_flush.go:1171-1187 | under a mode without event deletes no document of the target's folder is removed |
| `ClosingWrites.SnapshotRemovesOnlyOrphans` | internal/git/resync_flush.go:305-420 | a resync removes a document if and only if the mode is Always, its scope covers the identity and its snapshot does not list it, not even as a malformed entry |
| `ClosingWrites.SnapshotIsMirrored` | internal/git/resync_flush.go:384-410 | a document that the snapshot lists once is what the branch holds afterwards |
| `ClosingWrites.FinalizeLeaves` | internal/git/branch_worker.go:886-983 | a window is retained if and only if the gate lets its target through, its target can be read, it holds an event and the commit goes through; then one write of its message and size is added that leaves, on the head and on every branch it is replayed on, what its events leave under the metadata read; otherwise queue and branch stay |
| `ClosingWrites.FinalizeRemovesNothing` | internal/git/plan_flush.go:1171-1187 | closing a window under a mode without event deletes removes no document |
| `ClosingWrites.AtomicLeaves` | internal/git/branch_worker.go:788-815 | an atomic request that reaches its commit adds the write its events mean and is scheduled; otherwise it adds nothing |
| `ClosingWrites.ResyncLeaves` | internal/git/resync_flush.go:90-149 | so does a resync, retained only if it changes the head |
| `LoopOutcomes.OutcomesAreTrue` | internal/git/branch_worker.go:886-993 | in every run a request is reported Failed only if the window it claimed was dropped for the cause given, AlreadyPresent only if its window's events change nothing on the head they were committed on, NoOpenWindow only if it came due while it claimed no window; and no resolved request rides a retained write, unless a rider was registered again |
| `LoopOutcomes.FinalizeDecides` | internal/git/branch_worker.go:886-993 | closing the window of a request fails it with the first failing cause, or reports it present if the commit is the head itself, or lets it ride the retained write whose commit is the new head |
| `LoopGate.ClosedGateTakesNothing` | internal/git/branch_worker.go:724-815 | in every run in which the gate never opens no window is open for a named target and nothing is retained for one but resyncs |
| `LoopPacing.RunIsPaced` | internal/git/branch_worker.go:1000-1046 | in every run whose push timer fires only when it is due: the timer is armed exactly for the end of the cooldown, a push that succeeded came at least five seconds after the last one before, and an outcome less than fifteen minutes old is not forgotten |
| `LoopWakes.PushIsAllOrNothing` | internal/git/branch_worker.go:1022-1046 | a push empties the queue and starts the cooldown, or keeps queue, size, outcomes, requests and cooldown; no push timer runs after either |
| `LoopWakes.PushTimeoutPublishes` | internal/git/branch_worker.go:628-666 | a push timeout publishes what is retained if the push goes through |
| `LoopWakes.EventRestartsTimer` | internal/git/branch_worker.go:724-782 | an event the gate lets through leaves its window open holding it, with the silence timer started anew, only below the cap and with a commit window |
| `LoopWakes.CommitTimeoutCloses` | internal/git/branch_worker.go:628-666 | the silence timeout closes the window |
| `LoopWakes.RunIsTidy` | internal/git/branch_worker.go:628-666 | in every run, at every boundary: no window without a commit window, no parked heal without an open window |
| `LoopWakes.HealWaits` | internal/git/resync_flush.go:30-56 | a heal that finds a window open is parked, the newest of its target and scope, and nothing else changes |
| `LoopWakes.MakingRoomDrains` | internal/git/branch_worker.go:724-782 | an event that cannot join the window closes it and drains the parked heals before it opens its own |
| `LoopWakes.AtomicGoesLast` | internal/git/branch_worker.go:788-815 | an atomic request leaves no window open and no heal parked |
| `LoopWakes.AtomicTargetIsFirst` | internal/git/git_path_refusal.go:74-84 | without a target of its own an atomic request is gated by the first its events name |
| `LoopWakes.AttachRegisters` | internal/git/commit_request_attach_loop.go:68-96 | an unknown request is registered with its close delay in seconds from now, a known one changes nothing |
| `LoopSchedule.AtomicMarks` | internal/git/branch_worker.go:788-815 | after the closing of a window an atomic request leaves the queue unscheduled if and only if it is empty, its target's metadata cannot be read, or its own commit fails |
| `LoopSchedule.ResyncMarks` | internal/git/resync_flush.go:90-149 | so does a resync that closed a window if and only if its target has no name, its metadata cannot be read, or its own commit fails |
| `LoopSchedule.ItemMarks` | internal/git/branch_worker.go:699-815 | a queue item leaves a closed window's commit unscheduled, if there was none before, if and only if it is an atomic request or a resync that closed the window and then failed with nothing scheduled between |
| `LoopSchedule.StrandedExactly` | internal/git/resync_flush.go:129-133 | in every run, at every loop boundary: something is retained with no push timer running if and only if there is a turn in which a push failed, or a turn in which an atomic request or a resync closed a window and then failed, with nothing scheduled since |
| `LoopRuns.FreshRepo` | internal/git/branch_worker.go:624-626 | the repository of the runs below is one a worker can start over |
| `LoopRuns.AtomicRequestStrandsWindow` | internal/git/branch_worker.go:788-815 | a run of two turns, a live event and an empty atomic request, that leaves the window's commit unpushed and unscheduled |
| `LoopRuns.ResyncStrandsWindow` | internal/git/resync_flush.go:109-120 | a run of two turns in which a resync for a nameless target does the same |
| `LoopRuns.RiderIsRegisteredTwice` | internal/git/commit_request_attach_loop.go:70-78 | a run of four turns after which a request is waiting and riding at once |
| `LoopRuns.RiderIsForgotten` | internal/git/branch_worker.go:1052-1064 | a run of three turns in which someone else commits the same document first and the request ends in no place, without an outcome |
| `Paths.WithinIsSegmentPrefix` | internal/git/render_scope.go:342-349 | the string tests decide the prefix relation on path segments, for all strings |
| `Paths.JoinPathAppends` | internal/git/render_scope.go:367-373 | joining a path that does not climb out to an inside folder appends its segments |
| `RenderScope.EscapesExactly` | internal/git/render_scope.go:352-354 | a clean relative path is reported as escaping if and only if it is not made of names alone |
| `RenderScope.RelUnderCompletes` | internal/git/render_scope.go:328-338 | ancestor joined with the relative path is the child, and it is empty exactly when the two are equal |
| `RenderScope.CommonAncestor` | internal/git/render_scope.go:310-324 | the longest run of segments that leads every folder |
| `RenderScope.ReachableTargets` | internal/git/render_scope.go:164-191 | directories to follow and out-of-scope files, or an escape, exactly as the local entries say |
| `RenderScope.ResolveReadScope` | internal/git/render_scope.go:106-150 | on any finite graph, cyclic or not: refused if and only if a reachable kustomization refers outside the repository, otherwise exactly the out-of-scope files reachable kustomizations read, sorted |
| `RenderScope.RekeyScan` | internal/git/render_scope.go:197-219 | re-keyed entries stand for the same worktree files |
| `RenderScope.ScanRenderScope` | internal/git/render_scope.go:58-98 | anchor joined with jail is the target's folder; the jail is empty if and only if nothing is read from outside; every scan entry is the worktree file at its place and every needed readable file is there |
| `RenderScope.JailIsExact` | internal/git/plan_flush.go:1555-1564 | for a path that does not climb above the anchor, the scope test refuses exactly the paths whose place is outside the target's folder |
| `RenderScope.JailHolds` | internal/git/plan_flush.go:1522-1564 | no path the scope test lets through leaves the target's folder |
| `PlanFlush.IndexAddressesFirst` | internal/git/plan_flush.go:1409-1413 | the index found among the present documents addresses the first document of the identity, for edits and removals |
| `PlanFlush.ChangesKeepScan` | internal/git/plan_flush.go:241-252 | no change alters what was scanned, and every buffer knows its scanned content |
| `PlanFlush.NeverMisdirectedExactly` | internal/git/plan_flush.go:716-795 | for every interleaving of edits, deletes, appends and whole-file writes: at every point of the batch a file with unique identities is its original documents without the deleted ones, in order, each changed by exactly its own changes, then the appended ones, if and only if no whole-file write comes when the file should hold nothing, or one document that is not its own |
| `PlanFlush.DeletedIsRevivedExactly` | internal/git/plan_flush.go:1171-1219 | an identity deleted in a batch is back at some later point of it if and only if its own whole-file write reaches the file when at most one document is left |
| `PlanFlush.RewriteTakesSibling` | internal/git/plan_flush.go:1125-1158 | a concrete file of two documents: deleting the sensitive one and upserting it again in one batch brings it back and removes the other |
| `PlanFlush.NewFilesNeverMix` | internal/git/plan_flush.go:406-498 | in every batch and order, a file the batch creates holds exactly the admitted arrivals in identity order, and a sensitive document shares it with none |
| `PlanFlush.ArrivalOrderDoesNotMatter` | internal/git/plan_flush.go:458-533 | distinct plaintext documents placed at one new path make the same bytes in every order of arrival |
| `PlanFlush.RepeatedIdentityIsWrittenTwice` | internal/git/plan_flush.go:458-486 | a new file has unique identities if and only if no admitted identity was placed in it twice |
| `PlanFlush.TwoUpsertsOneIdentity` | internal/git/plan_flush.go:458-486 | a concrete batch of two upserts of one new identity that is written as two documents |
| `PlanFlush.FlushStaysInside` | internal/git/plan_flush.go:1425-1466 | every path whose bytes an accepted flush changes lies inside the target's folder |
| `PlanFlush.OracleJudgesWhatIsCommitted` | internal/git/plan_flush.go:999-1021 | the tree shown to the oracle equals the tree scanned after the flush if and only if the batch creates no empty file |
| `PlanFlush.RealContentIsNotEmpty` | internal/git/plan_flush.go:235-236 | with non-empty document texts no batch creates an empty file |
| `FolderBatches.FolderBatchIsSlotBatch` | internal/git/plan_flush.go:68-99 | in every accepted folder, for every sequence of events and every identity, the files after the batch hold for the identity exactly the documents, in order, that the batch over slots leaves at its slot |
| `FolderBatches.OwnStep` | internal/git/plan_flush.go:277-443 | an event does in the files what it does at its slot: edit, drop, append, join or start a file, or nothing |
| `FolderBatches.OtherStep` | internal/git/plan_flush.go:506-514 | and leaves the documents of every other identity alone |
| `FlushGuards.ArmedExactly` | internal/git/plan_flush.go:110-122 | the oracle is called for if and only if some change, when its turn comes, patches fields of a governed document, edits a rendered one, deletes from a listed file or writes a document that joins a kustomization |
| `FlushGuards.AcceptedExactly` | internal/git/plan_flush.go:1425-1446 | a plan is accepted if and only if no path it writes is ignored, outside the folder or shared, and the oracle vouches for the scanned and the resulting tree when a change calls for it |
| `FlushGuards.RefusalNamesFirst` | internal/git/plan_flush.go:1435-1446 | a refusal names the first check that fails |
| `FlushGuards.FlushIsGuarded` | internal/git/plan_flush.go:1425-1602 | no path whose bytes an accepted flush changes is ignored, shared or outside the folder |
| `FlushGuards.OracleVouchedForDisk` | internal/git/plan_flush.go:911-940 | if a change of an accepted flush calls for the oracle, it vouched for the folder as it was found and as it stands on disk afterwards |
| `FlushGuards.PlannedExactlyChanged` | internal/git/plan_flush.go:235-236 | a flush changes the bytes at a buffer's place if and only if the buffer is planned |
| `WriteBatches.WriteBatch.constructor` | internal/git/plan_flush.go:172-208 | an empty batch over a scan |
| `WriteBatches.WriteBatch.Touch` | internal/git/plan_flush.go:241-252 | hydrates a buffer from the scan on first touch and changes nothing else |
| `WriteBatches.WriteBatch.CurrentDocIndex` | internal/git/plan_flush.go:1409-1413 | the first position of the identity among the documents as they are now, if there is one |
| `WriteBatches.WriteBatch.PatchExisting` | internal/git/plan_flush.go:716-795 | rewrites the identity's document where it is now, or nothing |
| `WriteBatches.WriteBatch.ApplyFieldPatch` | internal/git/plan_flush.go:588-640 | patches a located document; a governed one calls for the oracle even if it is gone |
| `WriteBatches.WriteBatch.ApplyDelete` | internal/git/plan_flush.go:1171-1219 | gated by the prune mode; removes the identity's document, and the file with its last one |
| `WriteBatches.WriteBatch.WriteWholeFile` | internal/git/plan_flush.go:1125-1158 | replaces a file of at most one document, and never a multi-document one |
| `WriteBatches.WriteBatch.AppendNewDocument` | internal/git/plan_flush.go:506-514 | appends a document and keeps the others |
| `WriteBatches.WriteBatch.ColdBundleHasSensitive` | internal/git/plan_flush.go:491-498 | whether a member of the new file is sensitive |
| `WriteBatches.WriteBatch.WriteColdBundleMember` | internal/git/plan_flush.go:458-486 | the new file rebuilt from its members in identity order |
| `WriteBatches.WriteBatch.PlaceNewDocument` | internal/git/plan_flush.go:406-443 | append, join or start a new file, or skip rather than mix |
| `WriteBatches.WriteBatch.CreateNewDocument` | internal/git/plan_flush.go:343-402 | places a document and arms the oracle when a governed one was written |
| `WriteBatches.WriteBatch.ApplyEvent` | internal/git/plan_flush.go:277-312 | patch, delete or upsert by where the scan located the identity |
| `WriteBatches.WriteBatch.ApplyEvents` | internal/git/plan_flush.go:87-94 | the batch after a sequence of events |
| `WriteBatches.WriteBatch.Refusals` | internal/git/plan_flush.go:1476-1602 | exactly the planned paths a precondition refuses, sorted |
| `WriteBatches.WriteBatch.Files` | internal/git/plan_flush.go:999-1021 | the scanned tree with every buffer folded over it |
| `WriteBatches.WriteBatch.CheckPlan` | internal/git/plan_flush.go:1435-1446 | the first failing precondition, in order, if any |
| `WriteBatches.WriteBatch.Flush` | internal/git/plan_flush.go:1425-1466 | a refusal leaves the worktree unchanged; otherwise exactly the planned buffers are written or removed, and changed says whether there were any |
| `RenderFidelity.ScopeKeyIsNotWrite` | internal/git/render_fidelity_gate.go:22-24 | no scope is recorded under the key of a failed write |
| `RenderFidelity.Reduce` | internal/git/render_fidelity_gate.go:195-230 | the first diverged scope in key order decides, else all clean or still waiting, with the counts |
| `RenderFidelity.VerdictIsHistory` | internal/git/render_fidelity_gate.go:75-230 | for every history of calls: False exactly when a write failed or an accepted result diverged since the last Begin or Forget, True exactly when neither did and every scope of the epoch reported clean, else Unknown |
| `RenderFidelity.StaleChangesNothing` | internal/git/render_fidelity_gate.go:115-142 | a result for another epoch or an unknown scope changes nothing |
| `RenderFidelity.EarlierEpochIsRefused` | internal/git/render_fidelity_gate.go:115-142 | until the target is forgotten, a result of an earlier epoch is never accepted |
| `RenderFidelity.EarlierResultExactly` | internal/git/render_fidelity_gate.go:115-142 | a result measured in an earlier epoch is accepted if and only if it is for a current scope and that epoch is still current, or the target was forgotten since and has come to the same epoch number again |
| `RenderFidelity.ForgottenEpochIsAccepted` | internal/git/render_fidelity_gate.go:189-193 | after Forget a result measured before it is accepted and opens the gate |
| `RenderFidelity.RenderFidelityGate.constructor` | internal/git/render_fidelity_gate.go:69-71 | the gate of the empty history |
| `RenderFidelity.RenderFidelityGate.Begin` | internal/git/render_fidelity_gate.go:75-92 | a new epoch with every scope pending |
| `RenderFidelity.RenderFidelityGate.RecordScope` | internal/git/render_fidelity_gate.go:115-142 | counts only for the current epoch and a known scope; a divergence is not cleared |
| `RenderFidelity.RenderFidelityGate.Fail` | internal/git/render_fidelity_gate.go:146-165 | closes the target at once |
| `RenderFidelity.RenderFidelityGate.StatusOf` | internal/git/render_fidelity_gate.go:169-180 | the reduction; an unknown target is writable |
| `RenderFidelity.RenderFidelityGate.AllowsWrites` | internal/git/render_fidelity_gate.go:184-186 | writes are allowed exactly in the state True |
| `RenderFidelity.RenderFidelityGate.Forget` | internal/git/render_fidelity_gate.go:189-193 | removes the target |
| `PathOwnership.NormalizeAgreesWithWriter` | internal/git/git.go:278-312 | for every valid path the overlap check compares exactly the folder the writer writes |
| `PathOwnership.InvalidPathWritesAtRoot` | internal/git/git.go:278-312 | every other path is written at the repository root |
| `PathOwnership.ValidPathExactly` | internal/git/git.go:278-312 | a path is valid if and only if, trimmed, it is empty or a dot, or relative, without backslashes and double dots, and names a folder |
| `PathOwnership.OverlapIsSharedSubtree` | internal/controller/gittarget_path_overlap.go:18-51 | two valid paths overlap if and only if some place lies in both folders |
| `PathOwnership.CheckForConflicts` | internal/controller/gittarget_controller.go:734-799 | no conflict exactly when nothing blocks the target, else the first blocker of the listing |
| `PathOwnership.OneLoses` | internal/controller/gittarget_path_overlap.go:60-74 | of two different targets of a namespace one loses |
| `PathOwnership.LosesToEarlierExactly` | internal/controller/gittarget_path_overlap.go:53-74 | a target loses exactly to one of its namespace created before it, or at the same time under a lesser name |
| `PathOwnership.PassesExactly` | internal/controller/gittarget_controller.go:734-799 | a target passes if and only if it came before every target of its provider and branch with which its folder has a place in common, invalid paths taking no part |
| `PathOwnership.FirstCreatedPasses` | internal/controller/gittarget_path_overlap.go:53-69 | a target created before all its neighbours, or at the same time under a lesser name, passes |
| `PathOwnership.NewcomerEvictsNone` | internal/controller/gittarget_path_overlap.go:53-69 | a target created later never blocks one that passed, wherever it is listed |
| `PathOwnership.NewcomerIsBlocked` | internal/controller/gittarget_path_overlap.go:53-69 | and does not pass itself while it contends with an earlier one |
| `PathOwnership.LosingIsTransitive` | internal/controller/gittarget_path_overlap.go:60-69 | losing is transitive, so with the above a strict total order |
| `PathOwnership.PassingTargetsAreDisjoint` | internal/controller/gittarget_controller.go:734-799 | on any snapshot, valid targets of one provider and branch that pass own disjoint subtrees |
| `PathOwnership.PassingTargetsShareExactly` | internal/controller/gittarget_controller.go:739-744 | two passing targets share a place if and only if one of them has an invalid path |
| `PathOwnership.InvalidPathSharesRoot` | internal/controller/gittarget_controller.go:739-744 | a concrete pair of passing targets, one invalid, both written at the root |
| `PathOwnership.OneOwnerPerFolder` | internal/git/pending_writes.go:217-227 | a folder has at most one passing valid owner |
| `PathOwnership.EarliestPasses` | internal/controller/gittarget_path_overlap.go:60-69 | one target of a provider and branch passes: the one created first, of several created at once the one with the least name |
| `PathOwnership.PruneModeForBase` | internal/git/pending_writes.go:185-192 | the first match of the range, else the default mode |
| `PathOwnership.LookupIsOrderIndependent` | internal/git/pending_writes.go:185-192 | for passing targets the lookup does not depend on the order of the range |
| `SourceScope.SortedUnique` | internal/authz/source_namespace.go:612-624 | the distinct strings in order |
| `SourceScope.EnumerateNamespaces` | internal/watch/source_namespace_scope.go:209-243 | exactly the snapshot's namespaces the selector admits, or why it cannot tell |
| `SourceScope.ItemGate.constructor` | internal/authz/source_namespace.go:240-248 | nothing asked yet |
| `SourceScope.ItemGate.OverrideDelegated` | internal/authz/source_namespace.go:328-350 | the provider is read at most once and its first answer is kept |
| `SourceScope.ItemGate.Expand` | internal/authz/source_namespace.go:453-504 | exactly the listed and selected namespaces, in full or not at all |
| `SourceScope.ItemGate.Decide` | internal/authz/source_namespace.go:251-319 | the decision of one item, or a failed read |
| `SourceScope.ResolveScope` | internal/authz/source_namespace.go:217-234 | fails exactly when an item overrides and the read fails; otherwise memoised decisions equal per-item ones and are aggregated |
| `SourceScope.AggregateScope` | internal/authz/source_namespace.go:546-567 | denied before unavailable before unknown before admitted, with the reason |
| `SourceScope.FirstWithVerdict` | internal/authz/source_namespace.go:569-576 | an item with the verdict exactly when there is one |
| `SourceScope.AdmittedReason` | internal/authz/source_namespace.go:581-600 | empty scope, all legacy, or allowed |
| `SourceScope.WildcardAgreesExactly` | internal/authz/source_namespace.go:405-504 | the decisions for a star and for a name agree on a namespace if and only if it is listed, or exists, or the selector does not admit the empty label set, or there is no selector |
| `SourceScope.WildcardAgreesEverywhere` | internal/watch/source_namespace_scope.go:167-173 | they agree on every name if and only if the policy has no selector or one that does not admit the empty label set |
| `SourceScope.AbsentNamespaceIsAdmittedByName` | internal/watch/source_namespace_scope.go:167-173 | a concrete policy and an absent namespace that is admitted by name and missing from the expansion |
| `SourceScope.AdmittedExactlyWhenAllAre` | internal/authz/source_namespace.go:546-567 | a rule is admitted if and only if each of its items is, denied if and only if one is, and else unavailable if and only if one is |
| `SourceScope.VerdictIgnoresOrder` | internal/authz/source_namespace.go:546-600 | the aggregate verdict and reason do not depend on the order of the items |
| `SourceScope.NothingBeyondPolicy` | internal/authz/source_namespace.go:251-350 | another namespace than the rule's own needs a provider that was found, admits the target and delegates, and a policy; a declared policy admits every namespace watched |
| `SourceScope.WatchedExactly` | internal/authz/source_namespace.go:251-504 | an item watches a namespace if and only if it asks for it, alone or among all, the provider was found, admits and delegates if that is not the rule's own, and the declared policy, which only the rule's own can do without, is well formed and has it |
| `SourceScope.LongNameIsUnavailable` | api/v1alpha3/namespace_matcher.go:88-98 | a listed name of no or more than 63 characters makes the policy unavailable |

## Left out

- The transport: packfiles, credentials, sessions, signing. A push is a compare-and-set of one reference that succeeds, fails, or succeeds without an acknowledgement.
- YAML editing: an edit is a function on a document's text that keeps its identity, and a file is its sequence of documents. Whether the splitter is lossless is not modelled.
- New-file placement, the kustomize render and its oracle, the source-form projection and the SOPS encryption are inputs.
- The intents handed to the render oracle.
- File-system errors in the middle of a flush, and of an atomic write that spans several folders only some of which were flushed.
- Failures to check out or create the write branch, and a head on another branch than the target.
- Identities as written in a file differ from effective ones when a kustomization supplies the namespace; one identity is used for both.
- The key of an event in a window is the pair of its folder and its identity, not the string built from them.
- QueueReplay.QueueReplaysExactly: a write that upserts a new plain identity twice is left out, since the folder it leaves refuses the next write.
- FolderBatches.FolderBatchIsSlotBatch: a new identity that cannot be placed is skipped by the files' batch and created by the slots' batch; in an accepted folder here every identity concerned has a place.
- A folder that stores an identity twice is refused before its events are applied; the refusal is an input like every other failure of a write, and what the slots' batch does there has no meaning.
- WriteBatches.WriteBatch.PatchExisting: values routed to kustomize overrides and render-fidelity refusals are not modelled.
- WriteBatches.WriteBatch.ApplyDelete: a delete of an inherited object by a patch, and the removal of the file's resources entry, are not modelled.
- WriteBatches.WriteBatch.WriteWholeFile: equality of manifests up to formatting is not modelled; the write is skipped only when the document is the same.
- WriteBatches.WriteBatch.CreateNewDocument: the resources entry added to a kustomization is not modelled.
- EventLoops.EventLoop.ApplyResync: a resync is the sweep and the upserts of the desired documents; its statistics and retention reports are not modelled.
- EventLoops.EventLoop.RearmAttachTimer: a deadline equal to the zero time, and overflow of a close delay in nanoseconds, are not modelled.
- PlanFlush.ArrivalOrderDoesNotMatter: for equal identities the library sort leaves the order open; the model keeps arrival order.
- RenderScope.ScanRenderScope: the foreign entries and the ignore matcher of the scan are not modelled, and the scan is a map rather than a sorted list.
- RenderFidelity.VerdictIsHistory: epochs are unbounded, so a wrapped 64-bit counter is not modelled.
- Reconcilers, watch mappers, status patching, telemetry, logging, messages and commit message templates.
- The retained grants of source scopes and their fingerprints, and the admission of a target by its provider, which is an input here.
