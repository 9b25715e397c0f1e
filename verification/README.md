# A verified model of liber's trees, thread pool, event loop, streams and lists

liber is a C library with intrusive containers (`src/common/ds`), a POSIX thread pool
(`src/system/nx/thread_pool`) and an event loop on epoll that runs its handlers on that pool
(`src/fevent_loop`). This project models the parts of it where a mistake would be hard to see in the code, and
proves what they keep.

- **Red-black tree** (`RbShape`, `RbFixup`, `RbLinks`, `RbOrder`, `RbTree`). `RbTrees.RbTree` works on nodes
  with parent, colour and child links, in place and with real NULL leaves, as the source does. Its fixup loops
  are proved over a cursor: the subtree that the loop has reached together with the path to the root
  (`RbShape.Cursor`). `RbFixup` says what each case of the two loops does to such a cursor, `RbLinks` that the
  assignments of a rotation, a recolouring or a transplant do exactly this to the links.
- **Watch tree and watch pool** (`WatchTree`, `WatchPool`): the tree as a finite map from descriptors to items.
- **Thread pool** (`PoolModel`, `PoolSafety`, `PoolRuns`, `PoolFailures`, `PoolProgress`, `ThreadPool`). A step is what one thread
  does while it holds `pool_mtx`. `ThreadPools.ThreadPool` has the fields of `struct _thread_pool`; its methods are
  proved against the steps, and keep the invariant. The theorems of `PoolRuns` and `PoolFailures` are about all
  sequences of steps, in any interleaving; `PoolProgress` says from which states the workers can bring tp_wait and
  tp_cancel to their end.
- **Event loop** (`EventModel`, `EventPlaces`, `EventTokens`, `EventRights`, `EventFlow`, `EventLedger`,
  `EventRuns`, `EventOutcomes`, `EventProgress`, `EventPool`, `EventSimulation`, `EventQueue`). A step is one access to something shared: the pipe,
  epoll, the watch tree, the ready queue, the pool, or `running`. The modules up to `EventLedger` hold the
  invariants, `EventRuns` the theorems about all runs. `EventOutcomes` says what the answers of callbacks lead to, and
  `EventProgress` where the loop thread goes. The event loop sees the pool as a queue of jobs and its
  active handlers; `EventPool` and `EventSimulation` prove that every run of the loop with the pool of `PoolModel`
  is a run with this view.
  `EventQueue.ReadyQueue` has the loops of the ready queue.
- **Ternary search tree** (`TstShape`, `TstMap`, `TstRuns`, `TernaryTree`): the operations as functions on tree
  values, what they mean for the map that a tree stands for, and `TernaryTrees.TernaryTree` on linked nodes,
  with the back links, proved against those functions.
- **Circular list** (`CircularList`), on nodes with `next` and `prev`.
- **Ring buffer and its streams** (`RingBuffer`, `Streams`, `FileReads`, `FileProgress`): offsets are unsigned longs with their wrap-around,
  the doubled mapping is one array shown twice.
- **Tokenizer** (`Tokenizer`): `strtok_s` writing terminators into its buffer.

The environment appears as parameters and non-deterministic steps: which workers a signal wakes, what epoll
reports and when, what read(2), write(2) and select(2) return, whether pthread_create and epoll_ctl succeed, and
what callbacks return. Condition variables follow POSIX.1-2017 (a signal wakes at least one waiter if there is
one, a waiter may wake for no reason, a timed-out waiter consumes no signal).

## What the code does not do

Some expectations turned out to be false of the code. The code is modelled as it is; each has a concrete
input or run, and the exact condition under which the expectation fails.

- The number of worker threads may exceed `t_num_max`, because `tp_queue` counts registered workers only:
  `PoolRuns.MaxCanBeExceeded`; exactly when, in `PoolRuns.WithinMax`.
- It may fall below `t_num_min`: `PoolRuns.MinCanBeUndershot`; exactly when, in `PoolRuns.WithinMin`.
- The minimum may end up above the maximum, because defaults are filled in after the check:
  exactly when, with the inputs, in `PoolRuns.LimitsInOrder`.
- A thread blocked in `tp_wait` may be forgotten by a concurrent `tp_cancel`: `PoolRuns.WaiterCanBeForgotten`;
  exactly when, in `PoolRuns.CancelStrandsWaiter`.
- A failed `pthread_create` may leave an accepted job without a worker: `PoolFailures.FailedSpawnStrandsJob`;
  exactly when, in `PoolFailures.StrandsExactly`; and only then can the workers not finish all jobs:
  `PoolProgress.JobsCanEnd`.
- `tst_delete` follows a NULL back link for the empty key, and for a key that was put where another had been
  deleted: `TstRuns.VacatedPlaceLosesLink`; exactly when, in `TstRuns.FaultsWithoutLink` and
  `TstRuns.InsertedLinks`.
- `tst_delete` decrements `key_num` for keys that are not there: `TstRuns.KeyNumGoesNegative`; exactly then, in
  `TstRuns.KeyNumInStep`.
- `ring_buffer_create` returns a buffer of size 0, at the address that mmap fails with, when rounding the size
  overflows, since it does not compare the results of mmap with MAP_FAILED:
  `RingBuffers.OverflowGetsNothing`; exactly when, in `RingBuffers.OpenedIsUsable`.
- A descriptor that is only watched for writing and hangs up is reported to a handler without any event:
  `EventQueue.HangupOfWriter`; exactly when, in `EventQueue.ReportWithoutEvent`.
- Adding a descriptor that is watched already does not leave it as it was: the item that is refused is freed,
  which closes the descriptor, and used all the same; the call fails for that reason and takes the old item out
  of the tree, so that the descriptor ends up closed and forgotten. If its open file is shared with another
  descriptor, epoll goes on reporting it, without an item: `WatchPools.AddedTwice`; exactly when, in
  `WatchPools.WatchPool.Add`.
- `fd_dump` documents a call of its completion callback when it has finished or an error occurs. It makes two
  when reading fails, and none when it does not get its buffer: `Streams.CalledTwice`, `Streams.NeverCalled`;
  exactly when, in `Streams.CalledOnceOrTwice`.
- The comment at the exit test of `ev_loop_run` says that the order of its conditions is critical. It is:
  `EventRuns.Quiescence` holds for the order of the source, `EventRuns.OrderMatters` has a run in which the other
  order leaves work behind.

## Model

| member | source | states |
|---|---|---|
| `RbTrees.RbTree.RotateLeft` | src/common/ds/rbtree.c:31-54 | the six link changes turn the tree at the cursor and nothing else; parents, children and root stay mutually inverse |
| `RbTrees.RbTree.RotateRight` | src/common/ds/rbtree.c:56-79 | the mirror image |
| `RbTrees.RbTree.InsertFixup` | src/common/ds/rbtree.c:85-137 | from a tree that is red-black but for a red node below a red one, the loop ends (the cursor's depth falls by two, or it stops) in a red-black tree with the same in-order sequence |
| `RbTrees.RbTree.FixRedTwice` | src/common/ds/rbtree.c:90-135 | one round: the defect moves two levels up or is gone |
| `RbTrees.RbTree.RedUncle` | src/common/ds/rbtree.c:94-100 | case 1 |
| `RbTrees.RbTree.BlackUncleLeft` | src/common/ds/rbtree.c:101-112 | cases 2 and 3 below a left link |
| `RbTrees.RbTree.BlackUncleRight` | src/common/ds/rbtree.c:122-133 | cases 2 and 3 below a right link |
| `RbFixup.GrandparentIsBlack` | src/common/ds/rbtree.c:90-94 | inside the loop the grandparent exists and is black |
| `RbFixup.RecoloredKeeps` | src/common/ds/rbtree.c:95-100 | recolouring keeps black heights and order, and moves the only possible defect up |
| `RbFixup.StraightenedKeeps` | src/common/ds/rbtree.c:103-107 | so does the inner rotation, which turns an inner grandchild into an outer one |
| `RbFixup.LiftedKeeps` | src/common/ds/rbtree.c:108-111 | the outer rotation removes the defect |
| `RbFixup.InsertionDone` | src/common/ds/rbtree.c:136 | painting the root black completes a red-black tree |
| `RbTrees.RbTree.Insert` | src/common/ds/rbtree.c:140-170 | the tree stays valid, the new node is added to the in-order sequence and all others keep their order; under a comparison that is a total preorder it stands after all nodes that are equal to it and before all that are greater |
| `RbOrder.DescentStep` | src/common/ds/rbtree.c:151-155 | going left below zero and right otherwise keeps the place between what is smaller or equal and what is greater |
| `RbOrder.InsertionKeepsSorted` | src/common/ds/rbtree.c:140-170 | inserting at such a place keeps the sequence sorted |
| `RbTrees.RbTree.Min` | src/common/ds/rbtree.c:173-180 | the leftmost node below the cursor |
| `RbTrees.RbTree.Max` | src/common/ds/rbtree.c:182-189 | the rightmost node below the cursor |
| `RbTrees.RbTree.First` | src/common/ds/rbtree.c:191-194 | the first node in order, or NULL |
| `RbTrees.RbTree.Last` | src/common/ds/rbtree.c:196-199 | the last node in order, or NULL |
| `RbTrees.RbTree.Next` | src/common/ds/rbtree.c:202-224 | the in-order successor, found through links only, or NULL |
| `RbTrees.RbTree.NextAbove` | src/common/ds/rbtree.c:206-219 | the climb through parent links |
| `RbTrees.RbTree.Prev` | src/common/ds/rbtree.c:227-245 | the in-order predecessor, or NULL |
| `RbTrees.RbTree.PrevAbove` | src/common/ds/rbtree.c:230-241 | the climb through parent links |
| `RbTrees.RbTree.Walk` | tests/rbtree_tests.c:60-72 | rb_first and rb_next list the in-order sequence once and end |
| `RbTrees.RbTree.WalkBack` | src/common/ds/rbtree.c:196-245 | rb_last and rb_prev list its reverse |
| `RbTrees.RbTree.ThereAndBack` | src/common/ds/rbtree.c:202-245 | rb_prev undoes rb_next on every node but the last |
| `RbTrees.RbTree.BackAndThere` | src/common/ds/rbtree.c:202-245 | rb_next undoes rb_prev on every node but the first |
| `RbTrees.RbTree.Transplant` | src/common/ds/rbtree.c:249-259 | one subtree takes the place of another under the same parent |
| `RbTrees.RbTree.DeleteFixup` | src/common/ds/rbtree.c:261-357 | from a tree that lacks one black node at the cursor, NULL or not, the loop ends in a red-black tree with the same in-order sequence; `pnode` and `is_right` stand in for the links of a NULL node |
| `RbFixup.SiblingExists` | src/common/ds/rbtree.c:281-285 | the sibling of a doubly black node is never NULL, so that the escape for it is never taken (likewise 319-323) |
| `RbTrees.RbTree.FixLackLeft` | src/common/ds/rbtree.c:276-315 | one round below a left link: the lack moves up or is gone, and the tree keeps its order |
| `RbTrees.RbTree.FixLackRight` | src/common/ds/rbtree.c:316-354 | one round below a right link |
| `RbFixup.SiblingRaisedKeeps` | src/common/ds/rbtree.c:286-293 | case 1 leads to the others with a black sibling |
| `RbFixup.SiblingReddenedKeeps` | src/common/ds/rbtree.c:295-299 | case 2 moves the lack up |
| `RbFixup.RedMovedOutKeeps` | src/common/ds/rbtree.c:302-309 | case 3 leads to case 4 |
| `RbFixup.LackFilledDone` | src/common/ds/rbtree.c:310-314 | case 4 leaves a red-black tree |
| `RbFixup.LackFilledOrder` | src/common/ds/rbtree.c:310-314 | with the same order |
| `RbFixup.DeletionDone` | src/common/ds/rbtree.c:356 | painting the last node black fills a lack at a red node or at the root |
| `RbFixup.NodeTakenOut` | src/common/ds/rbtree.c:373-382 | taking out a node with one child leaves a lack where it was if it was black, and none otherwise |
| `RbFixup.SuccessorMoved` | src/common/ds/rbtree.c:383-403 | so does taking out the successor and giving it the place and colour of the node |
| `RbFixup.SuccessorOrder` | src/common/ds/rbtree.c:383-403 | and exactly the node is missing from the order afterwards |
| `RbTrees.RbTree.Splice` | src/common/ds/rbtree.c:367-403 | the first half of rb_erase, in all its cases |
| `RbTrees.RbTree.Erase` | src/common/ds/rbtree.c:362-410 | the tree stays valid, and its in-order sequence is the old one without exactly the erased node, which becomes an orphan |
| `WatchTrees.HeightIsLogarithmic` | src/common/ds/rbtree.c:5-15 | 2^height is at most (n + 1)^2 in a red-black tree with n nodes |
| `WatchTrees.WatchTree.Search` | src/fevent_loop/_ev_watch_item.c:75-92 | map lookup, after at most 2 log2(n + 1) rounds |
| `WatchTrees.WatchTree.Add` | src/fevent_loop/_ev_watch_item.c:39-72 | map insertion if the descriptor is absent, and -1 with nothing changed if it is there |
| `WatchTrees.WatchTree.Delete` | src/fevent_loop/_ev_watch_item.c:94-104 | map removal, and the removed item or NULL |
| `WatchPools.WatchPool.Add` | src/fevent_loop/_ev_watch_pool.c:54-79 | 0 exactly for a descriptor that is open, not watched yet and accepted by epoll_ctl, which is then in the map and armed; otherwise -1, the descriptor is closed and not in the map, even if it was, and not armed unless its open file is shared; epoll is left with a descriptor without item exactly if an armed and shared one is added again |
| `WatchPools.WatchPool.Close` | src/fevent_loop/_ev_watch_item.c:20-28 | freeing an item closes its descriptor, which disarms it unless its open file is shared |
| `WatchPools.AddedTwice` | src/fevent_loop/_ev_watch_pool.c:63-78 | a descriptor that is added twice ends up closed and without an item, and armed exactly if its open file is shared |
| `WatchPools.WatchPool.Del` | src/fevent_loop/_ev_watch_pool.c:80-96 | out of the map and closed in any case; an armed and shared descriptor for which epoll_ctl fails is exactly the case that leaves epoll with a freed item |
| `WatchPools.WatchPool.Mod` | src/fevent_loop/_ev_watch_pool.c:98-121 | armed again if it is watched; 0 for descriptors that are not |
| `ThreadPools.ThreadPool.TpCreate` | src/system/nx/thread_pool/_thread_pool.c:51-90 | NULL exactly if the minimum is above the maximum; otherwise a pool that satisfies the invariant, with the defaults, which are filled in after that check |
| `PoolRuns.LimitsInOrder` | src/system/nx/thread_pool/_thread_pool.c:55-64 | the limits that a pool gets are in order if and only if not the minimum is left to its default and the maximum given below that |
| `ThreadPools.ThreadPool.JobEqueue` | src/system/nx/thread_pool/_tp_job.c:5-19 | the step function `Enqueued` |
| `ThreadPools.ThreadPool.JobDqueue` | src/system/nx/thread_pool/_tp_job.c:21-26 | takes the first job |
| `ThreadPools.ThreadPool.JobQueueDestroy` | src/system/nx/thread_pool/_tp_job.c:28-36 | discards all jobs, in order |
| `ThreadPools.ThreadPool.WorkerCleanup` | src/system/nx/thread_pool/_tp_thread.c:164-179 | the step function `CleanedUp`: counts down, wakes the threads at the end of tp_cancel, or spawns a successor |
| `ThreadPools.ThreadPool.JobFinish` | src/system/nx/thread_pool/_tp_thread.c:181-192 | the step function `JobFinished` |
| `ThreadPools.ThreadPool.WorkerLoop` | src/system/nx/thread_pool/_tp_thread.c:101-157 | the step function `Looped`: goes to sleep, exits, or takes the first job |
| `ThreadPools.ThreadPool.WorkerStart` | src/system/nx/thread_pool/_tp_thread.c:124-147 | the step `Start`, which keeps the invariant |
| `ThreadPools.ThreadPool.WorkerResume` | src/system/nx/thread_pool/_tp_thread.c:101-147 | the step `Resume`, which keeps the invariant |
| `ThreadPools.ThreadPool.WorkerExit` | src/system/nx/thread_pool/_tp_thread.c:115-179 | the step `Exit`, which keeps the invariant |
| `ThreadPools.ThreadPool.WorkerFinish` | src/system/nx/thread_pool/_tp_thread.c:134-192 | the step `Finish`, which keeps the invariant |
| `ThreadPools.ThreadPool.WorkerAbort` | src/system/nx/thread_pool/_tp_thread.c:149-192 | the step `Abort`, both clean-up handlers after a cancellation inside a job, which keeps the invariant |
| `ThreadPools.ThreadPool.NotifyWaiter` | src/system/nx/thread_pool/_thread_pool.c:199-205 | the step function `Notified` |
| `ThreadPools.ThreadPool.EnqueueJob` | src/system/nx/thread_pool/_thread_pool.c:113-135 | the step `Queue`, which keeps the invariant, and when the result is -1 |
| `ThreadPools.ThreadPool.WaitRound` | src/system/nx/thread_pool/_thread_pool.c:137-148 | the step `WaitCheck`; tp_wait returns exactly when every accepted job has ended or been discarded |
| `ThreadPools.ThreadPool.CancelAll` | src/system/nx/thread_pool/_thread_pool.c:150-158 | the step `Cancel`, which keeps the invariant; afterwards no job is queued and no worker waits |
| `ThreadPools.ThreadPool.ExitRound` | src/system/nx/thread_pool/_thread_pool.c:162-167 | the step `ExitCheck`, which keeps the invariant; tp_cancel returns only when t_total is 0 |
| `ThreadPools.ThreadPool.IsBusy` | src/system/nx/thread_pool/_thread_pool.c:189-196 | true exactly if some accepted job has neither ended nor been discarded, and exactly if some job is queued or running on a worker |
| `PoolRuns.QuietMeansDone` | src/system/nx/thread_pool/_thread_pool.c:137-205 | in every state that satisfies the invariant, empty queues mean that all accepted jobs have ended or been discarded, and conversely |
| `PoolSafety.StepKeeps` | src/system/nx/thread_pool/_tp_thread.c:92-192 | every step of every thread keeps the invariant: counts, flags, order of jobs, clients, and work that is served |
| `PoolSafety.QueueServed` | src/system/nx/thread_pool/_thread_pool.c:113-135 | after tp_queue somebody is on the way to the job |
| `PoolSafety.CleanedUpServed` | src/system/nx/thread_pool/_tp_thread.c:164-179 | a worker that times out on a non-empty queue leaves a successor or others that serve it |
| `PoolRuns.NoStrandedJob` | src/system/nx/thread_pool/_tp_thread.c:92-179 | before any cancellation and without failed pthread_create, a queued job always has a worker that is spawned, active or woken, or else all idle workers have timed out and are about to clean up |
| `PoolRuns.PoolAccounting` | src/system/nx/thread_pool/_tp_thread.c:124-192 | t_total counts the two queues, which are disjoint; POOL_BUSY is set while there is work; every accepted job is started once, in FIFO order, or discarded, or queued; the started ones run or have ended |
| `PoolRuns.NoLostClient` | src/system/nx/thread_pool/_thread_pool.c:137-168 | before any cancellation, a thread blocked in tp_wait has work to wait for and POOL_WAIT set; later too, unless a cancellation found it with no active worker; one blocked at the end of tp_cancel has workers to wait for |
| `PoolRuns.CancelStrandsWaiter` | src/system/nx/thread_pool/_thread_pool.c:150-160 | a thread that tp_cancel finds blocked in tp_wait can still be released, without a new job or a spurious wake-up, if and only if some worker is active then or has been spawned and not registered |
| `PoolRuns.ForgottenForever` | src/system/nx/thread_pool/_thread_pool.c:137-168 | in a cancelled pool without active and spawned workers, whatever idle ones there are, a blocked thread stays blocked, but for a new job or a spurious wake-up |
| `PoolRuns.WaiterCanBeForgotten` | src/system/nx/thread_pool/_thread_pool.c:150-160 | a run to such a state |
| `PoolRuns.WithinMax` | src/system/nx/thread_pool/_thread_pool.c:128-131 | threads stay within t_max at a step if and only if it is not a tp_queue that asks for one more while as many as the maximum are registered or on their way |
| `PoolRuns.MaxCanBeExceeded` | src/system/nx/thread_pool/_tp_thread.c:133 | a run to t_total = 2 with t_max = 1 |
| `PoolRuns.WithinMin` | src/system/nx/thread_pool/_tp_thread.c:101-121 | threads fall below t_min at a step if and only if a worker leaves, after a time-out or inside its job, while as many as the minimum are registered; a worker waits without a limit exactly if there are no more than these |
| `PoolRuns.MinCanBeUndershot` | src/system/nx/thread_pool/_tp_thread.c:164-179 | a run to t_total = 0 with t_min = 1 |
| `PoolProgress.CancelLeavesNobodyWaiting` | src/system/nx/thread_pool/_tp_thread.c:74-88 | in every run, a cancelled pool has no worker that waits for a job |
| `PoolProgress.CancelledCanEnd` | src/system/nx/thread_pool/_thread_pool.c:150-168 | from every state of a cancelled pool the workers alone, without signals, new jobs or spurious wake-ups, can bring t_total to 0 and release the thread in tp_cancel; and those in tp_wait, if no job was queued since and some worker was active or not registered |
| `PoolProgress.CancelCanReturn` | src/system/nx/thread_pool/_thread_pool.c:150-168 | so tp_cancel can return in every run |
| `PoolProgress.JobsCanEnd` | src/system/nx/thread_pool/_tp_thread.c:92-192 | in every run before a cancellation, the workers alone can bring all accepted jobs to their end and release all threads in tp_wait, if and only if no job is stranded |
| `PoolFailures.StrandsExactly` | src/system/nx/thread_pool/_tp_thread.c:172-175 | a step leaves a queued job without anybody on the way to it, if and only if it is a failing pthread_create in tp_queue or worker_cleanup while there is no other worker |
| `PoolFailures.OnlyFatalFailuresStrand` | src/system/nx/thread_pool/_thread_pool.c:128-131 | over all runs: whatever other failures there are, no job is stranded without such a step |
| `PoolFailures.FailedSpawnStrandsJob` | src/system/nx/thread_pool/_thread_pool.c:128-131 | a run to a queued job that nobody serves |
| `EventModel.FirstNonEmpty` | src/fevent_loop/_ev_ready_queue.c:87-100 | the first list that is not empty, all before it being empty |
| `EventQueue.ReadyQueue.HighestPriority` | src/fevent_loop/_ev_ready_queue.c:87-100 | the loop finds it, and returns -1 exactly if all lists are empty |
| `EventQueue.ReadyQueue.IsEmpty` | src/fevent_loop/_ev_ready_queue.c:103-106 | true exactly if all lists are empty |
| `EventQueue.ReadyQueue.NReady` | src/fevent_loop/_ev_ready_queue.c:227-243 | the length of that list, 0 exactly if all are empty |
| `EventQueue.ReadyQueue.Dequeue` | src/fevent_loop/_ev_ready_queue.c:153-170 | takes the first item of one list |
| `EventQueue.ReadyQueue.Dispatch` | src/fevent_loop/_ev_ready_queue.c:200-218 | all items of the first list that is not empty move to the pool in order, and nothing else changes |
| `EventQueue.DispatchInSteps` | src/fevent_loop/_ev_ready_queue.c:208-215 | the protocol steps of the loop thread add up to the same |
| `EventQueue.ItemDispatch` | src/fevent_loop/_ev_ready_item.c:26-55 | the shifting loop calls the callbacks of `Called`, and returns what `Asked` says |
| `EventQueue.CalledInOrder` | src/fevent_loop/_ev_ready_item.c:37-51 | these are the callbacks of exactly the events that occurred, in order, each once |
| `EventQueue.AskedByOne` | src/fevent_loop/_ev_ready_item.c:42-45 | an event is returned if and only if one of them returned it without EV_IGN |
| `EventQueue.WhatFollows` | src/fevent_loop/_ev_ready_queue.c:181-196 | which branch of event_handler is taken, in terms of what the callbacks answered: it gives its descriptor up exactly if nothing was asked for, or both EV_FIN and EV_ASYNC |
| `EventQueue.OnlyWatchedEvents` | src/fevent_loop/_ev_monitor_core/_epoll.c:31-41 | handlers only get events that were asked for |
| `EventQueue.MasksRoundTrip` | src/fevent_loop/_ev_monitor_core/_epoll.c:19-41 | translating to epoll's events and back gives the same events, and arming is always one-shot |
| `EventQueue.ReportWithoutEvent` | src/fevent_loop/_ev_monitor_core/_epoll.c:31-41 | exactly which reports reach a handler without any event |
| `EventQueue.HangupOfWriter` | src/fevent_loop/_ev_monitor_core/_epoll.c:34-37 | such a report |
| `EventPlaces.StepKeepsPlaces` | src/fevent_loop/_ev_ready_queue.c:108-218 | every step of every thread keeps each live item in exactly one of ready list, pool queue and handler |
| `EventTokens.ActivatedKeeps` | src/fevent_loop/_ev_monitor_core.c:77-87 | a reported descriptor becomes a ready item and stays the only right to it; its watch item is still there |
| `EventTokens.DeletedKeeps` | src/fevent_loop/_ev_watch_pool.c:80-96 | the deletion of a descriptor by its handler |
| `EventTokens.ArmedKeeps` | src/fevent_loop/_ev_watch_pool.c:98-121 | arming it again hands the right back to epoll |
| `EventTokens.RequeuedKeeps` | src/fevent_loop/_ev_ready_queue.c:129-139 | requeueing keeps the right with the item |
| `EventTokens.AddingKeeps` | src/fevent_loop/_ev_watch_pool.c:54-79 | arming a descriptor that has just been added, or failing to |
| `EventTokens.StepKeepsTokens` | src/fevent_loop/_ev_monitor_core/_epoll.c:19-29 | every step of every thread keeps the one-shot protocol |
| `EventRights.StepKeepsRights` | src/fevent_loop/_ev_ready_queue.c:173-198 | every step of every thread keeps the rights of watched descriptors, but for those that it gives up |
| `EventFlow.StepKeepsWakeable` | src/fevent_loop/_ev_monitor_core/_epoll.c:131-189 | every step keeps a loop that blocks, or is about to, from missing a wake-up |
| `EventFlow.StepKeepsEstablished` | src/fevent_loop/event_loop.c:33-37 | every step keeps true what the reads of the exit test have established |
| `EventFlow.StepKeepsBalanced` | src/fevent_loop/_ev_ready_queue.c:173-198 | every step keeps the accounts of items and handler runs |
| `EventRuns.StepKeeps` | src/fevent_loop/event_loop.c:25-95 | every step keeps all invariants together |
| `EventRuns.OneToken` | src/fevent_loop/_ev_monitor_core/_epoll.c:99-128 | in every run, for every descriptor: armed, reported, and held by an item or handler are at most one, counted with multiplicity |
| `EventRuns.ExactlyOneRight` | src/fevent_loop/_ev_ready_queue.c:173-198 | in every run, a watched descriptor has exactly one right, counting the call that is adding it, except exactly those that a handler gave up by asking for nothing more or by failing to arm them again; these have none (which descriptors stay watched, `EventOutcomes.OnlyAsAnswered` says) |
| `EventRuns.NoOverlap` | src/fevent_loop/_ev_ready_queue.c:173-198 | callbacks of one watched descriptor never overlap; under them it stays watched and disarmed |
| `EventRuns.NoEventDropped` | src/fevent_loop/_ev_ready_queue.c:108-126 | what epoll has reported or may report is in the watch tree, so that wait_equeue finds it |
| `EventRuns.OnePlace` | src/fevent_loop/_ev_ready_queue.c:108-218 | in every run a live item is in exactly one place and once, in the list of its own priority if it is ready |
| `EventRuns.EveryRunEndsOnce` | src/fevent_loop/_ev_ready_queue.c:173-198 | each single handler run that has begun has requeued its item or freed it, exactly once, or is still at it; items made are as many as items freed and live |
| `EventOutcomes.AnswerIsActedOn` | src/fevent_loop/_ev_ready_queue.c:173-198 | in every state, when the callbacks of a handler have answered, at most four actions of its own end it: if they ask for events again, the descriptor stays watched and is armed unless that fails; after EV_FIN it is neither watched nor armed; in both cases the item is freed; after EV_ASYNC the item is live, last in the list of its priority, and the loop is notified; otherwise the item is freed and nothing else happens |
| `EventOutcomes.OnlyAsAnswered` | src/fevent_loop/_ev_ready_queue.c:173-198 | in every run: a descriptor leaves the watch tree only by a handler whose last answer was EV_FIN, or where the call that added it fails; it is armed only by a handler whose last answer asks for its events again, or by that call; it is disarmed only by a report; an item is freed by its handler only, and requeued exactly if the answer was EV_ASYNC; a new one comes from a report, with the priority of its descriptor, or from a thread that posts it |
| `EventProgress.ExitTest` | src/fevent_loop/event_loop.c:33-47 | the exit test by itself: after at most four reads the loop leaves, quietly exactly if no job, handler, ready item or watched descriptor is left and it need not stay, and otherwise exactly if running is off; after one more it is in epoll_wait, without blocking exactly if it may not block or an item is ready |
| `EventProgress.InterruptedTestsAgain` | src/fevent_loop/event_loop.c:62-66 | a signal leads back to the same test |
| `EventProgress.RunningUntilStopped` | src/fevent_loop/event_loop.c:82-95 | in every run, running is on exactly as long as nobody has called ev_loop_stop and epoll_wait has not failed |
| `EventProgress.FailsExactly` | src/fevent_loop/event_loop.c:67-87 | the loop ends with an error if and only if epoll_wait has failed with one |
| `EventProgress.StopIsFinal` | src/fevent_loop/event_loop.c:33-37 | in every run, once running is off it stays off, the exit test never leads to another round, and a loop that is not at epoll_wait never gets there again |
| `EventProgress.StoppedLoopLeaves` | src/fevent_loop/event_loop.c:33-95 | from every state, a stopped loop can leave without any event or spurious return of epoll_wait: if it is blocked, the pipe is readable or the thread that has stopped it is about to write to it |
| `EventProgress.MakeActive` | src/fevent_loop/_ev_monitor_core.c:77-87 | every reported descriptor becomes a ready item with the priority that it was added with, at the end of the list of that priority, in the order of the report; nothing else changes |
| `EventProgress.OneRound` | src/fevent_loop/_ev_monitor_core.c:99-108 | from a return of epoll_wait to the next exit test: that, then all items of the highest priority that there is go to the pool in order, and the pipe is emptied if it was reported or anything was dispatched; nothing else changes |
| `EventLedger.StepEnters` | src/fevent_loop/_ev_ready_queue.c:173-198 | every step keeps that for each run |
| `EventPool.PoolStepMoves` | src/system/nx/thread_pool/_tp_thread.c:92-192 | every step of the pool queues a job, ends one, takes the first, ends one and takes the first, discards what is queued, or none of these |
| `EventPool.EventStepMoves` | src/fevent_loop/_ev_ready_queue.c:200-218 | a step of the event loop makes at most one of these moves on its jobs and handlers |
| `EventPool.BusyPool` | src/system/nx/thread_pool/_thread_pool.c:189-196 | the pool is busy exactly if there are such jobs or handlers |
| `EventPool.BusyEvent` | src/fevent_loop/_ev_ready_queue.c:222-225 | and so is it in the exit test of the loop |
| `EventSimulation.StepAgrees` | src/fevent_loop/_ev_ready_queue.c:200-218 | each step of the real pool, and each other step of the event loop, is answered by at most two steps of `EventModel`, after which both agree on queued and running jobs and their items |
| `EventSimulation.EveryRunIsSimulated` | src/fevent_loop/_ev_ready_queue.c:173-225 | so every run of both together, in any interleaving, is a run of `EventModel` and a run of the pool, job for job and worker for worker |
| `EventSimulation.RealQuiescence` | src/fevent_loop/event_loop.c:33-37 | when the loop leaves with nothing to do, undisturbed, every job that the real pool has accepted has ended |
| `EventRuns.NoLostWakeup` | src/fevent_loop/event_loop.c:38-95 | if the loop blocks with an empty pipe, then a thread that pushed or stopped has yet to notify, or the ready queue is empty and running is on |
| `EventRuns.Quiescence` | src/fevent_loop/event_loop.c:33-37 | if the exit test finds nothing and no outside thread called the monitor meanwhile, then pool, ready queue, watch pool, epoll and pending calls are all empty at that moment, every item has been freed, and only an outside thread can begin anything (when it leaves, `EventProgress.ExitTest` says) |
| `EventRuns.OrderMatters` | src/fevent_loop/event_loop.c:33-34 | a run in which the test in the other order leaves a ready item behind |
| `TstMap.SearchLooksUp` | src/common/ds/tsearch_tree.c:73-98 | searching is map lookup; the key index never passes the terminator |
| `TstMap.InsertedKeeps` | src/common/ds/tsearch_tree.c:117-164 | insertion keeps the order of characters, end nodes only at the root or below `e` links, and no node without a key |
| `TstMap.InsertionUpdates` | src/common/ds/tsearch_tree.c:117-164 | insertion is map update: its key is bound, all others stay |
| `TstMap.DeletedKeeps` | src/common/ds/tsearch_tree.c:175-217 | deletion keeps the same and prunes |
| `TstMap.DeletionRemoves` | src/common/ds/tsearch_tree.c:175-217 | deletion removes exactly its key |
| `TstMap.EveryNodeHasAKey` | src/common/ds/tsearch_tree.c:198-202 | in a pruned tree every link that is not NULL leads to a key |
| `TstMap.EmptyIffNil` | src/common/ds/tsearch_tree.c:198-202 | the head is NULL if and only if there are no keys |
| `TstRuns.FaultsWithoutLink` | src/common/ds/tsearch_tree.c:205-211 | deletion follows a NULL link if and only if the key is there and its end node has no back link |
| `TstRuns.InsertedLinks` | src/common/ds/tsearch_tree.c:117-152 | insertion keeps all back links, and a new key gets one if and only if it is not empty and does not fill a place that a deletion vacated |
| `TstRuns.DeletedLinks` | src/common/ds/tsearch_tree.c:175-217 | deletion changes no other back link |
| `TstRuns.RunRefinesMap` | src/common/ds/tsearch_tree.c:166-226 | after any sequence of insertions and deletions the tree stands for the map that they make, is well-formed and pruned, and key_num is the number of keys less the number of deletions that missed |
| `TstRuns.AfterInsertions` | src/common/ds/tsearch_tree.c:166-172 | over insertions only, key_num is the number of keys; then a key can be deleted safely if and only if it is not the empty one, or absent |
| `TstRuns.KeyNumInStep` | src/common/ds/tsearch_tree.c:223-224 | key_num keeps step with the keys if and only if the operation is not a deletion that misses |
| `TstRuns.KeyNumGoesNegative` | src/common/ds/tsearch_tree.c:223-224 | a deletion from an empty tree makes it -1 |
| `TstRuns.VacatedPlaceLosesLink` | src/common/ds/tsearch_tree.c:122-127 | insert a and b, delete a, insert a: deleting a would follow NULL |
| `TernaryTrees.TernaryTree.Find` | src/common/ds/tsearch_tree.c:95-98 | map lookup on linked nodes |
| `TernaryTrees.TernaryTree.SearchFrom` | src/common/ds/tsearch_tree.c:73-93 | refines `TstShape.Search` |
| `TernaryTrees.TernaryTree.MakeNullHead` | src/common/ds/tsearch_tree.c:102-115 | a fresh chain of nodes for the rest of a key |
| `TernaryTrees.TernaryTree.NewNode` | src/common/ds/tsearch_tree.c:17-29 | the back link is set when the child is an end node |
| `TernaryTrees.TernaryTree.InsertAt` | src/common/ds/tsearch_tree.c:117-164 | refines `TstShape.Inserted` in place, with the old value and the result 0 or 1; only new nodes are added, and back links lead to the node above or are NULL |
| `TernaryTrees.TernaryTree.Insert` | src/common/ds/tsearch_tree.c:166-172 | map update, old value, result and key_num |
| `TernaryTrees.TernaryTree.DeleteFrom` | src/common/ds/tsearch_tree.c:175-217 | refines `TstShape.Deleted` in place, the end node being taken out through its back link; it says exactly when that is NULL |
| `TernaryTrees.TernaryTree.Delete` | src/common/ds/tsearch_tree.c:220-226 | map removal, key_num, the value given to freeFn; or a fault, exactly if the key has no back link |
| `CircularList.EntriesAreUnique` | src/common/ds/dlist.h:25-37 | the links of a well-formed list determine its entries |
| `CircularList.Unshift` | src/common/ds/dlist.h:145-148 | the entry becomes the first |
| `CircularList.Push` | src/common/ds/dlist.h:158-161 | the entry becomes the last |
| `CircularList.Delete` | src/common/ds/dlist.h:238-242 | exactly this entry is gone, and is a list of its own |
| `CircularList.Shift` | src/common/ds/dlist.h:207-214 | the first entry, or NULL for an empty list |
| `CircularList.Pop` | src/common/ds/dlist.h:223-230 | the last entry, or NULL for an empty list |
| `CircularList.MoveToTail` | src/common/ds/dlist.h:260-265 | within a list: the entry becomes the last, the others keep their order |
| `CircularList.MoveTail` | src/common/ds/dlist.h:260-265 | between lists: gone from the one, last in the other |
| `CircularList.Splice` | src/common/ds/dlist.h:269-281 | all entries of one list come before those of the other |
| `CircularList.SpliceInit` | src/common/ds/dlist.h:301-308 | and the first list is empty then |
| `CircularList.Size` | src/common/ds/dlist.h:90-98 | the number of entries |
| `CircularList.Reverse` | src/common/ds/dlist.h:104-119 | the entries in reverse, with links still mutually inverse |
| `CircularList.ReversedTwice` | src/common/ds/dlist.h:104-119 | reversing twice gives the list back |
| `CircularList.Contains` | src/common/ds/dlist.h:316-329 | true exactly if the entry is in the list, or is the head of an empty one; at most ceil(n/2) rounds for n entries, odd or even |
| `CircularList.Fingers` | src/common/ds/dlist.h:324-326 | the two fingers stop exactly when half of the entries have been seen from either side |
| `RingBuffers.RoundedIsLeast` | src/system/nx/io/ring_buffer.c:43-44 | the size is the least multiple of 4096 at or above the request if and only if the sum does not overflow |
| `RingBuffers.Create` | src/system/nx/io/ring_buffer.c:29-88 | NULL exactly where `Opened` says; a buffer that is returned is valid if and only if the rounding does not overflow, and then empty and at least as large as requested |
| `RingBuffers.OpenedUnlessRefused` | src/system/nx/io/ring_buffer.c:42-72 | NULL for 0, for sizes that ftruncate cannot take, and where the system refuses something; but not for a size that has overflowed to 0 |
| `RingBuffers.OpenedIsUsable` | src/system/nx/io/ring_buffer.c:51-67 | the double mapping is there, at least as large as requested, if and only if the request is at most 2^64 - 4096; otherwise size and address are 0 and MAP_FAILED |
| `RingBuffers.OverflowGetsNothing` | src/system/nx/io/ring_buffer.c:43-67 | a request that gets such a buffer |
| `RingBuffers.RingBuffer.DataCount` | src/system/nx/io/ring_buffer.c:131-134 | the number of unread bytes, without underflow |
| `RingBuffers.RingBuffer.FreeSpace` | src/system/nx/io/ring_buffer.c:136-139 | the rest of the size, without underflow |
| `RingBuffers.RingBuffer.Receive` | src/system/nx/io/ring_buffer.c:102-105 | bytes written at the write position fit the doubled mapping and touch no unread byte |
| `RingBuffers.RingBuffer.CommitWrite` | src/system/nx/io/ring_buffer.c:107-112 | appends exactly the bytes of the window |
| `RingBuffers.RingBuffer.CommitRead` | src/system/nx/io/ring_buffer.c:119-129 | drops exactly the first bytes; the wrap-around never underflows and keeps read_offset below size |
| `RingBuffers.RingBuffer.Show` | src/system/nx/io/ring_buffer.c:114-117 | the read window is the unread bytes, within the doubled mapping |
| `RingBuffers.RingBuffer.Reset` | src/system/nx/io/ring_buffer.c:141-147 | empty |
| `Streams.WriteN` | src/system/nx/io/io.c:119-141 | up to the first failure that is no interruption, or call that takes nothing, the calls take bytes in order: all bytes and their number if these calls take enough, and otherwise exactly what they took and -1 |
| `Streams.DumpRead` | src/system/nx/io/io.c:163-227 | the reading half of a round: exactly when it reads, sees the end, or fails; the bytes that read(2) delivers, up to the free space, go to the end of the buffer |
| `Streams.DumpWrite` | src/system/nx/io/io.c:228-243 | the writing half: as many bytes as write(2) takes go from the front of the buffer |
| `Streams.DumpRound` | src/system/nx/io/io.c:189-252 | one round is the step function `Stepped` of what read(2), write(2) and select(2) do; what that is in terms of the round, `Streams.RoundIs` says |
| `Streams.RoundIs` | src/system/nx/io/io.c:189-252 | a round ends the loop with the failure of select(2), read(2) or write(2) that it has, or with success exactly if nothing fails, the end has been seen and nothing is left in the buffer; and it moves the bytes that read(2) delivers and write(2) takes |
| `Streams.EndsExactly` | src/system/nx/io/io.c:189-264 | for all rounds: the loop has ended by select(2), read(2), write(2) or successfully if and only if there is a reached round in which that one fails for good, or that leaves nothing to be done |
| `Streams.DumpIsComplete` | src/system/nx/io/io.c:208-243 | for all rounds: what has been read is all that read(2) delivered in the reached rounds, and what has been written is exactly as much of it as write(2) took |
| `Streams.DumpLoop` | src/system/nx/io/io.c:189-252 | the loop refines the function `Dumped` of the rounds, including what stays in the buffer |
| `Streams.FdDump` | src/system/nx/io/io.c:179-265 | refines the function `Outcome` of the set-up calls and the rounds: status, bytes read, bytes written, result, and calls of the callback |
| `Streams.DumpIsFaithful` | src/system/nx/io/io.c:189-252 | for all rounds: what has been read is what has been written and then what is in the buffer, at most its size; success means that the end of the file has been seen and all has been written |
| `Streams.CalledOnceOrTwice` | src/system/nx/io/io.c:184-261 | the callback has been called exactly once if and only if the buffer was created but the descriptors could not be made non-blocking, or a round is reached in which select(2) or write(2) fails for good, or that leaves nothing to be done; twice if and only if one is in which read(2) fails for good; not at all if and only if there is no buffer, or no such round; and with 0 exactly in case of success |
| `Streams.NeverCalled` | src/system/nx/io/io.c:184 | without memory for the buffer the callback is not called |
| `Streams.CalledTwice` | src/system/nx/io/io.c:220-261 | a file whose first read fails |
| `FileReads.FileReader.OnRead` | src/fevent_loop/_ev_events/_ev_fs/_read.c:30-94 | refines the step function `Invoked` on the ring buffer; what that is in terms of the history, `FileProgress.InvocationIs` says |
| `FileReads.CallbacksAreFaithful` | src/fevent_loop/_ev_events/_ev_fs/_read.c:30-94 | over all runs, every data callback sees exactly the bytes read and not yet consumed; the end is told only after read(2) has returned 0 and all is consumed, and an error only after read(2) has failed with it; both only by the last invocation |
| `FileProgress.InvocationIs` | src/fevent_loop/_ev_events/_ev_fs/_read.c:30-94 | every invocation in every run: whether it reads, and what it then sees; it does nothing more if it was interrupted, and otherwise tells the callback of an error if there has been one, shows it what is unread, or tells it of the end |
| `FileProgress.EndIsSeen` | src/fevent_loop/_ev_events/_ev_fs/_read.c:36-55 | the end of the file has been seen if and only if some invocation that took place had room, had seen no end or error before, and its read(2) returned 0 while errno was not EINTR |
| `FileProgress.ErrorIsSeen` | src/fevent_loop/_ev_events/_ev_fs/_read.c:36-61 | the same for each error other than EINTR |
| `FileProgress.ReadIsComplete` | src/fevent_loop/_ev_events/_ev_fs/_read.c:36-42 | what has been read is exactly what the reading invocations delivered, as far as there was room |
| `FileProgress.EndIsTold` | src/fevent_loop/_ev_events/_ev_fs/_read.c:69-92 | an invocation that is not interrupted is the last and tells of the error, if there has been one, or of the end, if it has been seen and nothing is unread |
| `Tokenizer.Scanner.StrNLen` | src/common/safestr.c:25-37 | the smaller of length and limit, 0 being no limit |
| `Tokenizer.SpansAreMaximal` | src/common/safestr.c:107-122 | the runs between separators are in order, apart, not empty, and cover exactly the other characters |
| `Tokenizer.Scanner.StrTok` | src/common/safestr.c:95-131 | returns the first run and terminates it, leaves exactly the other runs to calls with NULL, and makes `*s1max` smaller; NULL exactly if there is no run, or too many separators are given |
| `Tokenizer.Tokens` | src/common/safestr.c:95-131 | repeated calls return exactly the maximal runs, in order, and then NULL, and write nothing but the terminators |

## Left out

- Real system calls: epoll, pipes, mmap, select, read and write, pthread creation and cancellation are steps or parameters as described above.
- rb_replace: it never re-points the children's parent links, so that the tree is not valid after it.
- rb_destroy, tst_destroy and the printing functions: plumbing.
- Pointer tagging of the colour bit: colour and parent are separate fields.
- malloc failure and its clean-up, varargs, and the attributes of threads.
- A failing clock_gettime in thread_idle (it ends the worker) and tp_destroy racing a worker that has not registered.
- ev_loop_run as one method: its loop is the loop thread of `EventModel`, one step for each shared access; signals that interrupt it are the step `Interrupted`.
- EventRuns.Quiescence: does not cover calls by outside threads that overlap the exit test; the source does not synchronise with them either.
- WatchPools.WatchPool.Add: memory that has been freed is taken to keep what it held, and no other thread to reuse the number of a descriptor that has been closed; freeing the same item twice is not followed.
- EventModel: ev_monitor_ctl with EV_CTL_DEL or EV_CTL_MOD is only called by event_handler for its own descriptor, not by callbacks or outside threads; descriptors that are added are not watched, and those of EV_ASYNC items are not watched either.
- EventModel: the write of the new events to the watch item after it has been armed again (src/fevent_loop/_ev_watch_pool.c:114-118) has no effect in the model; it races with a handler that has been started meanwhile and deletes the item.
- The limit of 20 reports for each call of epoll_wait: any number is allowed.
- The pipe of the event loop being full: its capacity is unbounded in the model, and a full pipe wakes the loop like any other.
- TernaryTrees.TernaryTree.InsertAt: does not model the pointer to the link; it returns what the link holds afterwards and its caller assigns it. The same goes for `DeleteFrom`, whose caller assigns once more what the back link has already set.
- TernaryTrees.TernaryTree.DeleteFrom: does not follow a NULL back link, it reports it; by then the source has given the value to freeFn.
- RingBuffers.Create: the clean-up of what has been opened before a failure is left out.
- Streams.FdDump: does not restore the descriptor flags, and takes this to succeed; rounds are given as a sequence, after which it may still be running.
- EventSimulation.EveryRunIsSimulated: leaves out tp_cancel and handlers that end their thread, which the event loop does not use while it runs; workers and outside threads have different names.
- FileReads.CallbacksAreFaithful: a callback that claims to have consumed more than it was shown counts as having consumed all.
- Tokenizer.Scanner.StrTok: does not cover NULL for s1max, s2 or ptr, nor a string without a terminator.
- fd_rbuf_read and fd_rbuf_readl, the other string functions, ev_emitter, arguments, the stack, list_add_before and list_add_after: easy or not as regular as their names suggest.
- The number conversions, sockets, daemons, timers, signals and consoles of the library.
