/** The thread pool as an object: the code of `_thread_pool.c`, `_tp_job.c` and `_tp_thread.c` between taking
    `pool_mtx` and giving it up, against the steps of `PoolModel`.

    What the environment decides comes in as arguments: which workers a signal wakes, and the id of a new
    thread and whether pthread_create gives one.  Where threads block is kept in ghost state.
  */
module ThreadPools {
  import opened PoolModel
  import opened PoolSafety
  import opened PoolRuns

  class ThreadPool {
    const tMin: nat
    const tMax: nat
    const timeout: nat
    var busy: bool
    var wait: bool
    var cancel: bool
    var tTotal: int
    var activeq: seq<Tid>
    var idleq: seq<Tid>
    var jobq: seq<Job>
    ghost var threads: Threads
    ghost var history: History

    ghost function State(): Pool
      reads this
    {
      Pool(tMin, tMax, timeout, busy, wait, cancel, tTotal, idleq, activeq, jobq, threads, history)
    }

    constructor (tNumMin: nat, tNumMax: nat, timeoutSec: int)
      ensures State() == Create(tNumMin, tNumMax, timeoutSec)
    {
      tMin := if tNumMin != 0 then tNumMin else 5;
      tMax := if tNumMax != 0 then tNumMax else 100;
      timeout := if timeoutSec < 0 then 2 else timeoutSec;
      busy, wait, cancel, tTotal := false, false, false, 0;
      activeq, idleq, jobq := [], [], [];
      threads := Threads({}, map[], map[], {}, {});
      history := History(0, [], [], {}, false, false);
    }

    // ---------- _tp_job.c ----------

    /** `tp_job_equeue`. */
    method JobEqueue(j: Job, ghost woken: set<Tid>)
      requires j == history.accepted  // jobs are numbered as they come
      modifies this
      ensures State() == Enqueued(old(State()), woken)
    {
      jobq := jobq + [j];
      busy := true;
      history := history.(accepted := history.accepted + 1);
      if idleq != [] {
        threads := Signalled(State(), woken).threads;
      }
    }

    /** `tp_job_dqueue`. */
    method JobDqueue() returns (j: Job)
      requires jobq != []
      modifies this`jobq
      ensures old(jobq) == [j] + jobq
    {
      j := jobq[0];
      jobq := jobq[1..];
    }

    /** `tp_job_queue_destroy`. */
    method JobQueueDestroy()
      modifies this`jobq, this`history
      ensures jobq == []
      ensures history == old(history).(discarded := old(history).discarded + old(jobq))
    {
      while jobq != []
        invariant history == old(history).(discarded := history.discarded)
        invariant history.discarded + jobq == old(history.discarded + jobq)
        decreases |jobq|
      {
        var j := JobDqueue();
        history := history.(discarded := history.discarded + [j]);
      }
    }

    // ---------- _tp_thread.c ----------

    /** `tp_thread_spawn`. */
    method ThreadSpawn(newT: Tid, ok: bool) returns (ret: int)
      modifies this`threads, this`history
      ensures State() == Spawned(old(State()), newT, ok)
      ensures ret == if ok then 0 else -1
    {
      if ok {
        threads := threads.(spawned := threads.spawned + {newT});
        return 0;
      }
      history := history.(spawnFailed := true);
      ret := -1;
    }

    /** `worker_cleanup`. */
    method WorkerCleanup(t: Tid, newT: Tid, ok: bool)
      modifies this
      ensures State() == CleanedUp(old(State()), t, newT, ok)
    {
      tTotal := tTotal - 1;
      idleq := Without(idleq, t);
      threads := threads.(idle := threads.idle - {t});
      if cancel {
        if tTotal == 0 {
          threads := threads.(exiters := {});
        }
      } else if jobq != [] && tTotal < tMax {
        var _ := ThreadSpawn(newT, ok);
      }
    }

    /** `job_finish`. */
    method JobFinish(t: Tid)
      requires t in threads.running
      modifies this
      ensures State() == JobFinished(old(State()), t)
    {
      history := history.(ended := history.ended + {threads.running[t]});
      activeq := Without(activeq, t);
      idleq := idleq + [t];
      threads := threads.(running := threads.running - {t}, idle := threads.idle[t := Holding]);
      if wait {
        NotifyWaiter();
      }
    }

    /** The rest of a round of `create_worker`, from the loop of `thread_idle` on. */
    method WorkerLoop(t: Tid)
      modifies this
      ensures State() == Looped(old(State()), t)
    {
      if jobq == [] && !cancel {
        if activeq == [] {
          busy := false;
        }
        if tTotal <= tMin {
          threads := threads.(idle := threads.idle[t := Waiting(false)]);
        } else if timeout == 0 {
          WorkerCleanup(t, 0, true);
        } else {
          threads := threads.(idle := threads.idle[t := Waiting(true)]);
        }
      } else if cancel {
        WorkerCleanup(t, 0, true);
      } else {
        var job := JobDqueue();
        idleq := Without(idleq, t);
        activeq := activeq + [t];
        busy := true;
        threads := threads.(idle := threads.idle - {t}, running := threads.running[t := job]);
        history := history.(started := history.started + [job]);
      }
    }

    /** A woken worker goes on in thread_idle. */
    method WorkerResume(t: Tid)
      requires Enabled(State(), Resume(t))
      modifies this
      ensures State() == Apply(old(State()), Resume(t))
      ensures old(Inv(State())) ==> Inv(State())
    {
      ghost var p := State();
      WorkerLoop(t);
      assert State() == Apply(p, Resume(t));
      hide Inv, Looped;
      if Inv(p) { StepKeeps(p, Resume(t)); }
    }

    /** A worker whose wait has timed out, or that has been cancelled, runs its clean-up handler. */
    method WorkerExit(t: Tid, newT: Tid, ok: bool)
      requires Enabled(State(), Exit(t, newT, ok))
      modifies this
      ensures State() == Apply(old(State()), Exit(t, newT, ok))
      ensures old(Inv(State())) ==> Inv(State())
    {
      ghost var p := State();
      WorkerCleanup(t, newT, ok);
      assert State() == Apply(p, Exit(t, newT, ok));
      hide Inv, CleanedUp;
      if Inv(p) { StepKeeps(p, Exit(t, newT, ok)); }
    }

    /** The beginning of `create_worker`. */
    method WorkerStart(t: Tid)
      requires t in threads.spawned
      modifies this
      ensures State() == Apply(old(State()), Start(t))
      ensures old(Inv(State())) ==> Inv(State())
    {
      ghost var p := State();
      idleq := idleq + [t];
      tTotal := tTotal + 1;
      threads := threads.(spawned := threads.spawned - {t}, idle := threads.idle[t := Holding]);
      if wait {
        NotifyWaiter();
      }
      WorkerLoop(t);
      assert State() == Apply(p, Start(t));
      hide Inv, Apply;
      if Inv(p) { StepKeeps(p, Start(t)); }
    }

    /** What a worker does when its job returns. */
    method WorkerFinish(t: Tid)
      requires t in threads.running
      modifies this
      ensures State() == Apply(old(State()), Finish(t))
      ensures old(Inv(State())) ==> Inv(State())
    {
      ghost var p := State();
      JobFinish(t);
      if wait {
        NotifyWaiter();
      }
      WorkerLoop(t);
      assert State() == Apply(p, Finish(t));
      hide Inv, Apply;
      if Inv(p) { StepKeeps(p, Finish(t)); }
    }

    /** What the clean-up handlers do when a worker ends inside its job. */
    method WorkerAbort(t: Tid, newT: Tid, ok: bool)
      requires t in threads.running && Unused(State(), newT)
      modifies this
      ensures State() == Apply(old(State()), Abort(t, newT, ok))
      ensures old(Inv(State())) ==> Inv(State())
    {
      ghost var p := State();
      JobFinish(t);
      WorkerCleanup(t, newT, ok);
      assert State() == Apply(p, Abort(t, newT, ok));
      hide Inv, Apply;
      if Inv(p) { StepKeeps(p, Abort(t, newT, ok)); }
    }

    // ---------- _thread_pool.c ----------

    /** `tp_notify_waiter`. */
    method NotifyWaiter()
      requires wait
      modifies this`wait, this`threads
      ensures State() == Notified(old(State()))
    {
      if activeq == [] && jobq == [] {
        wait := false;
        threads := threads.(waiters := {});
      }
    }

    /** `tp_queue`. */
    method EnqueueJob(j: Job, ghost woken: set<Tid>, newT: Tid, ok: bool) returns (ret: int)
      requires j == history.accepted && Enabled(State(), Queue(woken, newT, ok))
      modifies this
      ensures State() == Apply(old(State()), Queue(woken, newT, ok))
      ensures ret == if old(idleq) == [] && old(tTotal) < tMax && !ok then -1 else 0
      ensures old(Inv(State())) ==> Inv(State())
    {
      ghost var p := State();
      if Inv(p) { StepKeeps(p, Queue(woken, newT, ok)); }
      JobEqueue(j, woken);
      if idleq == [] && tTotal < tMax && jobq != [] {
        var s := ThreadSpawn(newT, ok);
        if s == -1 {
          return -1;
        }
      }
      ret := 0;
    }

    /** A round of the loop of `tp_wait`; `done` when the loop is left. */
    method WaitRound(c: Client) returns (done: bool)
      requires c !in threads.waiters
      modifies this`wait, this`threads
      ensures State() == Apply(old(State()), WaitCheck(c))
      ensures done <==> activeq == [] && jobq == []
      ensures old(Inv(State())) ==> (done <==> AllDone(State()))
      ensures old(Inv(State())) ==> Inv(State())
    {
      ghost var p := State();
      done := activeq == [] && jobq == [];
      if !done {
        wait := true;
        threads := threads.(waiters := threads.waiters + {c});
      }
      if Inv(p) {
        StepKeeps(p, WaitCheck(c));
        QuietMeansDone(State());
      }
    }

    /** `tp_cancel` up to its `tp_wait`. */
    method CancelAll()
      modifies this
      ensures State() == Apply(old(State()), Cancel)
      ensures cancel && jobq == [] && forall t :: !WaitingWorker(State(), t)
      ensures old(Inv(State())) ==> Inv(State())
    {
      ghost var p := State();
      hide Inv, WaitingWorker;
      if Inv(p) { StepKeeps(p, Cancel); }
      NobodyWaits(p);
      cancel := true;
      history := history.(waiterStranded := history.waiterStranded || (threads.waiters != {} && activeq == []));
      JobQueueDestroy();
      threads := threads.(idle := map t | t in threads.idle :: if threads.idle[t].Waiting? then Cancelled else threads.idle[t]);
      assert State() == Apply(p, Cancel);
    }

    /** A round of the last loop of `tp_cancel`; `done` when `tp_cancel` returns. */
    method ExitRound(c: Client) returns (done: bool)
      requires cancel && c !in threads.exiters
      modifies this`threads
      ensures State() == Apply(old(State()), ExitCheck(c))
      ensures done <==> tTotal == 0
      ensures old(Inv(State())) ==> Inv(State())
    {
      ghost var p := State();
      done := tTotal == 0;
      if !done {
        threads := threads.(exiters := threads.exiters + {c});
      }
      assert State() == Apply(p, ExitCheck(c));
      hide Inv, Apply;
      if Inv(p) { StepKeeps(p, ExitCheck(c)); }
    }

    /** `tp_is_busy`: some accepted job has neither ended nor been discarded; it runs or is queued. */
    method IsBusy() returns (b: bool)
      requires Inv(State())
      ensures b <==> !AllDone(State())
      ensures b <==> jobq != [] || threads.running != map[]
    {
      QuietMeansDone(State());
      b := jobq != [] || activeq != [];
    }

    /** `tp_create`. */
    static method TpCreate(tNumMin: nat, tNumMax: nat, timeoutSec: int) returns (tp: ThreadPool?)
      ensures tp == null <==> tNumMin > tNumMax
      ensures tp != null ==> fresh(tp) && tp.State() == Create(tNumMin, tNumMax, timeoutSec) && Inv(tp.State())
    {
      if tNumMin > tNumMax {
        return null;
      }
      tp := new ThreadPool(tNumMin, tNumMax, timeoutSec);
      CreatedIsRight(tNumMin, tNumMax, timeoutSec);
    }
  }
}
