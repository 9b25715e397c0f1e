/** What the thread pool guarantees over all runs, and where it does not. */
module PoolRuns {
  import opened PoolModel
  import opened PoolSafety

  // ---------- runs ----------

  ghost predicate Allowed(p: Pool, steps: seq<Step>)
    decreases |steps|
  {
    steps != [] ==> Enabled(p, steps[0]) && Allowed(Apply(p, steps[0]), steps[1..])
  }

  /** The state after the given steps, in any interleaving of threads that they describe. */
  ghost function Run(p: Pool, steps: seq<Step>): Pool
    requires Allowed(p, steps)
    decreases |steps|
  {
    if steps == [] then p else Run(Apply(p, steps[0]), steps[1..])
  }

  lemma CreatedIsRight(tMin: nat, tMax: nat, timeout: int)
    ensures Inv(Create(tMin, tMax, timeout)) && Settled(Create(tMin, tMax, timeout), {})
  {
    assert Numbers(0) == [];
  }

  lemma LoopedSettles(p: Pool, t: Tid)
    requires Settled(p, {t}) && t in p.threads.idle
    ensures Settled(Looped(p, t), {})
  {
    CleanedUpSettles(p, t, 0, true);
    CleanedUpSettles(p.(busy := false), t, 0, true);
  }

  lemma CleanedUpSettles(p: Pool, t: Tid, newT: Tid, ok: bool)
    requires Settled(p, {t})
    ensures Settled(CleanedUp(p, t, newT, ok), {})
  {
    assert CleanedUp(p, t, newT, ok).threads.idle == p.threads.idle - {t};
  }

  lemma StepSettles(p: Pool, step: Step)
    requires Enabled(p, step) && Settled(p, {})
    ensures Settled(Apply(p, step), {})
  {
    hide Looped, CleanedUp;
    match step {
      case Start(t) => LoopedSettles(Notified(Registered(p, t)), t);
      case Resume(t) => LoopedSettles(p, t);
      case Exit(t, newT, ok) => CleanedUpSettles(p, t, newT, ok);
      case Finish(t) => LoopedSettles(Notified(JobFinished(p, t)), t);
      case Abort(t, newT, ok) => CleanedUpSettles(JobFinished(p, t), t, newT, ok);
      case _ =>
    }
  }

  lemma {:induction false} RunKeeps(p: Pool, steps: seq<Step>)
    requires Inv(p) && Settled(p, {}) && Allowed(p, steps)
    ensures Inv(Run(p, steps)) && Settled(Run(p, steps), {})
    decreases |steps|
  {
    if steps != [] {
      StepKeeps(p, steps[0]);
      StepSettles(p, steps[0]);
      RunKeeps(Apply(p, steps[0]), steps[1..]);
    }
  }

  // ---------- guarantees ----------

  /** Before any cancellation, a queued job has a worker on its way to the queue: one that has been
      spawned, works, or has been woken; or every idle worker has timed out and is about to clean up. */
  lemma NoStrandedJob(tMin: nat, tMax: nat, timeout: int, steps: seq<Step>)
    requires Allowed(Create(tMin, tMax, timeout), steps)
    ensures var p := Run(Create(tMin, tMax, timeout), steps);
            p.jobq != [] && !p.cancel && !p.history.spawnFailed ==>
              || p.threads.spawned != {} || p.activeq != []
              || (exists t :: t in p.threads.idle && p.threads.idle[t].Woken?)
              || (p.idleq != [] && forall t <- p.idleq :: t in p.threads.idle && p.threads.idle[t].TimedOut?)
  {
    CreatedIsRight(tMin, tMax, timeout);
    RunKeeps(Create(tMin, tMax, timeout), steps);
    var p := Run(Create(tMin, tMax, timeout), steps);
    if p.jobq != [] && !p.cancel && !p.history.spawnFailed && p.threads.spawned == {} && p.activeq == [] {
      var t :| t in p.threads.idle && !p.threads.idle[t].Waiting?;
      assert t in p.idleq;
      if !(exists u :: u in p.threads.idle && p.threads.idle[u].Woken?) {
        assert WokenWorkers(p) == {};
        forall u <- p.idleq ensures u in p.threads.idle && p.threads.idle[u].TimedOut? {
          assert !WaitingWorker(p, u);
        }
      }
    }
  }

  /** Threads in queues are counted, POOL_BUSY is set while there is work, and every accepted job is in
      exactly one place: started in the order of acceptance, discarded by a cancellation, or queued. */
  lemma PoolAccounting(tMin: nat, tMax: nat, timeout: int, steps: seq<Step>)
    requires Allowed(Create(tMin, tMax, timeout), steps)
    ensures var p := Run(Create(tMin, tMax, timeout), steps);
            && p.tTotal == |p.idleq| + |p.activeq|
            && (forall t <- p.idleq :: t !in p.activeq)
            && (p.jobq != [] || p.activeq != [] ==> p.busy)
            && p.history.started + p.history.discarded + p.jobq == Numbers(p.history.accepted)
            && (forall t <- p.threads.running :: p.threads.running[t] in p.history.started && p.threads.running[t] !in p.history.ended)
            && (forall t, u | t in p.threads.running && u in p.threads.running && t != u :: p.threads.running[t] != p.threads.running[u])
            && (forall j <- p.history.started :: j in p.history.ended || j in p.threads.running.Values)
  {
    CreatedIsRight(tMin, tMax, timeout);
    RunKeeps(Create(tMin, tMax, timeout), steps);
  }

  /** Every accepted job has ended or been discarded. */
  ghost predicate AllDone(p: Pool) {
    forall j: Job :: j < p.history.accepted ==> j in p.history.ended || j in p.history.discarded
  }

  /** What tp_wait returns for, and what tp_is_busy denies: all jobs are done. */
  lemma QuietMeansDone(p: Pool)
    requires Inv(p)
    ensures Quiet(p) <==> p.jobq == [] && p.threads.running == map[]
    ensures Quiet(p) <==> AllDone(p)
  {
    RunningIsActive(p);
    var h := p.history;
    if Quiet(p) {
      forall j: Job | j < h.accepted ensures j in h.ended || j in h.discarded {
        assert Numbers(h.accepted)[j] == j;
        assert (h.started + h.discarded + p.jobq)[j] == j;
      }
    } else if p.jobq != [] {
      NotStartedYet(p);
      FirstIsOpen(p);
    } else {
      var t := p.activeq[0];
      RunningIsOpen(p, t);
    }
  }

  lemma RunningIsActive(p: Pool)
    requires WorkersCounted(p)
    ensures p.activeq == [] <==> p.threads.running == map[]
  {
    if p.activeq != [] { assert p.activeq[0] in p.threads.running; }
    if t :| t in p.threads.running { assert t in p.activeq; }
  }

  /** The first queued job has neither ended nor been discarded. */
  lemma FirstIsOpen(p: Pool)
    requires JobsInOrder(p) && JobsRunOnce(p) && p.jobq != []
    ensures var j := p.jobq[0]; j < p.history.accepted && j !in p.history.ended && j !in p.history.discarded
  {
    var h, all := p.history, Numbers(p.history.accepted);
    NotStartedYet(p);
    assert forall i :: 0 <= i < |h.discarded| ==> h.discarded[i] == all[|h.started| + i];
  }

  /** Nor has a running one. */
  lemma RunningIsOpen(p: Pool, t: Tid)
    requires JobsInOrder(p) && JobsRunOnce(p) && t in p.threads.running
    ensures var j := p.threads.running[t]; j < p.history.accepted && j !in p.history.ended && j !in p.history.discarded
  {
    var h, all, j := p.history, Numbers(p.history.accepted), p.threads.running[t];
    var i :| 0 <= i < |h.started| && h.started[i] == j;
    assert all[i] == j == i;
    assert forall k :: 0 <= k < |h.discarded| ==> h.discarded[k] == all[|h.started| + k];
  }

  /** A thread that stays blocked in tp_wait has something to wait for, and will be told: always before any
      cancellation, and later unless a cancellation found it blocked while no worker was active.  A thread that
      stays blocked at the end of tp_cancel waits for a worker. */
  lemma NoLostClient(tMin: nat, tMax: nat, timeout: int, steps: seq<Step>)
    requires Allowed(Create(tMin, tMax, timeout), steps)
    ensures var p := Run(Create(tMin, tMax, timeout), steps);
            && (p.threads.waiters != {} && !p.cancel ==> p.wait && (p.activeq != [] || p.jobq != []))
            && (p.threads.waiters != {} && !p.history.waiterStranded ==> p.wait && (p.activeq != [] || p.jobq != []))
            && (p.threads.exiters != {} ==> p.cancel && p.tTotal > 0)
  {
    CreatedIsRight(tMin, tMax, timeout);
    RunKeeps(Create(tMin, tMax, timeout), steps);
  }

  /** No new job comes in and `c` is not woken for no reason. */
  predicate Unhelped(c: Client, steps: seq<Step>) {
    forall i :: 0 <= i < |steps| ==> !steps[i].Queue? && steps[i] != SpuriousClient(c)
  }

  /** Some continuation without such help releases `c`. */
  ghost predicate CanBeReleased(p: Pool, c: Client) {
    exists steps: seq<Step> :: Unhelped(c, steps) && Allowed(p, steps) && c !in Run(p, steps).threads.waiters
  }

  /** The exception, exactly: a thread that a cancellation finds blocked in tp_wait can still be released if and
      only if some worker is active then, or has been spawned and not yet registered. */
  lemma CancelStrandsWaiter(p: Pool, c: Client)
    requires Inv(p) && c in p.threads.waiters
    ensures CanBeReleased(Apply(p, Cancel), c) <==> p.activeq != [] || p.threads.spawned != {}
  {
    var q := Apply(p, Cancel);
    CancelKeeps(p);
    if p.activeq != [] || p.threads.spawned != {} {
      var steps := Release(q, c);
    } else {
      RunningIsActive(q);
      forall steps: seq<Step> | Unhelped(c, steps) && Allowed(q, steps) ensures c in Run(q, steps).threads.waiters {
        ForgottenForever(q, c, steps);
      }
    }
  }

  /** The active workers return from their jobs; or, if there are none, a spawned one registers. */
  lemma {:induction false} Release(p: Pool, c: Client) returns (steps: seq<Step>)
    requires Inv(p) && p.cancel && p.jobq == [] && c in p.threads.waiters && (p.activeq != [] || p.threads.spawned != {})
    ensures Unhelped(c, steps) && Allowed(p, steps) && c !in Run(p, steps).threads.waiters
    decreases |p.activeq|
  {
    if p.activeq == [] {
      var t :| t in p.threads.spawned;
      steps := [Start(t)];
      StartLeaves(p, t);
      OneStep(p, Start(t));
    } else {
      hide Inv, Apply, Enabled;
      var t := p.activeq[0];
      FinishLeaves(p, t);
      StepKeeps(p, Finish(t));
      var q := Apply(p, Finish(t));
      var rest := [];
      if c in q.threads.waiters { rest := Release(q, c); }
      steps := [Finish(t)] + rest;
      assert steps[1..] == rest;
    }
  }

  lemma OneStep(p: Pool, step: Step)
    requires Enabled(p, step)
    ensures Allowed(p, [step]) && Run(p, [step]) == Apply(p, step)
  {
    assert [step][1..] == [];
  }

  /** A worker that registers when none is active leaves no thread blocked in tp_wait. */
  lemma StartLeaves(p: Pool, t: Tid)
    requires Inv(p) && p.cancel && Quiet(p) && t in p.threads.spawned
    ensures Apply(p, Start(t)).threads.waiters == {}
  {
    var r := Registered(p, t);
    assert Quiet(r) && Notified(r).threads.waiters == {};
    CancelledLoop(Notified(r), t);
  }

  /** Nor does the last active worker that returns. */
  lemma FinishLeaves(p: Pool, t: Tid)
    requires Inv(p) && p.cancel && p.jobq == [] && t in p.activeq
    ensures Enabled(p, Finish(t))
    ensures var q := Apply(p, Finish(t));
            && q.cancel && q.jobq == [] && |q.activeq| < |p.activeq|
            && (q.activeq == [] ==> q.threads.waiters == {})
  {
    WithoutFacts(p.activeq, t);
    var r := JobFinished(p, t);
    assert r.cancel && r.jobq == [] && r.activeq == Without(p.activeq, t);
    assert r.activeq == [] ==> r.threads.waiters == {};
    hide JobFinished;
    CancelledLoop(Notified(r), t);
  }

  lemma CancelledLoop(p: Pool, t: Tid)
    requires p.cancel
    ensures var q := Looped(p, t);
            q.cancel && q.jobq == p.jobq && q.activeq == p.activeq && q.threads.waiters == p.threads.waiters
  {
  }

  /** Nothing is left that could signal a blocked `c`. */
  ghost predicate Forgotten(p: Pool, c: Client) {
    c in p.threads.waiters && p.cancel && p.threads.spawned == {} && p.threads.running == map[] && p.activeq == []
  }

  lemma {:induction false} ForgottenForever(p: Pool, c: Client, steps: seq<Step>)
    requires Forgotten(p, c) && Allowed(p, steps) && Unhelped(c, steps)
    ensures Forgotten(Run(p, steps), c)
    decreases |steps|
  {
    if steps != [] {
      assert !steps[0].Queue? && steps[0] != SpuriousClient(c);
      forall i | 0 <= i < |steps| - 1 ensures !steps[1..][i].Queue? && steps[1..][i] != SpuriousClient(c) {
        assert steps[1..][i] == steps[i + 1];
      }
      ForgottenForever(Apply(p, steps[0]), c, steps[1..]);
    }
  }

  /** A run to such a state: a worker has been woken for a second job, a client waits for it, and a
      cancellation discards the job before the worker gets the mutex. */
  lemma WaiterCanBeForgotten(c: Client) returns (steps: seq<Step>)
    ensures Allowed(Create(1, 1, -1), steps) && Forgotten(Run(Create(1, 1, -1), steps), c)
  {
    var p0 := Create(1, 1, -1);
    steps := ARoundOfWork();
    steps := Then(p0, steps, Queue({0}, 1, true));
    steps := Then(p0, steps, WaitCheck(c));
    steps := Then(p0, steps, Cancel);
    steps := Then(p0, steps, Resume(0));
  }

  lemma Then(p: Pool, steps: seq<Step>, step: Step) returns (more: seq<Step>)
    requires Allowed(p, steps) && Enabled(Run(p, steps), step)
    ensures more == steps + [step] && Allowed(p, more) && Run(p, more) == Apply(Run(p, steps), step)
    decreases |steps|
  {
    more := steps + [step];
    if steps != [] {
      var rest := Then(Apply(p, steps[0]), steps[1..], step);
      assert more[1..] == rest;
    }
  }

  lemma AJobStarted() returns (steps: seq<Step>)
    ensures Allowed(Create(1, 1, -1), steps)
    ensures Run(Create(1, 1, -1), steps) ==
            Pool(1, 1, 2, true, false, false, 1, [], [0], [],
                 Threads({}, map[], map[0 := 0], {}, {}), History(1, [0], [], {}, false, false))
  {
    var p0 := Create(1, 1, -1);
    var p1 := Pool(1, 1, 2, true, false, false, 0, [], [], [0],
                   Threads({0}, map[], map[], {}, {}), History(1, [], [], {}, false, false));
    assert Apply(p0, Queue({}, 0, true)) == p1;
    steps := Then(p0, [], Queue({}, 0, true));
    steps := Then(p0, steps, Start(0));
    hide Allowed, Run;
    var q := Notified(Registered(p1, 0));
    assert q.idleq == [0] && q.threads.idle - {0} == map[] && q.threads.spawned == {};
    assert Without([0], 0) == [] by { assert [0][1..] == []; }
  }

  lemma ARoundOfWork() returns (steps: seq<Step>)
    ensures Allowed(Create(1, 1, -1), steps)
    ensures Run(Create(1, 1, -1), steps) ==
            Pool(1, 1, 2, false, false, false, 1, [0], [], [],
                 Threads({}, map[0 := Waiting(false)], map[], {}, {}), History(1, [0], [], {0}, false, false))
  {
    var p0 := Create(1, 1, -1);
    steps := AJobStarted();
    var p2 := Run(p0, steps);
    steps := Then(p0, steps, Finish(0));
    hide Allowed, Run;
    assert Without([0], 0) == [] by { assert [0][1..] == []; }
    assert p2.threads.running - {0} == map[];
    assert Apply(p2, Finish(0)).threads.idle == map[0 := Waiting(false)];
  }

  // ---------- how many threads ----------

  /** The minimum may end up above the maximum, because the defaults are filled in after the check: for limits
      that pass it, exactly when the minimum is left to its default and the maximum is below that. */
  lemma LimitsInOrder(tMin: nat, tMax: nat, timeout: int)
    requires tMin <= tMax
    ensures var p := Create(tMin, tMax, timeout); p.tMin <= p.tMax <==> !(tMin == 0 && 0 < tMax < 5)
    ensures Create(tMin, tMax, timeout).tMax >= 1
    ensures var p := Create(0, 1, timeout); p.tMin == 5 && p.tMax == 1
  {
  }

  /** Workers that exist or have been asked for. */
  ghost function Committed(p: Pool): int {
    p.tTotal + |p.threads.spawned|
  }

  /** The number of threads stays within the maximum at every step, except exactly where tp_queue asks for
      one more worker while as many as the maximum are registered or on their way: it counts the registered
      ones only. */
  lemma WithinMax(p: Pool, step: Step)
    requires Inv(p) && Enabled(p, step) && Committed(p) <= p.tMax
    ensures Committed(Apply(p, step)) <= p.tMax <==>
            !(step.Queue? && step.ok && p.idleq == [] && p.tTotal < p.tMax && Committed(p) == p.tMax)
  {
    hide Inv, Looped, CleanedUp;
    match step {
      case Start(t) => LoopedWithinMax(Notified(Registered(p, t)), t);
      case Resume(t) => LoopedWithinMax(p, t);
      case Exit(t, newT, ok) => CleanedUpWithinMax(p, t, newT, ok);
      case Finish(t) => LoopedWithinMax(Notified(JobFinished(p, t)), t);
      case Abort(t, newT, ok) => CleanedUpWithinMax(JobFinished(p, t), t, newT, ok);
      case Queue(_, newT, _) => assert newT !in p.threads.spawned;
      case _ =>
    }
  }

  lemma CleanedUpWithinMax(p: Pool, t: Tid, newT: Tid, ok: bool)
    requires Committed(p) <= p.tMax
    ensures Committed(CleanedUp(p, t, newT, ok)) <= p.tMax
  {
  }

  lemma LoopedWithinMax(p: Pool, t: Tid)
    requires Committed(p) <= p.tMax
    ensures Committed(Looped(p, t)) <= p.tMax
  {
    CleanedUpWithinMax(p, t, 0, true);
    CleanedUpWithinMax(p.(busy := false), t, 0, true);
  }

  /** One job thread too many. */
  lemma MaxCanBeExceeded() returns (steps: seq<Step>)
    ensures Allowed(Create(1, 1, -1), steps)
    ensures var p := Run(Create(1, 1, -1), steps); p.tTotal == 2 && p.tMax == 1
  {
    var p0 := Create(1, 1, -1);
    var p1 := Apply(p0, Queue({}, 0, true));
    var p2 := Apply(p1, Queue({}, 1, true));
    var p3 := Apply(p2, Start(0));
    var p4 := Apply(p3, Start(1));
    steps := [Queue({}, 0, true), Queue({}, 1, true), Start(0), Start(1)];
  }

  /** The number of registered threads falls below the minimum at exactly those steps at which a worker leaves
      while as many as the minimum are registered: after its wait has timed out, or inside its job.  A worker
      that goes to sleep finds no job, and waits without a limit if and only if no more than the minimum are
      registered. */
  lemma WithinMin(p: Pool, step: Step)
    requires Inv(p) && Enabled(p, step) && !p.cancel && p.tMin <= p.tTotal
    ensures var q := Apply(p, step);
            && (q.tTotal < q.tMin <==> (step.Exit? || step.Abort?) && p.tTotal == p.tMin)
            && forall t | !WaitingWorker(p, t) && WaitingWorker(q, t) ::
                 q.jobq == [] && (q.threads.idle[t] == Waiting(false) <==> q.tTotal <= q.tMin)
  {
    hide Inv, Looped, CleanedUp, Without;
    match step {
      case Start(t) => LoopedWithinMin(Notified(Registered(p, t)), t);
      case Resume(t) => LoopedWithinMin(p, t);
      case Exit(t, newT, ok) => CleanedUpLeaves(p, t, newT, ok);
      case Finish(t) => LoopedWithinMin(Notified(JobFinished(p, t)), t);
      case Abort(t, newT, ok) => CleanedUpLeaves(JobFinished(p, t), t, newT, ok);
      case _ =>
    }
  }

  lemma CleanedUpLeaves(p: Pool, t: Tid, newT: Tid, ok: bool)
    ensures var q := CleanedUp(p, t, newT, ok); q.tTotal == p.tTotal - 1 && q.tMin == p.tMin && q.threads.idle == p.threads.idle - {t}
  {
  }

  lemma LoopedWithinMin(p: Pool, t: Tid)
    requires !p.cancel && p.tMin <= p.tTotal && !WaitingWorker(p, t)
    ensures var q := Looped(p, t);
            && q.tMin == p.tMin && p.tMin <= q.tTotal
            && (forall u | u != t :: WaitingWorker(q, u) ==> WaitingWorker(p, u))
            && (WaitingWorker(q, t) ==> q.jobq == [] && (q.threads.idle[t] == Waiting(false) <==> q.tTotal <= q.tMin))
  {
    hide Without;
  }

  /** A worker that ends inside its job, with nothing queued, is not replaced. */
  lemma MinCanBeUndershot() returns (steps: seq<Step>)
    ensures Allowed(Create(1, 1, -1), steps)
    ensures var p := Run(Create(1, 1, -1), steps); p.tTotal == 0 && p.tMin == 1 && !p.cancel
  {
    steps := AJobStarted();
    steps := Then(Create(1, 1, -1), steps, Abort(0, 1, true));
  }
}
