/** What holds in every state that the thread pool can reach between critical sections. */
module PoolSafety {
  import opened PoolModel

  // ---------- the invariant ----------

  ghost predicate NoDuplicates<T(!new)>(s: seq<T>) {
    forall i, j :: 0 <= i < j < |s| ==> s[i] != s[j]
  }

  /** The two queues list the registered workers, each once, and `t_total` counts them. */
  ghost predicate WorkersCounted(p: Pool) {
    && NoDuplicates(p.idleq) && NoDuplicates(p.activeq)
    && (forall t :: t in p.idleq <==> t in p.threads.idle)
    && (forall t :: t in p.activeq <==> t in p.threads.running)
    && p.threads.idle.Keys !! p.threads.running.Keys
    && p.threads.spawned !! p.threads.idle.Keys && p.threads.spawned !! p.threads.running.Keys
    && p.tTotal == |p.idleq| + |p.activeq|
  }

  function Numbers(n: nat): (s: seq<Job>)
    ensures |s| == n && forall i :: 0 <= i < n ==> s[i] == i
  {
    seq(n, i => i)
  }

  /** Accepted jobs are started in order, and once, or discarded, or still queued. */
  ghost predicate JobsInOrder(p: Pool) {
    && p.history.started + p.history.discarded + p.jobq == Numbers(p.history.accepted)
    && (p.history.discarded != [] ==> p.cancel)
  }

  /** Started jobs are running on one worker, or have ended. */
  ghost predicate JobsRunOnce(p: Pool) {
    && (forall t <- p.threads.running :: p.threads.running[t] in p.history.started && p.threads.running[t] !in p.history.ended)
    && (forall t, u | t in p.threads.running && u in p.threads.running && t != u :: p.threads.running[t] != p.threads.running[u])
    && (forall j <- p.history.started :: j in p.history.ended || j in p.threads.running.Values)
    && (forall j <- p.history.ended :: j in p.history.started)
  }

  ghost predicate FlagsRight(p: Pool) {
    !Quiet(p) ==> p.busy
  }

  /** Nobody is blocked, unsignalled, on something that has already happened. */
  ghost predicate ClientsRight(p: Pool) {
    && (p.threads.waiters != {} ==> p.wait)
    && (p.threads.waiters != {} && !p.history.waiterStranded ==> !Quiet(p))
    && (p.history.waiterStranded ==> p.cancel)
    && (p.threads.exiters != {} ==> p.cancel && p.tTotal > 0)
  }

  function WokenWorkers(p: Pool): set<Tid> {
    set t | t in p.threads.idle && p.threads.idle[t].Woken?
  }

  /** Some worker will take the mutex without being signalled again. */
  ghost predicate Served(p: Pool) {
    || p.threads.spawned != {} || p.activeq != []
    || exists t :: t in p.threads.idle && !p.threads.idle[t].Waiting?
  }

  /** A waiting worker is left alone only if enough others have been woken. */
  ghost predicate WorkServed(p: Pool) {
    !p.cancel ==>
      && ((exists t :: WaitingWorker(p, t)) ==> |p.jobq| <= |WokenWorkers(p)|)
      && (p.jobq != [] && !p.history.spawnFailed ==> Served(p))
  }

  ghost predicate Inv(p: Pool) {
    && p.tMax >= 1
    && WorkersCounted(p) && JobsInOrder(p) && JobsRunOnce(p) && FlagsRight(p) && ClientsRight(p) && WorkServed(p)
  }

  /** Only workers of `except` are in the middle of a critical section, only tp_cancel cancels, and it leaves
      no worker waiting. */
  ghost predicate Settled(p: Pool, except: set<Tid>) {
    forall t <- p.threads.idle ::
      && (p.threads.idle[t].Holding? ==> t in except) && (p.threads.idle[t].Cancelled? ==> p.cancel)
      && (p.threads.idle[t].Waiting? ==> !p.cancel)
  }

  // ---------- queues of workers ----------

  lemma {:induction false} WithoutFacts(s: seq<Tid>, t: Tid)
    requires NoDuplicates(s)
    ensures NoDuplicates(Without(s, t)) && forall u :: u in Without(s, t) <==> u in s && u != t
    ensures |Without(s, t)| == |s| - if t in s then 1 else 0
  {
    if s != [] {
      WithoutFacts(s[1..], t);
      assert s == [s[0]] + s[1..];
      var r := Without(s, t);
      if s[0] != t {
        assert forall i :: 0 < i < |r| ==> r[i] == Without(s[1..], t)[i - 1];
        assert forall i :: 0 < i < |r| ==> r[i] in s[1..];
      }
    }
  }

  lemma FewerWoken(p: Pool, q: Pool, t: Tid)
    requires WokenWorkers(p) <= WokenWorkers(q) + {t}
    ensures |WokenWorkers(p)| <= |WokenWorkers(q)| + 1
  {
    Subset(WokenWorkers(p), WokenWorkers(q) + {t});
  }

  lemma {:induction false} Subset<T>(a: set<T>, b: set<T>)
    requires a <= b
    ensures |a| <= |b|
  {
    if a != {} {
      var x :| x in a;
      Subset(a - {x}, b - {x});
    }
  }

  // ---------- every part of a critical section keeps the invariant ----------

  lemma NotifiedKeeps(p: Pool)
    requires Inv(p)
    ensures Inv(Notified(p))
  {
  }

  lemma RegisteredKeeps(p: Pool, t: Tid)
    requires Inv(p) && t in p.threads.spawned
    ensures Inv(Registered(p, t))
  {
    var q := Registered(p, t);
    assert WorkersCounted(q);
    WorkKept(p, q);
  }

  /** Where nobody starts to wait, no woken worker is lost and no job comes in, work stays served. */
  lemma WorkKept(p: Pool, q: Pool)
    requires WorkServed(p) && q.cancel == p.cancel && q.jobq == p.jobq && q.history.spawnFailed == p.history.spawnFailed
    requires WokenWorkers(p) <= WokenWorkers(q)
    requires forall t | t in q.threads.idle && q.threads.idle[t].Waiting? :: t in p.threads.idle && p.threads.idle[t].Waiting?
    requires Served(p) ==> Served(q)
    ensures WorkServed(q)
  {
    Subset(WokenWorkers(p), WokenWorkers(q));
    if t :| WaitingWorker(q, t) { assert WaitingWorker(p, t); }
  }

  lemma JobFinishedKeeps(p: Pool, t: Tid)
    requires Inv(p) && t in p.threads.running
    ensures Inv(JobFinished(p, t))
  {
    var q := JobFinished(p, t);
    JobFinishedWorkers(p, t);
    JobFinishedJobs(p, t);
    assert WokenWorkers(q) == WokenWorkers(p);
    assert q.threads.idle[t] == Holding;
    WorkKept(p, q);
  }

  lemma JobFinishedWorkers(p: Pool, t: Tid)
    requires WorkersCounted(p) && t in p.threads.running
    ensures WorkersCounted(JobFinished(p, t))
  {
    WithoutFacts(p.activeq, t);
  }

  lemma JobFinishedJobs(p: Pool, t: Tid)
    requires JobsRunOnce(p) && t in p.threads.running
    ensures JobsRunOnce(JobFinished(p, t))
  {
    var q := JobFinished(p, t);
    forall j <- q.history.started ensures j in q.history.ended || j in q.threads.running.Values {
      if j !in q.history.ended {
        var u :| u in p.threads.running && p.threads.running[u] == j;
        assert u in q.threads.running && q.threads.running[u] == j;
      }
    }
  }

  lemma CleanedUpKeeps(p: Pool, t: Tid, newT: Tid, ok: bool)
    requires Inv(p) && t in p.threads.idle && !p.threads.idle[t].Waiting?
    requires !p.cancel && p.jobq != [] ==> !p.threads.idle[t].Woken? && Unused(p, newT)
    ensures Inv(CleanedUp(p, t, newT, ok))
  {
    CleanedUpWorkers(p, t, newT, ok);
    if p.jobq != [] && !p.cancel { CleanedUpServed(p, t, newT, ok); }
  }

  lemma CleanedUpWorkers(p: Pool, t: Tid, newT: Tid, ok: bool)
    requires WorkersCounted(p) && t in p.threads.idle
    requires !p.cancel && p.jobq != [] ==> Unused(p, newT)
    ensures WorkersCounted(CleanedUp(p, t, newT, ok))
  {
    WithoutFacts(p.idleq, t);
  }

  /** The worker that leaves a non-empty queue spawns another, or is not the last one that counts. */
  lemma CleanedUpServed(p: Pool, t: Tid, newT: Tid, ok: bool)
    requires p.tMax >= 1 && WorkersCounted(p) && WorkServed(p) && p.jobq != [] && !p.cancel
    requires t in p.threads.idle && !p.threads.idle[t].Waiting? && !p.threads.idle[t].Woken?
    ensures WorkServed(CleanedUp(p, t, newT, ok))
  {
    var q := CleanedUp(p, t, newT, ok);
    WithoutFacts(p.idleq, t);
    assert WokenWorkers(q) == WokenWorkers(p);
    if u :| WaitingWorker(q, u) {
      assert WaitingWorker(p, u);
      assert |WokenWorkers(q)| > 0;
      var w :| w in WokenWorkers(q);
      assert !q.threads.idle[w].Waiting?;
    } else if !q.history.spawnFailed && q.threads.spawned == {} && q.activeq == [] {
      assert |q.idleq| == q.tTotal > 0;
      assert q.idleq[0] in q.threads.idle && !WaitingWorker(q, q.idleq[0]);
    }
  }

  lemma LoopedKeeps(p: Pool, t: Tid)
    requires Inv(p) && t in p.threads.idle && (p.threads.idle[t].Woken? || p.threads.idle[t].Holding?)
    ensures Inv(Looped(p, t))
  {
    if p.cancel {
      CleanedUpKeeps(p, t, 0, true);
    } else if p.jobq == [] {
      var q := if p.activeq == [] then p.(busy := false) else p;
      if q.tTotal > q.tMin && q.timeout == 0 { CleanedUpKeeps(q, t, 0, true); }
    } else {
      TookJobWorkers(p, t);
      TookJobJobs(p, t);
      TookJobServed(p, t);
    }
  }

  lemma TookJobWorkers(p: Pool, t: Tid)
    requires WorkersCounted(p) && t in p.threads.idle && p.jobq != []
    ensures WorkersCounted(TookJob(p, t))
  {
    WithoutFacts(p.idleq, t);
  }

  lemma TookJobJobs(p: Pool, t: Tid)
    requires JobsInOrder(p) && JobsRunOnce(p) && t !in p.threads.running && p.jobq != [] && !p.cancel
    ensures JobsInOrder(TookJob(p, t)) && JobsRunOnce(TookJob(p, t))
  {
    var q, h := TookJob(p, t), p.history;
    assert q.history.started + q.history.discarded + q.jobq == h.started + h.discarded + p.jobq by {
      assert h.discarded == [] && p.jobq == [p.jobq[0]] + p.jobq[1..];
    }
    NotStartedYet(p);
    forall j <- q.history.started ensures j in q.history.ended || j in q.threads.running.Values {
      if j == p.jobq[0] {
        assert q.threads.running[t] == j;
      } else if j !in h.ended {
        var u :| u in p.threads.running && p.threads.running[u] == j;
        assert q.threads.running[u] == j;
      }
    }
  }

  /** The next job has not been started before. */
  lemma NotStartedYet(p: Pool)
    requires JobsInOrder(p) && p.jobq != []
    ensures p.jobq[0] == |p.history.started| + |p.history.discarded| && p.jobq[0] !in p.history.started
  {
    var h, all := p.history, Numbers(p.history.accepted);
    assert all[|h.started| + |h.discarded|] == p.jobq[0];
    assert forall i :: 0 <= i < |h.started| ==> h.started[i] == all[i];
  }

  lemma TookJobServed(p: Pool, t: Tid)
    requires WorkServed(p) && t in p.threads.idle && p.jobq != []
    ensures WorkServed(TookJob(p, t))
  {
    var q := TookJob(p, t);
    FewerWoken(p, q, t);
    if u :| WaitingWorker(q, u) { assert WaitingWorker(p, u); }
  }

  // ---------- every step keeps the invariant ----------

  lemma QueueKeeps(p: Pool, woken: set<Tid>, newT: Tid, ok: bool)
    requires Inv(p) && Enabled(p, Queue(woken, newT, ok))
    ensures Inv(Apply(p, Queue(woken, newT, ok)))
  {
    var q := Apply(p, Queue(woken, newT, ok));
    EnqueuedJobs(p, woken);
    QueueWorkers(p, woken, newT, ok);
    if !p.cancel {
      QueueWoken(p, woken, newT, ok);
      QueueServed(p, woken, newT, ok);
    }
  }

  lemma QueueWorkers(p: Pool, woken: set<Tid>, newT: Tid, ok: bool)
    requires WorkersCounted(p) && Enabled(p, Queue(woken, newT, ok))
    ensures WorkersCounted(Apply(p, Queue(woken, newT, ok)))
  {
  }

  lemma EnqueuedJobs(p: Pool, woken: set<Tid>)
    requires JobsInOrder(p) && JobsRunOnce(p)
    ensures JobsInOrder(Enqueued(p, woken)) && JobsRunOnce(Enqueued(p, woken))
  {
    EnqueuedInOrder(p, woken);
    assert Enqueued(p, woken).threads.running == p.threads.running;
  }

  lemma EnqueuedInOrder(p: Pool, woken: set<Tid>)
    requires JobsInOrder(p)
    ensures JobsInOrder(Enqueued(p, woken))
  {
    var n := p.history.accepted;
    Append(p.history.started + p.history.discarded, p.jobq, n);
    assert Numbers(n + 1) == Numbers(n) + [n];
  }

  lemma Append(a: seq<Job>, b: seq<Job>, j: Job)
    ensures a + (b + [j]) == a + b + [j]
  {
  }

  lemma SignalWakes(p: Pool, woken: set<Tid>)
    requires forall t <- woken :: WaitingWorker(p, t)
    ensures |WokenWorkers(Signalled(p, woken))| == |WokenWorkers(p)| + |woken|
  {
    assert WokenWorkers(Signalled(p, woken)) == WokenWorkers(p) + woken;
    assert WokenWorkers(p) !! woken;
  }

  /** The signal for the new job is not lost on a waiting worker. */
  lemma QueueWoken(p: Pool, woken: set<Tid>, newT: Tid, ok: bool)
    requires WorkersCounted(p) && WorkServed(p) && !p.cancel && Enabled(p, Queue(woken, newT, ok))
    ensures var q := Apply(p, Queue(woken, newT, ok));
            (exists t :: WaitingWorker(q, t)) ==> |q.jobq| <= |WokenWorkers(q)|
  {
    var q := Apply(p, Queue(woken, newT, ok));
    if p.idleq != [] {
      hide WorkersCounted;
      SignalWakes(p, woken);
      assert q.threads.idle == Signalled(p, woken).threads.idle;
      assert WokenWorkers(q) == WokenWorkers(Signalled(p, woken));
      if u :| WaitingWorker(q, u) {
        assert WaitingWorker(p, u);
        assert |woken| > 0;
      }
    }
  }

  lemma QueueServed(p: Pool, woken: set<Tid>, newT: Tid, ok: bool)
    requires p.tMax >= 1 && WorkersCounted(p) && Enabled(p, Queue(woken, newT, ok))
    ensures var q := Apply(p, Queue(woken, newT, ok)); q.history.spawnFailed || Served(q)
  {
    var q := Apply(p, Queue(woken, newT, ok));
    if p.idleq != [] {
      var t := p.idleq[0];
      if WaitingWorker(p, t) {
        assert woken != {};
        var w :| w in woken;
        assert w in q.threads.idle && !q.threads.idle[w].Waiting?;
      } else {
        assert t in q.threads.idle && !q.threads.idle[t].Waiting?;
      }
    }
  }

  lemma CancelKeeps(p: Pool)
    requires Inv(p)
    ensures Inv(Apply(p, Cancel))
  {
    assert p.history.started + (p.history.discarded + p.jobq) + [] == p.history.started + p.history.discarded + p.jobq;
  }

  lemma NobodyWaits(p: Pool)
    ensures forall t :: !WaitingWorker(Apply(p, Cancel), t)
  {
  }

  lemma ClientStepKeeps(p: Pool, step: Step)
    requires Inv(p) && Enabled(p, step) && (step.WaitCheck? || step.ExitCheck? || step.SpuriousClient?)
    ensures Inv(Apply(p, step))
  {
    assert WokenWorkers(Apply(p, step)) == WokenWorkers(p);
    assert Apply(p, step).threads.idle == p.threads.idle;
    if !p.cancel { WorkKept(p, Apply(p, step)); }
  }

  lemma WakeKeeps(p: Pool, step: Step)
    requires Inv(p) && Enabled(p, step) && (step.Expire? || step.Spurious?)
    ensures Inv(Apply(p, step))
  {
    var q := Apply(p, step);
    assert !q.threads.idle[step.t].Waiting?;
    if !p.cancel { WorkKept(p, q); }
  }

  lemma StepKeeps(p: Pool, step: Step)
    requires Inv(p) && Enabled(p, step)
    ensures Inv(Apply(p, step))
  {
    hide Inv, Looped, CleanedUp, Notified, JobFinished, Registered;
    match step
    case Queue(woken, newT, ok) => QueueKeeps(p, woken, newT, ok);
    case Cancel => CancelKeeps(p);
    case WaitCheck(_) => ClientStepKeeps(p, step);
    case ExitCheck(_) => ClientStepKeeps(p, step);
    case SpuriousClient(_) => ClientStepKeeps(p, step);
    case Expire(_) => WakeKeeps(p, step);
    case Spurious(_) => WakeKeeps(p, step);
    case Resume(t) => LoopedKeeps(p, t);
    case Exit(t, newT, ok) => CleanedUpKeeps(p, t, newT, ok);
    case Start(t) => StartKeeps(p, t);
    case Finish(t) => FinishKeeps(p, t);
    case Abort(t, newT, ok) => AbortKeeps(p, t, newT, ok);
  }

  lemma StartKeeps(p: Pool, t: Tid)
    requires Inv(p) && t in p.threads.spawned
    ensures Inv(Looped(Notified(Registered(p, t)), t))
  {
    RegisteredKeeps(p, t);
    NotifiedKeeps(Registered(p, t));
    LoopedKeeps(Notified(Registered(p, t)), t);
  }

  lemma FinishKeeps(p: Pool, t: Tid)
    requires Inv(p) && t in p.threads.running
    ensures Inv(Looped(Notified(JobFinished(p, t)), t))
  {
    JobFinishedKeeps(p, t);
    NotifiedKeeps(JobFinished(p, t));
    LoopedKeeps(Notified(JobFinished(p, t)), t);
  }

  lemma AbortKeeps(p: Pool, t: Tid, newT: Tid, ok: bool)
    requires Inv(p) && t in p.threads.running && Unused(p, newT)
    ensures Inv(CleanedUp(JobFinished(p, t), t, newT, ok))
  {
    JobFinishedKeeps(p, t);
    CleanedUpKeeps(JobFinished(p, t), t, newT, ok);
  }
}
