/** What failures of pthread_create do to queued jobs. */
module PoolFailures {
  import opened PoolModel
  import opened PoolSafety
  import opened PoolRuns

  /** A job is queued and nobody is on the way to it. */
  ghost predicate Stranded(p: Pool) {
    p.jobq != [] && !p.cancel && !Served(p)
  }

  /** pthread_create fails, and there is no other worker: none that has been spawned, none that is active, and
      none in idleq but the one that leaves. */
  ghost predicate FatalFailure(p: Pool, step: Step) {
    && !p.cancel && p.threads.spawned == {}
    && match step
       case Queue(_, _, ok) => !ok && p.idleq == [] && p.activeq == []
       case Exit(t, _, ok) => !ok && p.jobq != [] && p.activeq == [] && p.idleq == [t]
       case Abort(t, _, ok) => !ok && p.jobq != [] && p.activeq == [t] && p.idleq == []
       case _ => false
  }

  /** The pool without the memory of failures. */
  ghost function Forgiven(p: Pool): Pool {
    p.(history := p.history.(spawnFailed := false))
  }

  lemma ForgivenIsRight(p: Pool)
    requires Inv(p) && !Stranded(p)
    ensures Inv(Forgiven(p))
  {
    var q := Forgiven(p);
    assert WokenWorkers(q) == WokenWorkers(p);
    assert forall t :: WaitingWorker(q, t) <==> WaitingWorker(p, t);
    assert Served(q) <==> Served(p);
  }

  /** That memory does not matter to what happens. */
  lemma ForgivenStep(p: Pool, step: Step)
    requires Enabled(p, step)
    ensures Enabled(Forgiven(p), step) && Forgiven(Apply(Forgiven(p), step)) == Forgiven(Apply(p, step))
  {
    var q := Forgiven(p);
    assert forall t :: WaitingWorker(q, t) <==> WaitingWorker(p, t);
    hide Looped, CleanedUp, JobFinished, Enqueued, Notified, Registered;
    match step
    case Queue(woken, newT, ok) => ForgivenQueue(p, woken, newT, ok);
    case Start(t) =>
      assert Forgiven(Notified(Registered(q, t))) == Forgiven(Notified(Registered(p, t))) by { ForgivenStart(p, t); }
      ForgivenLoop(Notified(Registered(p, t)), Notified(Registered(q, t)), t);
    case Resume(t) => ForgivenLoop(p, q, t);
    case Exit(t, newT, ok) => ForgivenCleanUp(p, q, t, newT, ok);
    case Finish(t) =>
      ForgivenFinish(p, t);
      ForgivenLoop(Notified(JobFinished(p, t)), Notified(JobFinished(q, t)), t);
    case Abort(t, newT, ok) =>
      ForgivenFinish(p, t);
      ForgivenCleanUp(JobFinished(p, t), JobFinished(q, t), t, newT, ok);
    case _ => ForgivenRest(p, step);
  }

  lemma ForgivenRest(p: Pool, step: Step)
    requires Enabled(p, step) && Enabled(Forgiven(p), step)
    requires step.WaitCheck? || step.Cancel? || step.ExitCheck? || step.Expire? || step.Spurious? || step.SpuriousClient?
    ensures Forgiven(Apply(Forgiven(p), step)) == Forgiven(Apply(p, step))
  {
  }

  lemma ForgivenQueue(p: Pool, woken: set<Tid>, newT: Tid, ok: bool)
    requires Enabled(p, Queue(woken, newT, ok)) && Enabled(Forgiven(p), Queue(woken, newT, ok))
    ensures Forgiven(Apply(Forgiven(p), Queue(woken, newT, ok))) == Forgiven(Apply(p, Queue(woken, newT, ok)))
  {
    assert Enqueued(Forgiven(p), woken) == Forgiven(Enqueued(p, woken));
    hide Enqueued;
  }

  lemma ForgivenStart(p: Pool, t: Tid)
    ensures Forgiven(Notified(Registered(Forgiven(p), t))) == Forgiven(Notified(Registered(p, t)))
  {
  }

  lemma ForgivenFinish(p: Pool, t: Tid)
    requires t in p.threads.running
    ensures JobFinished(Forgiven(p), t) == Forgiven(JobFinished(p, t))
    ensures Forgiven(Notified(JobFinished(Forgiven(p), t))) == Forgiven(Notified(JobFinished(p, t)))
  {
    assert JobFinished(Forgiven(p), t) == Forgiven(JobFinished(p, t));
    hide JobFinished;
  }

  lemma ForgivenCleanUp(p: Pool, q: Pool, t: Tid, newT: Tid, ok: bool)
    requires Forgiven(p) == Forgiven(q)
    ensures Forgiven(CleanedUp(p, t, newT, ok)) == Forgiven(CleanedUp(q, t, newT, ok))
  {
  }

  lemma ForgivenLoop(p: Pool, q: Pool, t: Tid)
    requires Forgiven(p) == Forgiven(q)
    ensures Forgiven(Looped(p, t)) == Forgiven(Looped(q, t))
  {
    hide CleanedUp, TookJob;
    ForgivenCleanUp(p, q, t, 0, true);
    ForgivenCleanUp(p.(busy := false), q.(busy := false), t, 0, true);
    if p.jobq != [] { ForgivenTook(p, q, t); }
  }

  lemma ForgivenTook(p: Pool, q: Pool, t: Tid)
    requires Forgiven(p) == Forgiven(q) && p.jobq != []
    ensures Forgiven(TookJob(p, t)) == Forgiven(TookJob(q, t))
  {
  }

  /** Steps that are not calls of pthread_create do not fail to. */
  lemma NothingFails(p: Pool, step: Step)
    requires Enabled(p, step) && !step.Queue? && !step.Exit? && !step.Abort?
    ensures Apply(p, step).history.spawnFailed == p.history.spawnFailed
  {
    hide Without, JobFinished;
    match step
    case Start(t) => LoopFailsNothing(Notified(Registered(p, t)), t);
    case Resume(t) => LoopFailsNothing(p, t);
    case Finish(t) => FinishFailsNothing(p, t); LoopFailsNothing(Notified(JobFinished(p, t)), t);
    case _ =>
  }

  lemma FinishFailsNothing(p: Pool, t: Tid)
    requires t in p.threads.running
    ensures Notified(JobFinished(p, t)).history.spawnFailed == p.history.spawnFailed
  {
  }

  lemma LoopFailsNothing(p: Pool, t: Tid)
    ensures Looped(p, t).history.spawnFailed == p.history.spawnFailed
  {
  }

  lemma SameStranded(p: Pool)
    ensures Stranded(Forgiven(p)) <==> Stranded(p)
  {
  }

  /** A step strands a job if and only if it is such a failure. */
  lemma StrandsExactly(p: Pool, step: Step)
    requires Inv(p) && !Stranded(p) && Enabled(p, step)
    ensures Stranded(Apply(p, step)) <==> FatalFailure(p, step)
  {
    match step
    case Queue(woken, newT, ok) => QueueStrands(p, woken, newT, ok);
    case Exit(t, newT, ok) => ExitStrands(p, t, newT, ok);
    case Abort(t, newT, ok) => AbortStrands(p, t, newT, ok);
    case _ => OthersStrandNothing(p, step);
  }

  lemma OthersStrandNothing(p: Pool, step: Step)
    requires Inv(p) && !Stranded(p) && Enabled(p, step) && !step.Queue? && !step.Exit? && !step.Abort?
    ensures !Stranded(Apply(p, step))
  {
    var q := Forgiven(p);
    ForgivenIsRight(p);
    ForgivenStep(p, step);
    StepKeeps(q, step);
    NothingFails(q, step);
    SameStranded(Apply(p, step));
    SameStranded(Apply(q, step));
    NotStranded(Apply(q, step));
    hide Inv, Stranded, Enabled, Apply;
  }

  lemma NotStranded(p: Pool)
    requires Inv(p) && !p.history.spawnFailed
    ensures !Stranded(p)
  {
  }

  lemma QueueStrands(p: Pool, woken: set<Tid>, newT: Tid, ok: bool)
    requires Inv(p) && !Stranded(p) && Enabled(p, Queue(woken, newT, ok))
    ensures Stranded(Apply(p, Queue(woken, newT, ok))) <==> FatalFailure(p, Queue(woken, newT, ok))
  {
    if p.idleq != [] || ok {
      ForgivenIsRight(p);
      ForgivenStep(p, Queue(woken, newT, ok));
      QueueServed(Forgiven(p), woken, newT, ok);
      SameStranded(Apply(p, Queue(woken, newT, ok)));
      SameStranded(Apply(Forgiven(p), Queue(woken, newT, ok)));
    }
  }

  lemma ExitStrands(p: Pool, t: Tid, newT: Tid, ok: bool)
    requires Inv(p) && !Stranded(p) && Enabled(p, Exit(t, newT, ok))
    ensures Stranded(Apply(p, Exit(t, newT, ok))) <==> FatalFailure(p, Exit(t, newT, ok))
  {
    CleanedUpStrands(p, t, newT, ok);
  }

  /** The same for the clean-up handler alone. */
  lemma CleanedUpStrands(p: Pool, t: Tid, newT: Tid, ok: bool)
    requires p.tMax >= 1 && WorkersCounted(p) && WorkServed(p)
    requires t in p.threads.idle && !p.threads.idle[t].Waiting? && !p.threads.idle[t].Woken?
    ensures Stranded(CleanedUp(p, t, newT, ok)) <==>
            !ok && !p.cancel && p.jobq != [] && p.threads.spawned == {} && p.activeq == [] && p.idleq == [t]
  {
    var q := CleanedUp(p, t, newT, ok);
    WithoutFacts(p.idleq, t);
    assert q.jobq == p.jobq && q.cancel == p.cancel && q.activeq == p.activeq && q.idleq == Without(p.idleq, t);
    assert q.threads.idle == p.threads.idle - {t};
    if p.jobq == [] || p.cancel || p.activeq != [] {
    } else if p.idleq == [t] {
      LastLeaves(p, t, newT, ok);
    } else {
      assert WokenWorkers(q) == WokenWorkers(p);
      OtherWorker(p, t);
      var u :| u in q.idleq;
      if WaitingWorker(q, u) {
        assert WaitingWorker(p, u);
        assert |WokenWorkers(p)| > 0;
        var w :| w in WokenWorkers(q);
        assert w in q.threads.idle && !q.threads.idle[w].Waiting?;
      }
    }
  }

  lemma LastLeaves(p: Pool, t: Tid, newT: Tid, ok: bool)
    requires p.tMax >= 1 && WorkersCounted(p) && p.idleq == [t] && p.activeq == [] && p.jobq != [] && !p.cancel
    ensures Stranded(CleanedUp(p, t, newT, ok)) <==> !ok && p.threads.spawned == {}
  {
    var q := CleanedUp(p, t, newT, ok);
    assert p.tTotal == 1;
    assert q.threads.idle == map[] by {
      forall u ensures u !in q.threads.idle { assert u in p.threads.idle ==> u in p.idleq; }
    }
  }

  lemma OnlyOne(s: seq<Tid>, t: Tid)
    requires |s| == 1 && t in s
    ensures s == [t]
  {
    assert s == [s[0]];
  }

  lemma OtherWorker(p: Pool, t: Tid)
    requires NoDuplicates(p.idleq) && t in p.idleq && p.idleq != [t]
    ensures exists u :: u in Without(p.idleq, t)
  {
    WithoutFacts(p.idleq, t);
    if |p.idleq| == 1 { OnlyOne(p.idleq, t); }
    assert Without(p.idleq, t)[0] in Without(p.idleq, t);
  }

  lemma AbortStrands(p: Pool, t: Tid, newT: Tid, ok: bool)
    requires Inv(p) && !Stranded(p) && Enabled(p, Abort(t, newT, ok))
    ensures Stranded(Apply(p, Abort(t, newT, ok))) <==> FatalFailure(p, Abort(t, newT, ok))
  {
    var q := JobFinished(p, t);
    JobFinishedKeeps(p, t);
    CleanedUpStrands(q, t, newT, ok);
    WithoutFacts(p.activeq, t);
    assert q.idleq == [t] <==> p.idleq == [];
    assert q.activeq == [] <==> p.activeq == [t] by {
      if q.activeq == [] { assert |p.activeq| == 1 && p.activeq == [p.activeq[0]]; }
    }
  }

  /** No step of the run is such a failure. */
  ghost predicate WithoutFatalFailure(p: Pool, steps: seq<Step>)
    requires Allowed(p, steps)
    decreases |steps|
  {
    steps != [] ==> !FatalFailure(p, steps[0]) && WithoutFatalFailure(Apply(p, steps[0]), steps[1..])
  }

  /** So no job is ever stranded in a run without such a failure, whatever other failures there are. */
  lemma OnlyFatalFailuresStrand(tMin: nat, tMax: nat, timeout: int, steps: seq<Step>)
    requires Allowed(Create(tMin, tMax, timeout), steps) && WithoutFatalFailure(Create(tMin, tMax, timeout), steps)
    ensures !Stranded(Run(Create(tMin, tMax, timeout), steps))
  {
    CreatedIsRight(tMin, tMax, timeout);
    NeverStranded(Create(tMin, tMax, timeout), steps);
  }

  lemma {:induction false} NeverStranded(p: Pool, steps: seq<Step>)
    requires Inv(p) && !Stranded(p) && Allowed(p, steps) && WithoutFatalFailure(p, steps)
    ensures !Stranded(Run(p, steps))
    decreases |steps|
  {
    if steps != [] {
      StepKeeps(p, steps[0]);
      StrandsExactly(p, steps[0]);
      NeverStranded(Apply(p, steps[0]), steps[1..]);
    }
  }

  /** A failed pthread_create leaves its job in the queue, with nobody to run it. */
  lemma FailedSpawnStrandsJob() returns (steps: seq<Step>)
    ensures Allowed(Create(1, 1, -1), steps)
    ensures var p := Run(Create(1, 1, -1), steps); p.jobq == [0] && Stranded(p)
  {
    var p0 := Create(1, 1, -1);
    var p1 := Apply(p0, Queue({}, 0, false));
    steps := [Queue({}, 0, false)];
  }
}
