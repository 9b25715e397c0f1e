/** Where the threads of the pool can always go on to: tp_cancel and tp_wait can return. */
module PoolProgress {
  import opened PoolModel
  import opened PoolSafety
  import opened PoolRuns
  import opened PoolFailures

  /** What workers do by themselves: no new job, no client, no wake-up without a signal, no time-out, and
      every pthread_create succeeds. */
  predicate ByWorker(step: Step) {
    step.Start? || step.Resume? || step.Finish? || (step.Exit? && step.ok)
  }

  predicate ByWorkers(steps: seq<Step>) {
    forall i :: 0 <= i < |steps| ==> ByWorker(steps[i])
  }

  lemma Before(p: Pool, step: Step, rest: seq<Step>)
    requires Enabled(p, step) && ByWorker(step) && Allowed(Apply(p, step), rest) && ByWorkers(rest)
    ensures ByWorkers([step] + rest) && Allowed(p, [step] + rest)
    ensures Run(p, [step] + rest) == Run(Apply(p, step), rest)
  {
    assert ([step] + rest)[1..] == rest;
  }

  // ---------- a cancelled pool ----------

  /** Once the pool has been cancelled, no worker waits. */
  lemma CancelLeavesNobodyWaiting(tMin: nat, tMax: nat, timeout: int, steps: seq<Step>)
    requires Allowed(Create(tMin, tMax, timeout), steps)
    ensures var p := Run(Create(tMin, tMax, timeout), steps); p.cancel ==> forall t :: !WaitingWorker(p, t)
  {
    CreatedIsRight(tMin, tMax, timeout);
    RunKeeps(Create(tMin, tMax, timeout), steps);
  }

  /** The workers, registered or not. */
  ghost function Workers(p: Pool): set<Tid> {
    p.threads.spawned + p.threads.idle.Keys + p.threads.running.Keys
  }

  lemma CancelledCleanUp(p: Pool, t: Tid, newT: Tid, ok: bool)
    requires p.cancel
    ensures var q := CleanedUp(p, t, newT, ok);
            && q.cancel && q.jobq == p.jobq && q.threads.waiters == p.threads.waiters
            && q.threads.spawned == p.threads.spawned && q.threads.running == p.threads.running
            && q.threads.idle.Keys == p.threads.idle.Keys - {t}
  {
  }

  /** In a cancelled pool, a worker that moves is gone. */
  lemma WorkerGoes(p: Pool, step: Step)
    requires WorkersCounted(p) && p.cancel && Enabled(p, step) && ByWorker(step)
    ensures var q := Apply(p, step);
            && q.cancel && q.jobq == p.jobq && q.threads.waiters <= p.threads.waiters
            && Workers(q) == Workers(p) - {step.t} && Workers(q) < Workers(p)
  {
    var q, t := Apply(p, step), step.t;
    assert t in Workers(p);
    hide NoDuplicates, Without, CleanedUp;
    match step {
      case Start(_) => CancelledCleanUp(Notified(Registered(p, t)), t, 0, true);
      case Resume(_) => CancelledCleanUp(p, t, 0, true);
      case Exit(_, newT, ok) => CancelledCleanUp(p, t, newT, ok);
      case Finish(_) => CancelledCleanUp(Notified(JobFinished(p, t)), t, 0, true);
    }
    assert Workers(q) == Workers(p) - {t};
  }

  /** The last job that returns, or a worker that registers when there is none, releases those in tp_wait. */
  lemma GoesNotified(p: Pool, step: Step)
    requires Inv(p) && p.cancel && p.jobq == [] && Enabled(p, step)
    requires (step.Finish? && p.threads.running.Keys == {step.t}) || (step.Start? && p.threads.running == map[])
    ensures Apply(p, step).threads.waiters == {}
  {
    RunningIsActive(p);
    if step.Finish? {
      WithoutFacts(p.activeq, step.t);
      var r := JobFinished(p, step.t);
      assert forall u :: u !in r.activeq;
      HasOne(r.activeq);
    }
  }

  lemma NextToGo(p: Pool) returns (step: Step)
    requires Inv(p) && Settled(p, {}) && p.cancel && Workers(p) != {}
    ensures Enabled(p, step) && ByWorker(step)
    ensures p.threads.running != map[] ==> step.Finish?
    ensures p.threads.running == map[] && p.threads.spawned != {} ==> step.Start?
  {
    if t :| t in p.threads.running {
      step := Finish(t);
    } else if t :| t in p.threads.spawned {
      step := Start(t);
    } else {
      var t :| t in p.threads.idle;
      if p.threads.idle[t].Woken? {
        step := Resume(t);
      } else {
        var newT := UnusedId(p);
        step := Exit(t, newT, true);
      }
    }
  }

  lemma UnusedId(p: Pool) returns (t: Tid)
    ensures Unused(p, t)
  {
    t := Above(Workers(p));
    assert t !in Workers(p);
  }

  lemma Above(s: set<nat>) returns (n: nat)
    ensures forall x <- s :: x < n
  {
    if s == {} {
      n := 0;
    } else {
      var x :| x in s;
      var m := Above(s - {x});
      n := if m > x then m else x + 1;
      forall y <- s ensures y < n {
        assert y != x ==> y in s - {x};
      }
    }
  }

  lemma Released(p: Pool, step: Step)
    requires Inv(p) && p.cancel && p.jobq == [] && (p.activeq != [] || p.threads.spawned != {}) && Enabled(p, step)
    requires p.threads.running != map[] ==> step.Finish?
    requires p.threads.running == map[] ==> step.Start?
    ensures Apply(p, step).threads.waiters == {} || Apply(p, step).activeq != []
  {
    if step.Start? || p.threads.running.Keys == {step.t} {
      GoesNotified(p, step);
    } else {
      var u :| u in p.threads.running && u != step.t;
      WithoutFacts(p.activeq, step.t);
      FinishKeepsOthers(p, step.t, u);
    }
  }

  lemma FinishKeepsOthers(p: Pool, t: Tid, u: Tid)
    requires WorkersCounted(p) && p.cancel && t in p.threads.running && u in p.threads.running && u != t
    ensures Apply(p, Finish(t)).activeq != []
  {
    WithoutFacts(p.activeq, t);
    assert u in Without(p.activeq, t);
  }

  lemma HasOne(s: seq<Tid>)
    ensures s == [] || exists t :: t in s
  {
    if s != [] { assert s[0] in s; }
  }

  lemma NobodyCounted(p: Pool)
    requires WorkersCounted(p) && Workers(p) == {}
    ensures p.tTotal == 0 && p.activeq == [] && p.threads.spawned == {}
  {
    assert forall t :: t !in Workers(p);
    assert forall t :: t !in p.idleq && t !in p.activeq && t !in p.threads.spawned;
    HasOne(p.idleq);
    HasOne(p.activeq);
  }

  lemma Smaller<T>(a: set<T>, b: set<T>)
    requires a < b
    ensures |a| < |b|
  {
    assert b == a + (b - a);
    assert b - a == {} ==> a == b;
  }

  /** From every state of a cancelled pool the workers alone can bring it to its end: no job runs, no worker is
      left, and the thread in tp_cancel is told; and so are those in tp_wait, if no job was queued after the
      cancellation, and some worker was active or not registered yet. */
  lemma {:induction false} CancelledCanEnd(p: Pool) returns (steps: seq<Step>)
    requires Inv(p) && Settled(p, {}) && p.cancel
    ensures ByWorkers(steps) && Allowed(p, steps)
    ensures var q := Run(p, steps);
            && q.tTotal == 0 && Workers(q) == {} && q.threads.exiters == {} && q.jobq == p.jobq
            && q.threads.waiters <= p.threads.waiters
            && (p.jobq == [] && (p.activeq != [] || p.threads.spawned != {}) ==> q.threads.waiters == {})
    decreases |Workers(p)|
  {
    RunningIsActive(p);
    if Workers(p) == {} {
      NobodyCounted(p);
      steps := [];
    } else {
      var step := NextToGo(p);
      var q := Apply(p, step);
      StepKeeps(p, step);
      StepSettles(p, step);
      WorkerGoes(p, step);
      Smaller(Workers(q), Workers(p));
      if p.jobq == [] && (p.activeq != [] || p.threads.spawned != {}) { Released(p, step); }
      hide Inv, Settled, Enabled, Apply, Workers;
      var rest := CancelledCanEnd(q);
      Before(p, step, rest);
      steps := [step] + rest;
    }
  }

  /** So tp_cancel can return in every run. */
  lemma CancelCanReturn(tMin: nat, tMax: nat, timeout: int, first: seq<Step>) returns (steps: seq<Step>)
    requires Allowed(Create(tMin, tMax, timeout), first) && Run(Create(tMin, tMax, timeout), first).cancel
    ensures var p := Run(Create(tMin, tMax, timeout), first);
            ByWorkers(steps) && Allowed(p, steps) && Run(p, steps).tTotal == 0 && Run(p, steps).threads.exiters == {}
  {
    CreatedIsRight(tMin, tMax, timeout);
    RunKeeps(Create(tMin, tMax, timeout), first);
    steps := CancelledCanEnd(Run(Create(tMin, tMax, timeout), first));
  }

  // ---------- a pool at work ----------

  /** The workers alone can bring all accepted jobs to their end, and release those in tp_wait. */
  ghost predicate CanFinish(p: Pool) {
    exists steps: seq<Step> :: ByWorkers(steps) && Allowed(p, steps) && AllDone(Run(p, steps)) && Run(p, steps).threads.waiters == {}
  }

  lemma NextAtWork(p: Pool) returns (step: Step)
    requires Inv(p) && Settled(p, {}) && !p.cancel && !Stranded(p) && !Quiet(p)
    ensures Enabled(p, step) && ByWorker(step)
    ensures step.Finish? || p.jobq != []
  {
    RunningIsActive(p);
    if t :| t in p.threads.running {
      step := Finish(t);
    } else if t :| t in p.threads.spawned {
      step := Start(t);
    } else {
      var t :| t in p.threads.idle && !p.threads.idle[t].Waiting?;
      if p.threads.idle[t].Woken? {
        step := Resume(t);
      } else {
        var newT := UnusedId(p);
        step := Exit(t, newT, true);
      }
    }
  }

  ghost function Open(p: Pool): nat {
    2 * |p.jobq| + |p.activeq|
  }

  lemma LoopWorks(p: Pool, t: Tid)
    requires !p.cancel && p.jobq != []
    ensures var q := Looped(p, t); !q.cancel && Open(q) + 1 == Open(p)
  {
  }

  lemma LoopRests(p: Pool, t: Tid)
    requires !p.cancel && p.jobq == []
    ensures var q := Looped(p, t); !q.cancel && Open(q) == Open(p)
  {
  }

  lemma FinishWorks(p: Pool, t: Tid)
    requires WorkersCounted(p) && t in p.threads.running && !p.cancel
    ensures var q := Notified(JobFinished(p, t)); !q.cancel && q.jobq == p.jobq && Open(q) + 1 == Open(p)
  {
    WithoutFacts(p.activeq, t);
  }

  lemma CleanUpWorks(p: Pool, t: Tid, newT: Tid)
    requires WorkersCounted(p) && !p.cancel && t in p.threads.idle
    ensures var q := CleanedUp(p, t, newT, true); !q.cancel && Open(q) == Open(p) && |q.idleq| < |p.idleq|
  {
    WithoutFacts(p.idleq, t);
  }

  /** There is less to do, or as much and one idle worker less. */
  lemma WorkGoesOn(p: Pool, step: Step)
    requires WorkersCounted(p) && !p.cancel && Enabled(p, step) && ByWorker(step) && (step.Finish? || p.jobq != [])
    ensures var q := Apply(p, step);
            !q.cancel && (Open(q) < Open(p) || (Open(q) == Open(p) && |q.idleq| < |p.idleq|))
  {
    hide WorkersCounted, Looped, CleanedUp, JobFinished;
    match step {
      case Start(t) => LoopWorks(Notified(Registered(p, t)), t);
      case Resume(t) => LoopWorks(p, t);
      case Exit(t, newT, _) => CleanUpWorks(p, t, newT);
      case Finish(t) =>
        FinishWorks(p, t);
        var q := Notified(JobFinished(p, t));
        if q.jobq == [] { LoopRests(q, t); } else { LoopWorks(q, t); }
    }
  }

  lemma {:induction false} WorkCanEnd(p: Pool) returns (steps: seq<Step>)
    requires Inv(p) && Settled(p, {}) && !p.cancel && !Stranded(p)
    ensures ByWorkers(steps) && Allowed(p, steps) && AllDone(Run(p, steps)) && Run(p, steps).threads.waiters == {}
    decreases Open(p), |p.idleq|
  {
    QuietMeansDone(p);
    if Quiet(p) {
      steps := [];
    } else {
      var step := NextAtWork(p);
      var q := Apply(p, step);
      StepKeeps(p, step);
      StepSettles(p, step);
      StrandsExactly(p, step);
      WorkGoesOn(p, step);
      assert !FatalFailure(p, step);
      hide Inv, Settled, Enabled, Apply, Stranded, FatalFailure, Open, AllDone, Quiet;
      var rest := WorkCanEnd(q);
      Before(p, step, rest);
      steps := [step] + rest;
    }
  }

  /** Before any cancellation they always can, unless a failed pthread_create has left jobs to nobody; and
      then they cannot. */
  lemma JobsCanEnd(tMin: nat, tMax: nat, timeout: int, steps: seq<Step>)
    requires Allowed(Create(tMin, tMax, timeout), steps) && !Run(Create(tMin, tMax, timeout), steps).cancel
    ensures var p := Run(Create(tMin, tMax, timeout), steps); CanFinish(p) <==> !Stranded(p)
  {
    CreatedIsRight(tMin, tMax, timeout);
    RunKeeps(Create(tMin, tMax, timeout), steps);
    var p := Run(Create(tMin, tMax, timeout), steps);
    if Stranded(p) {
      NobodyMoves(p);
    } else {
      var more := WorkCanEnd(p);
    }
  }

  lemma NobodyMoves(p: Pool)
    requires Inv(p) && Settled(p, {}) && Stranded(p)
    ensures !CanFinish(p)
  {
    QuietMeansDone(p);
    RunningIsActive(p);
    assert forall step :: ByWorker(step) ==> !Enabled(p, step);
    forall steps: seq<Step> | ByWorkers(steps) && Allowed(p, steps) ensures steps == [] {
    }
  }
}
