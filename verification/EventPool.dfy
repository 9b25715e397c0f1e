/** Why the event loop may see the pool as a queue of jobs and its active handlers: the steps of the pool, and
    those of the event loop, make the same moves on them.
  */
module EventPool {
  import P = PoolModel
  import S = PoolSafety
  import E = EventModel

  /** Jobs that are queued, and those that are running, by worker. */
  datatype Work = Work(jobs: seq<nat>, active: map<nat, nat>)

  datatype Move = Join(job: nat) | Begin(worker: nat) | End(worker: nat) | Clear

  predicate Possible(w: Work, move: Move) {
    match move
    case Join(_) => true
    case Clear => true
    case Begin(t) => w.jobs != [] && t !in w.active
    case End(t) => t in w.active
  }

  function Moved(w: Work, move: Move): Work
    requires Possible(w, move)
  {
    match move
    case Join(job) => w.(jobs := w.jobs + [job])
    case Clear => w.(jobs := [])
    case Begin(t) => Work(w.jobs[1..], w.active[t := w.jobs[0]])
    case End(t) => w.(active := w.active - {t})
  }

  /** The moves are possible one after the other, and lead from `v` to `w`. */
  predicate Lead(v: Work, moves: seq<Move>, w: Work)
    decreases |moves|
  {
    if moves == [] then v == w else Possible(v, moves[0]) && Lead(Moved(v, moves[0]), moves[1..], w)
  }

  function WorkOf(p: P.Pool): Work {
    Work(p.jobq, p.threads.running)
  }

  // ---------- the pool ----------

  /** What a worker does that goes on in thread_idle. */
  function LoopMoves(p: P.Pool, t: P.Tid): seq<Move> {
    if p.cancel || p.jobq == [] then [] else [Begin(t)]
  }

  function PoolMoves(p: P.Pool, step: P.Step): seq<Move> {
    match step
    case Queue(_, _, _) => [Join(p.history.accepted)]
    case Start(t) => LoopMoves(p, t)
    case Resume(t) => LoopMoves(p, t)
    case Finish(t) => [End(t)] + LoopMoves(p, t)
    case Abort(t, _, _) => [End(t)]
    case Cancel => [Clear]
    case _ => []
  }

  lemma LoopLeads(p: P.Pool, t: P.Tid)
    requires t !in p.threads.running
    ensures Lead(WorkOf(p), LoopMoves(p, t), WorkOf(P.Looped(p, t)))
  {
    var w := WorkOf(P.Looped(p, t));
    assert Lead(w, [], w);
    if LoopMoves(p, t) != [] { assert [Begin(t)][1..] == []; }
  }

  /** A step of the pool queues a job, or ends one, or takes the first, or ends one and takes the first, or
      discards what is queued, or changes neither queue. */
  lemma PoolStepMoves(p: P.Pool, step: P.Step)
    requires S.Inv(p) && P.Enabled(p, step)
    ensures Lead(WorkOf(p), PoolMoves(p, step), WorkOf(P.Apply(p, step))) && |PoolMoves(p, step)| <= 2
  {
    var w := WorkOf(P.Apply(p, step));
    assert Lead(w, [], w);
    hide P.Looped, P.CleanedUp;
    if step.Queue? {
      QueueLeads(p, step);
    } else if step.Start? {
      var q := P.Notified(P.Registered(p, step.t));
      assert WorkOf(q) == WorkOf(p) && LoopMoves(q, step.t) == LoopMoves(p, step.t);
      LoopLeads(q, step.t);
    } else if step.Resume? {
      LoopLeads(p, step.t);
    } else if step.Finish? {
      FinishLeads(p, step.t);
    } else if step.Exit? {
      CleanUpLeads(p, step.t, step.newT, step.ok);
    } else if step.Abort? {
      var q := P.JobFinished(p, step.t);
      CleanUpLeads(q, step.t, step.newT, step.ok);
      assert WorkOf(q) == Moved(WorkOf(p), End(step.t)) && [End(step.t)][1..] == [];
    } else if step.Cancel? {
      assert w == Moved(WorkOf(p), Clear) && [Clear][1..] == [];
    }
  }

  lemma QueueLeads(p: P.Pool, step: P.Step)
    requires P.Enabled(p, step) && step.Queue?
    ensures Lead(WorkOf(p), PoolMoves(p, step), WorkOf(P.Apply(p, step)))
  {
    var w, moves := WorkOf(P.Apply(p, step)), PoolMoves(p, step);
    assert moves[1..] == [] && Moved(WorkOf(p), moves[0]) == w && Lead(w, [], w);
  }

  lemma CleanUpLeads(p: P.Pool, t: P.Tid, newT: P.Tid, ok: bool)
    ensures WorkOf(P.CleanedUp(p, t, newT, ok)) == WorkOf(p)
  {
  }

  lemma FinishLeads(p: P.Pool, t: P.Tid)
    requires t in p.threads.running
    ensures Lead(WorkOf(p), PoolMoves(p, P.Finish(t)), WorkOf(P.Looped(P.Notified(P.JobFinished(p, t)), t)))
  {
    var q, moves := P.Notified(P.JobFinished(p, t)), PoolMoves(p, P.Finish(t));
    assert WorkOf(q) == Moved(WorkOf(p), End(t)) && LoopMoves(q, t) == LoopMoves(p, t);
    assert moves[0] == End(t) && moves[1..] == LoopMoves(p, t);
    LoopLeads(q, t);
  }

  /** tp_is_busy tells whether there is any. */
  lemma BusyPool(p: P.Pool)
    requires S.Inv(p)
    ensures P.Quiet(p) <==> WorkOf(p) == Work([], map[])
  {
    if p.activeq != [] { assert p.activeq[0] in p.threads.running; }
    if t :| t in p.threads.running { assert t in p.activeq; }
  }

  // ---------- the event loop ----------

  function EventWork(s: E.State): Work {
    Work(s.store.jobs, map h | h in s.handlers :: s.handlers[h].item)
  }

  function EventMoves(s: E.State, step: E.Step): seq<Move> {
    match step
    case Advance =>
      if s.loop.Dispatching? && s.loop.priority < |s.store.ready| && s.store.ready[s.loop.priority] != []
      then [Join(s.store.ready[s.loop.priority][0])] else []
    case Begin(h) => [Begin(h)]
    case Finish(h) => [End(h)]
    case _ => []
  }

  /** A step of the event loop makes at most one of these moves. */
  lemma EventStepMoves(s: E.State, step: E.Step)
    requires E.Shape(s) && E.Enabled(s, step)
    ensures Lead(EventWork(s), EventMoves(s, step), EventWork(E.Apply(s, step))) && |EventMoves(s, step)| <= 1
  {
    var t, moves := E.Apply(s, step), EventMoves(s, step);
    assert Lead(EventWork(t), [], EventWork(t));
    if moves != [] { assert moves[1..] == []; }
    if step.Begin? {
      assert EventWork(t).active == EventWork(s).active[step.h := s.store.jobs[0]];
    } else if step.Finish? {
      assert EventWork(t).active == EventWork(s).active - {step.h};
    } else if step.Advance? {
      AdvanceLeads(s);
    } else {
      SameWork(s, step);
    }
  }

  lemma AdvanceLeads(s: E.State)
    requires E.Shape(s) && E.Enabled(s, E.Advance)
    ensures Lead(EventWork(s), EventMoves(s, E.Advance), EventWork(E.LoopStep(s)))
  {
    var t, moves := E.LoopStep(s), EventMoves(s, E.Advance);
    assert t.handlers == s.handlers;
    assert Lead(EventWork(t), [], EventWork(t));
    if moves != [] { assert moves[1..] == []; }
  }

  lemma SameWork(s: E.State, step: E.Step)
    requires E.Shape(s) && E.Enabled(s, step) && !step.Begin? && !step.Finish? && !step.Advance?
    ensures EventWork(E.Apply(s, step)) == EventWork(s)
  {
    var t := E.Apply(s, step);
    if step.Proceed? {
      SameWorkOfHandler(s, step.h, step.ok);
      return;
    }
    assert t.store.jobs == s.store.jobs;
    assert t.handlers.Keys == s.handlers.Keys && forall h <- s.handlers :: t.handlers[h].item == s.handlers[h].item;
  }

  lemma SameWorkOfHandler(s: E.State, h: E.Actor, ok: bool)
    requires E.Shape(s) && E.Enabled(s, E.Proceed(h, ok))
    ensures EventWork(E.ProceedStep(s, h, ok)) == EventWork(s)
  {
    var t := E.ProceedStep(s, h, ok);
    assert t.store.jobs == s.store.jobs;
    assert t.handlers.Keys == s.handlers.Keys && forall g <- s.handlers :: t.handlers[g].item == s.handlers[g].item;
  }

  /** Where the pool can begin a job with a worker, so can the event loop with a handler of that name, unless
      the name is taken by an outside thread; and it can end a job whose handler has returned. */
  lemma EventFollows(s: E.State, move: Move)
    requires Possible(EventWork(s), move)
    ensures move.Begin? && move.worker !in s.calls ==> E.Enabled(s, E.Begin(move.worker))
    ensures move.End? ==> (E.Enabled(s, E.Finish(move.worker)) <==> s.handlers[move.worker].phase.Done?)
  {
  }

  /** The read of the pool in the exit test is tp_is_busy. */
  lemma BusyEvent(s: E.State)
    ensures E.PoolBusy(s) <==> EventWork(s) != Work([], map[])
  {
    if EventWork(s).active == map[] {
      assert forall h :: h in s.handlers ==> h in EventWork(s).active;
      assert s.handlers == map[];
    }
  }
}
