/** The event loop with the real pool does nothing that the event loop with its view of the pool does not do:
    every run of both together is a run of `EventModel`, job for job and worker for worker.
  */
module EventSimulation {
  import opened EventPool
  import P = PoolModel
  import S = PoolSafety
  import PR = PoolRuns
  import E = EventModel
  import ET = EventTokens
  import R = EventRuns

  /** The items that the jobs have been queued with, by the number of the job. */
  type Args = seq<E.Id>

  function Arg(args: Args, job: nat): E.Id {
    if job < |args| then args[job] else 0
  }

  /** The work of the pool in terms of items. */
  function Renamed(w: Work, args: Args): Work {
    Work(seq(|w.jobs|, i requires 0 <= i < |w.jobs| => Arg(args, w.jobs[i])), map t | t in w.active :: Arg(args, w.active[t]))
  }

  /** All jobs have an item. */
  predicate Known(w: Work, n: nat) {
    (forall i :: 0 <= i < |w.jobs| ==> w.jobs[i] < n) && (forall t <- w.active :: w.active[t] < n)
  }

  /** The pool and the view that the event loop has of it agree. */
  ghost predicate Agree(p: P.Pool, s: E.State, args: Args) {
    && S.Inv(p) && R.Inv(s) && |args| == p.history.accepted
    && EventWork(s) == Renamed(WorkOf(p), args)
  }

  lemma AllKnown(p: P.Pool)
    requires S.Inv(p)
    ensures Known(WorkOf(p), p.history.accepted)
  {
    var h, all := p.history, S.Numbers(p.history.accepted);
    forall i | 0 <= i < |p.jobq| ensures p.jobq[i] < h.accepted {
      assert all[|h.started| + |h.discarded| + i] == p.jobq[i];
    }
    forall t <- p.threads.running ensures p.threads.running[t] < h.accepted {
      PR.RunningIsOpen(p, t);
    }
  }

  // ---------- moves under other names ----------

  function NamedMove(move: Move, args: Args): Move {
    if move.Join? then Join(Arg(args, move.job)) else move
  }

  lemma RenamedMoved(w: Work, move: Move, args: Args)
    requires Possible(w, move)
    ensures Possible(Renamed(w, args), NamedMove(move, args))
    ensures Moved(Renamed(w, args), NamedMove(move, args)) == Renamed(Moved(w, move), args)
  {
  }

  lemma MoreArgs(w: Work, args: Args, item: E.Id)
    requires Known(w, |args|)
    ensures Renamed(w, args + [item]) == Renamed(w, args)
  {
    forall t <- w.active ensures Arg(args + [item], w.active[t]) == Arg(args, w.active[t]) {}
  }

  // ---------- runs of both ----------

  /** A step of the pool, or a step of the event loop that does not concern the pool. */
  datatype Both = InPool(pool: P.Step) | Beside(event: E.Step)

  /** The item that the loop thread is about to queue. */
  predicate Queueing(s: E.State) {
    s.loop.Dispatching? && s.loop.priority < |s.store.ready| && s.store.ready[s.loop.priority] != []
  }

  /** When a step can be taken: only the loop thread calls tp_queue, with the next item of the list that it
      dispatches; a job returns when its handler has; nobody cancels the pool, and no handler ends its thread.
      Outside threads do not have the names of workers. */
  ghost predicate Can(p: P.Pool, s: E.State, step: Both) {
    match step
    case Beside(e) => E.Enabled(s, e) && EventMoves(s, e) == []
    case InPool(x) =>
      && P.Enabled(p, x)
      && match x
         case Queue(_, _, _) => Queueing(s)
         case Start(t) => t !in s.calls
         case Resume(t) => t !in s.calls
         case Finish(t) => t in s.handlers && s.handlers[t].phase.Done?
         case Cancel => false
         case Abort(_, _, _) => false
         case _ => true
  }

  ghost function PoolAfter(p: P.Pool, s: E.State, step: Both): P.Pool
    requires step.InPool? ==> P.Enabled(p, step.pool)
  {
    if step.InPool? then P.Apply(p, step.pool) else p
  }

  function ArgsAfter(s: E.State, args: Args, step: Both): Args {
    if step.InPool? && step.pool.Queue? && Queueing(s) then args + [s.store.ready[s.loop.priority][0]] else args
  }

  /** What a worker that goes on in thread_idle does, as the event loop sees it. */
  function Taking(p: P.Pool, t: P.Tid): seq<E.Step> {
    if LoopMoves(p, t) == [] then [] else [E.Begin(t)]
  }

  /** The steps of `EventModel` that a step stands for. */
  function Answer(p: P.Pool, step: Both): seq<E.Step> {
    if step.Beside? then [step.event] else
    match step.pool
    case Queue(_, _, _) => [E.Advance]
    case Start(t) => Taking(p, t)
    case Resume(t) => Taking(p, t)
    case Finish(t) => [E.Finish(t)] + Taking(p, t)
    case _ => []
  }

  lemma OneStep(s: E.State, step: E.Step)
    requires R.Inv(s) && E.Enabled(s, step)
    ensures R.Allowed(s, [step]) && R.Run(s, [step]) == E.Apply(s, step) && R.Inv(E.Apply(s, step))
  {
    R.StepKeeps(s, step);
    assert [step][1..] == [];
    assert R.Run(E.Apply(s, step), []) == E.Apply(s, step);
  }

  lemma Joined(s: E.State, a: seq<E.Step>, b: seq<E.Step>)
    requires R.Allowed(s, a) && R.Allowed(R.Run(s, a), b)
    ensures R.Allowed(s, a + b) && R.Run(s, a + b) == R.Run(R.Run(s, a), b)
  {
    hide R.Allowed, R.Run;
    R.LeadsOn(s, a, R.Run(s, a), b, R.Run(R.Run(s, a), b));
  }

  lemma AcceptedStays(p: P.Pool, step: P.Step)
    requires P.Enabled(p, step)
    ensures P.Apply(p, step).history.accepted == p.history.accepted + if step.Queue? then 1 else 0
  {
    hide P.Without, P.JobFinished, P.CleanedUp, P.Looped;
    match step
    case Start(t) => LoopAcceptsNothing(P.Notified(P.Registered(p, t)), t);
    case Resume(t) => LoopAcceptsNothing(p, t);
    case Finish(t) =>
      FinishAcceptsNothing(p, t);
      LoopAcceptsNothing(P.Notified(P.JobFinished(p, t)), t);
    case Exit(t, newT, ok) => CleanUpAcceptsNothing(p, t, newT, ok);
    case Abort(t, newT, ok) =>
      FinishAcceptsNothing(p, t);
      CleanUpAcceptsNothing(P.JobFinished(p, t), t, newT, ok);
    case _ =>
  }

  lemma FinishAcceptsNothing(p: P.Pool, t: P.Tid)
    requires t in p.threads.running
    ensures P.JobFinished(p, t).history.accepted == p.history.accepted
    ensures P.Notified(P.JobFinished(p, t)).history.accepted == p.history.accepted
  {
  }

  lemma CleanUpAcceptsNothing(p: P.Pool, t: P.Tid, newT: P.Tid, ok: bool)
    ensures P.CleanedUp(p, t, newT, ok).history.accepted == p.history.accepted
  {
  }

  lemma LoopAcceptsNothing(p: P.Pool, t: P.Tid)
    ensures P.Looped(p, t).history.accepted == p.history.accepted
  {
  }

  lemma BesideAgrees(p: P.Pool, s: E.State, args: Args, e: E.Step)
    requires Agree(p, s, args) && E.Enabled(s, e) && EventMoves(s, e) == []
    ensures R.Allowed(s, [e]) && Agree(p, R.Run(s, [e]), args)
  {
    OneStep(s, e);
    EventStepMoves(s, e);
  }

  lemma QueueAgrees(p: P.Pool, s: E.State, args: Args, step: P.Step)
    requires Agree(p, s, args) && P.Enabled(p, step) && step.Queue? && Queueing(s)
    ensures R.Allowed(s, [E.Advance])
    ensures Agree(P.Apply(p, step), R.Run(s, [E.Advance]), args + [s.store.ready[s.loop.priority][0]])
  {
    var item, w := s.store.ready[s.loop.priority][0], WorkOf(p);
    OneStep(s, E.Advance);
    EventStepMoves(s, E.Advance);
    S.StepKeeps(p, step);
    AcceptedStays(p, step);
    OnlyMove(EventWork(s), Join(item), EventWork(E.Apply(s, E.Advance)));
    PoolStepMoves(p, step);
    OnlyMove(w, Join(|args|), WorkOf(P.Apply(p, step)));
    AllKnown(p);
    hide S.Inv, R.Inv, WorkOf, EventWork;
    MoreArgs(w, args, item);
    RenamedMoved(w, Join(|args|), args + [item]);
  }

  lemma OnlyMove(v: Work, move: Move, w: Work)
    requires Lead(v, [move], w)
    ensures Possible(v, move) && w == Moved(v, move)
  {
    assert [move][1..] == [];
  }

  /** The worker `t`, that has no job, takes the first one. */
  lemma TakingAgrees(p: P.Pool, q: P.Pool, s: E.State, args: Args, t: P.Tid)
    requires S.Inv(q) && R.Inv(s) && |args| == q.history.accepted && EventWork(s) == Renamed(WorkOf(p), args)
    requires t !in s.calls && t !in p.threads.running && Lead(WorkOf(p), LoopMoves(p, t), WorkOf(q))
    ensures R.Allowed(s, Taking(p, t)) && Agree(q, R.Run(s, Taking(p, t)), args)
  {
    if LoopMoves(p, t) != [] {
      OnlyMove(WorkOf(p), Begin(t), WorkOf(q));
      RenamedMoved(WorkOf(p), Begin(t), args);
      assert Possible(EventWork(s), Begin(t));
      EventFollows(s, Begin(t));
      OneStep(s, E.Begin(t));
      EventStepMoves(s, E.Begin(t));
      OnlyMove(EventWork(s), Begin(t), EventWork(E.Apply(s, E.Begin(t))));
    }
  }

  /** A worker ends its job, as the pool sees it. */
  lemma FinishInPool(p: P.Pool, t: P.Tid) returns (q: P.Pool, r: P.Pool)
    requires S.Inv(p) && P.Enabled(p, P.Finish(t))
    ensures Possible(WorkOf(p), End(t)) && WorkOf(q) == Moved(WorkOf(p), End(t)) && Taking(q, t) == Taking(p, t)
    ensures r == P.Apply(p, P.Finish(t)) && S.Inv(r) && r.history.accepted == p.history.accepted
    ensures Lead(WorkOf(q), LoopMoves(q, t), WorkOf(r)) && t !in q.threads.running
  {
    q, r := P.Notified(P.JobFinished(p, t)), P.Apply(p, P.Finish(t));
    assert WorkOf(q) == Moved(WorkOf(p), End(t)) && LoopMoves(q, t) == LoopMoves(p, t);
    hide S.Inv, P.JobFinished, P.Notified, P.Looped;
    LoopLeads(q, t);
    S.StepKeeps(p, P.Finish(t));
    AcceptedStays(p, P.Finish(t));
  }

  /** And as the event loop sees it. */
  lemma FinishInLoop(s: E.State, t: P.Tid) returns (u: E.State)
    requires R.Inv(s) && t in s.handlers && s.handlers[t].phase.Done?
    ensures R.Allowed(s, [E.Finish(t)]) && u == R.Run(s, [E.Finish(t)]) && R.Inv(u) && t !in u.calls
    ensures Possible(EventWork(s), End(t)) && EventWork(u) == Moved(EventWork(s), End(t))
  {
    u := E.Apply(s, E.Finish(t));
    ET.CallersOf(s);
    assert t !in u.calls;
    EventStepMoves(s, E.Finish(t));
    OnlyMove(EventWork(s), End(t), EventWork(u));
    hide EventWork;
    OneStep(s, E.Finish(t));
  }

  lemma FinishAgrees(p: P.Pool, s: E.State, args: Args, t: P.Tid)
    requires Agree(p, s, args) && P.Enabled(p, P.Finish(t)) && t in s.handlers && s.handlers[t].phase.Done?
    ensures var answer := [E.Finish(t)] + Taking(p, t);
            R.Allowed(s, answer) && Agree(P.Apply(p, P.Finish(t)), R.Run(s, answer), args)
  {
    hide S.Inv, R.Inv, P.Apply, R.Run, R.Allowed, Renamed, Moved, Possible, WorkOf, EventWork, LoopMoves, Lead, Taking;
    var q, r := FinishInPool(p, t);
    var u := FinishInLoop(s, t);
    RenamedMoved(WorkOf(p), End(t), args);
    TakingAgrees(q, r, u, args, t);
    Joined(s, [E.Finish(t)], Taking(p, t));
  }

  lemma StartAgrees(p: P.Pool, s: E.State, args: Args, step: P.Step)
    requires Agree(p, s, args) && P.Enabled(p, step) && (step.Start? || step.Resume?) && step.t !in s.calls
    ensures R.Allowed(s, Taking(p, step.t)) && Agree(P.Apply(p, step), R.Run(s, Taking(p, step.t)), args)
  {
    S.StepKeeps(p, step);
    AcceptedStays(p, step);
    PoolStepMoves(p, step);
    assert step.t !in p.threads.running;
    TakingAgrees(p, P.Apply(p, step), s, args, step.t);
  }

  lemma QuietAgrees(p: P.Pool, s: E.State, args: Args, step: P.Step)
    requires Agree(p, s, args) && P.Enabled(p, step) && PoolMoves(p, step) == []
    ensures Agree(P.Apply(p, step), s, args)
  {
    S.StepKeeps(p, step);
    AcceptedStays(p, step);
    PoolStepMoves(p, step);
  }

  /** Each step of both is answered by at most two steps of `EventModel`, and they still agree. */
  lemma StepAgrees(p: P.Pool, s: E.State, args: Args, step: Both)
    requires Agree(p, s, args) && Can(p, s, step)
    ensures R.Allowed(s, Answer(p, step)) && |Answer(p, step)| <= 2
    ensures Agree(PoolAfter(p, s, step), R.Run(s, Answer(p, step)), ArgsAfter(s, args, step))
  {
    hide Agree, P.Apply, R.Run, R.Allowed, P.Enabled, E.Enabled;
    if step.Beside? {
      BesideAgrees(p, s, args, step.event);
    } else if step.pool.Queue? {
      QueueAgrees(p, s, args, step.pool);
    } else if step.pool.Start? || step.pool.Resume? {
      StartAgrees(p, s, args, step.pool);
    } else if step.pool.Finish? {
      FinishAgrees(p, s, args, step.pool.t);
    } else {
      QuietAgrees(p, s, args, step.pool);
      NoSteps(s);
    }
  }

  lemma NoSteps(s: E.State)
    ensures R.Allowed(s, []) && R.Run(s, []) == s
  {
  }

  /** The steps can be taken by both together. */
  ghost predicate Together(p: P.Pool, s: E.State, args: Args, steps: seq<Both>)
    requires Agree(p, s, args)
    decreases |steps|
  {
    steps != [] ==>
      Can(p, s, steps[0])
      && (StepAgrees(p, s, args, steps[0]);
          Together(PoolAfter(p, s, steps[0]), R.Run(s, Answer(p, steps[0])), ArgsAfter(s, args, steps[0]), steps[1..]))
  }

  /** What the pool has done in such a run. */
  function PoolPart(steps: seq<Both>): seq<P.Step> {
    if steps == [] then [] else (if steps[0].InPool? then [steps[0].pool] else []) + PoolPart(steps[1..])
  }

  /** The run of `EventModel` that it stands for. */
  ghost function EventPart(p: P.Pool, s: E.State, args: Args, steps: seq<Both>): seq<E.Step>
    requires Agree(p, s, args) && Together(p, s, args, steps)
    decreases |steps|
  {
    if steps == [] then [] else
      StepAgrees(p, s, args, steps[0]);
      Answer(p, steps[0])
      + EventPart(PoolAfter(p, s, steps[0]), R.Run(s, Answer(p, steps[0])), ArgsAfter(s, args, steps[0]), steps[1..])
  }

  ghost function ArgsPart(p: P.Pool, s: E.State, args: Args, steps: seq<Both>): Args
    requires Agree(p, s, args) && Together(p, s, args, steps)
    decreases |steps|
  {
    if steps == [] then args else
      StepAgrees(p, s, args, steps[0]);
      ArgsPart(PoolAfter(p, s, steps[0]), R.Run(s, Answer(p, steps[0])), ArgsAfter(s, args, steps[0]), steps[1..])
  }

  lemma {:induction false} RunAgrees(p: P.Pool, s: E.State, args: Args, steps: seq<Both>)
    requires Agree(p, s, args) && Together(p, s, args, steps)
    ensures PR.Allowed(p, PoolPart(steps)) && R.Allowed(s, EventPart(p, s, args, steps))
    ensures Agree(PR.Run(p, PoolPart(steps)), R.Run(s, EventPart(p, s, args, steps)), ArgsPart(p, s, args, steps))
    decreases |steps|
  {
    hide Agree, P.Apply, P.Enabled, E.Enabled, E.Apply, E.Shape;
    if steps != [] {
      StepAgrees(p, s, args, steps[0]);
      var q, t, more := PoolAfter(p, s, steps[0]), R.Run(s, Answer(p, steps[0])), ArgsAfter(s, args, steps[0]);
      RunAgrees(q, t, more, steps[1..]);
      Joined(s, Answer(p, steps[0]), EventPart(q, t, more, steps[1..]));
      PoolGoesOn(p, s, steps);
    }
  }

  lemma PoolGoesOn(p: P.Pool, s: E.State, steps: seq<Both>)
    requires steps != [] && Can(p, s, steps[0]) && PR.Allowed(PoolAfter(p, s, steps[0]), PoolPart(steps[1..]))
    ensures PR.Allowed(p, PoolPart(steps))
    ensures PR.Run(p, PoolPart(steps)) == PR.Run(PoolAfter(p, s, steps[0]), PoolPart(steps[1..]))
  {
    hide P.Apply, P.Enabled;
    if steps[0].InPool? {
      assert PoolPart(steps)[0] == steps[0].pool && PoolPart(steps)[1..] == PoolPart(steps[1..]);
    } else {
      assert PoolPart(steps) == PoolPart(steps[1..]);
    }
  }

  // ---------- from the beginning ----------

  /** The pool of a ready queue. */
  function NewPool(): P.Pool {
    P.Create(0, 100, -1)
  }

  lemma AgreeAtFirst(config: E.Config)
    ensures Agree(NewPool(), E.Initial(config), [])
  {
    PR.CreatedIsRight(0, 100, -1);
    R.InitialIsRight(config);
    assert EventWork(E.Initial(config)).active == map[];
    assert Renamed(WorkOf(NewPool()), []) == Work([], map[]);
  }

  ghost predicate RunsTogether(config: E.Config, steps: seq<Both>) {
    AgreeAtFirst(config);
    Together(NewPool(), E.Initial(config), [], steps)
  }

  ghost function EventSide(config: E.Config, steps: seq<Both>): seq<E.Step>
    requires RunsTogether(config, steps)
  {
    AgreeAtFirst(config);
    EventPart(NewPool(), E.Initial(config), [], steps)
  }

  /** Whatever the threads of both do in whatever order: the event loop is in a state that a run of `EventModel`
      leads to, the pool in one that its own run leads to, and its queue and its active workers, with the items
      of their jobs, are what the event loop takes them for. */
  lemma EveryRunIsSimulated(config: E.Config, steps: seq<Both>) returns (args: Args)
    requires RunsTogether(config, steps)
    ensures R.Allowed(E.Initial(config), EventSide(config, steps)) && PR.Allowed(NewPool(), PoolPart(steps))
    ensures var s, p := R.Run(E.Initial(config), EventSide(config, steps)), PR.Run(NewPool(), PoolPart(steps));
            && |args| == p.history.accepted && EventWork(s) == Renamed(WorkOf(p), args)
            && (E.PoolBusy(s) <==> !PR.AllDone(p))
  {
    AgreeAtFirst(config);
    var q0, s0 := NewPool(), E.Initial(config);
    RunAgrees(q0, s0, [], steps);
    args := ArgsPart(q0, s0, [], steps);
    BusyAgrees(PR.Run(q0, PoolPart(steps)), R.Run(s0, EventSide(config, steps)), args);
  }

  lemma BusyAgrees(p: P.Pool, s: E.State, args: Args)
    requires Agree(p, s, args)
    ensures E.PoolBusy(s) <==> !PR.AllDone(p)
  {
    PR.QuietMeansDone(p);
    BusyPool(p);
    BusyEvent(s);
    SameEmpty(WorkOf(p), args);
  }

  lemma SameEmpty(w: Work, args: Args)
    ensures Renamed(w, args) == Work([], map[]) <==> w == Work([], map[])
  {
    if Renamed(w, args).active == map[] {
      forall t ensures t !in w.active { assert t in w.active ==> t in Renamed(w, args).active; }
      assert w.active == map[];
    }
    assert |Renamed(w, args).jobs| == |w.jobs|;
  }

  /** So the exit test of the event loop is right about the real pool: when the loop leaves with nothing to do,
      undisturbed, every job that the pool has accepted has ended. */
  lemma RealQuiescence(config: E.Config, steps: seq<Both>)
    requires config.poolFirst && RunsTogether(config, steps)
    ensures R.Allowed(E.Initial(config), EventSide(config, steps)) && PR.Allowed(NewPool(), PoolPart(steps))
    ensures var s, p := R.Run(E.Initial(config), EventSide(config, steps)), PR.Run(NewPool(), PoolPart(steps));
            s.loop.LeftQuiet? && !s.disturbed ==> R.NothingLeft(s) && PR.AllDone(p)
  {
    var args := EveryRunIsSimulated(config, steps);
    R.Quiescence(config, EventSide(config, steps));
  }
}
