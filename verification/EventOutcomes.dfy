/** What a handler does with the answer of its callbacks, and what the loop does with a report of epoll. */
module EventOutcomes {
  import opened EventModel
  import opened EventPlaces
  import opened EventTokens
  import opened EventFlow
  import opened EventRights
  import opened EventRuns

  // ---------- a handler on its own ----------

  /** `n` actions of the handler `h`. */
  function Actions(h: Actor, ok: bool, n: nat): (steps: seq<Step>)
    ensures |steps| == n
  {
    seq(n, i => Proceed(h, ok))
  }

  /** Nothing has changed but the net, the store, and that the handler has done everything. */
  ghost predicate OnlyDone(s: State, t: State, h: Actor) {
    && h in s.handlers && t.handlers == s.handlers[h := Handler(s.handlers[h].item, Done)]
    && t.loop == s.loop && t.calls == s.calls && t.disturbed == s.disturbed && t.config == s.config
  }

  /** One step before the others. */
  lemma Before(s: State, step: Step, u: State, h: Actor, ok: bool, n: nat, t: State)
    requires Shape(s) && Enabled(s, step) && u == Apply(s, step) && Leads(u, Actions(h, ok, n), t)
    ensures Leads(s, [step] + Actions(h, ok, n), t)
    ensures step == Proceed(h, ok) ==> Leads(s, Actions(h, ok, n + 1), t)
  {
    assert step == Proceed(h, ok) ==> Actions(h, ok, n + 1) == [step] + Actions(h, ok, n);
    hide Shape, Enabled, Apply, Actions, Leads;
    OneStep(s, step, Actions(h, ok, n), t);
  }

  lemma OnlyHandler(s: State, h: Actor, ok: bool)
    requires Shape(s) && Enabled(s, Proceed(h, ok))
    ensures var u := Apply(s, Proceed(h, ok));
            && h in u.handlers && u.handlers == s.handlers[h := Handler(s.handlers[h].item, u.handlers[h].phase)]
            && u.loop == s.loop && u.calls == s.calls && u.disturbed == s.disturbed && u.config == s.config
            && u.net.running == s.net.running
  {
    hide InRange, Shape, Pushed, Freed;
    if OnItem(s.handlers[h].phase) {
      hide WatchStep;
    } else {
      hide ItemStep;
    }
  }

  /** What is left when the handler goes on. */
  lemma OneAction(s: State, h: Actor, ok: bool, n: nat, t: State)
    requires Shape(s) && Enabled(s, Proceed(h, ok))
    requires var u := Apply(s, Proceed(h, ok)); Leads(u, Actions(h, ok, n), t) && OnlyDone(u, t, h)
    ensures Leads(s, Actions(h, ok, n + 1), t) && OnlyDone(s, t, h)
  {
    var u := Apply(s, Proceed(h, ok));
    OnlyHandler(s, h, ok);
    hide Shape, Apply, Enabled, Leads, Actions;
    Before(s, Proceed(h, ok), u, h, ok, n, t);
  }

  lemma NoAction(s: State, h: Actor, ok: bool)
    ensures Leads(s, Actions(h, ok, 0), s)
  {
    assert Actions(h, ok, 0) == [];
  }

  /** The item is no longer live; no other item is concerned. */
  ghost predicate IsFreed(s: Store, t: Store, i: Id) {
    && i in s.items && i !in t.items && t.items.Keys == s.items.Keys - {i}
    && (forall j <- t.items :: t.items[j] == s.items[j] && j in s.place && j in t.place && t.place[j] == s.place[j])
    && t.ready == s.ready && t.jobs == s.jobs
    && t.freed == s.freed + 1 && t.requeued == s.requeued && t.created == s.created
  }

  /** The item is live, and last in the ready list of its priority; no other item is concerned. */
  ghost predicate IsRequeued(s: Store, t: Store, i: Id) {
    && i in s.items && t.items == s.items && t.place == s.place[i := Ready]
    && |t.ready| == |s.ready| && s.items[i].priority < |s.ready|
    && (forall p :: 0 <= p < |s.ready| ==> t.ready[p] == s.ready[p] + if p == s.items[i].priority then [i] else [])
    && t.jobs == s.jobs && t.requeued == s.requeued + 1 && t.freed == s.freed && t.created == s.created
  }

  /** What the answer `o` of its callbacks makes of the item of `h`, if arming again would succeed (`ok`) or
      fail. */
  ghost predicate IsAnswered(s: State, t: State, h: Actor, o: Outcome, ok: bool) {
    && h in s.handlers && s.handlers[h].item in s.store.items
    && var i, item := s.handlers[h].item, s.store.items[s.handlers[h].item];
       match o
       case Again =>
         && IsFreed(s.store, t.store, i) && item.fd !in s.net.armed && (item.loose <==> item.fd !in t.net.watch)
         && t.net == s.net.(armed := if !item.loose && ok then s.net.armed + {item.fd} else s.net.armed)
       case Fin =>
         && IsFreed(s.store, t.store, i) && item.fd !in t.net.watch && item.fd !in t.net.armed
         && t.net == s.net.(watch := s.net.watch - {item.fd})
       case Async => IsRequeued(s.store, t.store, i) && t.net == s.net.(pipe := s.net.pipe + 1)
       case Nothing => IsFreed(s.store, t.store, i) && t.net == s.net
       case FinAsync => IsFreed(s.store, t.store, i) && t.net == s.net
  }

  lemma Frees(s: State, h: Actor, ok: bool) returns (t: State)
    requires Inv(s) && h in s.handlers && s.handlers[h].phase.Freeing?
    ensures Leads(s, Actions(h, ok, 1), t) && OnlyDone(s, t, h) && IsFreed(s.store, t.store, s.handlers[h].item) && t.net == s.net
  {
    hide ReadyListed, JobsListed, HandlersPlaced, Tokens, Wakeable, Established, Balanced;
    t := Apply(s, Proceed(h, ok));
    assert t.net == s.net && IsFreed(s.store, t.store, s.handlers[h].item) && OnlyDone(t, t, h);
    NoAction(t, h, ok);
    hide IsFreed, ProceedStep, Leads, OnlyDone;
    OneAction(s, h, ok, 0, t);
  }

  lemma Deletes(s: State, h: Actor, ok: bool) returns (n: nat, t: State)
    requires Inv(s) && h in s.handlers && s.handlers[h].phase.Deleting?
    ensures n <= 3 && Leads(s, Actions(h, ok, n), t) && OnlyDone(s, t, h) && IsFreed(s.store, t.store, s.handlers[h].item)
    ensures var fd := s.store.items[s.handlers[h].item].fd;
            t.net == s.net.(watch := s.net.watch - {fd}, armed := if fd in s.net.watch then s.net.armed - {fd} else s.net.armed)
  {
    hide Places, Tokens, Wakeable, Established, Balanced;
    var fd := HandledFd(s, h);
    var u := Apply(s, Proceed(h, ok));
    StepKeeps(s, Proceed(h, ok));
    if fd in s.net.watch {
      var v := Apply(u, Proceed(h, ok));
      StepKeeps(u, Proceed(h, ok));
      t := Frees(v, h, ok);
      hide Leads, IsFreed, OnlyDone;
      OneAction(u, h, ok, 1, t);
      OneAction(s, h, ok, 2, t);
      n := 3;
    } else {
      t := Frees(u, h, ok);
      hide Leads, IsFreed, OnlyDone;
      OneAction(s, h, ok, 1, t);
      assert s.net.watch - {fd} == s.net.watch;
      n := 2;
    }
  }

  lemma ArmsAgain(s: State, h: Actor, ok: bool) returns (n: nat, t: State)
    requires Inv(s) && h in s.handlers && s.handlers[h].phase.Searching?
    ensures n <= 4 && Leads(s, Actions(h, ok, n), t) && OnlyDone(s, t, h) && IsFreed(s.store, t.store, s.handlers[h].item)
    ensures var fd := s.store.items[s.handlers[h].item].fd;
            t.net == s.net.(armed := if fd in s.net.watch && ok then s.net.armed + {fd} else s.net.armed)
  {
    hide Places, Tokens, Wakeable, Established, Balanced;
    var fd := HandledFd(s, h);
    var u := Apply(s, Proceed(h, ok));
    StepKeeps(s, Proceed(h, ok));
    if fd in s.net.watch {
      n, t := Arms(u, h, ok);
      hide Leads, IsFreed, OnlyDone;
      OneAction(s, h, ok, n, t);
      n := n + 1;
    } else {
      t := Frees(u, h, ok);
      hide Leads, IsFreed, OnlyDone;
      OneAction(s, h, ok, 1, t);
      n := 2;
    }
  }

  lemma Arms(s: State, h: Actor, ok: bool) returns (n: nat, t: State)
    requires Inv(s) && h in s.handlers && s.handlers[h].phase.Arming?
    ensures 0 < n <= 3 && Leads(s, Actions(h, ok, n), t) && OnlyDone(s, t, h) && IsFreed(s.store, t.store, s.handlers[h].item)
    ensures var fd := s.store.items[s.handlers[h].item].fd;
            t.net == s.net.(armed := if ok then s.net.armed + {fd} else s.net.armed)
  {
    hide Places, Tokens, Wakeable, Established, Balanced;
    var u := Apply(s, Proceed(h, ok));
    StepKeeps(s, Proceed(h, ok));
    if ok {
      var v := Apply(u, Proceed(h, ok));
      StepKeeps(u, Proceed(h, ok));
      t := Frees(v, h, ok);
      hide Leads, IsFreed, OnlyDone;
      OneAction(u, h, ok, 1, t);
      OneAction(s, h, ok, 2, t);
      n := 3;
    } else {
      t := Frees(u, h, ok);
      hide Leads, IsFreed, OnlyDone;
      OneAction(s, h, ok, 1, t);
      n := 2;
    }
  }

  lemma Requeues(s: State, h: Actor, ok: bool) returns (t: State)
    requires Inv(s) && h in s.handlers && s.handlers[h].phase.Requeueing?
    ensures Leads(s, Actions(h, ok, 2), t) && OnlyDone(s, t, h) && IsRequeued(s.store, t.store, s.handlers[h].item) && t.net == s.net.(pipe := s.net.pipe + 1)
  {
    hide Places, Tokens, Wakeable, Established, Balanced;
    var u := Apply(s, Proceed(h, ok));
    StepKeeps(s, Proceed(h, ok));
    t := Apply(u, Proceed(h, ok));
    assert t.store == u.store && IsRequeued(s.store, t.store, s.handlers[h].item) && OnlyDone(t, t, h);
    NoAction(t, h, ok);
    hide Leads, IsRequeued, OnlyDone;
    OneAction(u, h, ok, 0, t);
    OneAction(s, h, ok, 1, t);
  }

  /** Once its callbacks have answered, the handler comes to its end in at most four actions of its own: it
      arms its descriptor again if they want their events again, deletes it if they are through with it, puts
      the item back if they want to be called later, and otherwise frees the item only.  Nothing else
      changes. */
  lemma AnswerIsActedOn(s: State, h: Actor, o: Outcome, ok: bool) returns (n: nat, t: State)
    requires Inv(s) && Enabled(s, Return(h, o))
    ensures n <= 4 && Leads(s, [Return(h, o)] + Actions(h, ok, n), t)
    ensures IsAnswered(s, t, h, o, ok) && OnlyDone(s, t, h)
  {
    hide Inv, Apply, Leads, Shape, Actions, IsFreed, IsRequeued;
    ShapeOf(s);
    InCallbackOf(s, h);
    StepKeeps(s, Return(h, o));
    OnlyReturned(s, h, o);
    var u := Apply(s, Return(h, o));
    n, t := AnswerFollowed(u, h, o, ok);
    Before(s, Return(h, o), u, h, ok, n, t);
  }

  lemma OnlyReturned(s: State, h: Actor, o: Outcome)
    requires Shape(s) && Enabled(s, Return(h, o))
    ensures var u := Apply(s, Return(h, o));
            && u == s.(handlers := u.handlers) && h in u.handlers
            && u.handlers == s.handlers[h := Handler(s.handlers[h].item, u.handlers[h].phase)]
            && u.handlers[h].phase == match o case Again => Searching case Fin => Deleting case Async => Requeueing case _ => Freeing
  {
  }

  lemma ShapeOf(s: State)
    requires Inv(s)
    ensures Shape(s)
  {
  }

  ghost predicate CallbackOf(s: State, h: Actor) {
    && h in s.handlers && s.handlers[h].item in s.store.items
    && var item := s.store.items[s.handlers[h].item];
       (item.loose <==> item.fd !in s.net.watch) && item.fd !in s.net.armed
  }

  lemma AnswerFollowed(s: State, h: Actor, o: Outcome, ok: bool) returns (n: nat, t: State)
    requires Inv(s) && CallbackOf(s, h)
    requires s.handlers[h].phase == match o case Again => Searching case Fin => Deleting case Async => Requeueing case _ => Freeing
    ensures n <= 4 && Leads(s, Actions(h, ok, n), t) && OnlyDone(s, t, h) && IsAnswered(s, t, h, o, ok)
  {
    hide Inv, Leads, Actions, OnlyDone, IsFreed, IsRequeued;
    match o {
      case Again => n, t := ArmsAgain(s, h, ok);
      case Fin =>
        n, t := Deletes(s, h, ok);
        assert s.net.armed - {HandledFd(s, h)} == s.net.armed;
      case Async => n := 2; t := Requeues(s, h, ok);
      case _ => n := 1; t := Frees(s, h, ok);
    }
  }

  lemma InCallbackOf(s: State, h: Actor)
    requires Inv(s) && h in s.handlers && s.handlers[h].phase.Callback?
    ensures CallbackOf(s, h)
  {
    assert Owns(s.handlers, h);
    var i := s.handlers[h].item;
    hide ReadyListed, JobsListed;
    assert Stage(s.store, s.handlers, i) == Callback;
    assert s.store.items[i].loose ==> Outsider(s.store, s.handlers, i);
    assert !s.store.items[i].loose ==> Holds(s.store, s.handlers, i);
  }

  // ---------- over all runs ----------

  /** The last answer of the callbacks of each handler. */
  ghost function Answers(answers: map<Actor, Outcome>, step: Step): map<Actor, Outcome> {
    if step.Return? then answers[step.h := step.outcome] else answers
  }

  ghost function AnswersAlong(s: State, answers: map<Actor, Outcome>, steps: seq<Step>): map<Actor, Outcome>
    requires Allowed(s, steps)
    decreases |steps|
  {
    if steps == [] then answers else AnswersAlong(Apply(s, steps[0]), Answers(answers, steps[0]), steps[1..])
  }

  predicate Follows(phase: Phase, o: Outcome) {
    match phase
    case Callback => true
    case Deleting => o.Fin?
    case Unwatched => o.Fin?
    case Searching => o.Again?
    case Arming => o.Again?
    case Armed => o.Again?
    case Requeueing => o.Async?
    case Requeued => o.Async?
    case Freeing => !o.Async?
    case Done => true
  }

  /** Every handler does what its callbacks answered. */
  ghost predicate Obeyed(handlers: map<Actor, Handler>, answers: map<Actor, Outcome>) {
    forall h <- handlers :: !handlers[h].phase.Callback? ==> h in answers && Follows(handlers[h].phase, answers[h])
  }

  lemma ProceedObeys(s: State, answers: map<Actor, Outcome>, h: Actor, ok: bool)
    requires Shape(s) && Obeyed(s.handlers, answers) && Enabled(s, Proceed(h, ok))
    ensures Obeyed(Apply(s, Proceed(h, ok)).handlers, answers)
  {
    OnlyHandler(s, h, ok);
    var t := Apply(s, Proceed(h, ok));
    assert h in answers && Follows(t.handlers[h].phase, answers[h]) by {
      hide InRange, Pushed, Freed;
    }
    hide Shape, Apply, Enabled;
  }

  lemma StepObeys(s: State, answers: map<Actor, Outcome>, step: Step)
    requires Shape(s) && Obeyed(s.handlers, answers) && Enabled(s, step)
    ensures Obeyed(Apply(s, step).handlers, Answers(answers, step))
  {
    hide ProceedStep, LoopStep, Created, Fresh, Unclaimed, Reportable;
    match step {
      case Advance => AdvanceIsQuiet(s);
      case Proceed(h, ok) => ProceedObeys(s, answers, h, ok);
      case _ =>
    }
  }

  lemma AdvanceIsQuiet(s: State)
    requires Shape(s) && Enabled(s, Advance)
    ensures var t := Apply(s, Advance); t.handlers == s.handlers && t.net.watch == s.net.watch && t.net.armed == s.net.armed
  {
  }

  lemma {:induction false} RunObeys(s: State, answers: map<Actor, Outcome>, steps: seq<Step>)
    requires Obeyed(s.handlers, answers) && Allowed(s, steps)
    ensures Obeyed(Run(s, steps).handlers, AnswersAlong(s, answers, steps))
    decreases |steps|
  {
    if steps != [] {
      StepObeys(s, answers, steps[0]);
      hide Obeyed, Answers, Shape, Enabled, Apply;
      RunObeys(Apply(s, steps[0]), Answers(answers, steps[0]), steps[1..]);
    }
  }

  /** A step of a handler of `fd` whose callbacks answered `o`. */
  ghost predicate ActsOn(s: State, answers: map<Actor, Outcome>, step: Step, o: Outcome, fd: Fd) {
    && step.Proceed? && step.h in answers && answers[step.h] == o
    && step.h in s.handlers && s.handlers[step.h].item in s.store.items && HandledFd(s, step.h) == fd
  }

  /** What happens to descriptors. */
  ghost predicate FdsAsAnswered(s: State, answers: map<Actor, Outcome>, step: Step, t: State, fd: Fd) {
    && (fd in s.net.watch && fd !in t.net.watch ==>
          ActsOn(s, answers, step, Fin, fd) || (step.Continue? && step.a in s.calls && s.calls[step.a] == Undoing(fd)))
    && (fd in t.net.watch && fd !in s.net.watch ==> step.Add? && step.fd == fd && t.net.watch[fd] == step.priority)
    && (fd in s.net.watch && fd in t.net.watch ==> t.net.watch[fd] == s.net.watch[fd])
    && (fd in t.net.armed && fd !in s.net.armed ==>
          || (ActsOn(s, answers, step, Again, fd) && step.ok)
          || (step.Continue? && step.ok && step.a in s.calls && s.calls[step.a] == Adding(fd)))
    && (fd in s.net.armed && fd !in t.net.armed ==> step.Report? && fd in step.fds)
  }

  /** What happens to items. */
  ghost predicate ItemAsAnswered(s: State, answers: map<Actor, Outcome>, step: Step, t: State, i: Id) {
    && (i in s.store.items && i !in t.store.items ==>
          step.Proceed? && step.h in s.handlers && s.handlers[step.h].item == i && step.h in answers && answers[step.h] != Async)
    && (i in s.store.place && i in t.store.place && !s.store.place[i].Ready? && t.store.place[i].Ready? ==>
          step.Proceed? && step.h in s.handlers && s.handlers[step.h].item == i && step.h in answers && answers[step.h] == Async)
    && (i in s.store.items && i in t.store.items ==> t.store.items[i] == s.store.items[i])
    && (i in t.store.items && i !in s.store.items ==>
          || (step.Post? && t.store.items[i] == step.item)
          || (step.Advance? && s.loop.Activating? && s.net.delivered != [] && s.net.delivered[0] in s.net.watch
              && t.store.items[i] == Item(s.net.delivered[0], false, s.net.watch[s.net.delivered[0]])))
  }

  /** In every run: a descriptor leaves the watch tree only at a step of a handler whose callbacks have answered
      EV_FIN, or when the call that added it fails; it is armed only by a handler whose callbacks want their
      events again, or by that call; and it is disarmed only by a report.  An item is freed only by its
      handler, unless the answer was EV_ASYNC, and only then does it become ready again; it comes from a report,
      or from a thread that posts it, and never changes. */
  lemma OnlyAsAnswered(config: Config, steps: seq<Step>, step: Step, fd: Fd, i: Id)
    requires Allowed(Initial(config), steps) && Shape(Run(Initial(config), steps)) && Enabled(Run(Initial(config), steps), step)
    ensures var s, answers := Run(Initial(config), steps), AnswersAlong(Initial(config), map[], steps);
            FdsAsAnswered(s, answers, step, Apply(s, step), fd) && ItemAsAnswered(s, answers, step, Apply(s, step), i)
  {
    var s := Reached(config, steps);
    RunObeys(Initial(config), map[], steps);
    StepAsAnswered(s, AnswersAlong(Initial(config), map[], steps), step, fd, i);
  }

  lemma AdvanceItems(s: State, answers: map<Actor, Outcome>, i: Id)
    requires Shape(s) && Places(s.store, s.handlers) && Enabled(s, Advance)
    ensures ItemAsAnswered(s, answers, Advance, Apply(s, Advance), i)
  {
    hide ReadyListed, JobsListed, HandlersPlaced;
  }

  lemma Disarmed(s: State, h: Actor)
    requires Inv(s) && h in s.handlers && s.handlers[h].phase.Unwatched?
    ensures s.handlers[h].item in s.store.items && HandledFd(s, h) !in s.net.armed
  {
    assert Owns(s.handlers, h);
    UnwatchedIsDisarmed(s, h);
  }

  lemma ProceedFds(s: State, answers: map<Actor, Outcome>, h: Actor, ok: bool, fd: Fd)
    requires Shape(s) && Obeyed(s.handlers, answers) && Enabled(s, Proceed(h, ok))
    requires s.handlers[h].phase.Unwatched? ==> s.handlers[h].item in s.store.items && HandledFd(s, h) !in s.net.armed
    ensures FdsAsAnswered(s, answers, Proceed(h, ok), Apply(s, Proceed(h, ok)), fd)
  {
    hide InRange, Pushed, Freed;
  }

  lemma ProceedItems(s: State, answers: map<Actor, Outcome>, h: Actor, ok: bool, i: Id)
    requires Shape(s) && Obeyed(s.handlers, answers) && Enabled(s, Proceed(h, ok))
    ensures ItemAsAnswered(s, answers, Proceed(h, ok), Apply(s, Proceed(h, ok)), i)
  {
    hide InRange;
  }

  lemma StepAsAnswered(s: State, answers: map<Actor, Outcome>, step: Step, fd: Fd, i: Id)
    requires Inv(s) && Obeyed(s.handlers, answers) && Enabled(s, step)
    ensures FdsAsAnswered(s, answers, step, Apply(s, step), fd) && ItemAsAnswered(s, answers, step, Apply(s, step), i)
  {
    ShapeAndPlaces(s);
    hide Inv, Places, LoopStep, ProceedStep;
    match step {
      case Advance => AdvanceIsQuiet(s); AdvanceItems(s, answers, i);
      case Proceed(h, ok) =>
        if s.handlers[h].phase.Unwatched? { Disarmed(s, h); }
        ProceedFds(s, answers, h, ok, fd);
        ProceedItems(s, answers, h, ok, i);
      case _ => OthersAsAnswered(s, answers, step, fd, i);
    }
  }

  lemma ShapeAndPlaces(s: State)
    requires Inv(s)
    ensures Shape(s) && Places(s.store, s.handlers)
  {
  }

  lemma OthersAsAnswered(s: State, answers: map<Actor, Outcome>, step: Step, fd: Fd, i: Id)
    requires Shape(s) && Places(s.store, s.handlers) && Enabled(s, step) && !step.Advance? && !step.Proceed?
    ensures FdsAsAnswered(s, answers, step, Apply(s, step), fd) && ItemAsAnswered(s, answers, step, Apply(s, step), i)
  {
    hide ReadyListed, JobsListed, HandlersPlaced;
  }
}
