/** The one-shot protocol: a watched descriptor is armed, or reported, or held by one ready item on its way
    through the ready queue, the pool and a handler, or none of these; never two of them.
  */
module EventTokens {
  import opened EventModel
  import opened EventPlaces

  /** The handler has given the right to its descriptor back, to epoll or for good. */
  predicate Released(phase: Phase) {
    phase.Unwatched? || phase.Armed? || phase.Freeing?
  }

  predicate Holds(s: Store, handlers: map<Actor, Handler>, i: Id) {
    i in s.items && !s.items[i].loose && !Released(Stage(s, handlers, i))
  }

  /** Items whose descriptor is not watched: those of EV_ASYNC, and the one of a handler that deletes it. */
  predicate Outsider(s: Store, handlers: map<Actor, Handler>, i: Id) {
    && i in s.items
    && ((s.items[i].loose && !Stage(s, handlers, i).Freeing?) || Stage(s, handlers, i).Unwatched?)
  }

  predicate IsAbout(call: Call, fd: Fd) {
    call == Adding(fd) || call == Undoing(fd)
  }

  /** Nobody has a right to `fd` except perhaps a ready item. */
  ghost predicate Idle(net: Net, calls: map<Actor, Call>, fd: Fd) {
    fd !in net.armed && fd !in net.delivered && forall a <- calls :: !IsAbout(calls[a], fd)
  }

  ghost predicate KernelRight(net: Net) {
    && (forall fd <- net.armed :: fd in net.watch && fd !in net.delivered)
    && (forall fd <- net.delivered :: fd in net.watch)
    && (forall i, j :: 0 <= i < j < |net.delivered| ==> net.delivered[i] != net.delivered[j])
  }

  ghost predicate CallsRight(net: Net, calls: map<Actor, Call>) {
    && (forall a <- calls :: (calls[a].Adding? || calls[a].Undoing?) ==>
          calls[a].fd in net.watch && calls[a].fd !in net.armed && calls[a].fd !in net.delivered)
    && (forall a, b | a in calls && b in calls && a != b && (calls[a].Adding? || calls[a].Undoing?) && (calls[b].Adding? || calls[b].Undoing?) ::
          calls[a].fd != calls[b].fd)
  }

  ghost predicate ItemsRight(net: Net, s: Store, handlers: map<Actor, Handler>, calls: map<Actor, Call>) {
    && (forall i <- s.items :: Holds(s, handlers, i) ==> s.items[i].fd in net.watch && Idle(net, calls, s.items[i].fd))
    && (forall i, j | i in s.items && j in s.items && i != j && Holds(s, handlers, i) && Holds(s, handlers, j) ::
          s.items[i].fd != s.items[j].fd)
  }

  ghost predicate OutsidersRight(net: Net, s: Store, handlers: map<Actor, Handler>, calls: map<Actor, Call>) {
    forall i <- s.items :: Outsider(s, handlers, i) ==>
      s.items[i].fd !in net.watch && forall a <- calls :: !IsAbout(calls[a], s.items[i].fd)
  }

  ghost predicate CallersRight(handlers: map<Actor, Handler>, calls: map<Actor, Call>) {
    forall h <- handlers :: h in calls ==> handlers[h].phase.Callback?
  }

  /** Only a watched descriptor is about to be armed again. */
  ghost predicate ArmingRight(s: Store, handlers: map<Actor, Handler>) {
    forall i <- s.items :: Stage(s, handlers, i).Arming? ==> !s.items[i].loose
  }

  ghost predicate Tokens(s: State) {
    && ArmingRight(s.store, s.handlers) && KernelRight(s.net) && CallsRight(s.net, s.calls) && ItemsRight(s.net, s.store, s.handlers, s.calls)
    && OutsidersRight(s.net, s.store, s.handlers, s.calls) && CallersRight(s.handlers, s.calls)
  }

  // ---------- the loop thread ----------

  lemma ActivatedItems(s: State)
    requires Places(s.store, s.handlers) && KernelRight(s.net) && s.net.delivered != []
    requires |s.store.ready| == PRIORITIES && forall fd <- s.net.watch :: s.net.watch[fd] < PRIORITIES
    requires CallsRight(s.net, s.calls) && ItemsRight(s.net, s.store, s.handlers, s.calls)
    ensures ItemsRight(Activated(s).net, Activated(s).store, s.handlers, s.calls)
  {
    hide ReadyListed, JobsListed;
    var t, fd := Activated(s), s.net.delivered[0];
    assert s.net.delivered == [fd] + s.net.delivered[1..];
    forall i <- t.store.items | Holds(t.store, t.handlers, i)
      ensures Idle(t.net, t.calls, t.store.items[i].fd)
      ensures i != s.store.created ==> Holds(s.store, s.handlers, i) && t.store.items[i].fd != fd
    {
      if i != s.store.created { assert Holds(s.store, s.handlers, i); }
    }
  }

  lemma ActivatedOutsiders(s: State)
    requires Places(s.store, s.handlers) && s.net.delivered != [] && OutsidersRight(s.net, s.store, s.handlers, s.calls)
    requires |s.store.ready| == PRIORITIES && forall fd <- s.net.watch :: s.net.watch[fd] < PRIORITIES
    requires ArmingRight(s.store, s.handlers)
    ensures OutsidersRight(Activated(s).net, Activated(s).store, s.handlers, s.calls) && ArmingRight(Activated(s).store, s.handlers)
  {
    hide ReadyListed, JobsListed;
    var t := Activated(s);
    forall i <- t.store.items ensures i != s.store.created ==> Stage(t.store, s.handlers, i) == Stage(s.store, s.handlers, i) {}
    forall i <- t.store.items | Outsider(t.store, t.handlers, i) ensures i != s.store.created && Outsider(s.store, s.handlers, i) {
    }
  }

  /** A reported descriptor is still watched, so that its report is not dropped. */
  lemma ActivatedKeeps(s: State)
    requires Shape(s) && Places(s.store, s.handlers) && Tokens(s) && s.net.delivered != []
    ensures Tokens(Activated(s)) && s.net.delivered[0] in s.net.watch
  {
    ActivatedItems(s);
    ActivatedOutsiders(s);
    hide ItemsRight, OutsidersRight, ArmingRight, Places;
    assert s.net.delivered == [s.net.delivered[0]] + s.net.delivered[1..];
  }

  /** Where no item comes closer to its descriptor, and the kernel and the calls stay, nothing is lost. */
  lemma StagesKeep(s: State, t: State)
    requires Tokens(s) && t.net.(pipe := 0, running := true) == s.net.(pipe := 0, running := true) && t.calls == s.calls
    requires forall i <- t.store.items :: i in s.store.items && t.store.items[i] == s.store.items[i]
    requires forall i <- t.store.items :: var p, q := Stage(s.store, s.handlers, i), Stage(t.store, t.handlers, i);
               q == p || (!Released(p) && !q.Unwatched? && !q.Arming?) || (q.Freeing? && !p.Freeing?)
    requires CallersRight(t.handlers, t.calls)
    ensures Tokens(t)
  {
    forall i <- t.store.items | Holds(t.store, t.handlers, i) ensures Holds(s.store, s.handlers, i) {}
    forall i <- t.store.items | Outsider(t.store, t.handlers, i) ensures Outsider(s.store, s.handlers, i) {}
  }

  lemma AdvanceKeeps(s: State)
    requires Shape(s) && Places(s.store, s.handlers) && Tokens(s) && Enabled(s, Advance)
    ensures Tokens(LoopStep(s))
  {
    hide Tokens, ReadyListed, JobsListed;
    if s.loop.Activating? && s.net.delivered != [] {
      ActivatedKeeps(s);
    } else {
      CallersOf(s);
      if s.loop.Dispatching? && s.store.ready[s.loop.priority] != [] {
        DispatchedStages(s);
      }
      StagesKeep(s, LoopStep(s));
    }
  }

  lemma CallersOf(s: State)
    requires Tokens(s)
    ensures CallersRight(s.handlers, s.calls)
  {
  }

  lemma DispatchedStages(s: State)
    requires Shape(s) && Places(s.store, s.handlers) && s.loop.Dispatching? && s.store.ready[s.loop.priority] != []
    ensures forall i :: Stage(DispatchStep(s).store, s.handlers, i) == Stage(s.store, s.handlers, i)
  {
    var p := s.loop.priority;
    assert Lists(s.store.ready[p], ReadyAt(s.store, p));
    assert s.store.ready[p][0] in ReadyAt(s.store, p);
  }

  lemma ReportedKeeps(s: State, fds: seq<Fd>, sawPipe: bool)
    requires Tokens(s) && Reportable(s.net, fds, sawPipe)
    ensures Tokens(Reported(s, fds, sawPipe))
  {
    var t := Reported(s, fds, sawPipe);
    forall i <- t.store.items | Holds(t.store, t.handlers, i) ensures Idle(t.net, t.calls, t.store.items[i].fd) {
      assert Idle(s.net, s.calls, s.store.items[i].fd);
    }
  }

  // ---------- handlers ----------

  lemma BegunKeeps(s: State, h: Actor)
    requires Places(s.store, s.handlers) && Tokens(s) && Enabled(s, Begin(h))
    ensures Tokens(Begun(s, h))
  {
    var t, j := Begun(s, h), s.store.jobs[0];
    assert j in QueuedIds(s.store);
    hide ReadyListed, JobsListed;
    forall i <- t.store.items ensures Stage(t.store, t.handlers, i) == Stage(s.store, s.handlers, i) {}
    StagesKeep(s, t);
  }

  /** The other items are not affected by what the handler `h` does to its descriptor. */
  lemma OthersStay(s: State, h: Actor, phase: Phase)
    requires HandlersPlaced(s.store, s.handlers) && Owns(s.handlers, h)
    ensures forall i <- s.store.items | i != s.handlers[h].item ::
              Stage(s.store, InPhase(s.handlers, h, phase), i) == Stage(s.store, s.handlers, i)
    ensures s.handlers[h].item in s.store.items ==>
              Stage(s.store, s.handlers, s.handlers[h].item) == s.handlers[h].phase &&
              Stage(s.store, InPhase(s.handlers, h, phase), s.handlers[h].item) == phase
  {
  }

  lemma ReturnedKeeps(s: State, h: Actor, outcome: Outcome)
    requires Places(s.store, s.handlers) && Tokens(s) && Enabled(s, Return(h, outcome))
    ensures Tokens(Returned(s, h, outcome))
  {
    hide Tokens, ReadyListed, JobsListed;
    CallersOf(s);
    OthersStay(s, h, Returned(s, h, outcome).handlers[h].phase);
    StagesKeep(s, Returned(s, h, outcome));
  }

  lemma FinishedKeeps(s: State, h: Actor)
    requires Places(s.store, s.handlers) && Tokens(s) && Enabled(s, Finish(h))
    ensures Tokens(s.(handlers := s.handlers - {h}))
  {
    hide ReadyListed, JobsListed;
    StagesKeep(s, s.(handlers := s.handlers - {h}));
  }

  lemma RequeuedKeeps(s: State, h: Actor)
    requires Shape(s) && Places(s.store, s.handlers) && Tokens(s) && h in s.handlers && s.handlers[h].phase.Requeueing?
    ensures Tokens(ItemStep(s, h))
  {
    hide Tokens, ReadyListed, JobsListed;
    CallersOf(s);
    var t, me := ItemStep(s, h), s.handlers[h].item;
    OthersStay(s, h, Requeued);
    forall i <- t.store.items ensures Stage(t.store, t.handlers, i) == if i == me then Callback else Stage(s.store, s.handlers, i) {
    }
    StagesKeep(s, t);
  }

  lemma FreedKeeps(s: State, h: Actor)
    requires Shape(s) && Places(s.store, s.handlers) && Tokens(s) && h in s.handlers && s.handlers[h].phase.Freeing?
    ensures Tokens(ItemStep(s, h))
  {
    hide Tokens, ReadyListed, JobsListed;
    CallersOf(s);
    OthersStay(s, h, Done);
    StagesKeep(s, ItemStep(s, h));
  }

  lemma NotifiedKeeps(s: State, h: Actor)
    requires Shape(s) && Places(s.store, s.handlers) && Tokens(s) && h in s.handlers && s.handlers[h].phase.Requeued?
    ensures Tokens(ItemStep(s, h))
  {
    hide Tokens, ReadyListed, JobsListed;
    CallersOf(s);
    StagesKeep(s, ItemStep(s, h));
  }

  lemma DeletedKeeps(s: State, h: Actor)
    requires Shape(s) && HandlersPlaced(s.store, s.handlers) && Tokens(s) && h in s.handlers && s.handlers[h].phase.Deleting?
    requires HandledFd(s, h) in s.net.watch
    ensures Tokens(WatchStep(s, h, true))
  {
    var t, me, fd := WatchStep(s, h, true), s.handlers[h].item, HandledFd(s, h);
    OthersStay(s, h, Unwatched);
    assert !s.store.items[me].loose by { assert Outsider(s.store, s.handlers, me) ==> fd !in s.net.watch; }
    assert Holds(s.store, s.handlers, me);
    assert Idle(s.net, s.calls, fd);
    forall i <- t.store.items | Holds(t.store, t.handlers, i)
      ensures i != me && Holds(s.store, s.handlers, i) && s.store.items[i].fd != fd && Idle(t.net, t.calls, s.store.items[i].fd)
    {
      assert i != me && Holds(s.store, s.handlers, i);
      assert Idle(s.net, s.calls, s.store.items[i].fd);
    }
    forall i <- t.store.items | Outsider(t.store, t.handlers, i) ensures i == me || Outsider(s.store, s.handlers, i) {}
  }

  lemma ArmedKeeps(s: State, h: Actor)
    requires Shape(s) && HandlersPlaced(s.store, s.handlers) && Tokens(s) && h in s.handlers && s.handlers[h].phase.Arming?
    ensures Tokens(WatchStep(s, h, true))
  {
    var t, me, fd := WatchStep(s, h, true), s.handlers[h].item, HandledFd(s, h);
    OthersStay(s, h, Armed);
    assert Holds(s.store, s.handlers, me);
    assert Idle(s.net, s.calls, fd) && fd in s.net.watch;
    forall i <- t.store.items | Holds(t.store, t.handlers, i)
      ensures i != me && Holds(s.store, s.handlers, i) && Idle(t.net, t.calls, s.store.items[i].fd)
    {
      assert i != me && Holds(s.store, s.handlers, i);
      assert Idle(s.net, s.calls, s.store.items[i].fd);
    }
    forall i <- t.store.items | Outsider(t.store, t.handlers, i) ensures Outsider(s.store, s.handlers, i) {}
  }

  lemma FoundKeeps(s: State, h: Actor)
    requires Shape(s) && HandlersPlaced(s.store, s.handlers) && Tokens(s) && h in s.handlers && s.handlers[h].phase.Searching?
    requires HandledFd(s, h) in s.net.watch
    ensures Tokens(WatchStep(s, h, true))
  {
    var t, me, fd := WatchStep(s, h, true), s.handlers[h].item, HandledFd(s, h);
    OthersStay(s, h, Arming);
    assert !s.store.items[me].loose by { assert Outsider(s.store, s.handlers, me) ==> fd !in s.net.watch; }
    forall i <- t.store.items | Holds(t.store, t.handlers, i) ensures Holds(s.store, s.handlers, i) {}
    forall i <- t.store.items | Outsider(t.store, t.handlers, i) ensures Outsider(s.store, s.handlers, i) {}
  }

  /** What an unwatched descriptor leaves to be done in epoll: nothing, for it was not armed. */
  lemma UnwatchedIsDisarmed(s: State, h: Actor)
    requires Shape(s) && HandlersPlaced(s.store, s.handlers) && Tokens(s) && h in s.handlers && s.handlers[h].phase.Unwatched?
    ensures HandledFd(s, h) !in s.net.armed
  {
    assert Outsider(s.store, s.handlers, s.handlers[h].item);
  }

  /** The remaining ways to `Freeing`. */
  lemma GivenUpKeeps(s: State, h: Actor, ok: bool)
    requires Shape(s) && HandlersPlaced(s.store, s.handlers) && Tokens(s) && Enabled(s, Proceed(h, ok)) && !OnItem(s.handlers[h].phase)
    requires WatchStep(s, h, ok).handlers[h].phase.Freeing?
    ensures Tokens(WatchStep(s, h, ok))
  {
    var t := WatchStep(s, h, ok);
    OthersStay(s, h, Freeing);
    CallersOf(s);
    if s.handlers[h].phase.Unwatched? { UnwatchedIsDisarmed(s, h); }
    assert t.net.armed == s.net.armed;
    hide Tokens, HandlersPlaced, Shape;
    StagesKeep(s, t);
  }

  lemma WatchStepKeeps(s: State, h: Actor, ok: bool)
    requires Shape(s) && Places(s.store, s.handlers) && Tokens(s) && Enabled(s, Proceed(h, ok)) && !OnItem(s.handlers[h].phase)
    ensures Tokens(WatchStep(s, h, ok))
  {
    hide Tokens, HandlersPlaced;
    if s.handlers[h].phase.Deleting? && HandledFd(s, h) in s.net.watch {
      DeletedKeeps(s, h);
    } else if s.handlers[h].phase.Arming? && ok {
      ArmedKeeps(s, h);
    } else if s.handlers[h].phase.Searching? && HandledFd(s, h) in s.net.watch {
      FoundKeeps(s, h);
    } else {
      GivenUpKeeps(s, h, ok);
    }
  }

  lemma ItemStepKeeps(s: State, h: Actor)
    requires Shape(s) && Places(s.store, s.handlers) && Tokens(s) && h in s.handlers && OnItem(s.handlers[h].phase)
    ensures Tokens(ItemStep(s, h))
  {
    hide Tokens, Places;
    if s.handlers[h].phase.Requeueing? {
      RequeuedKeeps(s, h);
    } else if s.handlers[h].phase.Freeing? {
      FreedKeeps(s, h);
    } else {
      NotifiedKeeps(s, h);
    }
  }

  // ---------- calls ----------

  lemma AddedKeeps(s: State, a: Actor, fd: Fd, priority: nat)
    requires Shape(s) && Tokens(s) && Enabled(s, Add(a, fd, priority))
    ensures Tokens(Apply(s, Add(a, fd, priority)))
  {
    var t := Apply(s, Add(a, fd, priority));
    forall i <- t.store.items | Holds(t.store, t.handlers, i) ensures Idle(t.net, t.calls, t.store.items[i].fd) {
      assert Holds(s.store, s.handlers, i) && Idle(s.net, s.calls, s.store.items[i].fd);
    }
    forall i <- t.store.items | Outsider(t.store, t.handlers, i) ensures t.store.items[i].fd != fd {}
  }

  /** A call that is not about a descriptor. */
  lemma NeutralCallKeeps(s: State, a: Actor, call: Call)
    requires Tokens(s) && MayCall(s, a) && (call.Posted? || call.Stopped?)
    ensures Tokens(s.(calls := s.calls[a := call]))
  {
    var t := s.(calls := s.calls[a := call]);
    forall i <- t.store.items | Holds(t.store, t.handlers, i) ensures Idle(t.net, t.calls, t.store.items[i].fd) {
      assert Idle(s.net, s.calls, s.store.items[i].fd);
    }
  }

  lemma CreatedStages(s: Store, item: Item, handlers: map<Actor, Handler>)
    requires Places(s, handlers) && item.priority < |s.ready|
    ensures var t := Created(s, item);
            && t.items == s.items[s.created := item] && s.created !in s.items
            && Stage(t, handlers, s.created) == Callback
            && forall i <- s.items :: Stage(t, handlers, i) == Stage(s, handlers, i)
  {
  }

  lemma LooseCreatedKeeps(s: State, item: Item)
    requires Shape(s) && Places(s.store, s.handlers) && Tokens(s)
    requires item.loose && item.priority < PRIORITIES && item.fd !in s.net.watch && Unclaimed(s, item.fd)
    ensures Tokens(s.(store := Created(s.store, item)))
  {
    CreatedStages(s.store, item, s.handlers);
    hide Places, Created, Stage;
    var t := s.(store := Created(s.store, item));
    forall i <- t.store.items | Holds(t.store, t.handlers, i) ensures i != s.store.created && Holds(s.store, s.handlers, i) {}
    forall i <- t.store.items | Outsider(t.store, t.handlers, i) ensures i == s.store.created || Outsider(s.store, s.handlers, i) {}
  }

  lemma PostedKeeps(s: State, a: Actor, item: Item)
    requires Shape(s) && Places(s.store, s.handlers) && Tokens(s) && Enabled(s, Post(a, item))
    ensures Tokens(Apply(s, Post(a, item)))
  {
    var u := s.(store := Created(s.store, item));
    LooseCreatedKeeps(s, item);
    hide Tokens;
    NeutralCallKeeps(u, a, Posted);
    CallersOf(u.(calls := u.calls[a := Posted]));
    StagesKeep(u.(calls := u.calls[a := Posted]), Apply(s, Post(a, item)));
  }

  lemma StoppedKeeps(s: State, a: Actor)
    requires Shape(s) && Tokens(s) && Enabled(s, Stop(a))
    ensures Tokens(Apply(s, Stop(a)))
  {
    hide Tokens;
    NeutralCallKeeps(s, a, Stopped);
    CallersOf(s.(calls := s.calls[a := Stopped]));
    StagesKeep(s.(calls := s.calls[a := Stopped]), Apply(s, Stop(a)));
  }

  /** A call returns. */
  lemma CallEndedKeeps(s: State, a: Actor)
    requires Tokens(s)
    ensures Tokens(s.(calls := s.calls - {a}))
  {
    var t := s.(calls := s.calls - {a});
    forall i <- t.store.items | Holds(t.store, t.handlers, i) ensures Idle(t.net, t.calls, t.store.items[i].fd) {
      assert Idle(s.net, s.calls, s.store.items[i].fd);
    }
  }

  lemma AddingKeeps(s: State, a: Actor, ok: bool)
    requires Tokens(s) && a in s.calls && s.calls[a].Adding?
    ensures Tokens(ContinueStep(s, a, ok))
  {
    var t, fd := ContinueStep(s, a, ok), s.calls[a].fd;
    forall i <- t.store.items | Holds(t.store, t.handlers, i) ensures s.store.items[i].fd != fd && Idle(t.net, t.calls, s.store.items[i].fd) {
      assert Idle(s.net, s.calls, s.store.items[i].fd);
      assert !IsAbout(s.calls[a], s.store.items[i].fd);
    }
  }

  lemma UndoingKeeps(s: State, a: Actor)
    requires Tokens(s) && a in s.calls && s.calls[a].Undoing?
    ensures Tokens(ContinueStep(s, a, true))
  {
    var t, fd := ContinueStep(s, a, true), s.calls[a].fd;
    forall i <- t.store.items | Holds(t.store, t.handlers, i) ensures s.store.items[i].fd != fd && Idle(t.net, t.calls, s.store.items[i].fd) {
      assert Idle(s.net, s.calls, s.store.items[i].fd);
      assert !IsAbout(s.calls[a], s.store.items[i].fd);
    }
  }

  lemma ContinuedKeeps(s: State, a: Actor, ok: bool)
    requires Tokens(s) && a in s.calls
    ensures Tokens(ContinueStep(s, a, ok))
  {
    hide Tokens;
    if s.calls[a].Adding? {
      AddingKeeps(s, a, ok);
    } else if s.calls[a].Undoing? {
      UndoingKeeps(s, a);
    } else {
      CallEndedKeeps(s, a);
      CallersOf(s.(calls := s.calls - {a}));
      StagesKeep(s.(calls := s.calls - {a}), ContinueStep(s, a, ok));
    }
  }

  lemma StepKeepsTokens(s: State, step: Step)
    requires Shape(s) && Places(s.store, s.handlers) && Tokens(s) && Enabled(s, step)
    ensures Tokens(Apply(s, step))
  {
    hide Tokens, Places, LoopStep, ItemStep, WatchStep, Begun, Returned, Reported, ContinueStep, Fresh, Unclaimed, Reportable;
    match step
    case Advance => AdvanceKeeps(s);
    case Report(fds, sawPipe) => ReportedKeeps(s, fds, sawPipe);
    case Interrupted => CallersOf(s); StagesKeep(s, Apply(s, step));
    case Error => CallersOf(s); StagesKeep(s, Apply(s, step));
    case Begin(h) => BegunKeeps(s, h);
    case Return(h, outcome) => ReturnedKeeps(s, h, outcome);
    case Proceed(h, ok) => if OnItem(s.handlers[h].phase) { ItemStepKeeps(s, h); } else { WatchStepKeeps(s, h, ok); }
    case Finish(h) => FinishedKeeps(s, h);
    case Add(a, fd, priority) => AddedKeeps(s, a, fd, priority);
    case Post(a, item) => PostedKeeps(s, a, item);
    case Stop(a) => StoppedKeeps(s, a);
    case Continue(a, ok) => ContinuedKeeps(s, a, ok);
  }
}
