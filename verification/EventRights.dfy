/** No right to a descriptor is lost: a watched descriptor is armed, or reported, or held by a ready item, or
    about to be armed or taken back by the call that added it; unless a handler has given it up.
  */
module EventRights {
  import opened EventModel
  import opened EventPlaces
  import opened EventTokens
  import opened EventFlow

  predicate Holder(s: State, i: Id, fd: Fd) {
    i in s.store.items && s.store.items[i].fd == fd && Holds(s.store, s.handlers, i)
  }

  ghost predicate Held(s: State, fd: Fd) {
    exists i :: Holder(s, i, fd)
  }

  ghost predicate Pending(calls: map<Actor, Call>, fd: Fd) {
    exists a :: a in calls && IsAbout(calls[a], fd)
  }

  ghost predicate HasRight(s: State, fd: Fd) {
    fd in s.net.armed || fd in s.net.delivered || Held(s, fd) || Pending(s.calls, fd)
  }

  /** The descriptor that a step gives up, without arming or deleting it: its callbacks ask for nothing more,
      or arming it again fails. */
  ghost function GivenUp(s: State, step: Step): set<Fd> {
    if (step.Return? && step.h in s.handlers && (step.outcome.Nothing? || step.outcome.FinAsync?))
       || (step.Proceed? && step.h in s.handlers && s.handlers[step.h].phase.Arming? && !step.ok)
    then ItemFd(s, s.handlers[step.h].item) else {}
  }

  ghost function ItemFd(s: State, i: Id): set<Fd> {
    if i in s.store.items && !s.store.items[i].loose then {s.store.items[i].fd} else {}
  }

  /** The watched descriptors that have been given up so far. */
  ghost function Dropped(s: State, dropped: set<Fd>, step: Step): set<Fd>
    requires Shape(s) && Enabled(s, step)
  {
    (dropped + GivenUp(s, step)) * Apply(s, step).net.watch.Keys
  }

  ghost predicate Rights(s: State, dropped: set<Fd>) {
    dropped <= s.net.watch.Keys && forall fd <- s.net.watch :: HasRight(s, fd) <==> fd !in dropped
  }

  /** Nothing changes hands. */
  lemma Unmoved(s: State, t: State, dropped: set<Fd>)
    requires Rights(s, dropped) && t.net.watch == s.net.watch && t.net.armed == s.net.armed && t.net.delivered == s.net.delivered
    requires forall i, fd :: Holder(t, i, fd) <==> Holder(s, i, fd)
    requires forall fd :: Pending(t.calls, fd) <==> Pending(s.calls, fd)
    ensures Rights(t, dropped)
  {
    forall fd ensures Held(t, fd) <==> Held(s, fd) {
      if i :| Holder(t, i, fd) { assert Holder(s, i, fd); }
      if i :| Holder(s, i, fd) { assert Holder(t, i, fd); }
    }
  }

  // ---------- the loop thread ----------

  lemma ActivatedRights(s: State, dropped: set<Fd>)
    requires Shape(s) && Places(s.store, s.handlers) && Tokens(s) && Rights(s, dropped) && s.net.delivered != []
    ensures Rights(Activated(s), dropped)
  {
    var t, fd, item := Activated(s), s.net.delivered[0], Item(s.net.delivered[0], false, s.net.watch[s.net.delivered[0]]);
    assert s.net.delivered == [fd] + s.net.delivered[1..];
    CreatedStages(s.store, item, s.handlers);
    assert Holder(t, s.store.created, fd);
    forall i, f | i != s.store.created ensures Holder(t, i, f) <==> Holder(s, i, f) {}
    forall f <- t.net.watch ensures HasRight(t, f) <==> HasRight(s, f) {
      if f != fd {
        if i :| Holder(t, i, f) { assert Holder(s, i, f); }
        if i :| Holder(s, i, f) { assert Holder(t, i, f); }
      }
    }
  }

  lemma AdvanceRights(s: State, dropped: set<Fd>)
    requires Shape(s) && Places(s.store, s.handlers) && Tokens(s) && Rights(s, dropped) && Enabled(s, Advance)
    ensures Rights(LoopStep(s), dropped)
  {
    hide Rights, ReadyListed, JobsListed;
    if s.loop.Activating? && s.net.delivered != [] {
      ActivatedRights(s, dropped);
    } else {
      if s.loop.Dispatching? && s.store.ready[s.loop.priority] != [] {
        DispatchedStages(s);
      }
      Unmoved(s, LoopStep(s), dropped);
    }
  }

  lemma ReportedRights(s: State, fds: seq<Fd>, sawPipe: bool, dropped: set<Fd>)
    requires Rights(s, dropped) && Reportable(s.net, fds, sawPipe) && s.net.delivered == []
    ensures Rights(Reported(s, fds, sawPipe), dropped)
  {
    var t := Reported(s, fds, sawPipe);
    forall i, f ensures Holder(t, i, f) <==> Holder(s, i, f) {}
    forall f <- t.net.watch ensures HasRight(t, f) <==> HasRight(s, f) {
      if i :| Holder(t, i, f) { assert Holder(s, i, f); }
      if i :| Holder(s, i, f) { assert Holder(t, i, f); }
    }
  }

  // ---------- handlers ----------

  lemma BegunRights(s: State, h: Actor, dropped: set<Fd>)
    requires Places(s.store, s.handlers) && Rights(s, dropped) && Enabled(s, Begin(h))
    ensures Rights(Begun(s, h), dropped)
  {
    hide Rights;
    var t, j := Begun(s, h), s.store.jobs[0];
    assert j in QueuedIds(s.store);
    hide ReadyListed, JobsListed;
    forall i <- t.store.items ensures Stage(t.store, t.handlers, i) == Stage(s.store, s.handlers, i) {}
    Unmoved(s, t, dropped);
  }

  /** The handler `h` lets go of its item's descriptor, or its item is loose; nothing else changes hands. */
  lemma LetGo(s: State, t: State, i0: Id, dropped: set<Fd>)
    requires Tokens(s) && Rights(s, dropped) && i0 in s.store.items && (s.store.items[i0].loose || Holder(s, i0, s.store.items[i0].fd))
    requires t.net == s.net && t.calls == s.calls
    requires forall i, fd :: Holder(t, i, fd) <==> Holder(s, i, fd) && i != i0
    ensures Rights(t, dropped + ItemFd(s, i0))
  {
    var fd := s.store.items[i0].fd;
    forall f <- t.net.watch ensures HasRight(t, f) <==> HasRight(s, f) && f !in ItemFd(s, i0) {
      if i :| Holder(t, i, f) { assert Holder(s, i, f); }
      if i :| Holder(s, i, f) { assert i != i0 ==> Holder(t, i, f); }
      if f == fd && !s.store.items[i0].loose {
        assert Idle(s.net, s.calls, fd);
        assert !Held(t, fd) by {
          forall i ensures !Holder(t, i, fd) {
            assert Holder(t, i, fd) <==> Holder(s, i, fd) && i != i0;
          }
        }
      }
    }
  }

  /** Where the descriptor of the item of `h` is concerned, while `h` goes from one phase to another. */
  lemma PhaseHolders(s: State, h: Actor, t: State)
    requires HandlersPlaced(s.store, s.handlers) && Owns(s.handlers, h) && s.handlers[h].item in s.store.items
    requires t.store == s.store && h in t.handlers && t.handlers == InPhase(s.handlers, h, t.handlers[h].phase)
    ensures var me := s.handlers[h].item;
            && (forall i, fd :: i != me ==> (Holder(t, i, fd) <==> Holder(s, i, fd)))
            && (forall fd :: Holder(s, me, fd) <==> s.store.items[me].fd == fd && !s.store.items[me].loose && !Released(s.handlers[h].phase))
            && (forall fd :: Holder(t, me, fd) <==> s.store.items[me].fd == fd && !s.store.items[me].loose && !Released(t.handlers[h].phase))
  {
    OthersStay(s, h, t.handlers[h].phase);
  }

  lemma ReturnedRights(s: State, h: Actor, outcome: Outcome, dropped: set<Fd>)
    requires Shape(s) && Places(s.store, s.handlers) && Tokens(s) && Rights(s, dropped) && Enabled(s, Return(h, outcome))
    ensures Rights(Returned(s, h, outcome), dropped + GivenUp(s, Return(h, outcome)))
  {
    var t := Returned(s, h, outcome);
    PhaseHolders(s, h, t);
    hide Rights, Tokens, ReadyListed, JobsListed, HandlersPlaced, Stage;
    if t.handlers[h].phase.Freeing? {
      LetGo(s, t, s.handlers[h].item, dropped);
    } else {
      Unmoved(s, t, dropped);
      assert dropped + GivenUp(s, Return(h, outcome)) == dropped;
    }
  }

  lemma DeletedRights(s: State, h: Actor, dropped: set<Fd>)
    requires Shape(s) && HandlersPlaced(s.store, s.handlers) && Tokens(s) && Rights(s, dropped)
    requires h in s.handlers && s.handlers[h].phase.Deleting? && HandledFd(s, h) in s.net.watch
    ensures Rights(WatchStep(s, h, true), dropped * WatchStep(s, h, true).net.watch.Keys)
  {
    var t := WatchStep(s, h, true);
    PhaseHolders(s, h, t);
    forall f <- t.net.watch ensures HasRight(t, f) <==> HasRight(s, f) {
      if i :| Holder(t, i, f) { assert Holder(s, i, f); }
      if i :| Holder(s, i, f) { assert Holder(t, i, f); }
    }
  }

  lemma ArmedRights(s: State, h: Actor, dropped: set<Fd>)
    requires Shape(s) && HandlersPlaced(s.store, s.handlers) && Tokens(s) && Rights(s, dropped)
    requires h in s.handlers && s.handlers[h].phase.Arming?
    ensures Rights(WatchStep(s, h, true), dropped)
  {
    var t, me := WatchStep(s, h, true), s.handlers[h].item;
    PhaseHolders(s, h, t);
    assert Holder(s, me, HandledFd(s, h));
    forall f <- t.net.watch ensures HasRight(t, f) <==> HasRight(s, f) {
      if i :| Holder(t, i, f) { assert Holder(s, i, f); }
      if f != HandledFd(s, h) {
        if i :| Holder(s, i, f) { assert Holder(t, i, f); }
      }
    }
  }

  lemma WatchRights(s: State, h: Actor, ok: bool, dropped: set<Fd>)
    requires Shape(s) && Places(s.store, s.handlers) && Tokens(s) && Rights(s, dropped)
    requires Enabled(s, Proceed(h, ok)) && !OnItem(s.handlers[h].phase)
    ensures Rights(WatchStep(s, h, ok), (dropped + GivenUp(s, Proceed(h, ok))) * WatchStep(s, h, ok).net.watch.Keys)
  {
    var t, me := WatchStep(s, h, ok), s.handlers[h].item;
    if s.handlers[h].phase.Deleting? && HandledFd(s, h) in s.net.watch {
      DeletedRights(s, h, dropped);
      assert dropped + GivenUp(s, Proceed(h, ok)) == dropped;
    } else if s.handlers[h].phase.Arming? && ok {
      ArmedRights(s, h, dropped);
      assert (dropped + GivenUp(s, Proceed(h, ok))) * t.net.watch.Keys == dropped;
    } else {
      OtherRights(s, h, ok, dropped);
    }
  }

  lemma OtherRights(s: State, h: Actor, ok: bool, dropped: set<Fd>)
    requires Shape(s) && Places(s.store, s.handlers) && Tokens(s) && Rights(s, dropped)
    requires Enabled(s, Proceed(h, ok)) && !OnItem(s.handlers[h].phase)
    requires !(s.handlers[h].phase.Deleting? && HandledFd(s, h) in s.net.watch) && !(s.handlers[h].phase.Arming? && ok)
    ensures Rights(WatchStep(s, h, ok), (dropped + GivenUp(s, Proceed(h, ok))) * WatchStep(s, h, ok).net.watch.Keys)
  {
    var t, me := WatchStep(s, h, ok), s.handlers[h].item;
    PhaseHolders(s, h, t);
    HeldIsWatched(s, h);
    if s.handlers[h].phase.Unwatched? { UnwatchedIsDisarmed(s, h); }
    assert t.net.armed == s.net.armed;
    var gone := dropped + GivenUp(s, Proceed(h, ok));
    assert dropped <= s.net.watch.Keys && t.net == s.net && t.calls == s.calls;
    hide Tokens, ReadyListed, JobsListed, HandlersPlaced, Stage, Rights;
    if s.handlers[h].phase.Arming? {
      LetGo(s, t, me, dropped);
      assert gone * t.net.watch.Keys == dropped + ItemFd(s, me);
    } else {
      Unmoved(s, t, dropped);
      assert gone * t.net.watch.Keys == dropped;
    }
  }

  lemma HeldIsWatched(s: State, h: Actor)
    requires Shape(s) && HandlersPlaced(s.store, s.handlers) && Tokens(s) && h in s.handlers && Owns(s.handlers, h)
    ensures var me := s.handlers[h].item;
            !s.store.items[me].loose && !Released(s.handlers[h].phase) ==> HandledFd(s, h) in s.net.watch
    ensures s.handlers[h].phase.Arming? ==> !s.store.items[s.handlers[h].item].loose
  {
    assert Stage(s.store, s.handlers, s.handlers[h].item) == s.handlers[h].phase;
    assert !s.store.items[s.handlers[h].item].loose && !Released(s.handlers[h].phase) ==> Holds(s.store, s.handlers, s.handlers[h].item);
  }

  lemma ItemRights(s: State, h: Actor, dropped: set<Fd>)
    requires Shape(s) && Places(s.store, s.handlers) && Tokens(s) && Rights(s, dropped) && h in s.handlers && OnItem(s.handlers[h].phase)
    ensures Rights(ItemStep(s, h), dropped)
  {
    hide Rights, Tokens, ReadyListed, JobsListed;
    var t, me := ItemStep(s, h), s.handlers[h].item;
    if s.handlers[h].phase.Requeueing? {
      OthersStay(s, h, Requeued);
      forall i <- t.store.items ensures Holds(t.store, t.handlers, i) <==> Holds(s.store, s.handlers, i) {}
    } else if s.handlers[h].phase.Freeing? {
      OthersStay(s, h, Done);
      forall i <- t.store.items ensures Holds(t.store, t.handlers, i) <==> Holds(s.store, s.handlers, i) {}
      assert !Holds(s.store, s.handlers, me);
    }
    Unmoved(s, t, dropped);
  }

  // ---------- calls ----------

  lemma AddedRights(s: State, a: Actor, fd: Fd, priority: nat, dropped: set<Fd>)
    requires Shape(s) && Tokens(s) && Rights(s, dropped) && Enabled(s, Add(a, fd, priority))
    ensures Rights(Apply(s, Add(a, fd, priority)), dropped)
  {
    var t := Apply(s, Add(a, fd, priority));
    assert IsAbout(t.calls[a], fd);
    forall i, f ensures Holder(t, i, f) <==> Holder(s, i, f) {}
    forall f <- t.net.watch | f != fd ensures HasRight(t, f) <==> HasRight(s, f) {
      SameHeld(s, t, f);
      if b :| b in s.calls && IsAbout(s.calls[b], f) { assert b in t.calls && IsAbout(t.calls[b], f); }
      if b :| b in t.calls && IsAbout(t.calls[b], f) { assert b in s.calls && IsAbout(s.calls[b], f); }
    }
  }

  lemma SameHeld(s: State, t: State, fd: Fd)
    requires forall i :: Holder(t, i, fd) <==> Holder(s, i, fd)
    ensures Held(t, fd) <==> Held(s, fd)
  {
    if i :| Holder(t, i, fd) { assert Holder(s, i, fd); }
    if i :| Holder(s, i, fd) { assert Holder(t, i, fd); }
  }

  /** A call that is not about a descriptor, and an item without one. */
  lemma NeutralRights(s: State, t: State, a: Actor, dropped: set<Fd>)
    requires Rights(s, dropped) && t.net.watch == s.net.watch && t.net.armed == s.net.armed && t.net.delivered == s.net.delivered
    requires forall i, fd :: Holder(t, i, fd) <==> Holder(s, i, fd)
    requires forall b | b != a :: (b in t.calls <==> b in s.calls) && (b in s.calls ==> t.calls[b] == s.calls[b])
    requires a in s.calls ==> s.calls[a].Posted? || s.calls[a].Stopped?
    requires a in t.calls ==> t.calls[a].Posted? || t.calls[a].Stopped?
    ensures Rights(t, dropped)
  {
    forall fd ensures Pending(t.calls, fd) <==> Pending(s.calls, fd) {
      if b :| b in s.calls && IsAbout(s.calls[b], fd) { assert b in t.calls && IsAbout(t.calls[b], fd); }
      if b :| b in t.calls && IsAbout(t.calls[b], fd) { assert b in s.calls && IsAbout(s.calls[b], fd); }
    }
    hide Rights, Pending;
    Unmoved(s, t, dropped);
  }

  lemma PostedRights(s: State, a: Actor, item: Item, dropped: set<Fd>)
    requires Shape(s) && Places(s.store, s.handlers) && Rights(s, dropped) && Enabled(s, Post(a, item))
    ensures Rights(Apply(s, Post(a, item)), dropped)
  {
    var t := Apply(s, Post(a, item));
    CreatedStages(s.store, item, s.handlers);
    hide Places, Stage, Created, Rights;
    forall i, fd ensures Holder(t, i, fd) <==> Holder(s, i, fd) {}
    NeutralRights(s, t, a, dropped);
  }

  lemma ContinuedRights(s: State, a: Actor, ok: bool, dropped: set<Fd>)
    requires Tokens(s) && Rights(s, dropped) && a in s.calls
    ensures Rights(ContinueStep(s, a, ok), dropped * ContinueStep(s, a, ok).net.watch.Keys)
  {
    var t := ContinueStep(s, a, ok);
    forall i, fd ensures Holder(t, i, fd) <==> Holder(s, i, fd) {}
    if s.calls[a].Posted? || s.calls[a].Stopped? {
      assert dropped * t.net.watch.Keys == dropped;
      NeutralRights(s, t, a, dropped);
    } else {
      EndedRights(s, a, ok, dropped);
    }
  }

  lemma EndedRights(s: State, a: Actor, ok: bool, dropped: set<Fd>)
    requires Tokens(s) && Rights(s, dropped) && a in s.calls && (s.calls[a].Adding? || s.calls[a].Undoing?)
    ensures Rights(ContinueStep(s, a, ok), dropped * ContinueStep(s, a, ok).net.watch.Keys)
  {
    var t, fd := ContinueStep(s, a, ok), s.calls[a].fd;
    assert IsAbout(s.calls[a], fd);
    forall f <- t.net.watch ensures HasRight(t, f) <==> HasRight(s, f) {
      forall i ensures Holder(t, i, f) <==> Holder(s, i, f) {}
      SameHeld(s, t, f);
      if f != fd {
        if b :| b in s.calls && IsAbout(s.calls[b], f) { assert b in t.calls && IsAbout(t.calls[b], f); }
        if b :| b in t.calls && IsAbout(t.calls[b], f) { assert b in s.calls && IsAbout(s.calls[b], f); }
      } else if s.calls[a].Adding? && !ok {
        assert IsAbout(t.calls[a], fd);
      }
    }
  }

  // ---------- all steps ----------

  lemma StepKeepsRights(s: State, dropped: set<Fd>, step: Step)
    requires Shape(s) && Places(s.store, s.handlers) && Tokens(s) && Wakeable(s) && Rights(s, dropped) && Enabled(s, step)
    ensures Rights(Apply(s, step), Dropped(s, dropped, step))
  {
    assert dropped <= s.net.watch.Keys;
    assert step.Report? ==> s.net.delivered == [];
    hide Tokens, Places, Rights, LoopStep, ItemStep, WatchStep, Begun, Returned, Reported, ContinueStep, Fresh, Unclaimed, Reportable, Wakeable;
    match step
    case Advance => AdvanceRights(s, dropped);
    case Report(fds, sawPipe) => ReportedRights(s, fds, sawPipe, dropped);
    case Interrupted => Unmoved(s, Apply(s, step), dropped);
    case Error => Unmoved(s, Apply(s, step), dropped);
    case Begin(h) => BegunRights(s, h, dropped);
    case Return(h, outcome) => ReturnedRights(s, h, outcome, dropped);
    case Proceed(h, ok) => if OnItem(s.handlers[h].phase) { ItemRights(s, h, dropped); } else { WatchRights(s, h, ok, dropped); }
    case Finish(h) => FinishedRights(s, h, dropped);
    case Add(a, fd, priority) => AddedRights(s, a, fd, priority, dropped);
    case Post(a, item) => PostedRights(s, a, item, dropped);
    case Stop(a) => NeutralRights(s, Apply(s, step), a, dropped);
    case Continue(a, ok) => ContinuedRights(s, a, ok, dropped);
  }

  lemma FinishedRights(s: State, h: Actor, dropped: set<Fd>)
    requires Places(s.store, s.handlers) && Rights(s, dropped) && Enabled(s, Finish(h))
    ensures Rights(s.(handlers := s.handlers - {h}), dropped)
  {
    var t := s.(handlers := s.handlers - {h});
    hide ReadyListed, JobsListed, Rights;
    forall i <- s.store.items ensures Stage(t.store, t.handlers, i) == Stage(s.store, s.handlers, i) {}
    Unmoved(s, t, dropped);
  }
}
