/** Wake-ups, the exit test, and the accounts of ready items. */
module EventFlow {
  import opened EventModel
  import opened EventPlaces

  // ---------- wake-ups ----------

  ghost predicate SomeoneStopping(calls: map<Actor, Call>) {
    exists a :: a in calls && calls[a].Stopped?
  }

  /** A thread has pushed an item and not yet notified the loop. */
  ghost predicate SomeonePushing(handlers: map<Actor, Handler>, calls: map<Actor, Call>) {
    (exists a :: a in calls && calls[a].Posted?) || (exists h :: h in handlers && handlers[h].phase.Requeued?)
  }

  /** A loop that blocks, or is about to, has not missed anything. */
  ghost predicate Wakeable(s: State) {
    && (s.net.delivered != [] ==> s.loop.Clearing? || s.loop.Activating?)
    && ((s.loop.Choose? || s.loop.Blocked?) && !s.net.running ==> s.net.pipe > 0 || SomeoneStopping(s.calls))
    && (s.loop.Blocked? && !AllEmpty(s.store.ready) ==> s.net.pipe > 0 || SomeonePushing(s.handlers, s.calls))
  }

  lemma AdvanceKeepsWakeable(s: State)
    requires Shape(s) && Wakeable(s) && Enabled(s, Advance)
    ensures Wakeable(LoopStep(s))
  {
  }

  lemma ItemStepKeepsWakeable(s: State, h: Actor)
    requires Shape(s) && Wakeable(s) && h in s.handlers && OnItem(s.handlers[h].phase)
    ensures Wakeable(ItemStep(s, h))
  {
    var t := ItemStep(s, h);
    if s.handlers[h].phase.Requeueing? {
      assert t.handlers[h].phase.Requeued?;
    } else if s.handlers[h].phase.Freeing? {
      forall g | g in s.handlers && s.handlers[g].phase.Requeued? ensures g in t.handlers && t.handlers[g].phase.Requeued? {}
      SameForWakeable(s, t);
    }
  }

  lemma WatchStepKeepsWakeable(s: State, h: Actor, ok: bool)
    requires Shape(s) && Wakeable(s) && Enabled(s, Proceed(h, ok)) && !OnItem(s.handlers[h].phase)
    ensures Wakeable(WatchStep(s, h, ok))
  {
    var t := WatchStep(s, h, ok);
    assert t.loop == s.loop && t.calls == s.calls && t.store == s.store;
    hide AllEmpty, Wakeable;
    forall g | g in s.handlers && s.handlers[g].phase.Requeued? ensures g in t.handlers && t.handlers[g].phase.Requeued? {}
    SameForWakeable(s, t);
  }

  lemma SameForWakeable(s: State, t: State)
    requires Wakeable(s) && t.loop == s.loop && t.calls == s.calls && t.store.ready == s.store.ready
    requires t.net.running == s.net.running && t.net.pipe == s.net.pipe && t.net.delivered == s.net.delivered
    requires forall h | h in s.handlers && s.handlers[h].phase.Requeued? :: h in t.handlers && t.handlers[h].phase.Requeued?
    ensures Wakeable(t)
  {
  }

  lemma CallKeepsWakeable(s: State, step: Step)
    requires Shape(s) && Wakeable(s) && Enabled(s, step) && (step.Add? || step.Post? || step.Stop?)
    ensures Wakeable(Apply(s, step))
  {
    var t := Apply(s, step);
    assert step.a in t.calls && forall a | a in s.calls :: a in t.calls && t.calls[a] == s.calls[a];
  }

  lemma ContinueKeepsWakeable(s: State, a: Actor, ok: bool)
    requires Wakeable(s) && a in s.calls
    ensures Wakeable(ContinueStep(s, a, ok))
  {
    var t := ContinueStep(s, a, ok);
    assert forall b | b in s.calls && b != a :: b in t.calls && t.calls[b] == s.calls[b];
  }

  lemma EpollKeepsWakeable(s: State, step: Step)
    requires Shape(s) && Wakeable(s) && Enabled(s, step) && (step.Report? || step.Interrupted? || step.Error?)
    ensures Wakeable(Apply(s, step))
  {
  }

  lemma StepKeepsWakeable(s: State, step: Step)
    requires Shape(s) && Wakeable(s) && Enabled(s, step)
    ensures Wakeable(Apply(s, step))
  {
    hide LoopStep, ItemStep, WatchStep, ContinueStep, Wakeable;
    match step
    case Advance => AdvanceKeepsWakeable(s);
    case Report(_, _) => EpollKeepsWakeable(s, step);
    case Interrupted => EpollKeepsWakeable(s, step);
    case Error => EpollKeepsWakeable(s, step);
    case Begin(h) => SameForWakeable(s, Apply(s, step));
    case Return(h, _) => SameForWakeable(s, Apply(s, step));
    case Finish(h) => SameForWakeable(s, Apply(s, step));
    case Proceed(h, ok) =>
      if OnItem(s.handlers[h].phase) { ItemStepKeepsWakeable(s, h); } else { WatchStepKeepsWakeable(s, h, ok); }
    case Add(_, _, _) => CallKeepsWakeable(s, step);
    case Post(_, _) => CallKeepsWakeable(s, step);
    case Stop(_) => CallKeepsWakeable(s, step);
    case Continue(a, ok) => ContinueKeepsWakeable(s, a, ok);
  }

  // ---------- the exit test ----------

  predicate TestUnderWay(loop: Loop) {
    loop.ReadSecond? || loop.ReadWatch? || loop.LeftQuiet?
  }

  /** What the reads of the exit test, in the order of the source, have established and still holds. */
  ghost predicate Established(s: State) {
    s.config.poolFirst && TestUnderWay(s.loop) ==>
      && !PoolBusy(s)
      && (!s.disturbed ==>
            && s.calls == map[]
            && (s.loop.ReadWatch? || s.loop.LeftQuiet? ==> AllEmpty(s.store.ready))
            && (s.loop.LeftQuiet? ==> s.net.watch == map[]))
  }

  lemma AdvanceKeepsEstablished(s: State)
    requires Shape(s) && Established(s) && Enabled(s, Advance)
    ensures Established(LoopStep(s))
  {
    if s.loop.ReadFirst? && !PoolBusy(s) && s.calls.Keys - s.handlers.Keys == {} {
      assert s.calls.Keys == {};
    }
  }

  lemma StepKeepsEstablished(s: State, step: Step)
    requires Shape(s) && Established(s) && Enabled(s, step)
    ensures Established(Apply(s, step))
  {
    if step.Advance? {
      AdvanceKeepsEstablished(s);
    } else if s.config.poolFirst && TestUnderWay(s.loop) {
      assert s.handlers == map[];
    } else {
      assert Apply(s, step).config == s.config && (TestUnderWay(Apply(s, step).loop) ==> TestUnderWay(s.loop));
    }
  }

  // ---------- accounts ----------

  ghost function Owners(handlers: map<Actor, Handler>): set<Actor> {
    set h | h in handlers && Owns(handlers, h)
  }

  /** Every item made is live or has been freed; every run of a handler has requeued its item, or freed it,
      or still has it. */
  ghost predicate Balanced(s: State) {
    && s.store.created == s.store.freed + |s.store.items|
    && s.store.runs == s.store.requeued + s.store.freed + |Owners(s.handlers)|
  }

  lemma SameOwners(s: State, t: State)
    requires Balanced(s) && t.store == s.store && Owners(t.handlers) == Owners(s.handlers)
    ensures Balanced(t)
  {
  }

  lemma BegunBalanced(s: State, h: Actor)
    requires Balanced(s) && s.store.jobs != [] && h !in s.handlers
    ensures Balanced(Begun(s, h))
  {
    NewOwner(s.handlers, h, Handler(s.store.jobs[0], Callback));
    hide Owners;
  }

  lemma NewOwners(handlers: map<Actor, Handler>, h: Actor, handler: Handler)
    requires h !in handlers && handler.phase.Callback?
    ensures h !in Owners(handlers) && Owners(handlers[h := handler]) == Owners(handlers) + {h}
  {
    var more := handlers[h := handler];
    forall g ensures g in Owners(more) <==> g in Owners(handlers) + {h} {
      assert g != h ==> (g in more <==> g in handlers) && (g in handlers ==> more[g] == handlers[g]);
    }
  }

  lemma NewOwner(handlers: map<Actor, Handler>, h: Actor, handler: Handler)
    requires h !in handlers && handler.phase.Callback?
    ensures |Owners(handlers[h := handler])| == |Owners(handlers)| + 1
  {
    NewOwners(handlers, h, handler);
    hide Owners;
  }

  lemma CreatedBalanced(s: Store, item: Item)
    requires item.priority < |s.ready| && s.created !in s.items
    ensures var t := Created(s, item);
            |t.items| == |s.items| + 1 && t.created == s.created + 1 && t.freed == s.freed && t.runs == s.runs && t.requeued == s.requeued
  {
    assert s.items[s.created := item].Keys == s.items.Keys + {s.created};
  }

  lemma ItemStepBalanced(s: State, h: Actor)
    requires Shape(s) && Balanced(s) && h in s.handlers && OnItem(s.handlers[h].phase)
    ensures Balanced(ItemStep(s, h))
  {
    var t, i, next := ItemStep(s, h), s.handlers[h].item, if s.handlers[h].phase.Requeueing? then Requeued else Done;
    assert t.handlers == InPhase(s.handlers, h, next);
    OwnersAfter(s.handlers, h, next);
    if s.handlers[h].phase.Freeing? {
      assert t.store.items.Keys == s.store.items.Keys - {i};
    } else if s.handlers[h].phase.Requeueing? {
      assert t.store.items == s.store.items;
    }
  }

  lemma OwnersAfter(handlers: map<Actor, Handler>, h: Actor, next: Phase)
    requires h in handlers && (next.Requeued? || next.Done?)
    ensures |Owners(InPhase(handlers, h, next))| == |Owners(handlers)| - (if Owns(handlers, h) then 1 else 0)
  {
    assert Owners(InPhase(handlers, h, next)) == Owners(handlers) - {h};
  }

  lemma StepKeepsBalanced(s: State, step: Step)
    requires Shape(s) && Places(s.store, s.handlers) && Balanced(s) && Enabled(s, step)
    ensures Balanced(Apply(s, step))
  {
    hide Balanced, Places, ItemStep, WatchStep, Created, Begun;
    assert s.store.created !in s.store.items by { NewIsNew(s.store, s.handlers); }
    match step
    case Advance => AdvanceBalanced(s);
    case Begin(h) => BegunBalanced(s, h);
    case Return(h, outcome) =>
      assert Owners(Returned(s, h, outcome).handlers) == Owners(s.handlers);
      SameOwners(s, Returned(s, h, outcome));
    case Proceed(h, ok) => if OnItem(s.handlers[h].phase) { ItemStepBalanced(s, h); } else { WatchStepBalanced(s, h, ok); }
    case Finish(h) =>
      assert Owners(s.handlers - {h}) == Owners(s.handlers);
      SameOwners(s, Apply(s, step));
    case Post(a, item) => CreatedBalanced(s.store, item); PostBalanced(s, a, item);
    case Report(_, _) => SameOwners(s, Apply(s, step));
    case Interrupted => SameOwners(s, Apply(s, step));
    case Error => SameOwners(s, Apply(s, step));
    case Add(_, _, _) => SameOwners(s, Apply(s, step));
    case Stop(_) => SameOwners(s, Apply(s, step));
    case Continue(_, _) => SameOwners(s, Apply(s, step));
  }

  lemma NewIsNew(s: Store, handlers: map<Actor, Handler>)
    requires Places(s, handlers)
    ensures s.created !in s.items
  {
  }

  lemma PostBalanced(s: State, a: Actor, item: Item)
    requires Shape(s) && Balanced(s) && s.store.created !in s.store.items && Enabled(s, Post(a, item))
    ensures Balanced(Apply(s, Post(a, item)))
  {
    CreatedBalanced(s.store, item);
    hide Created;
  }

  lemma WatchStepBalanced(s: State, h: Actor, ok: bool)
    requires Shape(s) && Balanced(s) && Enabled(s, Proceed(h, ok)) && !OnItem(s.handlers[h].phase)
    ensures Balanced(WatchStep(s, h, ok))
  {
    assert Owners(WatchStep(s, h, ok).handlers) == Owners(s.handlers);
  }

  lemma AdvanceBalanced(s: State)
    requires Shape(s) && Balanced(s) && s.store.created !in s.store.items && Enabled(s, Advance)
    ensures Balanced(LoopStep(s))
  {
    hide Created, Activated, Balanced, AllEmpty;
    if s.loop.Activating? && s.net.delivered != [] {
      ActivatedBalanced(s);
    } else {
      SameItems(s, LoopStep(s));
    }
  }

  lemma SameItems(s: State, t: State)
    requires Balanced(s) && t.handlers == s.handlers && t.store.items == s.store.items
    requires t.store.created == s.store.created && t.store.freed == s.store.freed && t.store.runs == s.store.runs
    requires t.store.requeued == s.store.requeued
    ensures Balanced(t)
  {
  }

  lemma ActivatedBalanced(s: State)
    requires Shape(s) && Balanced(s) && s.store.created !in s.store.items && s.net.delivered != []
    ensures Balanced(Activated(s))
  {
    if s.net.delivered[0] in s.net.watch {
      CreatedBalanced(s.store, Item(s.net.delivered[0], false, s.net.watch[s.net.delivered[0]]));
    }
    hide Created;
  }
}
