/** Every live ready item is in exactly one place: a ready list, the pool's queue, or a handler. */
module EventPlaces {
  import opened EventModel

  /** `q` lists `members`, each once. */
  ghost predicate Lists(q: seq<Id>, members: set<Id>) {
    (forall i, j :: 0 <= i < j < |q| ==> q[i] != q[j]) && (forall i :: i in q <==> i in members)
  }

  function ReadyAt(s: Store, p: nat): set<Id> {
    set i | i in s.items && i in s.place && s.place[i].Ready? && s.items[i].priority == p
  }

  function QueuedIds(s: Store): set<Id> {
    set i | i in s.place && s.place[i].Queued?
  }

  ghost predicate ReadyListed(s: Store) {
    forall p :: 0 <= p < |s.ready| ==> Lists(s.ready[p], ReadyAt(s, p))
  }

  ghost predicate JobsListed(s: Store) {
    Lists(s.jobs, QueuedIds(s))
  }

  ghost predicate HandlersPlaced(s: Store, handlers: map<Actor, Handler>) {
    && (forall h <- handlers :: Owns(handlers, h) ==> handlers[h].item in s.place && s.place[handlers[h].item] == Handled(h))
    && (forall i <- s.place :: s.place[i].Handled? ==> Owns(handlers, s.place[i].h) && handlers[s.place[i].h].item == i)
  }

  ghost predicate Places(s: Store, handlers: map<Actor, Handler>) {
    && s.place.Keys == s.items.Keys && ReadyListed(s) && JobsListed(s) && HandlersPlaced(s, handlers)
    && (forall i <- s.items :: i < s.created)
  }

  lemma ListPush(q: seq<Id>, members: set<Id>, i: Id)
    requires Lists(q, members) && i !in members
    ensures Lists(q + [i], members + {i})
  {
  }

  lemma ListShift(q: seq<Id>, members: set<Id>)
    requires Lists(q, members) && q != []
    ensures q[0] in members && Lists(q[1..], members - {q[0]})
  {
    assert q == [q[0]] + q[1..];
  }

  lemma SameLists(s: Store, t: Store)
    requires ReadyListed(s) && t.ready == s.ready && forall p :: ReadyAt(t, p) == ReadyAt(s, p)
    ensures ReadyListed(t)
  {
  }

  lemma PushedListed(s: Store, i: Id)
    requires i in s.items && s.items[i].priority < |s.ready|
    requires ReadyListed(s) && (i in s.place ==> !s.place[i].Ready?)
    ensures ReadyListed(Pushed(s, i))
  {
    var t, p := Pushed(s, i), s.items[i].priority;
    ListPush(s.ready[p], ReadyAt(s, p), i);
    assert ReadyAt(t, p) == ReadyAt(s, p) + {i};
    forall q | 0 <= q < |t.ready| && q != p ensures Lists(t.ready[q], ReadyAt(t, q)) {
      assert ReadyAt(t, q) == ReadyAt(s, q);
    }
  }

  lemma CreatedKeepsPlaces(s: Store, item: Item, handlers: map<Actor, Handler>)
    requires item.priority < |s.ready| && Places(s, handlers)
    ensures Places(Created(s, item), handlers)
  {
    var u := s.(items := s.items[s.created := item], created := s.created + 1);
    forall p ensures ReadyAt(u, p) == ReadyAt(s, p) {}
    SameLists(s, u);
    PushedListed(u, s.created);
    assert QueuedIds(Created(s, item)) == QueuedIds(s);
  }

  lemma DispatchedKeepsPlaces(s: Store, p: nat, handlers: map<Actor, Handler>)
    requires Places(s, handlers) && p < |s.ready| && s.ready[p] != []
    ensures Places(Dispatched(s, p), handlers)
  {
    var t, i := Dispatched(s, p), s.ready[p][0];
    ListShift(s.ready[p], ReadyAt(s, p));
    assert ReadyAt(t, p) == ReadyAt(s, p) - {i};
    forall q | 0 <= q < |t.ready| && q != p ensures Lists(t.ready[q], ReadyAt(t, q)) {
      assert ReadyAt(t, q) == ReadyAt(s, q);
    }
    ListPush(s.jobs, QueuedIds(s), i);
    assert QueuedIds(t) == QueuedIds(s) + {i};
  }

  lemma BegunKeepsPlaces(s: State, h: Actor)
    requires Places(s.store, s.handlers) && s.store.jobs != [] && h !in s.handlers
    ensures Places(Begun(s, h).store, Begun(s, h).handlers)
  {
    var t, i := Begun(s, h), s.store.jobs[0];
    ListShift(s.store.jobs, QueuedIds(s.store));
    assert QueuedIds(t.store) == QueuedIds(s.store) - {i};
    forall p ensures ReadyAt(t.store, p) == ReadyAt(s.store, p) {}
    SameLists(s.store, t.store);
  }

  /** A handler that keeps its item, or has none. */
  lemma PhaseKeepsPlaces(s: Store, handlers: map<Actor, Handler>, h: Actor, phase: Phase)
    requires Places(s, handlers) && h in handlers
    requires Owns(handlers, h) <==> !phase.Requeued? && !phase.Done?
    ensures Places(s, InPhase(handlers, h, phase))
  {
  }

  lemma RequeueKeepsPlaces(s: State, h: Actor)
    requires Shape(s) && Places(s.store, s.handlers) && h in s.handlers && s.handlers[h].phase.Requeueing?
    ensures Places(ItemStep(s, h).store, ItemStep(s, h).handlers)
  {
    var t, i := ItemStep(s, h), s.handlers[h].item;
    var u := Pushed(s.store, i);
    assert s.store.place[i] == Handled(h);
    PushedListed(s.store, i);
    forall p ensures ReadyAt(t.store, p) == ReadyAt(u, p) {}
    SameLists(u, t.store);
    assert QueuedIds(t.store) == QueuedIds(s.store);
  }

  lemma FreeKeepsPlaces(s: State, h: Actor)
    requires Shape(s) && Places(s.store, s.handlers) && h in s.handlers && s.handlers[h].phase.Freeing?
    ensures Places(ItemStep(s, h).store, ItemStep(s, h).handlers)
  {
    var t, i := ItemStep(s, h), s.handlers[h].item;
    assert s.store.place[i] == Handled(h);
    forall p ensures ReadyAt(t.store, p) == ReadyAt(s.store, p) {}
    SameLists(s.store, t.store);
    assert QueuedIds(t.store) == QueuedIds(s.store);
  }

  lemma ProceedKeepsPlaces(s: State, h: Actor, ok: bool)
    requires Shape(s) && Places(s.store, s.handlers) && Enabled(s, Proceed(h, ok))
    ensures Places(ProceedStep(s, h, ok).store, ProceedStep(s, h, ok).handlers)
  {
    hide Places;
    if s.handlers[h].phase.Requeueing? {
      RequeueKeepsPlaces(s, h);
    } else if s.handlers[h].phase.Freeing? {
      FreeKeepsPlaces(s, h);
    } else {
      var t := ProceedStep(s, h, ok);
      assert t.handlers == InPhase(s.handlers, h, t.handlers[h].phase);
      PhaseKeepsPlaces(s.store, s.handlers, h, t.handlers[h].phase);
    }
  }

  lemma AdvanceKeepsPlaces(s: State)
    requires Shape(s) && Places(s.store, s.handlers) && Enabled(s, Advance)
    ensures Places(LoopStep(s).store, LoopStep(s).handlers)
  {
    hide Places;
    if s.loop.Dispatching? && s.store.ready[s.loop.priority] != [] {
      DispatchedKeepsPlaces(s.store, s.loop.priority, s.handlers);
    } else if s.loop.Activating? && s.net.delivered != [] && s.net.delivered[0] in s.net.watch {
      var fd := s.net.delivered[0];
      CreatedKeepsPlaces(s.store, Item(fd, false, s.net.watch[fd]), s.handlers);
    }
  }

  lemma StepKeepsPlaces(s: State, step: Step)
    requires Shape(s) && Places(s.store, s.handlers) && Enabled(s, step)
    ensures Places(Apply(s, step).store, Apply(s, step).handlers)
  {
    hide Places, LoopStep, ProceedStep, Begun;
    match step {
      case Advance => AdvanceKeepsPlaces(s);
      case Begin(h) => BegunKeepsPlaces(s, h);
      case Proceed(h, ok) => ProceedKeepsPlaces(s, h, ok);
      case Post(a, item) => CreatedKeepsPlaces(s.store, item, s.handlers);
      case Return(h, outcome) => PhaseKeepsPlaces(s.store, s.handlers, h, Returned(s, h, outcome).handlers[h].phase);
      case Finish(h) => FinishKeepsPlaces(s.store, s.handlers, h);
      case _ =>
    }
  }

  lemma FinishKeepsPlaces(s: Store, handlers: map<Actor, Handler>, h: Actor)
    requires Places(s, handlers) && h in handlers && handlers[h].phase.Done?
    ensures Places(s, handlers - {h})
  {
  }

  // ---------- the same for what makes steps defined ----------

  lemma AdvanceKeepsRange(s: State)
    requires InRange(s) && Enabled(s, Advance)
    ensures InRange(LoopStep(s))
  {
  }

  lemma StepKeepsRange(s: State, step: Step)
    requires Shape(s) && Enabled(s, step)
    ensures InRange(Apply(s, step))
  {
    hide LoopStep, ProceedStep;
    match step {
      case Advance => AdvanceKeepsRange(s);
      case Proceed(h, ok) => ProceedKeepsRange(s, h, ok);
      case _ =>
    }
  }

  lemma ProceedKeepsRange(s: State, h: Actor, ok: bool)
    requires Shape(s) && Enabled(s, Proceed(h, ok))
    ensures InRange(ProceedStep(s, h, ok))
  {
  }

  lemma StepKeepsShape(s: State, step: Step)
    requires Shape(s) && Places(s.store, s.handlers) && Enabled(s, step)
    ensures Shape(Apply(s, step)) && Places(Apply(s, step).store, Apply(s, step).handlers)
  {
    StepKeepsPlaces(s, step);
    StepKeepsRange(s, step);
    hide InRange, Apply, ReadyListed, JobsListed;
  }
}
