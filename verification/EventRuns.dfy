/** What the event loop guarantees over all runs, whatever the threads do in whatever order. */
module EventRuns {
  import opened EventModel
  import opened EventPlaces
  import opened EventTokens
  import opened EventFlow
  import opened EventRights
  import opened EventLedger

  ghost predicate Inv(s: State) {
    Shape(s) && Places(s.store, s.handlers) && Tokens(s) && Wakeable(s) && Established(s) && Balanced(s)
  }

  lemma StepKeeps(s: State, step: Step)
    requires Inv(s) && Enabled(s, step)
    ensures Inv(Apply(s, step))
  {
    hide Shape, Places, Tokens, Wakeable, Established, Balanced, Enabled, Apply;
    StepKeepsShape(s, step);
    StepKeepsTokens(s, step);
    StepKeepsWakeable(s, step);
    StepKeepsEstablished(s, step);
    StepKeepsBalanced(s, step);
  }

  lemma InitialIsRight(config: Config)
    ensures Inv(Initial(config))
  {
    assert |Initial(config).store.items| == 0 && |Owners(Initial(config).handlers)| == 0;
  }

  /** The given steps can be taken from `s`, one after the other.  That states have the right shape for steps
      to be defined restricts nothing: RunKeeps says that they always have it. */
  ghost predicate Allowed(s: State, steps: seq<Step>)
    decreases |steps|
  {
    steps != [] ==> Shape(s) && Enabled(s, steps[0]) && Allowed(Apply(s, steps[0]), steps[1..])
  }

  ghost function Run(s: State, steps: seq<Step>): State
    requires Allowed(s, steps)
    decreases |steps|
  {
    if steps == [] then s else Run(Apply(s, steps[0]), steps[1..])
  }

  lemma {:induction false} RunKeeps(s: State, steps: seq<Step>)
    requires Inv(s) && Allowed(s, steps)
    ensures Inv(Run(s, steps))
    decreases |steps|
  {
    if steps != [] {
      StepKeeps(s, steps[0]);
      hide Inv;
      RunKeeps(Apply(s, steps[0]), steps[1..]);
    }
  }

  /** Every state that the monitor gets to satisfies the invariants. */
  lemma Reached(config: Config, steps: seq<Step>) returns (s: State)
    requires Allowed(Initial(config), steps)
    ensures s == Run(Initial(config), steps) && Inv(s)
  {
    InitialIsRight(config);
    RunKeeps(Initial(config), steps);
    s := Run(Initial(config), steps);
  }

  /** They lead from `s` to `t`. */
  ghost predicate Leads(s: State, steps: seq<Step>, t: State) {
    Allowed(s, steps) && Run(s, steps) == t
  }

  /** One step before the others. */
  lemma OneStep(s: State, step: Step, rest: seq<Step>, t: State)
    requires Shape(s) && Enabled(s, step) && Leads(Apply(s, step), rest, t)
    ensures Leads(s, [step] + rest, t)
  {
    assert ([step] + rest)[1..] == rest;
    hide Shape, Enabled, Apply;
  }

  /** Some steps before others. */
  lemma {:induction false} LeadsOn(s: State, a: seq<Step>, t: State, b: seq<Step>, u: State)
    requires Leads(s, a, t) && Leads(t, b, u)
    ensures Leads(s, a + b, u)
    decreases |a|
  {
    if a == [] {
      assert a + b == b;
    } else {
      LeadsOn(Apply(s, a[0]), a[1..], t, b, u);
      assert (a + b)[1..] == a[1..] + b;
      hide Shape, Enabled, Apply;
    }
  }

  // ---------- one token ----------

  ghost function Holders(s: State, fd: Fd): set<Id> {
    set i | i in s.store.items && s.store.items[i].fd == fd && Holds(s.store, s.handlers, i)
  }

  /** The rights to `fd` that are about: epoll may report it, it has been reported, or a ready item has it. */
  ghost function TokenCount(s: State, fd: Fd): nat {
    (if fd in s.net.armed then 1 else 0) + multiset(s.net.delivered)[fd] + |Holders(s, fd)|
  }

  lemma AtMostOnce(q: seq<Fd>, fd: Fd)
    requires forall i, j :: 0 <= i < j < |q| ==> q[i] != q[j]
    ensures multiset(q)[fd] == if fd in q then 1 else 0
  {
    if q != [] {
      AtMostOnce(q[1..], fd);
      assert q == [q[0]] + q[1..];
    }
  }

  lemma AtMostOneHolder(s: State, fd: Fd)
    requires Tokens(s)
    ensures |Holders(s, fd)| <= 1
    ensures Holders(s, fd) != {} ==> fd !in s.net.armed && fd !in s.net.delivered
  {
    var holders := Holders(s, fd);
    if i :| i in holders {
      assert holders == {i};
    }
  }

  /** A descriptor never has two rights: while it is armed it has not been reported, and no ready item for
      it is on its way to a handler or in one; and there is never more than one such item. */
  lemma OneToken(config: Config, steps: seq<Step>, fd: Fd)
    requires Allowed(Initial(config), steps)
    ensures TokenCount(Run(Initial(config), steps), fd) <= 1
  {
    var s := Reached(config, steps);
    AtMostOnce(s.net.delivered, fd);
    AtMostOneHolder(s, fd);
  }

  /** The watched descriptors that handlers have given up on the way, without arming or deleting them. */
  ghost function GivenUpBy(s: State, dropped: set<Fd>, steps: seq<Step>): set<Fd>
    requires Allowed(s, steps)
    decreases |steps|
  {
    if steps == [] then dropped else GivenUpBy(Apply(s, steps[0]), Dropped(s, dropped, steps[0]), steps[1..])
  }

  lemma {:induction false} RunKeepsRights(s: State, dropped: set<Fd>, steps: seq<Step>)
    requires Inv(s) && Rights(s, dropped) && Allowed(s, steps)
    ensures Rights(Run(s, steps), GivenUpBy(s, dropped, steps))
    decreases |steps|
  {
    if steps != [] {
      StepKeeps(s, steps[0]);
      StepKeepsRights(s, dropped, steps[0]);
      hide Inv, Rights, Dropped;
      RunKeepsRights(Apply(s, steps[0]), Dropped(s, dropped, steps[0]), steps[1..]);
    }
  }

  ghost function CallsAbout(s: State, fd: Fd): set<Actor> {
    set a | a in s.calls && IsAbout(s.calls[a], fd)
  }

  /** A watched descriptor always has exactly one right, counting one that a call is about to give it, except
      exactly those that a handler has given up; these have none. */
  lemma ExactlyOneRight(config: Config, steps: seq<Step>, fd: Fd)
    requires Allowed(Initial(config), steps)
    ensures var s := Run(Initial(config), steps);
            fd in s.net.watch ==>
              TokenCount(s, fd) + |CallsAbout(s, fd)| == if fd in GivenUpBy(Initial(config), {}, steps) then 0 else 1
  {
    InitialIsRight(config);
    assert Rights(Initial(config), {});
    hide Initial, Inv, Rights, Run, Allowed, GivenUpBy;
    RightsAlong(Initial(config), steps, fd);
  }

  lemma RightsAlong(s0: State, steps: seq<Step>, fd: Fd)
    requires Inv(s0) && Rights(s0, {}) && Allowed(s0, steps)
    ensures var s := Run(s0, steps);
            fd in s.net.watch ==>
              TokenCount(s, fd) + |CallsAbout(s, fd)| == if fd in GivenUpBy(s0, {}, steps) then 0 else 1
  {
    RunKeeps(s0, steps);
    RunKeepsRights(s0, {}, steps);
    if fd in Run(s0, steps).net.watch { OneOrNone(Run(s0, steps), GivenUpBy(s0, {}, steps), fd); }
  }

  lemma OneOrNone(s: State, dropped: set<Fd>, fd: Fd)
    requires Tokens(s) && Rights(s, dropped) && fd in s.net.watch
    ensures TokenCount(s, fd) + |CallsAbout(s, fd)| == if fd in dropped then 0 else 1
  {
    AtMostOnce(s.net.delivered, fd);
    AtMostOneHolder(s, fd);
    var holders, about := Holders(s, fd), CallsAbout(s, fd);
    if i :| i in holders { assert Holder(s, i, fd) && holders == {i} && Idle(s.net, s.calls, fd); }
    if i :| Holder(s, i, fd) { assert i in holders; }
    if a :| a in about { assert about == {a}; }
    if a :| a in s.calls && IsAbout(s.calls[a], fd) { assert a in about; }
    assert Pending(s.calls, fd) <==> about != {};
    assert Held(s, fd) <==> holders != {};
  }

  /** `h` is in a callback of the watched descriptor `fd`. */
  ghost predicate InCallback(s: State, h: Actor, fd: Fd) {
    && h in s.handlers && s.handlers[h].phase.Callback? && s.handlers[h].item in s.store.items
    && !s.store.items[s.handlers[h].item].loose && s.store.items[s.handlers[h].item].fd == fd
  }

  /** The callbacks of one watched descriptor never overlap, and it stays watched and disarmed under them. */
  lemma NoOverlap(config: Config, steps: seq<Step>, h: Actor, fd: Fd)
    requires Allowed(Initial(config), steps)
    ensures var s := Run(Initial(config), steps);
            && (h in s.handlers && s.handlers[h].phase.Callback? ==> s.handlers[h].item in s.store.items)
            && (InCallback(s, h, fd) ==> fd in s.net.watch && fd !in s.net.armed && forall g :: g != h ==> !InCallback(s, g, fd))
  {
    var s := Reached(config, steps);
    hide ReadyListed, JobsListed;
    assert h in s.handlers && s.handlers[h].phase.Callback? ==> Owns(s.handlers, h);
    forall g | InCallback(s, g, fd)
      ensures Holds(s.store, s.handlers, s.handlers[g].item) && s.store.place[s.handlers[g].item] == Handled(g)
    {
      assert Owns(s.handlers, g);
    }
  }

  /** What epoll reports, and what it may report, is in the watch tree: make_active drops no event. */
  lemma NoEventDropped(config: Config, steps: seq<Step>)
    requires Allowed(Initial(config), steps)
    ensures var s := Run(Initial(config), steps);
            (forall fd <- s.net.armed :: fd in s.net.watch) && (forall fd <- s.net.delivered :: fd in s.net.watch)
  {
    var s := Reached(config, steps);
  }

  // ---------- ready items ----------

  ghost function HandlersOf(s: State, i: Id): set<Actor> {
    set h | h in s.handlers && Owns(s.handlers, h) && s.handlers[h].item == i
  }

  function InReady(s: State, i: Id): nat {
    if exists p :: 0 <= p < |s.store.ready| && i in s.store.ready[p] then 1 else 0
  }

  /** A live item is in exactly one place, and there once: in the list of its own priority, in the queue of
      the pool, or in one handler. */
  lemma OnePlace(config: Config, steps: seq<Step>, i: Id)
    requires Allowed(Initial(config), steps)
    ensures var s := Run(Initial(config), steps);
            && InReady(s, i) + multiset(s.store.jobs)[i] + |HandlersOf(s, i)| == (if i in s.store.items then 1 else 0)
            && (forall p :: 0 <= p < |s.store.ready| && i in s.store.ready[p] ==>
                  i in s.store.items && s.store.items[i].priority == p && multiset(s.store.ready[p])[i] == 1)
  {
    var s := Reached(config, steps);
    InOneHandler(s, i);
    InQueue(s, i);
    InOneList(s, i);
    hide Places, Tokens, Wakeable, Established, Balanced, InReady, HandlersOf;
  }

  lemma InQueue(s: State, i: Id)
    requires Places(s.store, s.handlers)
    ensures multiset(s.store.jobs)[i] == if i in s.store.items && s.store.place[i].Queued? then 1 else 0
  {
    AtMostOnce(s.store.jobs, i);
    assert i in s.store.jobs <==> i in QueuedIds(s.store);
  }

  lemma InOneList(s: State, i: Id)
    requires Shape(s) && Places(s.store, s.handlers)
    ensures InReady(s, i) == if i in s.store.items && s.store.place[i].Ready? then 1 else 0
    ensures forall p :: 0 <= p < |s.store.ready| && i in s.store.ready[p] ==>
                        i in s.store.items && s.store.items[i].priority == p && multiset(s.store.ready[p])[i] == 1
  {
    hide JobsListed, HandlersPlaced;
    forall p | 0 <= p < |s.store.ready|
      ensures i in s.store.ready[p] <==> i in ReadyAt(s.store, p)
      ensures multiset(s.store.ready[p])[i] == if i in s.store.ready[p] then 1 else 0
    {
      assert Lists(s.store.ready[p], ReadyAt(s.store, p));
      AtMostOnce(s.store.ready[p], i);
    }
    if i in s.store.items && s.store.place[i].Ready? {
      assert i in ReadyAt(s.store, s.store.items[i].priority);
    }
  }

  lemma InOneHandler(s: State, i: Id)
    requires Places(s.store, s.handlers)
    ensures |HandlersOf(s, i)| == if i in s.store.items && s.store.place[i].Handled? then 1 else 0
  {
    if i in s.store.items && s.store.place[i].Handled? {
      assert HandlersOf(s, i) == {s.store.place[i].h};
    } else {
      assert HandlersOf(s, i) == {};
    }
  }

  /** The ledger of handler runs along the way. */
  ghost function LedgerOf(s: State, l: Ledger, steps: seq<Step>): Ledger
    requires Allowed(s, steps)
    decreases |steps|
  {
    if steps == [] then l else LedgerOf(Apply(s, steps[0]), Entered(l, s, steps[0]), steps[1..])
  }

  lemma {:induction false} RunKeepsLedger(s: State, l: Ledger, steps: seq<Step>)
    requires EachOnce(l, s) && Allowed(s, steps)
    ensures EachOnce(LedgerOf(s, l, steps), Run(s, steps))
    decreases |steps|
  {
    if steps != [] {
      StepEnters(l, s, steps[0]);
      hide EachOnce, Entered;
      RunKeepsLedger(Apply(s, steps[0]), Entered(l, s, steps[0]), steps[1..]);
    }
  }

  /** Every single run of a handler that has begun requeues its item or frees it, exactly once, unless it is
      still under way, and then it has not; every item that was made is live or has been freed. */
  lemma EveryRunEndsOnce(config: Config, steps: seq<Step>, r: nat)
    requires Allowed(Initial(config), steps)
    ensures var s, l := Run(Initial(config), steps), LedgerOf(Initial(config), EventLedger.Empty(), steps);
            && l.requeued[r] + l.freed[r] + (if Open(l, s.handlers, r) then 1 else 0) == (if r < s.store.runs then 1 else 0)
            && s.store.runs == s.store.requeued + s.store.freed + |Owners(s.handlers)|
            && s.store.created == s.store.freed + |s.store.items|
  {
    var s := Reached(config, steps);
    assert EachOnce(EventLedger.Empty(), Initial(config));
    RunKeepsLedger(Initial(config), EventLedger.Empty(), steps);
  }

  // ---------- wake-ups ----------

  /** A loop that blocks without being about to wake up or be woken has nothing to do. */
  lemma NoLostWakeup(config: Config, steps: seq<Step>)
    requires Allowed(Initial(config), steps)
    ensures var s := Run(Initial(config), steps);
            s.loop.Blocked? && s.net.pipe == 0 ==>
              && (!s.net.running ==> SomeoneStopping(s.calls))
              && (!AllEmpty(s.store.ready) ==> SomeonePushing(s.handlers, s.calls))
  {
    var s := Reached(config, steps);
  }

  // ---------- the exit test ----------

  ghost predicate NothingLeft(s: State) {
    && s.store.jobs == [] && s.handlers == map[] && AllEmpty(s.store.ready) && s.store.items == map[]
    && s.net.watch == map[] && s.net.armed == {} && s.net.delivered == [] && s.calls == map[]
  }

  /** If the loop finds nothing to do, and no outside thread was calling the monitor meanwhile, then there is
      nothing to do, at that moment and ever after, although the test reads one thing after the other while
      handlers run. */
  lemma Quiescence(config: Config, steps: seq<Step>)
    requires config.poolFirst && Allowed(Initial(config), steps)
    ensures var s := Run(Initial(config), steps);
            s.loop.LeftQuiet? && !s.disturbed ==>
              && NothingLeft(s)
              && s.store.created == s.store.freed && s.store.runs == s.store.requeued + s.store.freed
              && forall step :: Enabled(s, step) ==> FromOutside(s, step)
  {
    var s := Reached(config, steps);
    ConfigStays(Initial(config), steps);
    if s.loop.LeftQuiet? && !s.disturbed {
      NothingIsLeft(s);
      assert Owners(s.handlers) == {};
    }
  }

  lemma {:induction false} ConfigStays(s: State, steps: seq<Step>)
    requires Allowed(s, steps)
    ensures Run(s, steps).config == s.config
    decreases |steps|
  {
    if steps != [] {
      assert Apply(s, steps[0]).config == s.config;
      hide Shape, Enabled, Apply;
      ConfigStays(Apply(s, steps[0]), steps[1..]);
    }
  }

  lemma NothingIsLeft(s: State)
    requires Inv(s) && s.config.poolFirst && s.loop.LeftQuiet? && !s.disturbed
    ensures NothingLeft(s)
  {
    NoItemsLeft(s);
    hide Places;
    assert s.net.watch == map[] && s.calls == map[] && s.net.delivered == [] && !PoolBusy(s);
    NothingArmed(s);
  }

  lemma NothingArmed(s: State)
    requires Tokens(s) && s.net.watch == map[]
    ensures s.net.armed == {}
  {
    assert forall fd <- s.net.armed :: fd in s.net.watch;
  }

  lemma NoItemsLeft(s: State)
    requires Shape(s) && Places(s.store, s.handlers) && !PoolBusy(s) && AllEmpty(s.store.ready)
    ensures s.store.items == map[]
  {
    forall i ensures i !in s.store.items {
      if i in s.store.items {
        InQueue(s, i);
        InOneHandler(s, i);
        InOneList(s, i);
        assert false;
      }
    }
  }

  // ---------- with the two reads the other way round ----------

  lemma {:induction false} Then(s: State, steps: seq<Step>, step: Step) returns (more: seq<Step>)
    requires Inv(s) && Allowed(s, steps) && Shape(Run(s, steps)) && Enabled(Run(s, steps), step)
    ensures more == steps + [step] && Allowed(s, more) && Run(s, more) == Apply(Run(s, steps), step)
    decreases |steps|
  {
    hide Places, Tokens, Wakeable, Established, Balanced, Enabled, Apply;
    more := steps + [step];
    if steps == [] {
      assert more[1..] == [] && steps == [];
    } else {
      StepKeeps(s, steps[0]);
      var rest := Then(Apply(s, steps[0]), steps[1..], step);
      assert more[1..] == rest;
    }
  }

  const Reordered := Config(false, false, false)

  ghost predicate Reaches(steps: seq<Step>, s: State): (reached: bool)
    ensures reached ==> Shape(s)
  {
    Shape(s) && Allowed(Initial(Reordered), steps) && Run(Initial(Reordered), steps) == s
  }

  lemma Next(steps: seq<Step>, s: State, step: Step) returns (more: seq<Step>)
    requires Reaches(steps, s) && Enabled(s, step)
    ensures Reaches(more, Apply(s, step))
  {
    hide Apply, Enabled;
    InitialIsRight(Reordered);
    RunKeeps(Initial(Reordered), steps);
    StepKeeps(s, step);
    more := Then(Initial(Reordered), steps, step);
  }

  /** States of a run with one item, that has no descriptor. */
  function With(loop: Loop, pipe: nat, store: Store, handlers: map<Actor, Handler>): State {
    State(Reordered, loop, Net(true, pipe, map[], {}, []), store, handlers, map[], false)
  }

  function OneItem(ready: seq<Id>, jobs: seq<Id>, place: Place): Store {
    Store([ready, [], [], [], [], []], jobs, map[0 := Item(7, true, 0)], map[0 := place], 1, 0, 0, 0)
  }

  lemma FirstList(q: seq<Id>, r: seq<Id>)
    ensures [q, [], [], [], [], []][0 := r] == [r, [], [], [], [], []]
  {
  }

  lemma Created0(s: Store)
    requires s == Initial(Reordered).store
    ensures Created(s, Item(7, true, 0)) == OneItem([0], [], Ready)
  {
    FirstList([], [0]);
    var t := Created(s, Item(7, true, 0));
    assert t.ready == s.ready[0 := s.ready[0] + [0]] && s.ready[0] + [0] == [0];
    assert t.items == map[0 := Item(7, true, 0)] && t.place == map[0 := Ready];
  }

  lemma Dispatched0(s: Store)
    requires s == OneItem([0], [], Ready)
    ensures Dispatched(s, 0) == OneItem([], [0], Queued)
  {
    FirstList([0], []);
    assert Dispatched(s, 0).ready == s.ready[0 := s.ready[0][1..]] && s.ready[0][1..] == [];
    assert Dispatched(s, 0).place == map[0 := Queued];
  }

  lemma Pushed0(s: Store)
    requires s == OneItem([], [], Handled(1)).(runs := 1)
    ensures Pushed(s, 0) == OneItem([0], [], Ready).(runs := 1)
  {
    FirstList([], [0]);
    assert Pushed(s, 0).ready == s.ready[0 := s.ready[0] + [0]] && s.ready[0] + [0] == [0];
    assert Pushed(s, 0).place == map[0 := Ready];
  }

  lemma BeforeAll()
    ensures Reaches([], Initial(Reordered))
  {
  }

  lemma ItemPosted() returns (steps: seq<Step>)
    ensures Reaches(steps, With(ReadFirst, 1, OneItem([0], [], Ready), map[]).(disturbed := true))
  {
    hide Reaches, Shape, Inv;
    var s := Initial(Reordered);
    var post := Post(0, Item(7, true, 0));
    assert Enabled(s, post);
    BeforeAll();
    var t := Apply(s, post);
    Created0(s.store);
    steps := Next([], s, post);
    assert t.calls == map[0 := Posted];
    steps := Next(steps, t, Continue(0, true));
    assert t.calls - {0} == map[];
  }

  lemma LoopAwake() returns (steps: seq<Step>)
    ensures Reaches(steps, With(Polling, 1, OneItem([0], [], Ready), map[]))
  {
    hide Reaches, Shape, Inv;
    var store := OneItem([0], [], Ready);
    assert store.ready[0] != [] && !AllEmpty(store.ready);
    steps := ItemPosted();
    steps := Next(steps, With(ReadFirst, 1, store, map[]).(disturbed := true), Advance);
    steps := Next(steps, With(ReadRunning, 1, store, map[]), Advance);
    steps := Next(steps, With(Choose, 1, store, map[]), Advance);
  }

  lemma LoopCounts() returns (steps: seq<Step>)
    ensures Reaches(steps, With(Highest, 1, OneItem([0], [], Ready), map[]))
  {
    hide Reaches, Shape, Inv;
    var store := OneItem([0], [], Ready);
    assert store.ready[0] != [] && !AllEmpty(store.ready);
    steps := LoopAwake();
    steps := Next(steps, With(Polling, 1, store, map[]), Report([], false));
    assert With(Polling, 1, store, map[]).net.armed - (set fd | fd in []) == {};
    steps := Next(steps, With(Activating, 1, store, map[]), Advance);
    steps := Next(steps, With(Counting, 1, store, map[]), Advance);
  }

  lemma ItemMoved() returns (steps: seq<Step>)
    ensures Reaches(steps, With(Dispatching(0), 1, OneItem([], [0], Queued), map[]))
  {
    hide Reaches, Shape, Inv;
    var store := OneItem([0], [], Ready);
    steps := LoopCounts();
    steps := Next(steps, With(Highest, 1, store, map[]), Advance);
    Dispatched0(store);
    steps := Next(steps, With(Dispatching(0), 1, store, map[]), Advance);
  }

  lemma ItemDispatched() returns (steps: seq<Step>)
    ensures Reaches(steps, With(ReadFirst, 0, OneItem([], [0], Queued), map[]))
  {
    hide Reaches, Shape, Inv;
    var after := OneItem([], [0], Queued);
    steps := ItemMoved();
    steps := Next(steps, With(Dispatching(0), 1, after, map[]), Advance);
    steps := Next(steps, With(ClearingAfter, 1, after, map[]), Advance);
  }

  /** Its handler is about to requeue it, when the test reads the ready queue. */
  lemma HandlerReturned() returns (steps: seq<Step>)
    ensures Reaches(steps, With(ReadSecond, 0, OneItem([], [], Handled(1)).(runs := 1), map[1 := Handler(0, Requeueing)]))
  {
    hide Reaches, Shape, Inv;
    var queued, taken := OneItem([], [0], Queued), OneItem([], [], Handled(1)).(runs := 1);
    steps := ItemDispatched();
    assert Taken(queued, 1) == taken;
    steps := Next(steps, With(ReadFirst, 0, queued, map[]), Begin(1));
    steps := Next(steps, With(ReadFirst, 0, taken, map[1 := Handler(0, Callback)]), Return(1, Async));
    var s := With(ReadFirst, 0, taken, map[1 := Handler(0, Requeueing)]);
    assert InPhase(map[1 := Handler(0, Callback)], 1, Requeueing) == s.handlers;
    assert AllEmpty(taken.ready) && s.calls.Keys - s.handlers.Keys == {} && FirstRead(s) == s.(loop := ReadSecond);
    steps := Next(steps, s, Advance);
  }

  /** It does, before the test reads the pool. */
  lemma HandlerRequeued() returns (steps: seq<Step>)
    ensures Reaches(steps, With(ReadSecond, 0, OneItem([0], [], Ready).(runs := 1, requeued := 1), map[1 := Handler(0, Requeued)]))
  {
    hide Reaches, Shape, Inv;
    var taken := OneItem([], [], Handled(1)).(runs := 1);
    steps := HandlerReturned();
    Pushed0(taken);
    assert InPhase(map[1 := Handler(0, Requeueing)], 1, Requeued) == map[1 := Handler(0, Requeued)];
    steps := Next(steps, With(ReadSecond, 0, taken, map[1 := Handler(0, Requeueing)]), Proceed(1, true));
  }

  /** And it ends before that. */
  lemma HandlerEnded() returns (steps: seq<Step>)
    ensures Reaches(steps, With(ReadSecond, 1, OneItem([0], [], Ready).(runs := 1, requeued := 1), map[]))
  {
    hide Reaches, Shape, Inv;
    var again := OneItem([0], [], Ready).(runs := 1, requeued := 1);
    steps := HandlerRequeued();
    assert InPhase(map[1 := Handler(0, Requeued)], 1, Done) == map[1 := Handler(0, Done)];
    steps := Next(steps, With(ReadSecond, 0, again, map[1 := Handler(0, Requeued)]), Proceed(1, true));
    steps := Next(steps, With(ReadSecond, 1, again, map[1 := Handler(0, Done)]), Finish(1));
    assert map[1 := Handler(0, Done)] - {1} == map[];
  }

  /** Reading the ready queue before the pool would not do: a handler that requeues its item in between
      makes the loop leave with work to do, although no outside thread called the monitor meanwhile. */
  lemma OrderMatters() returns (steps: seq<Step>)
    ensures Allowed(Initial(Reordered), steps)
    ensures var s := Run(Initial(Reordered), steps);
            s.loop.LeftQuiet? && !s.disturbed && s.net.running && !AllEmpty(s.store.ready)
  {
    hide Shape, Inv;
    var again := OneItem([0], [], Ready).(runs := 1, requeued := 1);
    steps := HandlerEnded();
    steps := Next(steps, With(ReadSecond, 1, again, map[]), Advance);
    steps := Next(steps, With(ReadWatch, 1, again, map[]), Advance);
    assert again.ready[0] != [];
  }
}
