/** The ready queue of `_ev_ready_queue.c` and what a handler does with its item, as the thread that runs them
    sees them; and the event masks of `_epoll.c`.
  */
module EventQueue {
  import opened EventModel

  // ---------- the ready queue ----------

  class ReadyQueue {
    const rqueue: array<seq<Id>>
    var jobs: seq<Id>            // the job queue of its pool

    ghost predicate Valid()
      reads this
    {
      rqueue.Length == PRIORITIES
    }

    constructor ()
      ensures Valid() && fresh(rqueue) && AllEmpty(rqueue[..]) && jobs == []
    {
      rqueue := new seq<Id>[PRIORITIES](_ => []);
      jobs := [];
    }

    /** `ev_ready_queue_highest_priority` */
    method HighestPriority() returns (p: int)
      requires Valid()
      ensures p == -1 <==> AllEmpty(rqueue[..])
      ensures p != -1 ==> 0 <= p == FirstNonEmpty(rqueue[..]) < PRIORITIES
    {
      var i := 0;
      while i < PRIORITIES
        invariant 0 <= i <= PRIORITIES && forall q :: 0 <= q < i ==> rqueue[q] == []
      {
        if rqueue[i] != [] {
          break;
        }
        i := i + 1;
      }
      p := if i != PRIORITIES then i else -1;
    }

    /** `ev_ready_queue_is_empty` */
    method IsEmpty() returns (empty: bool)
      requires Valid()
      ensures empty <==> AllEmpty(rqueue[..])
    {
      var p := HighestPriority();
      empty := p == -1;
    }

    /** `ev_ready_queue_nready`: the length of the first list that is not empty. */
    method NReady() returns (n: nat)
      requires Valid()
      ensures n == 0 <==> AllEmpty(rqueue[..])
      ensures n > 0 ==> n == |rqueue[FirstNonEmpty(rqueue[..])]|
    {
      n := 0;
      var i := 0;
      while i < PRIORITIES
        invariant 0 <= i <= PRIORITIES && n == 0 && forall q :: 0 <= q < i ==> rqueue[q] == []
      {
        if rqueue[i] != [] {
          assert FirstNonEmpty(rqueue[..]) == i;
          return |rqueue[i]|;
        }
        i := i + 1;
      }
    }

    /** The push of ev_ready_queue_make_ready_ri and ev_ready_queue_wait_equeue. */
    method Push(i: Id, priority: nat)
      requires Valid() && priority < PRIORITIES
      modifies rqueue
      ensures rqueue[..] == old(rqueue[..])[priority := old(rqueue[priority]) + [i]]
    {
      rqueue[priority] := rqueue[priority] + [i];
    }

    /** `ev_ready_queue_dqueue` */
    method Dequeue(priority: nat) returns (done: bool, i: Id)
      requires Valid() && priority < PRIORITIES
      modifies rqueue
      ensures done <==> old(rqueue[priority]) != []
      ensures !done ==> rqueue[..] == old(rqueue[..])
      ensures done ==> i == old(rqueue[priority])[0] && rqueue[..] == old(rqueue[..])[priority := old(rqueue[priority])[1..]]
    {
      if rqueue[priority] == [] {
        return false, 0;
      }
      i := rqueue[priority][0];
      rqueue[priority] := rqueue[priority][1..];
      return true, i;
    }

    /** `ev_ready_queue_dispatch`: all items of the first list that is not empty go to the pool, in order. */
    method Dispatch()
      requires Valid()
      modifies this, rqueue
      ensures var p := FirstNonEmpty(old(rqueue[..]));
              if p == PRIORITIES then rqueue[..] == old(rqueue[..]) && jobs == old(jobs)
              else rqueue[..] == old(rqueue[..])[p := []] && jobs == old(jobs) + old(rqueue[..])[p]
    {
      var priority := HighestPriority();
      if priority == -1 {
        return;
      }
      ghost var q := rqueue[..];
      var done, i := Dequeue(priority);
      while done
        invariant (done ==> jobs + [i] + rqueue[priority] == old(jobs) + q[priority])
        invariant !done ==> jobs == old(jobs) + q[priority] && rqueue[priority] == []
        invariant rqueue[..] == q[priority := rqueue[priority]]
        decreases done, |rqueue[priority]|
      {
        jobs := jobs + [i];
        done, i := Dequeue(priority);
      }
    }
  }

  /** The steps of the loop thread between the first of them and the last, if no other thread comes between. */
  ghost function Drained(s: State, n: nat): State
    requires s.loop.Dispatching? && s.loop.priority < |s.store.ready| && n <= |s.store.ready[s.loop.priority]|
    decreases n
  {
    if n == 0 then s else Drained(DispatchStep(s), n - 1)
  }

  /** These steps, one for each item, do what ev_ready_queue_dispatch does in one go. */
  lemma {:induction false} DispatchInSteps(s: State)
    requires s.loop.Dispatching? && s.loop.priority < |s.store.ready|
    ensures var p := s.loop.priority;
            var t := Drained(s, |s.store.ready[p]|);
            && t.store.ready == s.store.ready[p := []] && t.store.jobs == s.store.jobs + s.store.ready[p]
            && t.loop == s.loop && DispatchStep(t).loop == ClearingAfter
    decreases |s.store.ready[s.loop.priority]|
  {
    var p := s.loop.priority;
    if s.store.ready[p] != [] {
      DispatchInSteps(DispatchStep(s));
      assert s.store.ready[p] == [s.store.ready[p][0]] + s.store.ready[p][1..];
    }
  }

  // ---------- handlers ----------

  type EvSet = set<nat>   // of the bits that are set

  const EV_READ := 0
  const EV_WRITE := 1
  const EV_ERR := 2
  const EV_ASYNC := 3
  const EV_EVENT_MAX := 8
  const EV_IGN := 9
  const EV_FIN := 10

  function Lower(b: nat): nat {
    if b == 0 then 0 else b - 1
  }

  /** `events >> 1` */
  function Halved(events: EvSet): EvSet {
    set b | b in events && b > 0 :: Lower(b)
  }

  lemma HalvedHas(events: EvSet, b: nat)
    ensures b in Halved(events) <==> b + 1 in events
  {
    assert Lower(b + 1) == b;
  }

  /** `events >> n` */
  function Shifted(events: EvSet, n: nat): EvSet {
    if n == 0 then events else Halved(Shifted(events, n - 1))
  }

  lemma {:induction false} ShiftedHas(events: EvSet, n: nat, b: nat)
    ensures b in Shifted(events, n) <==> b + n in events
  {
    if n > 0 {
      ShiftedHas(events, n - 1, b + 1);
      HalvedHas(Shifted(events, n - 1), b);
    }
  }

  /** Which of the first `n` events have occurred and have a callback. */
  function Called(events: EvSet, callbacks: seq<bool>, n: nat): seq<nat>
    requires n <= |callbacks|
  {
    if n == 0 then []
    else Called(events, callbacks, n - 1) + if n - 1 in events && callbacks[n - 1] then [n - 1] else []
  }

  /** What their callbacks ask for, but for those that return EV_IGN. */
  function Asked(called: seq<nat>, results: seq<EvSet>): EvSet
    requires Below(called, |results|)
    decreases |called|
  {
    if called == [] then {} else
      var n := |called| - 1;
      Asked(called[..n], results) + if EV_IGN in results[called[n]] then {} else results[called[n]]
  }

  /** They are called in the order of the events, each once, and exactly those. */
  lemma {:induction false} CalledInOrder(events: EvSet, callbacks: seq<bool>, n: nat)
    requires n <= |callbacks|
    ensures var called := Called(events, callbacks, n);
            && (forall k :: k in called <==> k < n && k in events && callbacks[k])
            && (forall i, j :: 0 <= i < j < |called| ==> called[i] < called[j])
  {
    if n > 0 {
      CalledInOrder(events, callbacks, n - 1);
      var before := Called(events, callbacks, n - 1);
      assert forall i :: 0 <= i < |before| ==> before[i] in before;
    }
  }

  /** An event is asked for exactly if one of them asks for it without EV_IGN. */
  lemma {:induction false} AskedByOne(called: seq<nat>, results: seq<EvSet>, b: nat)
    requires Below(called, |results|)
    ensures b in Asked(called, results) <==> exists k :: k in called && EV_IGN !in results[k] && b in results[k]
    decreases |called|
  {
    if called != [] {
      var n := |called| - 1;
      AskedByOne(called[..n], results, b);
      assert called == called[..n] + [called[n]];
    }
  }

  lemma {:induction false} NoMoreCalled(events: EvSet, callbacks: seq<bool>, m: nat, n: nat)
    requires m <= n <= |callbacks| && Shifted(events, m) == {}
    ensures Called(events, callbacks, n) == Called(events, callbacks, m)
    decreases n
  {
    if m < n {
      NoMoreCalled(events, callbacks, m, n - 1);
      ShiftedHas(events, m, n - 1 - m);
    }
  }

  /** `ev_ready_item_dispatch`: `called` says which callbacks it has called, and `results` what they return. */
  method ItemDispatch(events: EvSet, callbacks: seq<bool>, results: seq<EvSet>) returns (returned: EvSet, called: seq<nat>)
    requires |callbacks| == |results| == EV_EVENT_MAX
    ensures called == Called(events, callbacks, EV_EVENT_MAX - 1)
    ensures Below(called, |results|) && returned == Asked(called, results)
  {
    returned, called := {}, [];
    var left, idx := events, 0;
    assert Shifted(events, 0) == events && Called(events, callbacks, 0) == [] && Below(called, 0) && Asked(called, results) == {};
    hide Asked, Below, Called, Shifted, Halved;
    while idx < EV_EVENT_MAX - 1
      invariant 0 <= idx <= EV_EVENT_MAX - 1 && left == Shifted(events, idx)
      invariant called == Called(events, callbacks, idx) && Below(called, idx) && Below(called, |results|)
      invariant returned == Asked(called, results)
    {
      CalledNext(events, callbacks, idx);
      ShiftedHas(events, idx, 0);
      BelowNext(called, idx);
      if 0 in left && callbacks[idx] {
        AskedMore(called, results, idx);
        called := called + [idx];
        if EV_IGN !in results[idx] {
          returned := returned + results[idx];
        }
      }
      left := Halved(left);
      idx := idx + 1;
      if left == {} {
        NoMoreCalled(events, callbacks, idx, EV_EVENT_MAX - 1);
        break;
      }
    }
  }

  predicate Below(called: seq<nat>, n: nat) {
    forall i :: 0 <= i < |called| ==> called[i] < n
  }

  lemma CalledNext(events: EvSet, callbacks: seq<bool>, idx: nat)
    requires idx < |callbacks|
    ensures Called(events, callbacks, idx + 1) ==
            Called(events, callbacks, idx) + if idx in events && callbacks[idx] then [idx] else []
    ensures Shifted(events, idx + 1) == Halved(Shifted(events, idx))
  {
  }

  lemma BelowNext(called: seq<nat>, idx: nat)
    requires Below(called, idx)
    ensures Below(called, idx + 1)
  {
  }

  lemma AskedMore(called: seq<nat>, results: seq<EvSet>, idx: nat)
    requires Below(called, idx) && idx < |results|
    ensures Below(called + [idx], idx + 1) && Below(called, |results|) && Below(called + [idx], |results|)
    ensures Asked(called + [idx], results) == Asked(called, results) + if EV_IGN in results[idx] then {} else results[idx]
  {
    assert (called + [idx])[..|called|] == called;
  }

  /** The branches of event_handler. */
  function OutcomeOf(returned: EvSet): Outcome {
    if EV_FIN in returned then if EV_ASYNC in returned then FinAsync else Fin
    else if returned == {} then Nothing
    else if EV_ASYNC in returned then Async
    else Again
  }

  /** A callback that has been called asks for event `b`, and its answer is not to be ignored. */
  predicate Wants(called: seq<nat>, results: seq<EvSet>, b: nat) {
    exists k :: k in called && k < |results| && EV_IGN !in results[k] && b in results[k]
  }

  /** What the handler does next, in terms of what the callbacks answered.  In the first two cases it frees its
      item without arming or deleting the descriptor. */
  lemma WhatFollows(called: seq<nat>, results: seq<EvSet>)
    requires Below(called, |results|)
    ensures var outcome, fin, again := OutcomeOf(Asked(called, results)), Wants(called, results, EV_FIN), Wants(called, results, EV_ASYNC);
            && (outcome.Nothing? <==> forall b: nat :: !Wants(called, results, b))
            && (outcome.FinAsync? <==> fin && again)
            && (outcome.Fin? <==> fin && !again)
            && (outcome.Async? <==> !fin && again)
  {
    forall b: nat ensures b in Asked(called, results) <==> Wants(called, results, b) {
      AskedByOne(called, results, b);
    }
    if b :| b in Asked(called, results) { assert Wants(called, results, b); }
  }

  // ---------- event masks ----------

  datatype Ep = IN | OUT | PRI | ERR | HUP | ONESHOT

  /** `to_ep_events` */
  function ToEp(custom: EvSet): set<Ep> {
    (if EV_READ in custom then {IN} else {}) + (if EV_WRITE in custom then {OUT} else {})
    + (if EV_ERR in custom then {PRI} else {}) + {ONESHOT}
  }

  /** `to_custom_events` */
  function ToCustom(ep: set<Ep>, watched: EvSet): EvSet {
    (if EV_READ in watched && (IN in ep || HUP in ep || ERR in ep) then {EV_READ} else {})
    + (if EV_WRITE in watched && (OUT in ep || ERR in ep) then {EV_WRITE} else {})
    + (if PRI in ep then {EV_ERR} else {})
  }

  /** What the kernel may report for a descriptor: what was asked for, errors and hangups. */
  predicate Reports(ep: set<Ep>, watched: EvSet) {
    ep != {} && ep <= ToEp(watched) - {ONESHOT} + {ERR, HUP}
  }

  /** A handler only gets events that were asked for. */
  lemma OnlyWatchedEvents(ep: set<Ep>, watched: EvSet)
    requires Reports(ep, watched)
    ensures ToCustom(ep, watched) <= watched
  {
  }

  /** All events that were asked for come back when all of them happen, and arming is always one-shot. */
  lemma MasksRoundTrip(watched: EvSet)
    ensures ToCustom(ToEp(watched), watched) == watched * {EV_READ, EV_WRITE, EV_ERR} && ONESHOT in ToEp(watched)
  {
  }

  /** A report reaches a handler without any event, so that no callback runs and the descriptor stays disarmed,
      exactly if nobody reads and there is a hangup alone, or an error or hangup and nobody writes either. */
  lemma ReportWithoutEvent(ep: set<Ep>, watched: EvSet)
    requires Reports(ep, watched)
    ensures ToCustom(ep, watched) == {} <==>
            EV_READ !in watched && ep <= {ERR, HUP} && (EV_WRITE !in watched || ERR !in ep)
  {
    assert ToCustom(ep, watched) == {} <==> EV_READ !in ToCustom(ep, watched) && EV_WRITE !in ToCustom(ep, watched) && EV_ERR !in ToCustom(ep, watched);
    assert ERR in ep || HUP in ep || IN in ep || OUT in ep || PRI in ep;
  }

  /** As when what is written to is closed at the other end, and nothing else is asked for. */
  lemma HangupOfWriter()
    ensures Reports({HUP}, {EV_WRITE}) && ToCustom({HUP}, {EV_WRITE}) == {}
  {
  }
}
