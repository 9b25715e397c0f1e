/** Where the loop thread goes: the exit test decides by what there is to do, a stopped loop ends, and every
    report becomes a ready item.
  */
module EventProgress {
  import opened EventModel
  import opened EventPlaces
  import opened EventTokens
  import opened EventFlow
  import opened EventRuns
  import EventOutcomes

  /** `n` steps of the loop thread. */
  function Advances(n: nat): (steps: seq<Step>)
    ensures |steps| == n
  {
    seq(n, _ => Advance)
  }

  lemma OneAdvance(s: State, n: nat, t: State)
    requires Shape(s) && Enabled(s, Advance) && Leads(Apply(s, Advance), Advances(n), t)
    ensures Leads(s, Advances(n + 1), t)
  {
    assert [Advance] + Advances(n) == Advances(n + 1);
    hide Shape, Enabled, Apply, Leads;
    OneStep(s, Advance, Advances(n), t);
  }

  lemma NoStep(s: State)
    ensures Leads(s, [], s) && Advances(0) == []
  {
  }

  // ---------- the exit test ----------

  /** The loop has a reason to go on. */
  ghost predicate WorkLeft(s: State) {
    || s.store.jobs != [] || s.handlers != map[] || (exists p :: 0 <= p < |s.store.ready| && s.store.ready[p] != [])
    || s.net.watch != map[] || s.config.noExit
  }

  /** Where the test leads. */
  ghost function Verdict(s: State): Loop {
    if !WorkLeft(s) then LeftQuiet
    else if !s.net.running then LeftOff
    else if s.config.noBlock || exists p :: 0 <= p < |s.store.ready| && s.store.ready[p] != [] then Polling
    else Blocked
  }

  /** The test takes at most four steps, and one more to choose how to call epoll_wait.  It leaves the loop if
      there is nothing to do, or running is off; otherwise it leads to epoll_wait, without a timeout of
      zero if and only if it may block and no item is ready. */
  lemma ExitTest(s: State) returns (n: nat, t: State)
    requires Shape(s) && s.loop.ReadFirst?
    ensures n <= (if s.net.running then 5 else 4) && Leads(s, Advances(n), t)
    ensures t == s.(loop := Verdict(s), disturbed := t.disturbed)
  {
    var u := Apply(s, Advance);
    assert Shape(u) && u == s.(loop := u.loop, disturbed := u.disturbed);
    assert u.loop.ReadRunning? || u.loop.ReadSecond?;
    assert u.loop.ReadRunning? ==> WorkLeft(s);
    hide Leads;
    if u.loop.ReadRunning? {
      n, t := LastRead(u);
    } else {
      n, t := OtherReads(u);
    }
    OneAdvance(s, n, t);
    n := n + 1;
  }

  lemma OtherReads(s: State) returns (n: nat, t: State)
    requires Shape(s) && s.loop.ReadSecond?
    requires if s.config.poolFirst then !PoolBusy(s) else AllEmpty(s.store.ready)
    ensures n <= (if s.net.running then 4 else 3) && Leads(s, Advances(n), t) && t == s.(loop := Verdict(s))
  {
    var u := Apply(s, Advance);
    assert Shape(u) && u == s.(loop := u.loop);
    hide Leads;
    if u.loop.ReadRunning? {
      n, t := LastRead(u);
    } else {
      var v := Apply(u, Advance);
      assert Shape(v) && v == s.(loop := v.loop);
      if v.loop.ReadRunning? {
        n, t := LastRead(v);
      } else {
        n, t := 0, v;
        NoStep(v);
      }
      OneAdvance(u, n, t);
      n := n + 1;
    }
    OneAdvance(s, n, t);
    n := n + 1;
  }

  lemma LastRead(s: State) returns (n: nat, t: State)
    requires Shape(s) && s.loop.ReadRunning? && WorkLeft(s)
    ensures n <= (if s.net.running then 2 else 1) && Leads(s, Advances(n), t) && t == s.(loop := Verdict(s))
  {
    var u := Apply(s, Advance);
    assert Shape(u) && u == s.(loop := u.loop);
    hide Leads;
    if s.net.running {
      t := Apply(u, Advance);
      n := 2;
      NoStep(t);
      OneAdvance(u, 0, t);
      OneAdvance(s, 1, t);
    } else {
      t := u;
      n := 1;
      NoStep(t);
      OneAdvance(s, 0, t);
    }
  }

  /** A signal that interrupts epoll_wait only makes the loop test again. */
  lemma InterruptedTestsAgain(s: State) returns (n: nat, t: State)
    requires Shape(s) && Enabled(s, Interrupted)
    ensures n <= 5 && Leads(s, [Interrupted] + Advances(n), t)
    ensures t == s.(loop := Verdict(s), disturbed := t.disturbed)
  {
    var u := Apply(s, Interrupted);
    assert u == s.(loop := ReadFirst) && Shape(u);
    hide Apply, Shape, Enabled, Leads, Advances;
    n, t := ExitTest(u);
    OneStep(s, Interrupted, Advances(n), t);
  }

  // ---------- a stopped loop ----------

  /** The loop ends with an error if and only if epoll_wait has failed with one. */
  lemma {:induction false} FailsExactly(s: State, steps: seq<Step>)
    requires Allowed(s, steps)
    ensures Run(s, steps).loop.Failed? <==> s.loop.Failed? || exists i :: 0 <= i < |steps| && steps[i].Error?
    decreases |steps|
  {
    if steps != [] {
      FailedKept(s, steps[0]);
      FailsExactly(Apply(s, steps[0]), steps[1..]);
      assert steps == [steps[0]] + steps[1..];
      hide Shape, Enabled, Apply;
    }
  }

  lemma FailedKept(s: State, step: Step)
    requires Shape(s) && Enabled(s, step)
    ensures Apply(s, step).loop.Failed? <==> s.loop.Failed? || step.Error?
  {
    hide LoopStep, ProceedStep, InRange, Fresh, Unclaimed, Reportable, Created;
    match step {
      case Advance => AdvanceKeepsRunning(s);
      case Proceed(h, ok) => EventOutcomes.OnlyHandler(s, h, ok);
      case _ =>
    }
  }

  /** Running is on as long as nobody has stopped the loop, and epoll_wait has not failed. */
  lemma {:induction false} RunningUntilStopped(s: State, steps: seq<Step>)
    requires Allowed(s, steps)
    ensures Run(s, steps).net.running <==> s.net.running && forall i :: 0 <= i < |steps| ==> !steps[i].Stop? && !steps[i].Error?
    decreases |steps|
  {
    if steps != [] {
      var t := Apply(s, steps[0]);
      RunningKept(s, steps[0]);
      RunningUntilStopped(t, steps[1..]);
      assert steps == [steps[0]] + steps[1..];
      hide Shape, Enabled, Apply;
    }
  }

  lemma RunningKept(s: State, step: Step)
    requires Shape(s) && Enabled(s, step)
    ensures Apply(s, step).net.running <==> s.net.running && !step.Stop? && !step.Error?
  {
    hide LoopStep, ProceedStep, InRange, Fresh, Unclaimed, Reportable, Created;
    match step {
      case Advance => AdvanceKeepsRunning(s);
      case Proceed(h, ok) => EventOutcomes.OnlyHandler(s, h, ok);
      case _ =>
    }
  }

  lemma AdvanceKeepsRunning(s: State)
    requires Shape(s) && Enabled(s, Advance)
    ensures Apply(s, Advance).net.running == s.net.running && !Apply(s, Advance).loop.Failed?
    ensures !s.net.running ==> !NewRound(s, Advance) && (!Waits(s.loop) ==> !Waits(Apply(s, Advance).loop))
  {
    hide Created;
  }

  /** The loop is in epoll_wait, or about to. */
  predicate Waits(loop: Loop) {
    loop.Choose? || loop.Blocked? || loop.Polling?
  }

  /** The step completes the exit test, in favour of another round. */
  ghost predicate NewRound(s: State, step: Step)
    requires Shape(s) && Enabled(s, step)
  {
    !s.loop.Choose? && Apply(s, step).loop.Choose?
  }

  lemma StaysOut(s: State, step: Step)
    requires Shape(s) && Enabled(s, step) && !s.net.running
    ensures !NewRound(s, step) && (!Waits(s.loop) ==> !Waits(Apply(s, step).loop))
  {
    hide LoopStep, ProceedStep, InRange, Fresh, Unclaimed, Reportable, Created;
    match step {
      case Advance => AdvanceKeepsRunning(s);
      case Proceed(h, ok) => EventOutcomes.OnlyHandler(s, h, ok);
      case _ =>
    }
  }

  /** How many rounds begin. */
  ghost function NewRounds(s: State, steps: seq<Step>): nat
    requires Allowed(s, steps)
    decreases |steps|
  {
    if steps == [] then 0 else (if NewRound(s, steps[0]) then 1 else 0) + NewRounds(Apply(s, steps[0]), steps[1..])
  }

  lemma {:induction false} OutForever(s: State, steps: seq<Step>)
    requires Allowed(s, steps) && !s.net.running
    ensures NewRounds(s, steps) == 0 && (!Waits(s.loop) ==> !Waits(Run(s, steps).loop))
    decreases |steps|
  {
    if steps != [] {
      StaysOut(s, steps[0]);
      RunningKept(s, steps[0]);
      hide Shape, Enabled, Apply, Waits, NewRound;
      OutForever(Apply(s, steps[0]), steps[1..]);
    }
  }

  /** In every run, whatever the threads do: running is off if and only if the loop has been stopped or
      epoll_wait has failed; then it stays off, the exit test never leads to another round, and unless the loop
      is already at epoll_wait it never gets there again. */
  lemma StopIsFinal(config: Config, steps: seq<Step>, more: seq<Step>)
    requires Allowed(Initial(config), steps) && Allowed(Run(Initial(config), steps), more)
    ensures var s, t := Run(Initial(config), steps), Run(Run(Initial(config), steps), more);
            && (!s.net.running <==> exists i :: 0 <= i < |steps| && (steps[i].Stop? || steps[i].Error?))
            && (!s.net.running ==> !t.net.running && NewRounds(s, more) == 0 && (!Waits(s.loop) ==> !Waits(t.loop)))
  {
    RunningUntilStopped(Initial(config), steps);
    var s := Run(Initial(config), steps);
    RunningUntilStopped(s, more);
    if !s.net.running { OutForever(s, more); }
  }

  /** How far the loop thread is from leaving. */
  function Distance(s: State): nat {
    match s.loop
    case Choose => 14
    case Blocked => if s.net.pipe == 0 then 13 else 12
    case Polling => 12
    case Clearing => 11
    case Activating => 10
    case Counting => 9
    case Highest => 8
    case Dispatching(_) => 7
    case ClearingAfter => 6
    case ReadFirst => 5
    case ReadSecond => 4
    case ReadWatch => 3
    case ReadRunning => 2
    case _ => 0
  }

  function Repeats(s: State): nat {
    if s.loop.Activating? then |s.net.delivered|
    else if s.loop.Dispatching? && s.loop.priority < |s.store.ready| then |s.store.ready[s.loop.priority]| else 0
  }

  /** The loop thread goes on, epoll_wait reports no descriptor, or a call returns. */
  predicate WithoutEvents(step: Step) {
    step.Advance? || (step.Report? && step.fds == []) || step.Continue?
  }

  /** What the loop thread does next: a blocked one returns when its pipe is readable, which a call that is
      stopping the loop makes it. */
  predicate Leaving(s: State, step: Step) {
    if s.loop.Blocked? && s.net.pipe == 0 then step.Continue? && step.a in s.calls && s.calls[step.a].Stopped?
    else if s.loop.Blocked? then step == Report([], true)
    else if s.loop.Polling? then step == Report([], false)
    else step.Advance?
  }

  lemma NextStep(s: State) returns (step: Step)
    requires Inv(s) && !s.net.running && Distance(s) > 0
    ensures Enabled(s, step) && Leaving(s, step) && WithoutEvents(step)
  {
    hide Places, Tokens, Established, Balanced;
    if s.loop.Blocked? && s.net.pipe == 0 {
      var a :| a in s.calls && s.calls[a].Stopped?;
      step := Continue(a, true);
    } else if s.loop.Blocked? {
      step := Report([], true);
    } else if s.loop.Polling? {
      step := Report([], false);
    } else {
      step := Advance;
    }
  }

  ghost predicate Closer(s: State, t: State) {
    && !t.net.running && !t.loop.Failed?
    && (Distance(t) < Distance(s) || (Distance(t) == Distance(s) && Repeats(t) < Repeats(s)))
  }

  lemma AdvanceCloser(s: State)
    requires Shape(s) && Enabled(s, Advance) && !s.net.running
    ensures Closer(s, Apply(s, Advance))
  {
    hide Created, AllEmpty;
  }

  lemma ComesCloser(s: State, step: Step)
    requires Shape(s) && Enabled(s, step) && Leaving(s, step) && !s.net.running && Distance(s) > 0
    ensures Closer(s, Apply(s, step))
  {
    hide LoopStep;
    if step.Advance? { AdvanceCloser(s); }
  }

  /** From every state, a stopped loop can leave, without any event and without a spurious wake-up: if it is
      blocked, then its pipe is readable or the thread that stopped it is about to write to it. */
  lemma {:induction false} StoppedLoopLeaves(s: State) returns (steps: seq<Step>, t: State)
    requires Inv(s) && !s.net.running && !s.loop.Failed?
    ensures Leads(s, steps, t) && (t.loop.LeftOff? || t.loop.LeftQuiet?)
    ensures forall i :: 0 <= i < |steps| ==> WithoutEvents(steps[i])
    decreases Distance(s), Repeats(s)
  {
    hide Inv, Shape, Enabled, Apply, Repeats, Leads, Leaving, Advances;
    if Distance(s) == 0 {
      NoStep(s);
      steps, t := [], s;
    } else {
      hide Distance;
      var step := NextStep(s);
      ShapeOf(s);
      ComesCloser(s, step);
      StepKeeps(s, step);
      var rest;
      rest, t := StoppedLoopLeaves(Apply(s, step));
      OneStep(s, step, rest, t);
      steps := [step] + rest;
    }
  }

  lemma ShapeOf(s: State)
    requires Inv(s)
    ensures Shape(s)
  {
  }

  // ---------- make_active ----------

  /** The numbers, from `c` on, of those of `fds` that have the priority `p`. */
  function OfPriority(watch: map<Fd, nat>, fds: seq<Fd>, c: Id, p: nat): seq<Id> {
    if fds == [] then []
    else (if fds[0] in watch && watch[fds[0]] == p then [c] else []) + OfPriority(watch, fds[1..], c + 1, p)
  }

  /** Each of `fds` has got a ready item, with its priority, at the end of the list of that priority. */
  ghost predicate AllActive(s: Store, t: Store, watch: map<Fd, nat>, fds: seq<Fd>) {
    && t.created == s.created + |fds| && t.jobs == s.jobs && |t.ready| == |s.ready|
    && (forall i :: i in t.items <==> i in s.items || s.created <= i < s.created + |fds|)
    && (forall i <- s.items :: i in t.items && t.items[i] == s.items[i])
    && (forall k :: 0 <= k < |fds| ==> fds[k] in watch && t.items[s.created + k] == Item(fds[k], false, watch[fds[k]]))
    && (forall p :: 0 <= p < |s.ready| ==> t.ready[p] == s.ready[p] + OfPriority(watch, fds, s.created, p))
  }

  lemma OneActive(s: Store, watch: map<Fd, nat>, fd: Fd)
    requires fd in watch && watch[fd] < |s.ready| && forall i <- s.items :: i < s.created
    ensures AllActive(s, Created(s, Item(fd, false, watch[fd])), watch, [fd])
  {
    assert [fd][1..] == [];
    assert forall p :: OfPriority(watch, [fd], s.created, p) == if watch[fd] == p then [s.created] else [];
  }

  lemma NoneActive(s: Store, watch: map<Fd, nat>)
    ensures AllActive(s, s, watch, [])
  {
  }

  lemma FirstActive(s: State)
    requires Inv(s) && s.loop.Activating? && s.net.delivered != []
    ensures var t, fd := Apply(s, Advance), s.net.delivered[0];
            && Enabled(s, Advance) && AllActive(s.store, t.store, s.net.watch, [fd])
            && t == s.(net := s.net.(delivered := s.net.delivered[1..]), store := t.store)
  {
    hide ReadyListed, JobsListed, HandlersPlaced, AllActive, Wakeable, Established, Balanced, ItemsRight, OutsidersRight, CallersRight, ArmingRight;
    OneActive(s.store, s.net.watch, s.net.delivered[0]);
  }

  lemma Together(s: Store, u: Store, t: Store, watch: map<Fd, nat>, fds: seq<Fd>)
    requires fds != [] && AllActive(s, u, watch, [fds[0]]) && AllActive(u, t, watch, fds[1..])
    ensures AllActive(s, t, watch, fds)
  {
    var fd, rest := fds[0], fds[1..];
    assert [fd][1..] == [] && [fd][0] in watch;
    forall p | 0 <= p < |s.ready| ensures t.ready[p] == s.ready[p] + OfPriority(watch, fds, s.created, p) {
      assert fd in watch && OfPriority(watch, [fd], s.created, p) == if watch[fd] == p then [s.created] else [];
      assert t.ready[p] == s.ready[p] + OfPriority(watch, [fd], s.created, p) + OfPriority(watch, rest, u.created, p);
    }
    forall k | 0 <= k < |fds| ensures fds[k] in watch && t.items[s.created + k] == Item(fds[k], false, watch[fds[k]]) {
      if k == 0 {
        assert u.items[s.created + 0] == Item([fd][0], false, watch[[fd][0]]);
        assert s.created in u.items;
      } else {
        assert fds[k] == rest[k - 1];
        assert t.items[u.created + (k - 1)] == Item(rest[k - 1], false, watch[rest[k - 1]]);
      }
    }
  }

  /** `make_active`: every reported descriptor becomes a ready item of the priority that it was added with, in
      the order of the report, and nothing else changes. */
  lemma {:induction false} MakeActive(s: State) returns (t: State)
    requires Inv(s) && s.loop.Activating?
    ensures Leads(s, Advances(|s.net.delivered|), t)
    ensures AllActive(s.store, t.store, s.net.watch, s.net.delivered)
    ensures t == s.(net := s.net.(delivered := []), store := t.store)
    decreases |s.net.delivered|
  {
    hide Inv, Shape, Enabled, Apply, Leads, AllActive, Advances;
    if s.net.delivered == [] {
      NoStep(s);
      NoneActive(s.store, s.net.watch);
      t := s;
    } else {
      ShapeOf(s);
      FirstActive(s);
      StepKeeps(s, Advance);
      var u := Apply(s, Advance);
      t := MakeActive(u);
      Together(s.store, u.store, t.store, s.net.watch, s.net.delivered);
      OneAdvance(s, |u.net.delivered|, t);
    }
  }

  // ---------- one round ----------

  lemma AdvanceOn(s: State, m: nat, t: State, n: nat, u: State)
    requires Leads(s, Advances(m), t) && Leads(t, Advances(n), u)
    ensures Leads(s, Advances(m + n), u)
  {
    LeadsOn(s, Advances(m), t, Advances(n), u);
    assert Advances(m) + Advances(n) == Advances(m + n);
  }

  lemma DispatchOne(s: State)
    requires Inv(s) && s.loop.Dispatching?
    ensures Enabled(s, Advance) && s.loop.priority < |s.store.ready|
    ensures var t, q := Apply(s, Advance), s.store.ready[s.loop.priority];
            if q == [] then t == s.(loop := ClearingAfter)
            else t == s.(store := s.store.(ready := s.store.ready[s.loop.priority := q[1..]], jobs := s.store.jobs + [q[0]],
                                           place := t.store.place))
  {
    hide Places, Tokens, Wakeable, Established, Balanced;
  }

  /** What dispatching a list makes of the ready lists and the job queue. */
  ghost predicate ListDispatched(s: Store, t: Store, p: nat) {
    p < |s.ready| && t == s.(ready := s.ready[p := []], jobs := s.jobs + s.ready[p], place := t.place)
  }

  lemma {:induction false} DispatchAll(s: State) returns (t: State)
    requires Inv(s) && s.loop.Dispatching? && s.loop.priority < |s.store.ready|
    ensures Leads(s, Advances(|s.store.ready[s.loop.priority]| + 1), t)
    ensures ListDispatched(s.store, t.store, s.loop.priority) && t == s.(loop := ClearingAfter, store := t.store)
    decreases |s.store.ready[s.loop.priority]|
  {
    hide Inv, Shape, Enabled, Apply, Leads, Advances;
    DispatchOne(s);
    ShapeOf(s);
    var p := s.loop.priority;
    var u := Apply(s, Advance);
    if s.store.ready[p] == [] {
      t := u;
      assert s.store.ready[p := []] == s.store.ready && s.store.jobs + [] == s.store.jobs;
      NoStep(t);
      OneAdvance(s, 0, t);
    } else {
      StepKeeps(s, Advance);
      t := DispatchAll(u);
      assert s.store.ready[p] == [s.store.ready[p][0]] + s.store.ready[p][1..];
      assert u.store.ready[p := []] == s.store.ready[p := []];
      OneAdvance(s, |u.store.ready[p]| + 1, t);
    }
  }

  /** The first list that is not empty has been dispatched, if there is one. */
  ghost predicate FirstDispatched(s: Store, t: Store) {
    if forall p :: 0 <= p < |s.ready| ==> s.ready[p] == [] then t == s
    else exists p: nat :: p < |s.ready| && s.ready[p] != [] && (forall q :: 0 <= q < p ==> s.ready[q] == []) && ListDispatched(s, t, p)
  }

  lemma LeadsKeeps(s: State, steps: seq<Step>, t: State)
    requires Inv(s) && Leads(s, steps, t)
    ensures Inv(t)
  {
    RunKeeps(s, steps);
  }

  lemma DispatchAndClear(s: State) returns (n: nat, t: State)
    requires Inv(s) && s.loop.Dispatching? && s.loop.priority < |s.store.ready|
    ensures Leads(s, Advances(n), t) && ListDispatched(s.store, t.store, s.loop.priority)
    ensures t == s.(loop := ReadFirst, store := t.store, net := s.net.(pipe := 0))
  {
    hide Inv, Shape, Enabled, Apply, Leads, Advances, ListDispatched;
    var u := DispatchAll(s);
    n := |s.store.ready[s.loop.priority]| + 1;
    LeadsKeeps(s, Advances(n), u);
    ShapeOf(u);
    ClearStep(u);
    t := Apply(u, Advance);
    NoStep(t);
    OneAdvance(u, 0, t);
    AdvanceOn(s, n, u, 1, t);
    n := n + 1;
  }

  lemma Dispatches(s: State) returns (n: nat, t: State)
    requires Inv(s) && s.loop.Counting?
    ensures Leads(s, Advances(n), t) && FirstDispatched(s.store, t.store)
    ensures t == s.(loop := ReadFirst, store := t.store, net := s.net.(pipe := if AllEmpty(s.store.ready) then s.net.pipe else 0))
  {
    hide Inv, Shape, Enabled, Apply, Leads, Advances, ListDispatched;
    ShapeOf(s);
    CountStep(s);
    StepKeeps(s, Advance);
    var u := Apply(s, Advance);
    if AllEmpty(s.store.ready) {
      n, t := 0, u;
      NoStep(t);
    } else {
      StepKeeps(u, Advance);
      var v := Apply(u, Advance);
      n, t := DispatchAndClear(v);
      OneAdvance(u, n, t);
      n := n + 1;
    }
    OneAdvance(s, n, t);
    n := n + 1;
  }

  /** One round of the loop: every descriptor that epoll_wait reports becomes a ready item, then the items of
      the highest priority that there are go to the pool, all of them and in order; the pipe is emptied if it was
      reported, or if items were dispatched; and the loop is back at its test. */
  lemma OneRound(s: State, fds: seq<Fd>, sawPipe: bool) returns (n: nat, active: Store, t: State)
    requires Inv(s) && Enabled(s, Report(fds, sawPipe))
    ensures Leads(s, [Report(fds, sawPipe)] + Advances(n), t)
    ensures AllActive(s.store, active, s.net.watch, fds) && FirstDispatched(active, t.store)
    ensures t == s.(loop := ReadFirst, store := t.store,
                    net := Net(s.net.running, if sawPipe || !AllEmpty(active.ready) then 0 else s.net.pipe, s.net.watch,
                               s.net.armed - (set fd | fd in fds), []))
  {
    hide Inv, Shape, Enabled, Apply, Leads, Advances, AllActive, FirstDispatched;
    ShapeOf(s);
    StepKeeps(s, Report(fds, sawPipe));
    ReportStep(s, fds, sawPipe);
    var u := Apply(s, Report(fds, sawPipe));
    n, active, t := RestOfRound(u);
    OneStep(s, Report(fds, sawPipe), Advances(n), t);
  }

  lemma ReportStep(s: State, fds: seq<Fd>, sawPipe: bool)
    requires Shape(s) && Enabled(s, Report(fds, sawPipe))
    ensures Apply(s, Report(fds, sawPipe)) ==
            s.(loop := if sawPipe then Clearing else Activating,
               net := s.net.(delivered := fds, armed := s.net.armed - (set fd | fd in fds)))
  {
  }

  lemma RestOfRound(s: State) returns (n: nat, active: Store, t: State)
    requires Inv(s) && (s.loop.Clearing? || s.loop.Activating?)
    ensures Leads(s, Advances(n), t)
    ensures AllActive(s.store, active, s.net.watch, s.net.delivered) && FirstDispatched(active, t.store)
    ensures t == s.(loop := ReadFirst, store := t.store,
                    net := s.net.(delivered := [], pipe := if s.loop.Clearing? || !AllEmpty(active.ready) then 0 else s.net.pipe))
  {
    hide Inv, Shape, Enabled, Apply, Leads, Advances, AllActive, FirstDispatched, AllEmpty;
    if s.loop.Clearing? {
      ShapeOf(s);
      ClearFirst(s);
      StepKeeps(s, Advance);
      n, active, t := AfterClearing(Apply(s, Advance));
      OneAdvance(s, n, t);
      n := n + 1;
    } else {
      n, active, t := AfterClearing(s);
    }
  }

  lemma ClearFirst(s: State)
    requires Shape(s) && s.loop.Clearing?
    ensures Enabled(s, Advance) && Apply(s, Advance) == s.(loop := Activating, net := s.net.(pipe := 0))
  {
  }

  lemma AfterClearing(s: State) returns (n: nat, active: Store, t: State)
    requires Inv(s) && s.loop.Activating?
    ensures Leads(s, Advances(n), t)
    ensures AllActive(s.store, active, s.net.watch, s.net.delivered) && FirstDispatched(active, t.store)
    ensures t == s.(loop := ReadFirst, store := t.store,
                    net := s.net.(delivered := [], pipe := if !AllEmpty(active.ready) then 0 else s.net.pipe))
  {
    hide Inv, Shape, Enabled, Apply, Leads, Advances, AllActive, FirstDispatched, AllEmpty;
    var u := MakeActive(s);
    var m := |s.net.delivered|;
    active := u.store;
    LeadsKeeps(s, Advances(m), u);
    ShapeOf(u);
    AllActivated(u);
    StepKeeps(u, Advance);
    n, t := Dispatches(Apply(u, Advance));
    OneAdvance(u, n, t);
    AdvanceOn(s, m, u, n + 1, t);
    n := m + n + 1;
  }

  lemma AllActivated(s: State)
    requires Shape(s) && s.loop.Activating? && s.net.delivered == []
    ensures Enabled(s, Advance) && Apply(s, Advance) == s.(loop := Counting)
  {
  }

  lemma ClearStep(s: State)
    requires s.loop.ClearingAfter? && Shape(s)
    ensures Enabled(s, Advance) && Apply(s, Advance) == s.(loop := ReadFirst, net := s.net.(pipe := 0))
  {
  }

  lemma CountStep(s: State)
    requires Inv(s) && s.loop.Counting?
    ensures Enabled(s, Advance)
    ensures var u := Apply(s, Advance);
            if AllEmpty(s.store.ready) then u == s.(loop := ReadFirst)
            else
              && u == s.(loop := Highest) && Shape(u) && Enabled(u, Advance)
              && var v := Apply(u, Advance);
                 v.loop.Dispatching? && v.loop.priority < |s.store.ready| && v == s.(loop := v.loop)
                 && s.store.ready[v.loop.priority] != [] && forall q :: 0 <= q < v.loop.priority ==> s.store.ready[q] == []
  {
    hide Places, Tokens, Wakeable, Established, Balanced;
  }
}
