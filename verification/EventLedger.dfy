/** Handler runs one by one: each requeues its item or frees it, once. */
module EventLedger {
  import opened EventModel
  import opened EventPlaces

  /** Runs are numbered as they begin: which one each handler is in, and which have requeued their item and
      which have freed it, as often as they did. */
  datatype Ledger = Ledger(current: map<Actor, nat>, requeued: multiset<nat>, freed: multiset<nat>)

  function Empty(): Ledger {
    Ledger(map[], multiset{}, multiset{})
  }

  /** What a step adds. */
  ghost function Entered(l: Ledger, s: State, step: Step): Ledger {
    if step.Begin? then l.(current := l.current[step.h := s.store.runs])
    else if step.Proceed? && step.h in s.handlers && step.h in l.current then
      if s.handlers[step.h].phase.Requeueing? then l.(requeued := l.requeued + multiset{l.current[step.h]})
      else if s.handlers[step.h].phase.Freeing? then l.(freed := l.freed + multiset{l.current[step.h]})
      else l
    else l
  }

  /** The run `r` is under way: its handler still has its item. */
  ghost predicate Open(l: Ledger, handlers: map<Actor, Handler>, r: nat) {
    exists h :: Owns(handlers, h) && h in l.current && l.current[h] == r
  }

  ghost predicate EachOnce(l: Ledger, s: State) {
    && (forall h :: Owns(s.handlers, h) ==> h in l.current && l.current[h] < s.store.runs)
    && (forall g, h :: Owns(s.handlers, g) && Owns(s.handlers, h) && g != h ==> l.current[g] != l.current[h])
    && (forall r: nat :: l.requeued[r] + l.freed[r] + (if Open(l, s.handlers, r) then 1 else 0) == if r < s.store.runs then 1 else 0)
  }

  lemma SameRuns(l: Ledger, s: State, t: State)
    requires EachOnce(l, s) && t.store.runs == s.store.runs
    requires forall h :: Owns(t.handlers, h) <==> Owns(s.handlers, h)
    ensures EachOnce(l, t)
  {
    forall r: nat ensures Open(l, t.handlers, r) <==> Open(l, s.handlers, r) {
      if h :| Owns(t.handlers, h) && h in l.current && l.current[h] == r { assert Owns(s.handlers, h); }
      if h :| Owns(s.handlers, h) && h in l.current && l.current[h] == r { assert Owns(t.handlers, h); }
    }
  }

  lemma RunBegins(l: Ledger, s: State, h: Actor)
    requires EachOnce(l, s) && s.store.jobs != [] && h !in s.handlers
    ensures EachOnce(Entered(l, s, Begin(h)), Begun(s, h))
  {
    var m, t, n := Entered(l, s, Begin(h)), Begun(s, h), s.store.runs;
    forall g ensures Owns(t.handlers, g) <==> g == h || Owns(s.handlers, g) {}
    assert t.store.runs == n + 1;
    hide Begun, Owns;
    forall r: nat ensures Open(m, t.handlers, r) <==> r == n || Open(l, s.handlers, r) {
      if r == n { assert Owns(t.handlers, h) && m.current[h] == r; }
      if g :| Owns(t.handlers, g) && g in m.current && m.current[g] == r {
        if g != h { assert Owns(s.handlers, g) && l.current[g] == r; }
      }
      if g :| Owns(s.handlers, g) && g in l.current && l.current[g] == r { assert Owns(t.handlers, g) && m.current[g] == r; }
    }
    assert !Open(l, s.handlers, n);
  }

  lemma RunEnds(l: Ledger, s: State, t: State, h: Actor, m: Ledger)
    requires EachOnce(l, s) && Owns(s.handlers, h) && t.store.runs == s.store.runs
    requires forall g :: Owns(t.handlers, g) <==> g != h && Owns(s.handlers, g)
    requires m == l.(requeued := l.requeued + multiset{l.current[h]}) || m == l.(freed := l.freed + multiset{l.current[h]})
    ensures EachOnce(m, t)
  {
    var n := l.current[h];
    assert Open(l, s.handlers, n);
    forall r: nat ensures Open(m, t.handlers, r) <==> r != n && Open(l, s.handlers, r) {
      if g :| Owns(t.handlers, g) && g in m.current && m.current[g] == r { assert Owns(s.handlers, g) && l.current[g] == r; }
      if g :| Owns(s.handlers, g) && g in l.current && l.current[g] == r && r != n { assert Owns(t.handlers, g); }
    }
    forall r: nat ensures m.requeued[r] + m.freed[r] == l.requeued[r] + l.freed[r] + if r == n then 1 else 0 {}
  }

  lemma ProceedEnters(l: Ledger, s: State, h: Actor, ok: bool)
    requires Shape(s) && EachOnce(l, s) && Enabled(s, Proceed(h, ok))
    ensures EachOnce(Entered(l, s, Proceed(h, ok)), ProceedStep(s, h, ok))
  {
    var t, phase := ProceedStep(s, h, ok), s.handlers[h].phase;
    if phase.Requeueing? || phase.Freeing? {
      assert Owns(s.handlers, h);
      forall g ensures Owns(t.handlers, g) <==> g != h && Owns(s.handlers, g) {}
      assert t.store.runs == s.store.runs;
      hide EachOnce, ProceedStep, Owns;
      RunEnds(l, s, t, h, Entered(l, s, Proceed(h, ok)));
    } else {
      forall g ensures Owns(t.handlers, g) <==> Owns(s.handlers, g) {}
      assert t.store.runs == s.store.runs;
      hide EachOnce, ProceedStep, Owns;
      SameRuns(l, s, t);
    }
  }

  lemma AdvanceEnters(l: Ledger, s: State)
    requires Shape(s) && EachOnce(l, s) && Enabled(s, Advance)
    ensures EachOnce(l, LoopStep(s))
  {
    assert LoopStep(s).handlers == s.handlers && LoopStep(s).store.runs == s.store.runs;
    hide LoopStep, EachOnce;
    SameRuns(l, s, LoopStep(s));
  }

  lemma StepEnters(l: Ledger, s: State, step: Step)
    requires Shape(s) && EachOnce(l, s) && Enabled(s, step)
    ensures EachOnce(Entered(l, s, step), Apply(s, step))
  {
    hide EachOnce, LoopStep, ProceedStep, Begun;
    match step
    case Advance => AdvanceEnters(l, s);
    case Begin(h) => RunBegins(l, s, h);
    case Proceed(h, ok) => ProceedEnters(l, s, h, ok);
    case Report(_, _) => SameRuns(l, s, Apply(s, step));
    case Interrupted => SameRuns(l, s, Apply(s, step));
    case Error => SameRuns(l, s, Apply(s, step));
    case Return(h, outcome) => SameRuns(l, s, Apply(s, step));
    case Finish(h) => SameRuns(l, s, Apply(s, step));
    case Add(_, _, _) => SameRuns(l, s, Apply(s, step));
    case Post(_, item) => SameRuns(l, s, Apply(s, step));
    case Stop(_) => SameRuns(l, s, Apply(s, step));
    case Continue(_, _) => SameRuns(l, s, Apply(s, step));
  }
}
