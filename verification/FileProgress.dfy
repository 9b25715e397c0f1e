/** Over all runs of `on_read`, nothing goes unnoticed: what is read, the end of the file, and errors. */
module FileProgress {
  import opened Basics
  import opened RingBuffers
  import opened Streams
  import opened FileReads

  function NewReader(size: nat): Reader {
    Reader(size, [], false, 0, false)
  }

  /** What has happened in the first `i` invocations. */
  ghost function Log(size: nat, vs: seq<Invocation>, i: nat): seq<Event>
    requires Proper(vs) && i <= |vs|
  {
    Run(NewReader(size), vs[..i]).1
  }

  /** The next invocation takes place. */
  ghost predicate GoesOn(log: seq<Event>) {
    forall i :: 0 <= i < |log| ==> !Last(log[i])
  }

  /** It calls read(2): there is room in the buffer, and neither the end nor an error has been reported. */
  ghost predicate CanRead(size: nat, log: seq<Event>) {
    |AllRead(log)| < size + |FileReads.AllTaken(log)| && EndSeen !in log && forall e :: ErrorSeen(e) !in log
  }

  /** errno is EINTR after a call of read(2) that has delivered nothing. */
  predicate Interrupted(v: Invocation) {
    (v.read.EndOfFile? && v.stale == EINTR) || v.read == ReadFailed(EINTR)
  }

  lemma {:induction false} RunOneMore(r: Reader, vs: seq<Invocation>, v: Invocation)
    requires |r.unread| <= r.size && Proper(vs) && Possible(v.read)
    ensures Proper(vs + [v]) && |Run(r, vs).0.unread| <= Run(r, vs).0.size
    ensures var (s, log) := Run(r, vs);
            Run(r, vs + [v]) == if s.over then (s, log) else (Invoked(s, v).0, log + Invoked(s, v).1)
    decreases |vs|
  {
    assert forall i :: 0 <= i < |vs| ==> (vs + [v])[i] == vs[i];
    hide Invoked;
    if vs == [] {
      assert vs + [v] == [v] && [v][1..] == [];
      if !r.over {
        InvokedFits(r, v);
        var now := Invoked(r, v).1;
        assert now + [] == now && [] + now == now;
      }
    } else if !r.over {
      InvokedFits(r, vs[0]);
      var (s, now) := Invoked(r, vs[0]);
      RunOneMore(s, vs[1..], v);
      assert (vs + [v])[1..] == vs[1..] + [v];
      var (t, later) := Run(s, vs[1..]);
      Associative(now, later, Invoked(t, v).1);
    }
  }

  /** Where the first `i` invocations lead. */
  lemma LogIsRight(size: nat, vs: seq<Invocation>, i: nat) returns (r: Reader)
    requires 0 < size && Proper(vs) && i <= |vs|
    ensures Right(Log(size, vs, i), r) && r.size == size
    ensures i < |vs| ==> |r.unread| <= r.size && Log(size, vs, i + 1) == Log(size, vs, i) + if r.over then [] else Invoked(r, vs[i]).1
  {
    PrefixIsRight(size, vs, i);
    r := Run(NewReader(size), vs[..i]).0;
    if i < |vs| { LogGrows(size, vs, i); }
  }

  lemma PrefixIsRight(size: nat, vs: seq<Invocation>, i: nat)
    requires 0 < size && Proper(vs) && i <= |vs|
    ensures var r := Run(NewReader(size), vs[..i]).0; Right(Log(size, vs, i), r) && r.size == size
  {
    var first := vs[..i];
    hide Right, Invoked, Run;
    StartsRight(size);
    RunKeeps([], NewReader(size), first);
    assert [] + Log(size, vs, i) == Log(size, vs, i);
    SizeStays(NewReader(size), first);
  }

  lemma LogGrows(size: nat, vs: seq<Invocation>, i: nat)
    requires 0 < size && Proper(vs) && i < |vs|
    ensures var r := Run(NewReader(size), vs[..i]).0;
            |r.unread| <= r.size && Log(size, vs, i + 1) == Log(size, vs, i) + if r.over then [] else Invoked(r, vs[i]).1
  {
    hide Invoked, Run, Right;
    assert vs[..i + 1] == vs[..i] + [vs[i]];
    RunOneMore(NewReader(size), vs[..i], vs[i]);
    assert Log(size, vs, i) + [] == Log(size, vs, i);
  }

  lemma StartsRight(size: nat)
    requires 0 < size
    ensures Right([], NewReader(size))
  {
  }

  lemma {:induction false} SizeStays(r: Reader, vs: seq<Invocation>)
    requires |r.unread| <= r.size && Proper(vs)
    ensures Run(r, vs).0.size == r.size
    decreases |vs|
  {
    hide Invoked;
    if !r.over && vs != [] {
      InvokedFits(r, vs[0]);
      SizeStays(Invoked(r, vs[0]).0, vs[1..]);
    }
  }

  /** What the reader knows is what has happened. */
  lemma KnowsTheLog(log: seq<Event>, r: Reader)
    requires Right(log, r)
    ensures r.over <==> !GoesOn(log)
    ensures CanRead(r.size, log) <==> |r.unread| < r.size && !r.eof && r.err == 0
    ensures AllRead(log) == FileReads.AllTaken(log) + r.unread && (r.eof <==> EndSeen in log)
    ensures forall e :: ErrorSeen(e) in log <==> e == r.err != 0
  {
    hide AllFaithful, AllRead, FileReads.AllTaken;
    assert r.over ==> Last(log[|log| - 1]);
  }

  /** The bytes that an invocation reads. */
  ghost function DeliveredBy(size: nat, log: seq<Event>, v: Invocation): seq<Byte> {
    if CanRead(size, log) && v.read.Got?
    then v.read.bytes[..Min(|v.read.bytes|, size + |FileReads.AllTaken(log)| - |AllRead(log)|)] else []
  }

  /** What read(2) tells the reader. */
  function News(v: Invocation, free: nat): Event
    requires Possible(v.read)
  {
    match v.read
    case Got(bytes) => Arrived(bytes[..Min(|bytes|, free)])
    case EndOfFile => EndSeen
    case ReadFailed(errno) => ErrorSeen(errno)
  }

  lemma FetchedTells(r: Reader, v: Invocation)
    requires |r.unread| <= r.size && Possible(v.read)
    ensures var (s, arrived, interrupted) := Fetched(r, v);
            var can := |r.unread| < r.size && !r.eof && r.err == 0;
            && (interrupted <==> can && Interrupted(v))
            && arrived == if can && !Interrupted(v) then [News(v, r.size - |r.unread|)] else []
  {
  }

  lemma FetchIs(log: seq<Event>, r: Reader, v: Invocation)
    requires Right(log, r) && !r.over && Possible(v.read)
    ensures var (s, arrived, interrupted) := Fetched(r, v);
            var now := log + arrived;
            && Right(now, s) && !s.over && |arrived| <= 1
            && (interrupted <==> CanRead(r.size, log) && Interrupted(v)) && (interrupted ==> arrived == [])
            && (EndSeen in now <==> EndSeen in log || (CanRead(r.size, log) && v.read.EndOfFile? && v.stale != EINTR))
            && (forall e :: ErrorSeen(e) in now <==> ErrorSeen(e) in log || (CanRead(r.size, log) && v.read == ReadFailed(e) && e != EINTR))
            && AllRead(now) == AllRead(log) + DeliveredBy(r.size, log, v) && FileReads.AllTaken(now) == FileReads.AllTaken(log)
            && (!interrupted && s.unread == [] ==> s.eof || s.err != 0)
  {
    FetchedKeeps(log, r, v);
    KnowsTheLog(log, r);
    assert |r.unread| <= r.size;
    FetchedTells(r, v);
    hide Right, AllRead, FileReads.AllTaken, CanRead, Fetched;
    var (s, arrived, interrupted) := Fetched(r, v);
    if arrived == [] {
      assert log + arrived == log;
    } else {
      Last1(log, arrived[0]);
    }
  }

  lemma Last1(log: seq<Event>, e: Event)
    ensures AllRead(log + [e]) == AllRead(log) + if e.Arrived? then e.bytes else []
    ensures FileReads.AllTaken(log + [e]) == FileReads.AllTaken(log) + if e.Shown? && e.taken <= |e.bytes| then e.bytes[..e.taken] else []
  {
    assert (log + [e])[..|log|] == log;
  }

  /** What an invocation tells the callback that is not interrupted: an error, if there is one; what has been
      read and not been consumed; or, if that is nothing, the end. */
  ghost predicate Tells(now: seq<Event>, taken: nat, v: Invocation, told: Event)
    requires taken <= |AllRead(now)|
  {
    var unread := AllRead(now)[taken..];
    if exists e :: ErrorSeen(e) in now then told.Broke? && ErrorSeen(told.errno) in now
    else if unread == [] then told == Ended && EndSeen in now
    else if v.taken < 0 then told == Refused(unread)
    else told == Shown(unread, Min(v.taken, |unread|))
  }

  /** Each invocation: it is the last if it tells of an error or of the end, or if the callback refuses. */
  lemma InvocationIs(size: nat, vs: seq<Invocation>, i: nat)
    requires 0 < size && Proper(vs) && i < |vs|
    ensures var log, now, v := Log(size, vs, i), Log(size, vs, i + 1), vs[i];
            if !GoesOn(log) then now == log
            else
              && (EndSeen in now <==> EndSeen in log || (CanRead(size, log) && v.read.EndOfFile? && v.stale != EINTR))
              && (forall e :: ErrorSeen(e) in now <==> ErrorSeen(e) in log || (CanRead(size, log) && v.read == ReadFailed(e) && e != EINTR))
              && AllRead(now) == AllRead(log) + DeliveredBy(size, log, v)
              && |FileReads.AllTaken(log)| <= |AllRead(now)|
              && if CanRead(size, log) && Interrupted(v) then now == log
                 else now != [] && Tells(now, |FileReads.AllTaken(log)|, v, now[|now| - 1])
  {
    var r := LogIsRight(size, vs, i);
    var log, now, v := Log(size, vs, i), Log(size, vs, i + 1), vs[i];
    KnowsTheLog(log, r);
    if !r.over {
      FetchIs(log, r, v);
      var (s, arrived, interrupted) := Fetched(r, v);
      if interrupted {
        assert log + arrived == log;
      } else {
        Associative(log, arrived, Delivered(s, v).1);
        DeliveryTells(log + arrived, s, v);
      }
    }
  }

  lemma DeliveryTells(log: seq<Event>, r: Reader, v: Invocation)
    requires Right(log, r) && !r.over && (r.unread == [] ==> r.eof || r.err != 0)
    ensures var told := Delivered(r, v).1;
            var now := log + told;
            && |told| == 1 && now != [] && now[|now| - 1] == told[0]
            && AllRead(now) == AllRead(log) && |FileReads.AllTaken(log)| <= |AllRead(log)|
            && (EndSeen in now <==> EndSeen in log) && (forall e :: ErrorSeen(e) in now <==> ErrorSeen(e) in log)
            && Tells(now, |FileReads.AllTaken(log)|, v, told[0])
  {
    KnowsTheLog(log, r);
    var told := Delivered(r, v).1;
    assert |told| == 1 && told == [told[0]];
    Last1(log, told[0]);
    hide Right, AllRead, FileReads.AllTaken;
    assert AllRead(log)[|FileReads.AllTaken(log)|..] == r.unread;
  }

  // ---------- over all runs ----------

  /** The end of the file is seen if and only if an invocation that takes place calls read(2), which returns 0
      and is not taken for an interruption. */
  lemma {:induction false} EndIsSeen(size: nat, vs: seq<Invocation>, n: nat)
    requires 0 < size && Proper(vs) && n <= |vs|
    ensures EndSeen in Log(size, vs, n) <==> exists i :: 0 <= i < n && SeesEndAt(size, vs, i)
  {
    if n == 0 {
      NothingYet(size, vs);
    } else {
      EndIsSeen(size, vs, n - 1);
      SeenNow(size, vs, n - 1, 0);
      hide Log, SeesEndAt;
    }
  }

  lemma SeenNow(size: nat, vs: seq<Invocation>, i: nat, e: Errno)
    requires 0 < size && Proper(vs) && i < |vs|
    ensures EndSeen in Log(size, vs, i + 1) <==> EndSeen in Log(size, vs, i) || SeesEndAt(size, vs, i)
    ensures ErrorSeen(e) in Log(size, vs, i + 1) <==> ErrorSeen(e) in Log(size, vs, i) || SeesErrorAt(size, vs, i, e)
  {
    InvocationIs(size, vs, i);
    hide Log, GoesOn, CanRead, Tells, DeliveredBy, AllRead;
  }

  ghost predicate SeesEndAt(size: nat, vs: seq<Invocation>, i: nat)
    requires Proper(vs) && i < |vs|
  {
    GoesOn(Log(size, vs, i)) && CanRead(size, Log(size, vs, i)) && vs[i].read.EndOfFile? && vs[i].stale != EINTR
  }

  lemma NothingYet(size: nat, vs: seq<Invocation>)
    requires Proper(vs)
    ensures Log(size, vs, 0) == [] && AllRead(Log(size, vs, 0)) == []
  {
    assert vs[..0] == [];
  }

  /** An error is seen if and only if an invocation that takes place calls read(2), which fails with it. */
  lemma {:induction false} ErrorIsSeen(size: nat, vs: seq<Invocation>, n: nat, e: Errno)
    requires 0 < size && Proper(vs) && n <= |vs|
    ensures ErrorSeen(e) in Log(size, vs, n) <==> exists i :: 0 <= i < n && SeesErrorAt(size, vs, i, e)
  {
    if n == 0 {
      NothingYet(size, vs);
    } else {
      ErrorIsSeen(size, vs, n - 1, e);
      SeenNow(size, vs, n - 1, e);
      hide Log, SeesErrorAt;
    }
  }

  ghost predicate SeesErrorAt(size: nat, vs: seq<Invocation>, i: nat, e: Errno)
    requires Proper(vs) && i < |vs|
  {
    GoesOn(Log(size, vs, i)) && CanRead(size, Log(size, vs, i)) && vs[i].read == ReadFailed(e) && e != EINTR
  }

  /** What the invocations that take place read, as much of it as there is room for. */
  ghost function AllDelivered(size: nat, vs: seq<Invocation>, n: nat): seq<Byte>
    requires Proper(vs) && n <= |vs|
  {
    if n == 0 then [] else
      AllDelivered(size, vs, n - 1)
      + if GoesOn(Log(size, vs, n - 1)) then DeliveredBy(size, Log(size, vs, n - 1), vs[n - 1]) else []
  }

  lemma ReadNow(size: nat, vs: seq<Invocation>, i: nat)
    requires 0 < size && Proper(vs) && i < |vs|
    ensures var log := Log(size, vs, i);
            AllRead(Log(size, vs, i + 1)) == AllRead(log) + if GoesOn(log) then DeliveredBy(size, log, vs[i]) else []
  {
    hide Log, GoesOn, DeliveredBy, CanRead, Tells, AllRead;
    InvocationIs(size, vs, i);
  }

  lemma {:induction false} ReadIsComplete(size: nat, vs: seq<Invocation>, n: nat)
    requires 0 < size && Proper(vs) && n <= |vs|
    ensures AllRead(Log(size, vs, n)) == AllDelivered(size, vs, n)
  {
    hide Log, GoesOn, DeliveredBy, AllRead;
    if n == 0 {
      NothingYet(size, vs);
    } else {
      ReadIsComplete(size, vs, n - 1);
      ReadNow(size, vs, n - 1);
    }
  }

  /** Once the end has been seen, an invocation with nothing left to consume tells of it, and is the last; and
      so does the next invocation after an error. */
  lemma EndIsTold(size: nat, vs: seq<Invocation>, i: nat)
    requires 0 < size && Proper(vs) && i < |vs| && GoesOn(Log(size, vs, i))
    requires !(CanRead(size, Log(size, vs, i)) && Interrupted(vs[i]))
    ensures var log, now := Log(size, vs, i), Log(size, vs, i + 1);
            && now != []
            && (forall e :: ErrorSeen(e) in now ==> now[|now| - 1] == Broke(e) && !GoesOn(now))
            && (EndSeen in now && AllRead(now) == FileReads.AllTaken(log) ==>
                  (now[|now| - 1] == Ended && !GoesOn(now)) || exists e :: ErrorSeen(e) in now)
  {
    InvocationIs(size, vs, i);
    var log, now := Log(size, vs, i), Log(size, vs, i + 1);
    OneError(size, vs, i + 1);
    hide Log, CanRead, AllRead, FileReads.AllTaken;
    assert Last(now[|now| - 1]) ==> !GoesOn(now);
  }

  lemma OneError(size: nat, vs: seq<Invocation>, i: nat)
    requires 0 < size && Proper(vs) && i <= |vs|
    ensures forall e, f :: ErrorSeen(e) in Log(size, vs, i) && ErrorSeen(f) in Log(size, vs, i) ==> e == f
  {
    var r := LogIsRight(size, vs, i);
    KnowsTheLog(Log(size, vs, i), r);
  }
}
