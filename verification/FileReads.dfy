/** `on_read` of `_read.c`, which hands a file to a callback piece by piece. */
module FileReads {
  import opened Basics
  import opened RingBuffers
  import opened Streams

  // ---------- one invocation ----------

  /** What `on_read` meets when it is invoked: the result of read(2), the value that errno had before, and
      what the callback returns for the bytes it is shown, at most their number. */
  datatype Invocation = Invocation(read: ReadResult, stale: Errno, taken: int)

  datatype Event =
    | Arrived(bytes: seq<Byte>)               // read(2) has delivered these
    | EndSeen                                 // it has returned 0
    | ErrorSeen(errno: Errno)                 // it has failed
    | Shown(bytes: seq<Byte>, taken: nat)     // the callback was shown these, and consumed so many
    | Refused(bytes: seq<Byte>)               // it was shown these, and returned a negative number
    | Ended                                   // it was told that there are no more
    | Broke(errno: Errno)                     // it was told of an error

  /** `fs_read_data`, with the ring buffer as the bytes that it contains. */
  datatype Reader = Reader(size: nat, unread: seq<Byte>, eof: bool, err: Errno, over: bool)

  /** The first half of `on_read`; the second does not follow if it was interrupted. */
  function Fetched(r: Reader, v: Invocation): (Reader, seq<Event>, bool)
    requires |r.unread| <= r.size && Possible(v.read)
  {
    var free := r.size - |r.unread|;
    if free == 0 || r.eof || r.err != 0 then (r, [], false)
    else match v.read
      case Got(bytes) =>
        var now := bytes[..Min(|bytes|, free)];
        (r.(unread := r.unread + now), [Arrived(now)], false)
      case EndOfFile => if v.stale == EINTR then (r, [], true) else (r.(eof := true), [EndSeen], false)
      case ReadFailed(errno) => if errno == EINTR then (r, [], true) else (r.(err := errno), [ErrorSeen(errno)], false)
  }

  /** The second half. */
  function Delivered(r: Reader, v: Invocation): (Reader, seq<Event>) {
    if r.unread != [] && r.err == 0 then
      if v.taken < 0 then (r.(over := true), [Refused(r.unread)])
      else
        var n := Min(v.taken, |r.unread|);
        (r.(unread := r.unread[n..]), [Shown(r.unread, n)])
    else (r.(over := true), (if r.err != 0 then [Broke(r.err)] else []) + (if r.eof then [Ended] else []))
  }

  /** `on_read` */
  function Invoked(r: Reader, v: Invocation): (Reader, seq<Event>)
    requires |r.unread| <= r.size && Possible(v.read)
  {
    var (s, arrived, interrupted) := Fetched(r, v);
    if interrupted then (s, arrived) else
      var (t, told) := Delivered(s, v);
      (t, arrived + told)
  }

  // ---------- runs ----------

  /** The loop invokes on_read until it returns EV_FIN. */
  ghost function Run(r: Reader, vs: seq<Invocation>): (Reader, seq<Event>)
    requires |r.unread| <= r.size && Proper(vs)
    decreases |vs|
  {
    if r.over || vs == [] then (r, [])
    else
      InvokedFits(r, vs[0]);
      var (s, now) := Invoked(r, vs[0]);
      var (t, later) := Run(s, vs[1..]);
      (t, now + later)
  }

  predicate Proper(vs: seq<Invocation>) {
    forall i :: 0 <= i < |vs| ==> Possible(vs[i].read)
  }

  lemma InvokedFits(r: Reader, v: Invocation)
    requires |r.unread| <= r.size && Possible(v.read)
    ensures |Invoked(r, v).0.unread| <= Invoked(r, v).0.size == r.size
  {
  }

  /** All bytes of the file that have been read. */
  function AllRead(log: seq<Event>): seq<Byte>
    decreases |log|
  {
    if log == [] then [] else
      var e := log[|log| - 1];
      AllRead(log[..|log| - 1]) + if e.Arrived? then e.bytes else []
  }

  /** All bytes that the callback has consumed. */
  function AllTaken(log: seq<Event>): seq<Byte>
    decreases |log|
  {
    if log == [] then [] else
      var e := log[|log| - 1];
      AllTaken(log[..|log| - 1]) + if e.Shown? && e.taken <= |e.bytes| then e.bytes[..e.taken] else []
  }

  /** After `log`, this is a right thing to tell. */
  ghost predicate Faithful(log: seq<Event>, e: Event) {
    match e
    case Arrived(bytes) => bytes != [] && EndSeen !in log
    case EndSeen => EndSeen !in log
    case ErrorSeen(errno) => errno != 0
    case Shown(bytes, taken) => bytes != [] && AllRead(log) == AllTaken(log) + bytes && taken <= |bytes|
    case Refused(bytes) => bytes != [] && AllRead(log) == AllTaken(log) + bytes
    case Ended => EndSeen in log && AllRead(log) == AllTaken(log)
    case Broke(errno) => ErrorSeen(errno) in log
  }

  ghost predicate AllFaithful(log: seq<Event>) {
    forall i :: 0 <= i < |log| ==> Faithful(log[..i], log[i])
  }

  predicate Last(e: Event) {
    e.Ended? || e.Broke? || e.Refused?
  }

  /** What has happened so far, and where it has led. */
  ghost predicate Right(log: seq<Event>, r: Reader) {
    && |r.unread| <= r.size && 0 < r.size && AllFaithful(log)
    && AllRead(log) == AllTaken(log) + r.unread
    && (r.eof ==> r.err == 0) && (r.eof <==> EndSeen in log)
    && (r.err != 0 ==> ErrorSeen(r.err) in log) && (forall e :: ErrorSeen(e) in log ==> e == r.err != 0)
    && (r.over <==> log != [] && Last(log[|log| - 1]))
    && (forall i :: 0 <= i < |log| - 1 ==> !Last(log[i]))
  }

  lemma Logged(log: seq<Event>, e: Event)
    requires AllFaithful(log) && Faithful(log, e)
    ensures AllFaithful(log + [e])
    ensures AllRead(log + [e]) == AllRead(log) + if e.Arrived? then e.bytes else []
    ensures AllTaken(log + [e]) == AllTaken(log) + if e.Shown? then e.bytes[..e.taken] else []
  {
    var more := log + [e];
    assert more[..|log|] == log;
    forall i | 0 <= i < |more| ensures Faithful(more[..i], more[i]) {
      if i < |log| { assert more[..i] == log[..i]; }
    }
  }

  lemma Extended(log: seq<Event>, r: Reader, e: Event, s: Reader)
    requires Right(log, r) && !r.over && Faithful(log, e)
    requires s.size == r.size && |s.unread| <= s.size && (s.eof ==> s.err == 0) && s.over == Last(e)
    requires s.eof <==> r.eof || e.EndSeen?
    requires if e.ErrorSeen? then r.err == 0 && s.err == e.errno != 0 else s.err == r.err
    requires r.unread + (if e.Arrived? then e.bytes else []) == (if e.Shown? then e.bytes[..e.taken] else []) + s.unread
    ensures Right(log + [e], s)
  {
    Logged(log, e);
    Moved(AllRead(log), AllTaken(log), r.unread,
          if e.Arrived? then e.bytes else [], if e.Shown? then e.bytes[..e.taken] else [], s.unread);
    hide AllFaithful, AllRead, AllTaken, Faithful;
    forall i | 0 <= i < |log| ensures !Last((log + [e])[i]) {
      assert (log + [e])[i] == log[i];
    }
  }

  lemma FetchedKeeps(log: seq<Event>, r: Reader, v: Invocation)
    requires Right(log, r) && !r.over && Possible(v.read)
    ensures var (s, arrived, interrupted) := Fetched(r, v);
            && Right(log + arrived, s) && !s.over && s.size == r.size
            && (!interrupted && s.unread == [] ==> s.eof || s.err != 0)
  {
    hide AllFaithful, AllRead, AllTaken;
    var (s, arrived, interrupted) := Fetched(r, v);
    if arrived == [] {
      assert log + arrived == log;
    } else {
      assert arrived == [arrived[0]];
      Extended(log, r, arrived[0], s);
    }
  }

  lemma DeliveredKeeps(log: seq<Event>, r: Reader, v: Invocation)
    requires Right(log, r) && !r.over && (r.unread == [] ==> r.eof || r.err != 0)
    ensures var (s, told) := Delivered(r, v); Right(log + told, s) && s.size == r.size
  {
    hide AllFaithful, AllRead, AllTaken;
    var (s, told) := Delivered(r, v);
    assert |told| == 1 && told == [told[0]];
    if told[0].Shown? { assert r.unread == r.unread[..told[0].taken] + r.unread[told[0].taken..]; }
    Extended(log, r, told[0], s);
  }

  lemma InvokedKeeps(log: seq<Event>, r: Reader, v: Invocation)
    requires Right(log, r) && !r.over && Possible(v.read)
    ensures var (s, now) := Invoked(r, v); Right(log + now, s)
  {
    FetchedKeeps(log, r, v);
    assert |r.unread| <= r.size;
    hide Right, Fetched, Delivered;
    var (s, arrived, interrupted) := Fetched(r, v);
    if !interrupted {
      DeliveredKeeps(log + arrived, s, v);
      Associative(log, arrived, Delivered(s, v).1);
    }
  }

  lemma {:induction false} RunKeeps(log: seq<Event>, r: Reader, vs: seq<Invocation>)
    requires Right(log, r) && Proper(vs)
    ensures var (t, more) := Run(r, vs); Right(log + more, t)
    decreases |vs|
  {
    assert |r.unread| <= r.size;
    hide Right, Invoked;
    if r.over || vs == [] {
      assert log + [] == log;
    } else {
      var (s, now) := Invoked(r, vs[0]);
      InvokedFits(r, vs[0]);
      InvokedKeeps(log, r, vs[0]);
      RunKeeps(log + now, s, vs[1..]);
      var (t, later) := Run(s, vs[1..]);
      assert Run(r, vs) == (t, now + later);
      hide Run;
      Associative(log, now, later);
    }
  }

  /** Whatever read(2) does and the callback consumes: every data callback sees exactly the bytes that have
      been read and not yet consumed; the one for the end comes only after read(2) has reported it and all has
      been consumed, and the one for an error after read(2) has failed with it; nothing is read after the end;
      and the last invocation, the one that returns EV_FIN, and only that one, tells of the end or of an error,
      unless the callback has refused. */
  lemma CallbacksAreFaithful(size: nat, vs: seq<Invocation>)
    requires 0 < size && Proper(vs)
    ensures var (r, log) := Run(Reader(size, [], false, 0, false), vs);
            && (forall i :: 0 <= i < |log| && log[i].Shown? ==> AllRead(log[..i]) == AllTaken(log[..i]) + log[i].bytes)
            && (forall i :: 0 <= i < |log| && log[i].Ended? ==> EndSeen in log[..i] && AllRead(log[..i]) == AllTaken(log[..i]))
            && (forall i :: 0 <= i < |log| && log[i].Broke? ==> ErrorSeen(log[i].errno) in log[..i])
            && (forall i :: 0 <= i < |log| && log[i].Arrived? ==> EndSeen !in log[..i])
            && AllRead(log) == AllTaken(log) + r.unread
            && (forall i :: 0 <= i < |log| && Last(log[i]) ==> i == |log| - 1)
            && (r.over <==> log != [] && Last(log[|log| - 1]))
  {
    var r := Reader(size, [], false, 0, false);
    RunKeeps([], r, vs);
    hide Run, Right, AllRead, AllTaken;
    var (s, log) := Run(r, vs);
    assert [] + log == log;
    RightMeans(log, s);
  }

  lemma RightMeans(log: seq<Event>, r: Reader)
    requires Right(log, r)
    ensures forall i :: 0 <= i < |log| && log[i].Shown? ==> AllRead(log[..i]) == AllTaken(log[..i]) + log[i].bytes
    ensures forall i :: 0 <= i < |log| && log[i].Ended? ==> EndSeen in log[..i] && AllRead(log[..i]) == AllTaken(log[..i])
    ensures forall i :: 0 <= i < |log| && log[i].Broke? ==> ErrorSeen(log[i].errno) in log[..i]
    ensures forall i :: 0 <= i < |log| && log[i].Arrived? ==> EndSeen !in log[..i]
    ensures AllRead(log) == AllTaken(log) + r.unread
    ensures forall i :: 0 <= i < |log| && Last(log[i]) ==> i == |log| - 1
    ensures r.over <==> log != [] && Last(log[|log| - 1])
  {
    hide AllRead, AllTaken;
    forall i | 0 <= i < |log| ensures Faithful(log[..i], log[i]) {}
  }

  class FileReader {
    const rbuf: RingBuffer
    var eof: bool
    var err: Errno

    ghost predicate Valid()
      reads this, rbuf
    {
      rbuf.Valid()
    }

    ghost function State(over: bool): Reader
      reads this, rbuf, rbuf.mem
      requires Valid()
    {
      Reader(rbuf.size, rbuf.Contents(), eof, err, over)
    }

    constructor (rbuf: RingBuffer)
      requires rbuf.Valid() && rbuf.Contents() == []
      ensures Valid() && this.rbuf == rbuf && State(false) == Reader(rbuf.size, [], false, 0, false)
    {
      this.rbuf := rbuf;
      eof, err := false, 0;
    }

    /** `on_read`; `fin` is that it returns EV_FIN, and otherwise it returns the events it was called for. */
    method OnRead(v: Invocation) returns (fin: bool, events: seq<Event>)
      requires Valid() && Possible(v.read)
      modifies this, rbuf, rbuf.mem
      ensures Valid() && (State(fin), events) == Invoked(old(State(false)), v)
    {
      var interrupted, told;
      events, interrupted := Fetch(v);
      if interrupted { return false, events; }
      fin, told := Deliver(v);
      events := events + told;
    }

    /** Its first half. */
    method Fetch(v: Invocation) returns (events: seq<Event>, interrupted: bool)
      requires Valid() && Possible(v.read)
      modifies this, rbuf, rbuf.mem
      ensures Valid() && (State(false), events, interrupted) == Fetched(old(State(false)), v)
    {
      events, interrupted := [], false;
      var free := rbuf.FreeSpace();
      if free > 0 && !eof && err == 0 {
        if v.read.Got? {
          var now := v.read.bytes[..Min(|v.read.bytes|, free)];
          rbuf.Receive(now);
          rbuf.CommitWrite(|now|);
          events := [Arrived(now)];
        } else {
          var errno := if v.read.EndOfFile? then v.stale else v.read.errno;
          if errno == EINTR {
            interrupted := true;
          } else if v.read.EndOfFile? {
            eof := true;
            events := [EndSeen];
          } else {
            err := errno;
            events := [ErrorSeen(errno)];
          }
        }
      }
    }

    /** Its second half. */
    method Deliver(v: Invocation) returns (fin: bool, told: seq<Event>)
      requires Valid()
      modifies rbuf
      ensures Valid() && (State(fin), told) == Delivered(old(State(false)), v)
    {
      var count := rbuf.DataCount();
      if count > 0 && err == 0 {
        var shown := rbuf.Show();
        if v.taken >= 0 {
          var n := Min(v.taken, count);
          rbuf.CommitRead(n);
          return false, [Shown(shown, n)];
        } else {
          return true, [Refused(shown)];
        }
      } else {
        told := [];
        if err != 0 { told := [Broke(err)]; }
        if eof { told := told + [Ended]; }
        assert told == (if err != 0 then [Broke(err)] else []) + (if eof then [Ended] else []);
        return true, told;
      }
    }
  }
}
