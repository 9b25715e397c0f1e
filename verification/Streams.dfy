/** Streams through a ring buffer: `fd_dump` and `writen` of `io.c`.

    What the kernel does is a parameter: reads deliver any number of bytes, writes accept any number, and
    both may fail.
  */
module Streams {
  import opened Basics
  import opened RingBuffers

  type Errno = int
  const EINTR: Errno := 4
  const EAGAIN: Errno := 11
  const EWOULDBLOCK: Errno := 11

  /** What a call of read(2) has to offer; it delivers no more than it is asked for. */
  datatype ReadResult = Got(bytes: seq<Byte>) | EndOfFile | ReadFailed(errno: Errno)

  /** Nothing delivered is the end of the file, and a failure has an error number. */
  predicate Possible(read: ReadResult) {
    (read.Got? ==> read.bytes != []) && (read.ReadFailed? ==> read.errno != 0)
  }

  /** What a call of write(2) accepts, at most what it is given. */
  datatype WriteResult = Took(n: nat) | WriteFailed(errno: Errno)

  // ---------- writen ----------

  /** After this result writen returns -1. */
  predicate Stops(w: WriteResult) {
    (w.WriteFailed? && w.errno != EINTR) || w == Took(0)
  }

  /** The index of the first such result, or their number. */
  function FirstStop(results: seq<WriteResult>): (k: nat)
    ensures k <= |results| && (k < |results| ==> Stops(results[k]))
    ensures forall i :: 0 <= i < k ==> !Stops(results[i])
  {
    if results == [] || Stops(results[0]) then 0 else 1 + FirstStop(results[1..])
  }

  /** How many bytes the first `i` calls would take. */
  function Accepted(results: seq<WriteResult>, i: nat): nat
    requires i <= |results|
  {
    if i == 0 then 0 else Accepted(results, i - 1) + if results[i - 1].Took? then results[i - 1].n else 0
  }

  lemma {:induction false} AcceptedGrows(results: seq<WriteResult>, i: nat, j: nat)
    requires i <= j <= |results|
    ensures Accepted(results, i) <= Accepted(results, j)
    decreases j
  {
    if i < j { AcceptedGrows(results, i, j - 1); }
  }

  /** `writen`.  Up to the first failure that is no interruption, and the first call that takes nothing, the
      calls take bytes in order; if these are enough, all of the buffer is written and its length returned,
      and otherwise -1.  Running: write(2) is to be called more often than `results` says. */
  method WriteN(buffer: seq<Byte>, results: seq<WriteResult>) returns (result: int, written: seq<Byte>, running: bool)
    ensures var k := FirstStop(results);
            var total := Accepted(results, k);
            && written == buffer[..Min(|buffer|, total)]
            && (running <==> total < |buffer| && k == |results|)
            && (!running ==> result == if total < |buffer| then -1 else |buffer|)
  {
    var total: nat, i: nat := 0, 0;
    written := [];
    while total < |buffer|
      invariant i <= FirstStop(results) && total == Min(|buffer|, Accepted(results, i))
      invariant written == buffer[..total]
      decreases |results| - i
    {
      if i == |results| { return -1, written, true; }
      var w := results[i];
      if w.WriteFailed? && w.errno == EINTR { i := i + 1; continue; }
      if w.WriteFailed? || w.n == 0 { return -1, written, false; }
      var n := Min(w.n, |buffer| - total);
      written := written + buffer[total..total + n];
      total := total + n;
      i := i + 1;
    }
    AcceptedGrows(results, i, FirstStop(results));
    return total, written, false;
  }

  // ---------- fd_dump ----------

  /** What happens in one round of the loop. */
  datatype Round = Round(selectFails: bool, readable: bool, read: ReadResult, writable: bool, write: WriteResult)

  datatype Status =
    | NotCreated        // no buffer
    | NotUnblocked      // make_unblock failed
    | Running | Success | SelectFailed | ReadingFailed | WritingFailed

  /** How far `fd_dump` has come: what it has read, what it has written, and what is in its buffer. */
  datatype Dump = Dump(status: Status, got: seq<Byte>, put: seq<Byte>, unread: seq<Byte>, eof: bool)

  /** `errno != EWOULDBLOCK || errno != EAGAIN` */
  predicate Fatal(errno: Errno) {
    errno != EWOULDBLOCK || errno != EAGAIN
  }

  /** read(2) is called in this round. */
  predicate Asks(size: nat, unread: nat, eof: bool, round: Round) {
    !eof && unread < size && round.readable
  }

  /** The bytes that it delivers. */
  function Delivery(size: nat, unread: nat, eof: bool, round: Round): seq<Byte> {
    if Asks(size, unread, eof, round) && round.read.Got? then round.read.bytes[..Min(|round.read.bytes|, size - unread)] else []
  }

  predicate FatalRead(size: nat, unread: nat, eof: bool, round: Round) {
    Asks(size, unread, eof, round) && round.read.ReadFailed? && Fatal(round.read.errno)
  }

  predicate SeesEnd(size: nat, unread: nat, eof: bool, round: Round) {
    Asks(size, unread, eof, round) && round.read.EndOfFile?
  }

  /** The bytes that write(2) takes of those in the buffer, if it is called. */
  function Taken(unread: seq<Byte>, calls: bool, write: WriteResult): seq<Byte> {
    if calls && write.Took? then unread[..Min(write.n, |unread|)] else []
  }

  predicate FatalWrite(unread: seq<Byte>, calls: bool, write: WriteResult) {
    calls && unread != [] && write.WriteFailed? && Fatal(write.errno)
  }

  /** One round. */
  function Stepped(size: nat, d: Dump, round: Round): Dump {
    if round.selectFails then d.(status := SelectFailed)
    else if FatalRead(size, |d.unread|, d.eof, round) then d.(status := ReadingFailed)
    else
      var now := Delivery(size, |d.unread|, d.eof, round);
      var all, calls := d.unread + now, now != [] || (d.unread != [] && round.writable);
      var gone, eof := Taken(all, calls, round.write), d.eof || SeesEnd(size, |d.unread|, d.eof, round);
      var status := if FatalWrite(all, calls, round.write) then WritingFailed
                    else if eof && |gone| == |all| then Success else Running;
      Dump(status, d.got + now, d.put + gone, all[|gone|..], eof)
  }

  /** The state after the first `i` rounds, unless it has ended before. */
  function Dumped(size: nat, rounds: seq<Round>, i: nat): Dump
    requires i <= |rounds|
  {
    if i == 0 then Dump(Running, [], [], [], false)
    else
      var d := Dumped(size, rounds, i - 1);
      if d.status.Running? then Stepped(size, d, rounds[i - 1]) else d
  }

  /** What the completion callback is called with. */
  function Calls(status: Status): seq<int> {
    match status
    case NotCreated => []
    case Running => []
    case Success => [0]
    case ReadingFailed => [-1, -1]
    case _ => [-1]
  }

  /** Whatever read(2) and write(2) do: what has been written is a prefix of what has been read, and the rest is
      in the buffer.  Success means that the end of the file has been seen and all has been written. */
  lemma {:induction false} DumpIsFaithful(size: nat, rounds: seq<Round>, i: nat)
    requires i <= |rounds|
    ensures var d := Dumped(size, rounds, i);
            && d.got == d.put + d.unread && |d.unread| <= size
            && (d.status.Success? ==> d.put == d.got)
            && (d.status.Success? ==> exists j :: 0 <= j < i && SeesEndAt(size, rounds, j))
            && (d.status.Running? ==> !(d.eof && d.unread == []))
  {
    if i > 0 {
      DumpIsFaithful(size, rounds, i - 1);
      SeenBefore(size, rounds, i);
      var d := Dumped(size, rounds, i - 1);
      if d.status.Running? { SteppedIsFaithful(size, d, rounds[i - 1]); }
    }
  }

  lemma SteppedIsFaithful(size: nat, d: Dump, round: Round)
    requires d.status.Running? && d.got == d.put + d.unread && |d.unread| <= size && !(d.eof && d.unread == [])
    ensures var e := Stepped(size, d, round);
            && e.got == e.put + e.unread && |e.unread| <= size
            && (e.status.Success? ==> e.unread == [] && e.eof) && (e.status.Running? ==> !(e.eof && e.unread == []))
  {
    var now := Delivery(size, |d.unread|, d.eof, round);
    var all, calls := d.unread + now, now != [] || (d.unread != [] && round.writable);
    var gone := Taken(all, calls, round.write);
    assert all == gone + all[|gone|..];
    Moved(d.got, d.put, d.unread, now, gone, all[|gone|..]);
  }

  lemma Moved(read: seq<Byte>, taken: seq<Byte>, unread: seq<Byte>, arrived: seq<Byte>, consumed: seq<Byte>, left: seq<Byte>)
    requires read == taken + unread && unread + arrived == consumed + left
    ensures read + arrived == (taken + consumed) + left
  {
    Associative(taken, unread, arrived);
    Associative(taken, consumed, left);
  }

  lemma Associative<T>(a: seq<T>, b: seq<T>, c: seq<T>)
    ensures (a + b) + c == a + (b + c)
  {
  }

  /** The round with index `j` is reached, and read(2) reports the end of the file in it. */
  predicate SeesEndAt(size: nat, rounds: seq<Round>, j: nat)
    requires j < |rounds|
  {
    var d := Dumped(size, rounds, j);
    d.status.Running? && !rounds[j].selectFails && SeesEnd(size, |d.unread|, d.eof, rounds[j])
  }

  lemma {:induction false} SeenBefore(size: nat, rounds: seq<Round>, i: nat)
    requires i <= |rounds|
    ensures Dumped(size, rounds, i).eof <==> exists j :: 0 <= j < i && SeesEndAt(size, rounds, j)
  {
    if i > 0 {
      SeenBefore(size, rounds, i - 1);
      assert Dumped(size, rounds, i).eof <==> Dumped(size, rounds, i - 1).eof || SeesEndAt(size, rounds, i - 1);
    }
  }

  // ---------- how it ends, in terms of the rounds ----------

  /** The round with index `j` is reached. */
  predicate Reached(size: nat, rounds: seq<Round>, j: nat)
    requires j < |rounds|
  {
    Dumped(size, rounds, j).status.Running?
  }

  /** It is reached, and select(2) fails in it. */
  predicate SelectFailsAt(size: nat, rounds: seq<Round>, j: nat)
    requires j < |rounds|
  {
    Reached(size, rounds, j) && rounds[j].selectFails
  }

  /** It is reached, and reading fails in it. */
  predicate ReadFailsAt(size: nat, rounds: seq<Round>, j: nat)
    requires j < |rounds|
  {
    var d := Dumped(size, rounds, j);
    Reached(size, rounds, j) && !rounds[j].selectFails && FatalRead(size, |d.unread|, d.eof, rounds[j])
  }

  /** It gets to its writing half. */
  predicate GoesOnAt(size: nat, rounds: seq<Round>, j: nat)
    requires j < |rounds|
  {
    Reached(size, rounds, j) && !SelectFailsAt(size, rounds, j) && !ReadFailsAt(size, rounds, j)
  }

  /** The bytes that read(2) delivers in it. */
  function DeliveredAt(size: nat, rounds: seq<Round>, j: nat): seq<Byte>
    requires j < |rounds|
  {
    var d := Dumped(size, rounds, j);
    if GoesOnAt(size, rounds, j) then Delivery(size, |d.unread|, d.eof, rounds[j]) else []
  }

  /** It calls write(2): there are bytes in the buffer and the descriptor is ready, or bytes have just come. */
  predicate WritesAt(size: nat, rounds: seq<Round>, j: nat)
    requires j < |rounds|
  {
    && GoesOnAt(size, rounds, j)
    && (DeliveredAt(size, rounds, j) != [] || (Dumped(size, rounds, j).unread != [] && rounds[j].writable))
  }

  /** How many bytes write(2) takes in it. */
  function TakenAt(size: nat, rounds: seq<Round>, j: nat): nat
    requires j < |rounds|
  {
    if WritesAt(size, rounds, j) && rounds[j].write.Took?
    then Min(rounds[j].write.n, |Dumped(size, rounds, j).unread + DeliveredAt(size, rounds, j)|) else 0
  }

  /** It calls write(2), which fails for good. */
  predicate WriteFailsAt(size: nat, rounds: seq<Round>, j: nat)
    requires j < |rounds|
  {
    WritesAt(size, rounds, j) && rounds[j].write.WriteFailed? && Fatal(rounds[j].write.errno)
  }

  /** Nothing fails in it for good, the end of the file has been seen, and nothing is left in the buffer. */
  predicate FinishesAt(size: nat, rounds: seq<Round>, j: nat)
    requires j < |rounds|
  {
    && GoesOnAt(size, rounds, j) && !WriteFailsAt(size, rounds, j)
    && (Dumped(size, rounds, j).eof || SeesEndAt(size, rounds, j))
    && |Dumped(size, rounds, j).unread + DeliveredAt(size, rounds, j)| == TakenAt(size, rounds, j)
  }

  /** One round, in these terms. */
  lemma RoundIs(size: nat, rounds: seq<Round>, j: nat)
    requires j < |rounds|
    ensures var d, e := Dumped(size, rounds, j), Dumped(size, rounds, j + 1);
            && (d.status.Running? ==>
                  && (e.status.SelectFailed? <==> SelectFailsAt(size, rounds, j))
                  && (e.status.ReadingFailed? <==> ReadFailsAt(size, rounds, j))
                  && (e.status.WritingFailed? <==> WriteFailsAt(size, rounds, j))
                  && (e.status.Success? <==> FinishesAt(size, rounds, j))
                  && !e.status.NotCreated? && !e.status.NotUnblocked?
                  && e.got == d.got + DeliveredAt(size, rounds, j) && |e.put| == |d.put| + TakenAt(size, rounds, j))
            && (!d.status.Running? ==> e == d)
  {
  }

  lemma StartsRunning(size: nat, rounds: seq<Round>)
    ensures Dumped(size, rounds, 0).status.Running?
  {
  }

  lemma StepEnds(size: nat, rounds: seq<Round>, j: nat)
    requires j < |rounds|
    ensures var d, e := Dumped(size, rounds, j), Dumped(size, rounds, j + 1);
            && (e.status.SelectFailed? <==> d.status.SelectFailed? || SelectFailsAt(size, rounds, j))
            && (e.status.ReadingFailed? <==> d.status.ReadingFailed? || ReadFailsAt(size, rounds, j))
            && (e.status.WritingFailed? <==> d.status.WritingFailed? || WriteFailsAt(size, rounds, j))
            && (e.status.Success? <==> d.status.Success? || FinishesAt(size, rounds, j))
  {
    RoundIs(size, rounds, j);
    if !Reached(size, rounds, j) { OnlyReached(size, rounds, j); }
    hide Dumped, SelectFailsAt, ReadFailsAt, WriteFailsAt, FinishesAt;
  }

  lemma {:induction false} EndsBySelect(size: nat, rounds: seq<Round>, i: nat)
    requires i <= |rounds|
    ensures Dumped(size, rounds, i).status.SelectFailed? <==> exists j :: 0 <= j < i && SelectFailsAt(size, rounds, j)
  {
    StartsRunning(size, rounds);
    hide Dumped, SelectFailsAt;
    if i > 0 {
      EndsBySelect(size, rounds, i - 1);
      StepEnds(size, rounds, i - 1);
    }
  }

  lemma {:induction false} EndsByRead(size: nat, rounds: seq<Round>, i: nat)
    requires i <= |rounds|
    ensures Dumped(size, rounds, i).status.ReadingFailed? <==> exists j :: 0 <= j < i && ReadFailsAt(size, rounds, j)
  {
    StartsRunning(size, rounds);
    hide Dumped, ReadFailsAt;
    if i > 0 {
      EndsByRead(size, rounds, i - 1);
      StepEnds(size, rounds, i - 1);
    }
  }

  lemma {:induction false} EndsByWrite(size: nat, rounds: seq<Round>, i: nat)
    requires i <= |rounds|
    ensures Dumped(size, rounds, i).status.WritingFailed? <==> exists j :: 0 <= j < i && WriteFailsAt(size, rounds, j)
  {
    StartsRunning(size, rounds);
    hide Dumped, WriteFailsAt;
    if i > 0 {
      EndsByWrite(size, rounds, i - 1);
      StepEnds(size, rounds, i - 1);
    }
  }

  lemma {:induction false} EndsByFinish(size: nat, rounds: seq<Round>, i: nat)
    requires i <= |rounds|
    ensures Dumped(size, rounds, i).status.Success? <==> exists j :: 0 <= j < i && FinishesAt(size, rounds, j)
  {
    StartsRunning(size, rounds);
    hide Dumped, FinishesAt;
    if i > 0 {
      EndsByFinish(size, rounds, i - 1);
      StepEnds(size, rounds, i - 1);
    }
  }

  lemma {:induction false} AlwaysStarted(size: nat, rounds: seq<Round>, i: nat)
    requires i <= |rounds|
    ensures var status := Dumped(size, rounds, i).status; !status.NotCreated? && !status.NotUnblocked?
  {
    if i > 0 {
      AlwaysStarted(size, rounds, i - 1);
      RoundIs(size, rounds, i - 1);
    }
  }

  /** fd_dump ends, and how it ends, with the first round in which select(2), read(2) or write(2) fails for
      good, or which leaves nothing to be done; and it goes on if and only if there is none. */
  lemma EndsExactly(size: nat, rounds: seq<Round>, i: nat)
    requires i <= |rounds|
    ensures var status := Dumped(size, rounds, i).status;
            && (status.SelectFailed? <==> exists j :: 0 <= j < i && SelectFailsAt(size, rounds, j))
            && (status.ReadingFailed? <==> exists j :: 0 <= j < i && ReadFailsAt(size, rounds, j))
            && (status.WritingFailed? <==> exists j :: 0 <= j < i && WriteFailsAt(size, rounds, j))
            && (status.Success? <==> exists j :: 0 <= j < i && FinishesAt(size, rounds, j))
            && !status.NotCreated? && !status.NotUnblocked?
  {
    EndsBySelect(size, rounds, i);
    EndsByRead(size, rounds, i);
    EndsByWrite(size, rounds, i);
    EndsByFinish(size, rounds, i);
    AlwaysStarted(size, rounds, i);
  }

  lemma OnlyReached(size: nat, rounds: seq<Round>, j: nat)
    requires j < |rounds| && !Reached(size, rounds, j)
    ensures !SelectFailsAt(size, rounds, j) && !ReadFailsAt(size, rounds, j)
    ensures !WriteFailsAt(size, rounds, j) && !FinishesAt(size, rounds, j)
  {
  }

  lemma NothingMoves(size: nat, rounds: seq<Round>, j: nat)
    requires j < |rounds|
    ensures !Dumped(size, rounds, j).status.Running? ==> DeliveredAt(size, rounds, j) == [] && TakenAt(size, rounds, j) == 0
  {
  }

  /** All that the rounds deliver. */
  function AllDelivered(size: nat, rounds: seq<Round>, i: nat): seq<Byte>
    requires i <= |rounds|
  {
    if i == 0 then [] else AllDelivered(size, rounds, i - 1) + DeliveredAt(size, rounds, i - 1)
  }

  /** And how much of it they take. */
  function AllTaken(size: nat, rounds: seq<Round>, i: nat): nat
    requires i <= |rounds|
  {
    if i == 0 then 0 else AllTaken(size, rounds, i - 1) + TakenAt(size, rounds, i - 1)
  }

  /** What has been written is exactly so much of what the rounds deliver as they take. */
  lemma {:induction false} DumpIsComplete(size: nat, rounds: seq<Round>, i: nat)
    requires i <= |rounds|
    ensures var d, all := Dumped(size, rounds, i), AllDelivered(size, rounds, i);
            d.got == all && AllTaken(size, rounds, i) <= |all| && d.put == all[..AllTaken(size, rounds, i)]
  {
    DumpIsFaithful(size, rounds, i);
    SumsAre(size, rounds, i);
  }

  lemma {:induction false} SumsAre(size: nat, rounds: seq<Round>, i: nat)
    requires i <= |rounds|
    ensures var d := Dumped(size, rounds, i); d.got == AllDelivered(size, rounds, i) && |d.put| == AllTaken(size, rounds, i)
  {
    if i > 0 {
      SumsAre(size, rounds, i - 1);
      RoundIs(size, rounds, i - 1);
      NothingMoves(size, rounds, i - 1);
      hide Dumped, Reached, DeliveredAt, TakenAt;
    }
  }

  lemma StaysEnded(size: nat, rounds: seq<Round>, i: nat)
    requires 0 < i <= |rounds|
    ensures var d := Dumped(size, rounds, i - 1); !d.status.Running? ==> Dumped(size, rounds, i) == d
  {
  }

  const RBUF_LEN := 4096

  /** How fd_dump starts: the system's answers to ring_buffer_create, and whether both descriptors can be made
      non-blocking. */
  datatype Start = Start(system: System, rfd: bool, wfd: bool)

  predicate Begins(start: Start) {
    Opened(RBUF_LEN, start.system).Some? && start.rfd && start.wfd
  }

  /** What fd_dump has come to after all the rounds. */
  function Outcome(start: Start, rounds: seq<Round>): Dump {
    if Opened(RBUF_LEN, start.system).None? then Dump(NotCreated, [], [], [], false)
    else if !Begins(start) then Dump(NotUnblocked, [], [], [], false)
    else Dumped(RBUF_LEN, rounds, |rounds|)
  }

  /** Reading fails for good in a round that is reached. */
  ghost predicate ReadingFails(start: Start, rounds: seq<Round>) {
    Begins(start) && exists j :: 0 <= j < |rounds| && ReadFailsAt(RBUF_LEN, rounds, j)
  }

  /** A round is reached that ends fd_dump otherwise. */
  ghost predicate EndsOtherwise(start: Start, rounds: seq<Round>) {
    && Begins(start)
    && exists j :: 0 <= j < |rounds|
          && (SelectFailsAt(RBUF_LEN, rounds, j) || WriteFailsAt(RBUF_LEN, rounds, j) || FinishesAt(RBUF_LEN, rounds, j))
  }

  /** The callback is called exactly once if and only if the buffer is there but the descriptors cannot be made
      non-blocking, or a round is reached in which select(2) or write(2) fails for good or which leaves nothing
      to be done; twice if and only if one is in which read(2) fails for good; and not at all if and only if
      there is no buffer, or there is no such round. */
  lemma CalledOnceOrTwice(start: Start, rounds: seq<Round>)
    ensures var calls := Calls(Outcome(start, rounds).status);
            && (|calls| == 1 <==>
                  || (Opened(RBUF_LEN, start.system).Some? && !Begins(start))
                  || EndsOtherwise(start, rounds))
            && (|calls| == 2 <==> ReadingFails(start, rounds))
            && (|calls| == 0 <==>
                  || Opened(RBUF_LEN, start.system).None?
                  || (Begins(start) && !EndsOtherwise(start, rounds) && !ReadingFails(start, rounds)))
            && (calls == [0] <==> Begins(start) && exists j :: 0 <= j < |rounds| && FinishesAt(RBUF_LEN, rounds, j))
  {
    EndsExactly(RBUF_LEN, rounds, |rounds|);
    hide Dumped, SelectFailsAt, ReadFailsAt, WriteFailsAt, FinishesAt;
  }

  /** A file whose first read fails. */
  lemma CalledTwice(start: Start, errno: Errno, write: WriteResult)
    requires Begins(start) && Fatal(errno)
    ensures var rounds := [Round(false, true, ReadFailed(errno), false, write)];
            Calls(Outcome(start, rounds).status) == [-1, -1]
  {
    assert Dumped(RBUF_LEN, [Round(false, true, ReadFailed(errno), false, write)], 0) == Dump(Running, [], [], [], false);
  }

  /** A system without memory for the buffer. */
  lemma NeverCalled(start: Start, rounds: seq<Round>)
    requires !start.system.prepared
    ensures Outcome(start, rounds).status.NotCreated? && Calls(Outcome(start, rounds).status) == []
  {
  }

  /** The reading half of a round of `fd_dump`; `seen` says whether the end of the input has been seen. */
  method DumpRead(rbuf: RingBuffer, seen: bool, round: Round) returns (failed: bool, got: seq<Byte>, eof: bool)
    requires rbuf.Valid() && Possible(round.read)
    modifies rbuf, rbuf.mem
    ensures rbuf.Valid() && rbuf.Contents() == old(rbuf.Contents()) + got
    ensures got == Delivery(rbuf.size, |old(rbuf.Contents())|, seen, round)
    ensures eof <==> seen || SeesEnd(rbuf.size, |old(rbuf.Contents())|, seen, round)
    ensures failed <==> FatalRead(rbuf.size, |old(rbuf.Contents())|, seen, round)
  {
    got, eof, failed := [], seen, false;
    var free := rbuf.FreeSpace();
    if !eof && free > 0 && round.readable {
      if round.read.Got? {
        got := round.read.bytes[..Min(|round.read.bytes|, free)];
        rbuf.Receive(got);
        rbuf.CommitWrite(|got|);
      } else if round.read.EndOfFile? {
        eof := true;
      } else {
        failed := Fatal(round.read.errno);
      }
    }
  }

  /** The writing half. */
  method DumpWrite(rbuf: RingBuffer, canWrite: bool, write: WriteResult) returns (failed: bool, put: seq<Byte>)
    requires rbuf.Valid()
    modifies rbuf
    ensures rbuf.Valid() && put == Taken(old(rbuf.Contents()), canWrite, write)
    ensures rbuf.Contents() == old(rbuf.Contents())[|put|..]
    ensures failed <==> FatalWrite(old(rbuf.Contents()), canWrite, write)
  {
    failed, put := false, [];
    var count := rbuf.DataCount();
    if canWrite && count > 0 {
      var shown := rbuf.Show();
      if write.Took? {
        var n := Min(write.n, count);
        put := shown[..n];
        rbuf.CommitRead(n);
      } else {
        failed := Fatal(write.errno);
      }
    }
  }

  /** One round of the loop of `fd_dump`. */
  method DumpRound(rbuf: RingBuffer, seen: bool, round: Round, ghost d: Dump)
    returns (status: Status, got: seq<Byte>, put: seq<Byte>, eof: bool)
    requires rbuf.Valid() && Possible(round.read) && d.unread == rbuf.Contents() && d.eof == seen && d.status.Running?
    modifies rbuf, rbuf.mem
    ensures rbuf.Valid() && Dump(status, d.got + got, d.put + put, rbuf.Contents(), eof) == Stepped(rbuf.size, d, round)
  {
    got, put := [], [];
    assert d.got + got == d.got && d.put + put == d.put;
    if round.selectFails { return SelectFailed, got, put, seen; }
    var count := rbuf.DataCount();
    var failed;
    failed, got, eof := DumpRead(rbuf, seen, round);
    if failed {
      assert rbuf.Contents() == d.unread && got == [];
      return ReadingFailed, got, put, seen;
    }
    failed, put := DumpWrite(rbuf, got != [] || (count > 0 && round.writable), round.write);
    if failed { return WritingFailed, got, put, eof; }
    count := rbuf.DataCount();
    status := if eof && count == 0 then Success else Running;
  }

  /** `fd_dump`: `got` is all that has been read, `put` all that has been written, `calls` what the completion
      callback, if there is one, has been called with, and `ret` what is returned, if it has ended. */
  method FdDump(start: Start, hasCallback: bool, rounds: seq<Round>)
    returns (ret: int, status: Status, got: seq<Byte>, put: seq<Byte>, calls: seq<int>)
    requires forall i :: 0 <= i < |rounds| ==> Possible(rounds[i].read)
    requires Places(start.system, 2 * RBUF_LEN)
    ensures var d := Outcome(start, rounds); status == d.status && got == d.got && put == d.put
    ensures calls == if hasCallback then Calls(status) else []
    ensures ret == if status.Success? then 0 else -1
  {
    got, put, calls, ret := [], [], [], -1;
    assert Rounded(RBUF_LEN) == RBUF_LEN && Plus(RBUF_LEN, RBUF_LEN) == 2 * RBUF_LEN;
    var rbuf := Create(RBUF_LEN, start.system);
    if rbuf == null {
      return ret, NotCreated, got, put, calls;
    }
    if !start.rfd || !start.wfd {
      status := NotUnblocked;
    } else {
      status, got, put := DumpLoop(rbuf, rounds);
      EndsExactly(RBUF_LEN, rounds, |rounds|);
    }
    if hasCallback && status.ReadingFailed? { calls := calls + [-1]; }
    if hasCallback && !status.Running? { calls := calls + [if status.Success? then 0 else -1]; }
    if status.Success? { ret := 0; }
  }

  /** The loop of `fd_dump`. */
  method DumpLoop(rbuf: RingBuffer, rounds: seq<Round>) returns (status: Status, got: seq<Byte>, put: seq<Byte>)
    requires rbuf.Valid() && rbuf.Contents() == []
    requires forall i :: 0 <= i < |rounds| ==> Possible(rounds[i].read)
    modifies rbuf, rbuf.mem
    ensures rbuf.Valid()
    ensures var d := Dumped(rbuf.size, rounds, |rounds|);
            status == d.status && got == d.got && put == d.put && rbuf.Contents() == d.unread
  {
    got, put, status := [], [], Running;
    var i: nat, eof := 0, false;
    while i < |rounds| && status.Running?
      invariant i <= |rounds| && rbuf.Valid()
      invariant Dump(status, got, put, rbuf.Contents(), eof) == Dumped(rbuf.size, rounds, i)
    {
      var more, gone;
      status, more, gone, eof := DumpRound(rbuf, eof, rounds[i], Dumped(rbuf.size, rounds, i));
      got, put := got + more, put + gone;
      i := i + 1;
    }
    EndedEarly(rbuf.size, rounds, i);
  }

  lemma {:induction false} EndedEarly(size: nat, rounds: seq<Round>, i: nat)
    requires i <= |rounds| && (i < |rounds| ==> !Dumped(size, rounds, i).status.Running?)
    ensures Dumped(size, rounds, |rounds|) == Dumped(size, rounds, i)
    decreases |rounds| - i
  {
    if i < |rounds| {
      StaysEnded(size, rounds, i + 1);
      EndedEarly(size, rounds, i + 1);
    }
  }
}
