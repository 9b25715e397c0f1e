/** The ring buffer of `ring_buffer.c`: a shared memory object that is mapped twice, one mapping right after
    the other, so that a window of up to `size` bytes never has to be split.
  */
module RingBuffers {

  import opened Basics

  const WORD := 0x1_0000_0000_0000_0000   // unsigned long
  const PAGE := 4096

  newtype Byte = x: int | 0 <= x < 256

  /** `(size + (1UL << 12) - 1) >> 12 << 12` */
  function Rounded(size: nat): nat {
    (size + PAGE - 1) % WORD / PAGE * PAGE
  }

  /** The size is the least multiple of 4096 at or above what was asked for, as long as the sum does not
      overflow; beyond that it is 0. */
  lemma RoundedIsLeast(size: nat)
    requires 0 < size < WORD
    ensures Rounded(size) >= size <==> size <= WORD - PAGE
    ensures Rounded(size) % PAGE == 0 && (size > WORD - PAGE ==> Rounded(size) == 0)
    ensures size <= WORD - PAGE ==> forall m :: m % PAGE == 0 && m >= size ==> Rounded(size) <= m
  {
    forall m | m % PAGE == 0 && m >= size && size <= WORD - PAGE ensures Rounded(size) <= m {
      assert size + PAGE - 1 < m + PAGE && m / PAGE * PAGE == m;
    }
  }

  /** Subtraction and addition of unsigned longs. */
  function Minus(a: nat, b: nat): (c: nat)
    ensures b <= a < WORD ==> c == a - b
  {
    (a - b) % WORD
  }

  function Plus(a: nat, b: nat): (c: nat)
    ensures a + b < WORD ==> c == a + b
  {
    (a + b) % WORD
  }

  class RingBuffer {
    const mem: array<Byte>      // the shared memory object
    const size: nat
    const buf: nat              // the address of the double mapping
    var writeOffset: nat
    var readOffset: nat

    ghost predicate Valid()
      reads this
    {
      && 0 < size == mem.Length && 2 * size < WORD
      && readOffset < size && readOffset <= writeOffset <= readOffset + size
    }

    /** Which byte of the memory object offset `p` of the double mapping shows. */
    function Place(p: nat): nat {
      if p < size then p else p - size
    }

    /** The byte at offset `p` of the double mapping. */
    function At(p: nat): Byte
      reads mem
      requires 0 < size == mem.Length && p < 2 * size < WORD
    {
      mem[Place(p)]
    }

    ghost function Window(p: nat, n: nat): (w: seq<Byte>)
      reads mem
      requires 0 < size == mem.Length && p + n <= 2 * size < WORD
      ensures |w| == n
    {
      seq(n, k requires 0 <= k < n reads mem => At(p + k))
    }

    /** The bytes that have been written and not yet been read. */
    ghost function Contents(): seq<Byte>
      reads this, mem
      requires Valid()
    {
      Window(readOffset, writeOffset - readOffset)
    }

    /** The object that ring_buffer_create fills in, also for the empty size. */
    constructor (size: nat, buf: nat)
      requires 2 * size < WORD
      ensures this.size == size == mem.Length && this.buf == buf && fresh(mem)
      ensures size > 0 ==> Valid() && Contents() == []
    {
      this.size, this.buf := size, buf;
      mem := new Byte[size];
      writeOffset, readOffset := 0, 0;
    }

    /** `ring_buffer_data_count`, which never underflows. */
    method DataCount() returns (n: nat)
      requires Valid()
      ensures n == |Contents()| <= size
    {
      n := Minus(writeOffset, readOffset);
    }

    /** `ring_buffer_free_space`, which never underflows either. */
    method FreeSpace() returns (n: nat)
      requires Valid()
      ensures n == size - |Contents()|
    {
      var count := DataCount();
      n := Minus(size, count);
    }

    /** Bytes arrive at ring_buffer_write_pos.  The window that they are written to lies within the double
        mapping, and apart from the bytes that have not been read. */
    method Receive(bytes: seq<Byte>)
      requires Valid() && |bytes| <= size - |Contents()|
      modifies mem
      ensures Valid() && Contents() == old(Contents())
      ensures writeOffset + |bytes| <= 2 * size && Window(writeOffset, |bytes|) == bytes
    {
      ghost var c := Contents();
      var k := 0;
      while k < |bytes|
        invariant k <= |bytes|
        invariant forall j :: 0 <= j < k ==> At(writeOffset + j) == bytes[j]
        invariant forall j :: 0 <= j < |c| ==> c[j] == At(readOffset + j)
      {
        mem[Place(writeOffset + k)] := bytes[k];
        k := k + 1;
      }
      assert Window(writeOffset, |bytes|) == bytes;
      assert Contents() == c;
    }

    /** `ring_buffer_commit_write` */
    method CommitWrite(n: nat)
      requires Valid() && n <= size - |Contents()|
      modifies this
      ensures Valid() && Contents() == old(Contents()) + old(Window(writeOffset, n))
    {
      ghost var before, added := Contents(), Window(writeOffset, n);
      writeOffset := Plus(writeOffset, n);
      assert Contents() == before + added;
    }

    /** `ring_buffer_commit_read` */
    method CommitRead(n: nat)
      requires Valid() && n <= |Contents()|
      modifies this
      ensures Valid() && Contents() == old(Contents())[n..]
    {
      hide Plus, Minus;
      ghost var before := Contents();
      readOffset := Plus(readOffset, n);
      if readOffset >= size {
        readOffset := Minus(readOffset, size);
        writeOffset := Minus(writeOffset, size);
      }
      forall k | 0 <= k < |before| - n ensures At(readOffset + k) == before[n..][k] {
        assert before[n + k] == old(At(readOffset + (n + k)));
      }
      assert Contents() == before[n..];
    }

    /** `ring_buffer_reset` */
    method Reset()
      requires Valid()
      modifies this
      ensures Valid() && Contents() == []
    {
      writeOffset, readOffset := 0, 0;
    }

    /** What readers are shown at ring_buffer_read_pos. */
    method Show() returns (bytes: seq<Byte>)
      requires Valid()
      ensures bytes == Contents() && readOffset + |bytes| <= 2 * size
    {
      bytes := [];
      while |bytes| < writeOffset - readOffset
        invariant |bytes| <= writeOffset - readOffset && forall k :: 0 <= k < |bytes| ==> bytes[k] == At(readOffset + k)
      {
        bytes := bytes + [mem[Place(readOffset + |bytes|)]];
      }
    }
  }

  // ---------- ring_buffer_create ----------

  const MAP_FAILED: nat := WORD - 1   // (void *)-1

  /** What the system grants: memory for the object, the memory object and its length, a place for a mapping of
      twice that length, its two halves, and the closing of the descriptor. */
  datatype System = System(
    prepared: bool, created: bool, truncated: bool, place: Option<nat>, first: bool, second: bool, closed: bool)

  /** Places for mappings are pages, and mappings lie within the address space. */
  predicate Places(system: System, length: nat) {
    system.place.Some? ==> system.place.value % PAGE == 0 && system.place.value + length < WORD
  }

  /** mmap(2) anywhere: empty mappings are refused. */
  function Mapped(length: nat, place: Option<nat>): nat {
    if length == 0 || place.None? then MAP_FAILED else place.value
  }

  /** mmap(2) with MAP_FIXED: so are addresses that are not those of a page. */
  function MappedAt(address: nat, length: nat, granted: bool): nat {
    if length == 0 || address % PAGE != 0 || !granted then MAP_FAILED else address
  }

  /** The size and the address of the buffer that ring_buffer_create returns.  It compares the results of mmap
      with the addresses that it asked for, and not with MAP_FAILED.  ftruncate(2) takes the size as signed. */
  function Opened(request: nat, system: System): Option<(nat, nat)> {
    var size := Rounded(request);
    var buf := Mapped(Plus(size, size), system.place);
    if request == 0 || !system.prepared || !system.created || 2 * size >= WORD || !system.truncated then None
    else if MappedAt(buf, size, system.first) != buf then None
    else if MappedAt(Plus(buf, size), size, system.second) != Plus(buf, size) then None
    else if !system.closed then None
    else Some((size, buf))
  }

  /** The double mapping is there, and as large as was asked for. */
  predicate Usable(request: nat, size: nat, buf: nat, system: System) {
    0 < request <= size && buf != MAP_FAILED && buf == Mapped(2 * size, system.place) && system.first && system.second
  }

  /** A buffer that is returned is usable if and only if the rounding does not overflow; otherwise it has size 0
      and the address that mmap fails with. */
  lemma OpenedIsUsable(request: nat, system: System)
    requires request < WORD && Places(system, Plus(Rounded(request), Rounded(request))) && Opened(request, system).Some?
    ensures var (size, buf) := Opened(request, system).value;
            && (Usable(request, size, buf, system) <==> request <= WORD - PAGE)
            && (request > WORD - PAGE ==> size == 0 && buf == MAP_FAILED)
  {
    RoundedIsLeast(request);
    var size := Rounded(request);
    if size > 0 {
      FixedFails(size, system);
    }
  }

  /** Where there is no place for the mapping, the first comparison succeeds and the second does not. */
  lemma FixedFails(size: nat, system: System)
    requires 0 < size && 2 * size < WORD && size % PAGE == 0 && Places(system, Plus(size, size))
    ensures var buf := Mapped(Plus(size, size), system.place);
            && (buf != MAP_FAILED <==> system.place.Some?)
            && (buf == MAP_FAILED ==> MappedAt(Plus(buf, size), size, system.second) != Plus(buf, size))
            && (buf != MAP_FAILED ==> (MappedAt(buf, size, system.first) == buf <==> system.first))
            && (buf != MAP_FAILED ==> (MappedAt(Plus(buf, size), size, system.second) == Plus(buf, size) <==> system.second))
  {
    if system.place.Some? {
      var k, m := system.place.value / PAGE, size / PAGE;
      assert system.place.value + size == (k + m) * PAGE;
    } else {
      assert Plus(MAP_FAILED, size) == size - 1;
      assert (size - 1) % PAGE == PAGE - 1;
    }
  }

  /** It returns NULL for 0, for sizes beyond the range of ftruncate, and where the system refuses something;
      but for a size that has overflowed it does not notice that mmap does. */
  lemma OpenedUnlessRefused(request: nat, system: System)
    requires request < WORD && Places(system, Plus(Rounded(request), Rounded(request)))
    ensures var size := Rounded(request);
            Opened(request, system).Some? <==>
              && request > 0 && 2 * size < WORD && system.prepared && system.created && system.truncated && system.closed
              && (size > 0 ==> system.place.Some? && system.first && system.second)
  {
    RoundedIsLeast(if request == 0 then 1 else request);
    var size := Rounded(request);
    if 0 < size && 2 * size < WORD { FixedFails(size, system); }
  }

  /** A request that gets a buffer without any memory. */
  lemma OverflowGetsNothing(system: System)
    requires system.prepared && system.created && system.truncated && system.closed
    ensures Opened(WORD - PAGE + 1, system) == Some((0, MAP_FAILED))
  {
  }

  /** `ring_buffer_create` */
  method Create(request: nat, system: System) returns (rbuf: RingBuffer?)
    requires request < WORD && Places(system, Plus(Rounded(request), Rounded(request)))
    ensures rbuf == null <==> Opened(request, system).None?
    ensures rbuf != null ==> fresh(rbuf) && fresh(rbuf.mem) && Opened(request, system) == Some((rbuf.size, rbuf.buf))
    ensures rbuf != null ==> (rbuf.Valid() <==> request <= WORD - PAGE)
    ensures rbuf != null && request <= WORD - PAGE ==> rbuf.Contents() == [] && rbuf.size >= request && rbuf.buf != MAP_FAILED
  {
    RoundedIsLeast(if request == 0 then 1 else request);
    if !system.prepared || request == 0 {
      return null;
    }
    var size := Rounded(request);
    if !system.created || 2 * size >= WORD || !system.truncated {
      return null;
    }
    var buf := Mapped(Plus(size, size), system.place);
    if MappedAt(buf, size, system.first) != buf || MappedAt(Plus(buf, size), size, system.second) != Plus(buf, size) {
      return null;
    }
    if !system.closed {
      return null;
    }
    OpenedIsUsable(request, system);
    rbuf := new RingBuffer(size, buf);
  }
}
