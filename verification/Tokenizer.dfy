/** `strtok_s` and `strnlen_s` of `safestr.c`. */
module Tokenizer {

  import opened Basics

  type Char = int
  const NUL: Char := 0
  const CHARSET_MAX := 256

  /** A C string of separators, without its terminator. */
  type Separators = s: seq<Char> | forall i :: 0 <= i < |s| ==> s[i] != NUL

  // ---------- maximal runs ----------

  /** The first place from `i` on with a character that is not a separator, or that is one; or else `lim`. */
  function Next(s: seq<Char>, i: nat, lim: nat, seps: Separators, passing: bool): (j: nat)
    requires i <= lim <= |s|
    ensures i <= j <= lim && (j < lim ==> (s[j] in seps) != passing)
    ensures forall k :: i <= k < j ==> (s[k] in seps) == passing
    decreases lim - i
  {
    if i == lim || (s[i] in seps) != passing then i else Next(s, i + 1, lim, seps, passing)
  }

  /** Where the runs without separators start and end, in `s[i..lim]`. */
  function Spans(s: seq<Char>, i: nat, lim: nat, seps: Separators): seq<(nat, nat)>
    requires i <= lim <= |s|
    decreases lim - i
  {
    var a := Next(s, i, lim, seps, true);
    if a == lim then [] else
      var b := Next(s, a, lim, seps, false);
      [(a, b)] + Spans(s, b, lim, seps)
  }

  predicate Within(span: (nat, nat), k: nat) {
    span.0 <= k < span.1
  }

  ghost predicate Covered(spans: seq<(nat, nat)>, k: nat) {
    exists i :: 0 <= i < |spans| && Within(spans[i], k)
  }

  /** The runs are in order, not empty, apart from one another, and cover exactly the characters that are
      not separators: so that each of them is maximal. */
  lemma {:induction false} SpansAreMaximal(s: seq<Char>, i: nat, lim: nat, seps: Separators)
    requires i <= lim <= |s|
    ensures var spans := Spans(s, i, lim, seps);
            && (forall j :: 0 <= j < |spans| ==> i <= spans[j].0 < spans[j].1 <= lim)
            && (forall j, k :: 0 <= j < k < |spans| ==> spans[j].1 < spans[k].0)
            && (forall k :: i <= k < lim ==> (s[k] !in seps <==> Covered(spans, k)))
    decreases lim - i
  {
    var a := Next(s, i, lim, seps, true);
    if a < lim {
      var b := Next(s, a, lim, seps, false);
      var spans, more := Spans(s, i, lim, seps), Spans(s, b, lim, seps);
      SpansAreMaximal(s, b, lim, seps);
      assert forall j :: 0 < j < |spans| ==> spans[j] == more[j - 1];
      if b < lim {
        assert s[b] in seps && !Covered(more, b);
        assert more != [] ==> !Within(more[0], b);
      }
      forall k | i <= k < lim ensures s[k] !in seps <==> Covered(spans, k) {
        assert Covered(spans, k) <==> Within(spans[0], k) || Covered(more, k) by {
          if Covered(more, k) {
            var j :| 0 <= j < |more| && Within(more[j], k);
            assert Within(spans[j + 1], k);
          }
        }
        if k < b { assert !Covered(more, k); }
      }
    }
  }

  /** Only the characters between the limits matter. */
  lemma {:induction false} SpansAreLocal(s: seq<Char>, t: seq<Char>, i: nat, lim: nat, seps: Separators)
    requires i <= lim <= |s| == |t| && forall k :: i <= k < lim ==> s[k] == t[k]
    ensures Spans(s, i, lim, seps) == Spans(t, i, lim, seps)
    decreases lim - i
  {
    NextIsLocal(s, t, i, lim, seps, true);
    var a := Next(s, i, lim, seps, true);
    if a < lim {
      NextIsLocal(s, t, a, lim, seps, false);
      SpansAreLocal(s, t, Next(s, a, lim, seps, false), lim, seps);
    }
  }

  lemma {:induction false} NextIsLocal(s: seq<Char>, t: seq<Char>, i: nat, lim: nat, seps: Separators, passing: bool)
    requires i <= lim <= |s| == |t| && forall k :: i <= k < lim ==> s[k] == t[k]
    ensures Next(s, i, lim, seps, passing) == Next(t, i, lim, seps, passing)
    decreases lim - i
  {
    if i < lim { NextIsLocal(s, t, i + 1, lim, seps, passing); }
  }

  // ---------- strtok_s ----------

  /** `contain_char` */
  method ContainChar(clist: Separators, c: Char) returns (found: bool)
    ensures found <==> c in clist
  {
    var p := 0;
    while p < |clist| && clist[p] != c
      invariant p <= |clist| && c !in clist[..p]
    {
      p := p + 1;
    }
    assert clist[..|clist|] == clist;
    return p < |clist|;
  }

  /** The length of the string at `p`, whose terminator is not before `end`. */
  function Length(buf: seq<Char>, p: nat): (n: nat)
    requires p <= |buf|
    ensures p + n <= |buf| && (p + n < |buf| ==> buf[p + n] == NUL)
    ensures forall k :: p <= k < p + n ==> buf[k] != NUL
    decreases |buf| - p
  {
    if p == |buf| || buf[p] == NUL then 0 else 1 + Length(buf, p + 1)
  }

  /** What a caller of strtok_s keeps between its calls: the buffer, `*s1max` and `*ptr`. */
  class Scanner {
    const buf: array<Char>
    const end: nat              // the terminator of the string in it
    var s1max: nat
    var ptr: Option<nat>

    ghost predicate Valid()
      reads this, buf
    {
      end < buf.Length && buf[end] == NUL && (ptr.Some? ==> ptr.value <= end)
    }

    /** Where the part of the string at `p` ends that a call may look at. */
    ghost function Limit(p: nat): (lim: nat)
      reads this, buf
      requires Valid() && p <= end
      ensures p <= lim <= end
    {
      Bounded(buf[..], p, end);
      p + Min(s1max, Length(buf[..], p))
    }

    /** The runs that are left for calls with a NULL string. */
    ghost function Left(s2: Separators): seq<(nat, nat)>
      reads this, buf
      requires Valid()
    {
      if ptr.Some? then Spans(buf[..], ptr.value, Limit(ptr.value), s2) else []
    }

    /** The runs that a call has before it. */
    ghost function Given(s1: Option<nat>, s2: Separators): seq<(nat, nat)>
      reads this, buf
      requires Valid() && (s1.Some? ==> s1.value <= end)
    {
      if s1.Some? then Spans(buf[..], s1.value, Limit(s1.value), s2) else Left(s2)
    }

    constructor (buf: array<Char>, end: nat, s1max: nat)
      requires end < buf.Length && buf[end] == NUL
      ensures Valid() && this.buf == buf && this.end == end && this.s1max == s1max && ptr.None?
    {
      this.buf, this.end, this.s1max, ptr := buf, end, s1max, None;
    }

    /** `strnlen_s`; a limit of 0 stands for RSIZE_MAX, which is more than any string here is long. */
    method StrNLen(p: nat, maxsize: nat) returns (n: nat)
      requires Valid() && p <= end
      ensures n == if maxsize == 0 then Length(buf[..], p) else Min(maxsize, Length(buf[..], p))
    {
      ghost var length := Length(buf[..], p);
      Bounded(buf[..], p, end);
      n := 0;
      while buf[p + n] != NUL && (maxsize == 0 || n < maxsize)
        invariant n <= length && (maxsize > 0 ==> n <= maxsize)
        decreases length - n
      {
        assert buf[p + n] == buf[..][p + n];
        n := n + 1;
      }
      assert buf[p + n] == buf[..][p + n];
    }

    /** `strtok_s`, where `s1` is the string to start with, or NULL.  It returns the first run that it has
        before it, which it makes a string of its own, and leaves the others to the next calls. */
    method StrTok(s1: Option<nat>, s2: Separators) returns (token: Option<nat>, ghost stop: nat)
      requires Valid() && (s1.Some? ==> s1.value <= end)
      modifies this, buf
      ensures Valid() && (token.None? <==> |s2| >= CHARSET_MAX || old(Given(s1, s2)) == [])
      ensures token.None? ==> buf[..] == old(buf[..])
      ensures |s2| >= CHARSET_MAX ==> s1max == old(s1max) && ptr == old(ptr)
      ensures token.None? && |s2| < CHARSET_MAX && (s1.None? || old(Limit(s1.value)) > s1.value) ==> Left(s2) == []
      ensures token.Some? ==>
                && old(Given(s1, s2)) == [(token.value, stop)] + Left(s2)
                && token.value < stop <= end && buf[..] == old(buf[..])[stop := NUL]
                && s1max < old(s1max)
    {
      stop := 0;
      if (s1.None? && ptr.None?) || |s2| >= CHARSET_MAX {
        return None, stop;
      }
      hide Spans, Length, Next;
      var search := if s1.Some? then s1.value else ptr.value;
      assert Given(s1, s2) == Spans(buf[..], search, Limit(search), s2);
      token, stop := FromText(search, s2);
    }

    /** Its work on the text that starts at `search`. */
    method FromText(search: nat, s2: Separators) returns (token: Option<nat>, ghost stop: nat)
      requires Valid() && search <= end && |s2| < CHARSET_MAX
      modifies this, buf
      ensures Valid() && (token.None? <==> old(Spans(buf[..], search, Limit(search), s2)) == [])
      ensures token.None? ==> buf[..] == old(buf[..])
      ensures token.None? ==> if old(Limit(search)) > search then Left(s2) == [] else s1max == old(s1max) && ptr == old(ptr)
      ensures token.Some? ==>
                && old(Spans(buf[..], search, Limit(search), s2)) == [(token.value, stop)] + Left(s2)
                && token.value < stop <= end && buf[..] == old(buf[..])[stop := NUL]
                && s1max < old(s1max)
    {
      hide Spans, Next, Scanner.Left;
      stop := 0;
      var length := StrNLen(search, s1max);
      length := Min(s1max, length);
      assert search + length == Limit(search);
      if length == 0 {
        NoSpans(buf[..], search, s2);
        return None, stop;
      }
      hide Length, Scanner.Limit;
      ghost var s := buf[..];
      assert forall k :: search <= k < search + length ==> s[k] != NUL;
      token, stop := FirstRun(search, length, s2, s);
    }

    /** Its loops, over the text of the given length. */
    method FirstRun(search: nat, length: nat, s2: Separators, ghost s: seq<Char>) returns (token: Option<nat>, ghost stop: nat)
      requires Valid() && search + length <= end && |s2| < CHARSET_MAX
      requires s == buf[..] && forall k :: search <= k < search + length ==> s[k] != NUL
      modifies this, buf
      ensures Valid() && (token.None? <==> Spans(s, search, search + length, s2) == [])
      ensures token.None? ==> buf[..] == s && s1max == 0 && Left(s2) == []
      ensures token.Some? ==>
                && Spans(s, search, search + length, s2) == [(token.value, stop)] + Left(s2)
                && token.value < stop <= end && buf[..] == s[stop := NUL] && s1max < length
    {
      hide Length;
      stop := 0;
      var start := Pass(search, length, s2, true);
      if start == length {
        assert Spans(s, search, search + length, s2) == [];
        s1max := 0;
        if ptr.Some? { NoSpans(s, ptr.value, s2); }
        return None, stop;
      }
      token := Some(search + start);
      ghost var run := Next(s, search + start, search + length, s2, false);
      FirstSpan(s, search, search + length, s2, search + start, run);
      hide Spans, Next, Scanner.Left, Scanner.Limit;
      stop := RestOfRun(search, start, length, s2, s);
    }

    /** After its first loop, which has found the start of a run. */
    method RestOfRun(search: nat, start: nat, length: nat, s2: Separators, ghost s: seq<Char>) returns (ghost stop: nat)
      requires Valid() && search + length <= end && |s2| < CHARSET_MAX && start < length
      requires s == buf[..] && forall k :: search <= k < search + length ==> s[k] != NUL
      requires search + start == Next(s, search, search + length, s2, true)
      modifies this, buf
      ensures Valid() && stop == Next(s, search + start, search + length, s2, false)
      ensures Left(s2) == Spans(s, stop, search + length, s2)
      ensures search + start < stop <= end && buf[..] == s[stop := NUL] && s1max < length
    {
      hide Spans, Length, Scanner.Left, Scanner.Limit;
      var run := Pass(search + start, length - start, s2, false);
      stop := search + start + run;
      RunIsNotEmpty(s, search, search + length, s2, search + start, stop);
      var rest := length - start - run;
      assert stop + rest == search + length;
      Cut(search + start + run, rest, s2, s);
    }

    /** The end of strtok_s: the run ends at `stop`, `rest` characters before the end of the text. */
    method Cut(stop: nat, rest: nat, ghost s2: Separators, ghost s: seq<Char>)
      requires Valid() && stop + rest <= end && s == buf[..] && (rest > 0 ==> s[stop] in s2)
      requires forall k :: stop <= k < stop + rest ==> s[k] != NUL
      modifies this, buf
      ensures Valid() && buf[..] == s[stop := NUL] && s1max == if rest == 0 then 0 else rest - 1
      ensures Left(s2) == Spans(s, stop, stop + rest, s2)
    {
      hide Spans, Length, Next;
      s1max := rest;
      buf[stop] := NUL;
      if s1max != 0 {
        ptr := Some(stop + 1);
        s1max := s1max - 1;
        AfterSeparator(s, stop, stop + rest, s2);
        SpansAreLocal(s, buf[..], stop + 1, stop + rest, s2);
        LengthAtLeast(buf[..], stop + 1, stop + rest);
        assert Limit(stop + 1) == stop + rest;
      } else {
        NoSpans(s, stop, s2);
        if ptr.Some? { NoSpans(buf[..], ptr.value, s2); }
      }
    }

    /** The two loops of strtok_s, over characters that are separators, or that are not. */
    method Pass(p: nat, length: nat, s2: Separators, passing: bool) returns (passed: nat)
      requires p + length < buf.Length
      ensures p + passed == Next(buf[..], p, p + length, s2, passing)
    {
      passed := 0;
      var c := ContainChar(s2, buf[p + passed]);
      while c == passing && passed < length
        invariant passed <= length && (c <==> buf[..][p + passed] in s2)
        invariant Next(buf[..], p, p + length, s2, passing) == Next(buf[..], p + passed, p + length, s2, passing)
      {
        passed := passed + 1;
        c := ContainChar(s2, buf[p + passed]);
      }
    }
  }

  ghost predicate IsStop(tokens: seq<(nat, nat)>, k: nat) {
    exists i :: 0 <= i < |tokens| && tokens[i].1 == k
  }

  /** `now` is `was` with terminators at the ends of the tokens, and nowhere else. */
  ghost predicate IsCut(was: seq<Char>, now: seq<Char>, tokens: seq<(nat, nat)>) {
    |now| == |was| && forall k :: 0 <= k < |now| ==> now[k] == if IsStop(tokens, k) then NUL else was[k]
  }

  lemma CutOnce(was: seq<Char>, now: seq<Char>, tokens: seq<(nat, nat)>, token: (nat, nat))
    requires IsCut(was, now, tokens) && token.1 < |now|
    ensures IsCut(was, now[token.1 := NUL], tokens + [token])
  {
    var more := tokens + [token];
    forall k ensures IsStop(more, k) <==> IsStop(tokens, k) || k == token.1 {
      if k == token.1 { assert more[|tokens|].1 == k; }
      if IsStop(tokens, k) {
        var i :| 0 <= i < |tokens| && tokens[i].1 == k;
        assert more[i].1 == k;
      }
    }
  }

  /** Calls until one returns NULL.  They return exactly the maximal runs of the string, in order, each made a
      string of its own. */
  method Tokens(scanner: Scanner, s1: nat, s2: Separators) returns (starts: seq<nat>, ghost tokens: seq<(nat, nat)>)
    requires scanner.Valid() && s1 <= scanner.end && |s2| < CHARSET_MAX
    modifies scanner, scanner.buf
    ensures scanner.Valid() && tokens == old(scanner.Given(Some(s1), s2))
    ensures |starts| == |tokens| && forall i :: 0 <= i < |starts| ==> starts[i] == tokens[i].0
    ensures IsCut(old(scanner.buf[..]), scanner.buf[..], tokens)
  {
    hide Scanner.Given, Scanner.Left, Scanner.Limit, IsCut;
    ghost var given, was := scanner.Given(Some(s1), s2), scanner.buf[..];
    starts, tokens := [], [];
    var token, stop := scanner.StrTok(Some(s1), s2);
    ghost var left := [];
    assert IsCut(was, was, tokens) by { NotCut(was); }
    if token.Some? {
      left, tokens := scanner.Left(s2), [(token.value, stop)];
      CutOnce(was, was, [], (token.value, stop));
      assert [] + tokens == tokens;
    }
    while token.Some?
      invariant scanner.Valid() && IsCut(was, scanner.buf[..], tokens) && given == tokens + left
      invariant if token.Some? then left == scanner.Left(s2) else left == []
      invariant |tokens| == |starts| + if token.Some? then 1 else 0
      invariant forall i :: 0 <= i < |starts| ==> starts[i] == tokens[i].0
      invariant token.Some? ==> tokens[|starts|].0 == token.value
      decreases token.Some?, scanner.s1max
    {
      starts := starts + [token.value];
      LeftIsGiven(scanner, s2);
      ghost var now := scanner.buf[..];
      token, stop := scanner.StrTok(None, s2);
      if token.Some? {
        CutOnce(was, now, tokens, (token.value, stop));
        assert tokens + left == (tokens + [(token.value, stop)]) + scanner.Left(s2);
        left, tokens := scanner.Left(s2), tokens + [(token.value, stop)];
      }
    }
  }

  lemma NotCut(was: seq<Char>)
    ensures IsCut(was, was, [])
  {
  }

  lemma LeftIsGiven(scanner: Scanner, s2: Separators)
    requires scanner.Valid()
    ensures scanner.Given(None, s2) == scanner.Left(s2)
  {
  }

  lemma NoSpans(s: seq<Char>, i: nat, seps: Separators)
    requires i <= |s|
    ensures Spans(s, i, i, seps) == []
  {
  }

  lemma FirstSpan(s: seq<Char>, i: nat, lim: nat, seps: Separators, a: nat, b: nat)
    requires i <= lim <= |s| && a == Next(s, i, lim, seps, true) < lim && b == Next(s, a, lim, seps, false)
    ensures a < b <= lim && (b < lim ==> s[b] in seps)
    ensures Spans(s, i, lim, seps) == [(a, b)] + Spans(s, b, lim, seps)
  {
  }

  lemma RunIsNotEmpty(s: seq<Char>, i: nat, lim: nat, seps: Separators, a: nat, b: nat)
    requires i <= lim <= |s| && a == Next(s, i, lim, seps, true) < lim && b == Next(s, a, lim, seps, false)
    ensures a < b <= lim && (b < lim ==> s[b] in seps)
  {
  }

  lemma AfterSeparator(s: seq<Char>, i: nat, lim: nat, seps: Separators)
    requires i < lim <= |s| && s[i] in seps
    ensures Spans(s, i, lim, seps) == Spans(s, i + 1, lim, seps)
  {
  }

  lemma {:induction false} LengthAtLeast(buf: seq<Char>, p: nat, q: nat)
    requires p <= q <= |buf| && forall k :: p <= k < q ==> buf[k] != NUL
    ensures Length(buf, p) >= q - p
    decreases q - p
  {
    if p < q { LengthAtLeast(buf, p + 1, q); }
  }

  lemma Bounded(buf: seq<Char>, p: nat, end: nat)
    requires p <= end < |buf| && buf[end] == NUL
    ensures p + Length(buf, p) <= end
  {
  }
}
