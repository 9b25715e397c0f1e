/** The circular doubly linked list of `dlist.h`, with its head as one more node of the ring. */
module CircularList {

  class ListNode {
    var next: ListNode
    var prev: ListNode

    /** `INIT_LIST_HEAD` */
    constructor ()
      ensures IsList(this, [])
    {
      next, prev := this, this;
    }
  }

  ghost predicate Linked(a: ListNode, b: ListNode)
    reads a, b
  {
    a.next == b && b.prev == a
  }

  /** The node after the one at `i`. */
  function After(s: seq<ListNode>, i: nat): ListNode
    requires i < |s|
  {
    if i + 1 == |s| then s[0] else s[i + 1]
  }

  /** The nodes of `s` are different and lead around in a ring, forwards and backwards. */
  ghost predicate Ring(s: seq<ListNode>)
    reads s
  {
    && (forall i, j :: 0 <= i < j < |s| ==> s[i] != s[j])
    && (forall i :: 0 <= i < |s| ==> Linked(s[i], After(s, i)))
  }

  /** The list with this head has these entries, in this order. */
  ghost predicate IsList(head: ListNode, entries: seq<ListNode>)
    reads head, entries
  {
    Ring([head] + entries)
  }

  // ---------- rings ----------

  /** The links determine the entries. */
  lemma EntriesAreUnique(head: ListNode, a: seq<ListNode>, b: seq<ListNode>)
    requires IsList(head, a) && IsList(head, b)
    ensures a == b
  {
    var s, t := [head] + a, [head] + b;
    if |a| <= |b| { SameRing(s, t); } else { SameRing(t, s); }
    assert a == s[1..] && b == t[1..];
  }

  lemma SameRing(s: seq<ListNode>, t: seq<ListNode>)
    requires Ring(s) && Ring(t) && 0 < |s| <= |t| && s[0] == t[0]
    ensures s == t
  {
    SamePrefix(s, t, |s|);
    assert s == s[..|s|] && s[|s| - 1] == t[..|s|][|s| - 1];
    assert Linked(s[|s| - 1], After(s, |s| - 1)) && Linked(t[|s| - 1], After(t, |s| - 1));
    assert forall i :: 0 < i < |t| ==> t[i] != t[0];
  }

  lemma {:induction false} SamePrefix(s: seq<ListNode>, t: seq<ListNode>, n: nat)
    requires Ring(s) && Ring(t) && 0 < n <= |s| <= |t| && s[0] == t[0]
    ensures s[..n] == t[..n]
    decreases n
  {
    if n > 1 {
      SamePrefix(s, t, n - 1);
      assert s[..n - 1][n - 2] == t[..n - 1][n - 2];
      assert Linked(s[n - 2], After(s, n - 2)) && Linked(t[n - 2], After(t, n - 2));
      assert s[..n] == s[..n - 1] + [s[n - 1]] && t[..n] == t[..n - 1] + [t[n - 1]];
    }
  }

  /** A ring can be read from any of its nodes. */
  lemma Rotated(s: seq<ListNode>, k: nat)
    requires Ring(s) && k <= |s|
    ensures Ring(s[k..] + s[..k])
  {
    var t := s[k..] + s[..k];
    forall i | 0 <= i < |t| ensures Linked(t[i], After(t, i)) {
      var j := if i + k < |s| then i + k else i + k - |s|;
      assert t[i] == s[j] && After(t, i) == After(s, j);
    }
  }

  // ---------- insertion and removal ----------

  /** `__list_add`, where a list is open between its last node and its first. */
  method Add(node: ListNode, prev: ListNode, next: ListNode, ghost s: seq<ListNode>)
    requires Ring(s) && s != [] && node !in s && next == s[0] && prev == s[|s| - 1]
    modifies node, prev, next
    ensures Ring(s + [node])
  {
    assert Linked(s[|s| - 1], After(s, |s| - 1));
    next.prev := node;
    node.next := next;
    node.prev := prev;
    prev.next := node;
    ghost var t := s + [node];
    forall i | 0 <= i < |t| ensures Linked(t[i], After(t, i)) {
      if i + 1 < |s| { assert old(Linked(s[i], After(s, i))); }
    }
  }

  /** `list_unshift` */
  method Unshift(node: ListNode, head: ListNode, ghost entries: seq<ListNode>)
    requires IsList(head, entries) && node != head && node !in entries
    modifies node, head, head.next
    ensures IsList(head, [node] + entries)
  {
    ghost var s := [head] + entries;
    assert Linked(s[0], After(s, 0));
    Rotated(s, 1);
    assert s[1..] + s[..1] == entries + [head];
    Add(node, head, head.next, entries + [head]);
    ghost var t := entries + [head] + [node];
    Rotated(t, |entries|);
    assert t[|entries|..] + t[..|entries|] == [head] + ([node] + entries);
  }

  /** `list_push` */
  method Push(node: ListNode, head: ListNode, ghost entries: seq<ListNode>)
    requires IsList(head, entries) && node != head && node !in entries
    modifies node, head, head.prev
    ensures IsList(head, entries + [node])
  {
    ghost var s := [head] + entries;
    assert Linked(s[|entries|], After(s, |entries|));
    Add(node, head.prev, head, s);
    assert s + [node] == [head] + (entries + [node]);
  }

  /** `__list_del`, of the only node between `prev` and `next`. */
  method Unlink(prev: ListNode, next: ListNode, ghost s: seq<ListNode>, ghost node: ListNode)
    requires Ring(s + [node]) && node.prev == prev && node.next == next
    modifies prev, next
    ensures Ring(s)
    ensures s == [] ==> Ring([node])
    ensures node !in s && (s != [] ==> prev == s[|s| - 1] && next == s[0])
  {
    ghost var t := s + [node];
    assert t[|s|] == node && Linked(t[|s|], After(t, |s|));
    if s != [] { assert Linked(t[|s| - 1], After(t, |s| - 1)); }
    next.prev := prev;
    prev.next := next;
    forall i | 0 <= i < |s| ensures Linked(s[i], After(s, i)) {
      assert old(Linked(t[i], After(t, i)));
    }
    forall i, j | 0 <= i < j < |s| ensures s[i] != s[j] { assert t[i] != t[j]; }
    forall i | 0 <= i < |s| ensures s[i] != node { assert t[i] != t[|s|]; }
  }

  /** `list_del`, of the entry between `before` and `behind`. */
  method Delete(entry: ListNode, ghost head: ListNode, ghost before: seq<ListNode>, ghost behind: seq<ListNode>)
    requires IsList(head, before + [entry] + behind)
    modifies entry, entry.prev, entry.next
    ensures IsList(head, before + behind) && IsList(entry, [])
    ensures entry != head && entry !in before + behind
  {
    Detach(entry, head, before, behind);
    entry.next := entry;
    entry.prev := entry;
  }

  /** `list_empty` */
  method IsEmpty(head: ListNode, ghost entries: seq<ListNode>) returns (empty: bool)
    requires IsList(head, entries)
    ensures empty <==> entries == []
  {
    ghost var s := [head] + entries;
    assert Linked(s[0], After(s, 0));
    empty := head.next == head;
  }

  /** `list_shift` */
  method Shift(head: ListNode, ghost entries: seq<ListNode>) returns (first: ListNode?)
    requires IsList(head, entries)
    modifies head, entries
    ensures entries == [] ==> first == null && IsList(head, [])
    ensures entries != [] ==> first == entries[0] && IsList(head, entries[1..]) && IsList(entries[0], [])
  {
    var empty := IsEmpty(head, entries);
    if empty {
      return null;
    }
    ghost var s := [head] + entries;
    assert Linked(s[0], After(s, 0)) && Linked(s[1], After(s, 1)) && head.next in entries && head.next.next in s;
    assert entries == [] + [head.next] + entries[1..];
    first := head.next;
    Delete(first, head, [], entries[1..]);
    assert [] + entries[1..] == entries[1..];
  }

  /** `list_pop` */
  method Pop(head: ListNode, ghost entries: seq<ListNode>) returns (last: ListNode?)
    requires IsList(head, entries)
    modifies head, entries
    ensures entries == [] ==> last == null && IsList(head, [])
    ensures entries != [] ==>
              var n := |entries| - 1; last == entries[n] && IsList(head, entries[..n]) && IsList(entries[n], [])
  {
    var empty := IsEmpty(head, entries);
    if empty {
      return null;
    }
    ghost var s, n := [head] + entries, |entries| - 1;
    assert Linked(s[n + 1], After(s, n + 1)) && Linked(s[n], After(s, n)) && head.prev in entries && head.prev.prev in s;
    assert entries == entries[..n] + [head.prev] + [];
    last := head.prev;
    Delete(last, head, entries[..n], []);
    assert entries[..n] + [] == entries[..n];
  }

  // ---------- moving ----------

  /** `__list_del`, of the entry between `before` and `behind`. */
  method Detach(entry: ListNode, ghost head: ListNode, ghost before: seq<ListNode>, ghost behind: seq<ListNode>)
    requires IsList(head, before + [entry] + behind)
    modifies entry.prev, entry.next
    ensures IsList(head, before + behind) && entry != head && entry !in before + behind
  {
    ghost var s, k := [head] + (before + [entry] + behind), |before| + 2;
    Rotated(s, k);
    ghost var t := behind + ([head] + before);
    assert s[k..] + s[..k] == t + [entry];
    Unlink(entry.prev, entry.next, t, entry);
    Rotated(t, |behind|);
    assert t[|behind|..] + t[..|behind|] == [head] + (before + behind);
    assert entry !in t && head in t;
  }

  /** `list_move_tail` within a list. */
  method MoveToTail(entry: ListNode, head: ListNode, ghost before: seq<ListNode>, ghost behind: seq<ListNode>)
    requires IsList(head, before + [entry] + behind)
    modifies entry, head, before, behind
    ensures IsList(head, before + behind + [entry])
  {
    Neighbours(entry, head, before, behind);
    Detach(entry, head, before, behind);
    PrevIn(head, before + behind);
    Push(entry, head, before + behind);
  }

  /** `list_move_tail` to another list. */
  method MoveTail(entry: ListNode, head: ListNode,
                  ghost from: ListNode, ghost before: seq<ListNode>, ghost behind: seq<ListNode>, ghost entries: seq<ListNode>)
    requires IsList(from, before + [entry] + behind) && IsList(head, entries)
    requires forall x :: x in [from] + (before + [entry] + behind) ==> x !in [head] + entries
    modifies entry, from, before, behind, head, entries
    ensures IsList(from, before + behind) && IsList(head, entries + [entry])
  {
    Neighbours(entry, from, before, behind);
    ghost var source := [from] + (before + [entry] + behind);
    assert entry in before + [entry] + behind;
    assert forall x :: x in [from] + before || x in [from] + behind || x == entry ==> x in source && x !in [head] + entries;
    Detach(entry, from, before, behind);
    assert IsList(head, entries) && head in [head] + entries && forall x :: x in entries ==> x in [head] + entries;
    PrevIn(head, entries);
    Push(entry, head, entries);
  }

  lemma Neighbours(entry: ListNode, head: ListNode, before: seq<ListNode>, behind: seq<ListNode>)
    requires IsList(head, before + [entry] + behind)
    ensures entry.prev in [head] + before && entry.next in [head] + behind
  {
    var s, k := [head] + (before + [entry] + behind), |before|;
    assert s[k + 1] == entry && s[k] in [head] + before;
    assert Linked(s[k], After(s, k)) && Linked(s[k + 1], After(s, k + 1));
    assert k + 2 < |s| ==> s[k + 2] == behind[0];
  }

  lemma PrevIn(head: ListNode, entries: seq<ListNode>)
    requires IsList(head, entries)
    ensures head.prev in [head] + entries && head.next in [head] + entries
  {
    var s := [head] + entries;
    assert Linked(s[|entries|], After(s, |entries|)) && Linked(s[0], After(s, 0));
  }

  /** `list_splice_init` */
  method SpliceInit(list: ListNode, head: ListNode, ghost added: seq<ListNode>, ghost entries: seq<ListNode>)
    requires IsList(list, added) && IsList(head, entries)
    requires forall x :: x in [list] + added ==> x !in [head] + entries
    modifies list, added, head, entries
    ensures IsList(head, added + entries) && IsList(list, [])
  {
    var empty := IsEmpty(list, added);
    if empty {
      assert added + entries == entries;
    } else {
      PrevIn(list, added);
      PrevIn(head, entries);
      Splice(list, head, added, entries);
      list.next := list;
      list.prev := list;
    }
  }

  /** `__list_splice`, which leaves the links of `list` as they are. */
  method Splice(list: ListNode, head: ListNode, ghost added: seq<ListNode>, ghost entries: seq<ListNode>)
    requires IsList(list, added) && IsList(head, entries) && added != []
    requires forall x :: x in [list] + added ==> x !in [head] + entries
    modifies list.next, list.prev, head, head.next
    ensures IsList(head, added + entries) && list !in [head] + (added + entries)
  {
    ghost var s, u, n := [list] + added, [head] + entries, |added|;
    assert Linked(s[0], After(s, 0)) && Linked(s[n], After(s, n)) && Linked(u[0], After(u, 0));
    assert s[n] in s && s[1] in s && u[0] in u && After(u, 0) in u;
    var first, last, at := list.next, list.prev, head.next;
    first.prev := head;
    head.next := first;
    last.next := at;
    at.prev := last;
    ghost var t := [head] + (added + entries);
    forall k | 1 <= k < n ensures Linked(s[k], s[k + 1]) {
      assert old(Linked(s[k], After(s, k)));
      assert s[k] in s && s[k + 1] in s && s[k] != s[n] && s[k + 1] != s[1];
    }
    forall k | 1 <= k < |u| ensures Linked(u[k], After(u, k)) {
      assert old(Linked(u[k], After(u, k)));
      assert u[k] in u && After(u, k) in u && After(u, k) != After(u, 0);
    }
    SplicedIsDistinct(list, head, added, entries);
    hide Ring;
    forall k | 0 <= k < |t| ensures Linked(t[k], After(t, k)) {
      assert t[k] == (if 1 <= k <= n then s[k] else u[if k == 0 then 0 else k - n]);
      assert After(t, k) == (if k < n then s[k + 1] else After(u, k - n));
    }
  }

  lemma SplicedIsDistinct(list: ListNode, head: ListNode, added: seq<ListNode>, entries: seq<ListNode>)
    requires var s := [list] + added; forall i, j :: 0 <= i < j < |s| ==> s[i] != s[j]
    requires var u := [head] + entries; forall i, j :: 0 <= i < j < |u| ==> u[i] != u[j]
    requires forall x :: x in [list] + added ==> x !in [head] + entries
    ensures var t := [head] + (added + entries);
            (forall i, j :: 0 <= i < j < |t| ==> t[i] != t[j]) && list !in t
  {
    var s, t, u, n := [list] + added, [head] + (added + entries), [head] + entries, |added|;
    forall i, j | 0 <= i < j < |t| ensures t[i] != t[j] {
      var x, y := if 1 <= i <= n then i else if i == 0 then 0 else i - n, if 1 <= j <= n then j else j - n;
      assert if 1 <= i <= n then t[i] == s[x] && s[x] in s else t[i] == u[x] && u[x] in u;
      assert if 1 <= j <= n then t[j] == s[y] && s[y] in s else t[j] == u[y] && u[y] in u;
    }
    forall i | 0 <= i < |t| ensures t[i] != list {
      assert (if 1 <= i <= n then t[i] == s[i] && s[0] == list else t[i] == u[if i == 0 then 0 else i - n] && list in s);
    }
  }

  // ---------- loops ----------

  function Reversed(s: seq<ListNode>): (r: seq<ListNode>)
    ensures |r| == |s|
  {
    if s == [] then [] else Reversed(s[1..]) + [s[0]]
  }

  lemma {:induction false} ReversedAt(s: seq<ListNode>, k: nat)
    requires k < |s|
    ensures Reversed(s)[k] == s[|s| - 1 - k]
  {
    if k < |s| - 1 { ReversedAt(s[1..], k); }
  }

  /** Reversing twice changes nothing. */
  lemma {:induction false} ReversedTwice(s: seq<ListNode>)
    ensures Reversed(Reversed(s)) == s
  {
    var t := Reversed(s);
    forall k | 0 <= k < |s| ensures Reversed(t)[k] == s[k] {
      ReversedAt(t, k);
      ReversedAt(s, |s| - 1 - k);
    }
  }

  /** `list_size` */
  method Size(head: ListNode, ghost entries: seq<ListNode>) returns (count: nat)
    requires IsList(head, entries)
    ensures count == |entries|
  {
    count := 0;
    ghost var s := [head] + entries;
    assert Linked(s[0], After(s, 0));
    var p := head.next;
    while p != head
      invariant count <= |entries| && p == After(s, count)
      decreases |entries| - count
    {
      assert Linked(s[count + 1], After(s, count + 1));
      p := p.next;
      count := count + 1;
    }
  }

  /** The node before the one at `k`. */
  function Prior(s: seq<ListNode>, k: nat): ListNode
    requires k < |s|
  {
    s[if k == 0 then |s| - 1 else k - 1]
  }

  ghost predicate Between(s: seq<ListNode>, k: nat)
    requires k < |s|
    reads s[k]
  {
    s[k].next == After(s, k) && s[k].prev == Prior(s, k)
  }

  /** The links of the node at `k` have been exchanged. */
  ghost predicate Exchanged(s: seq<ListNode>, k: nat)
    requires k < |s|
    reads s[k]
  {
    s[k].next == Prior(s, k) && s[k].prev == After(s, k)
  }

  lemma InARing(s: seq<ListNode>)
    requires Ring(s)
    ensures forall k :: 0 <= k < |s| ==> Between(s, k)
  {
    forall k | 0 <= k < |s| ensures Between(s, k) {
      assert Linked(s[k], After(s, k));
      assert Linked(Prior(s, k), After(s, if k == 0 then |s| - 1 else k - 1));
    }
  }

  /** `list_reverse` */
  method Reverse(head: ListNode, ghost entries: seq<ListNode>)
    requires IsList(head, entries)
    modifies head, entries
    ensures IsList(head, Reversed(entries))
  {
    var empty := IsEmpty(head, entries);
    if !empty {
      ghost var s := [head] + entries;
      ghost var i := 1;
      InARing(s);
      assert Between(s, 0) && Between(s, 1);
      assert forall i, j :: 0 <= i < j < |s| ==> s[i] != s[j];
      hide Linked, Ring;
      var p := head.next;
      var n := p.next;
      while p != head
        invariant 1 <= i <= |s| && p == After(s, i - 1) && (i < |s| ==> n == After(s, i))
        invariant forall k :: 1 <= k < i ==> Exchanged(s, k)
        invariant forall k :: i <= k < |s| ==> Between(s, k)
        invariant Between(s, 0)
        decreases |s| - i
      {
        assert p == s[i] && Between(s, i) && (i + 1 < |s| ==> Between(s, i + 1));
        var tmp := p.prev;
        p.prev := p.next;
        p.next := tmp;
        assert Exchanged(s, i);
        assert forall k :: 0 <= k < |s| && k != i ==> s[k] != p;
        p := n;
        n := p.next;
        i := i + 1;
      }
      var tmp := head.prev;
      head.prev := head.next;
      head.next := tmp;
      AllExchanged(head, entries);
    }
  }

  lemma AllExchanged(head: ListNode, entries: seq<ListNode>)
    requires var s := [head] + entries;
             && (forall i, j :: 0 <= i < j < |s| ==> s[i] != s[j]) && (forall k :: 0 <= k < |s| ==> Exchanged(s, k))
    ensures IsList(head, Reversed(entries))
  {
    var s, t, n := [head] + entries, [head] + Reversed(entries), |entries|;
    forall k | 0 < k <= n ensures t[k] == s[n + 1 - k] {
      ReversedAt(entries, k - 1);
    }
    forall k | 0 <= k < |t| ensures Linked(t[k], After(t, k)) {
      var i, j := if k == 0 then 0 else n + 1 - k, if k == n then 0 else n - k;
      assert t[k] == s[i] && After(t, k) == s[j];
      assert Exchanged(s, i) && Exchanged(s, j);
    }
    forall i, j | 0 <= i < j < |t| ensures t[i] != t[j] {
      assert t[j] == s[n + 1 - j] && t[i] == s[if i == 0 then 0 else n + 1 - i];
    }
  }

  /** `list_contain`; with `rounds`, how often its loop runs. */
  method Contains(head: ListNode, entry: ListNode, ghost entries: seq<ListNode>) returns (found: bool, ghost rounds: nat)
    requires IsList(head, entries)
    ensures found <==> entry in entries || (entries == [] && entry == head)
    ensures rounds <= if entries == [] then 1 else (|entries| + 1) / 2
  {
    ghost var s := [head] + entries;
    var before, after := head.next, head.prev;
    rounds := 0;
    Fingers(s, 0);
    hide Ring, Missed;
    NothingMissed(s, entry);
    while true
      invariant rounds < |s| && (rounds == 0 || 2 * rounds < |s| - 1)
      invariant before == After(s, rounds) && after == s[|s| - 1 - rounds] && Missed(s, entry, rounds)
      decreases |s| - rounds
    {
      if entry == before || entry == after {
        IsAmong(head, entries, rounds);
        rounds := rounds + 1;
        return true, rounds;
      }
      MissedMore(s, entry, rounds);
      rounds := rounds + 1;
      Fingers(s, rounds);
      before, after := before.next, after.prev;
      if before == head || after == head || before.prev == after || before.prev == after.next {
        break;
      }
    }
    NotAmong(head, entries, entry, rounds);
    return false, rounds;
  }

  /** `entry` is not among the first `r` entries, nor among the last. */
  ghost predicate Missed(s: seq<ListNode>, entry: ListNode, r: nat) {
    && (s != [] && r > 0 ==> After(s, 0) != entry)
    && forall k :: 1 <= k < |s| && (k <= r || |s| - r <= k) ==> s[k] != entry
  }

  lemma NothingMissed(s: seq<ListNode>, entry: ListNode)
    ensures Missed(s, entry, 0)
  {
  }

  lemma MissedMore(s: seq<ListNode>, entry: ListNode, r: nat)
    requires r < |s| && Missed(s, entry, r) && After(s, r) != entry && s[|s| - 1 - r] != entry
    ensures Missed(s, entry, r + 1)
  {
  }

  lemma NotAmong(head: ListNode, entries: seq<ListNode>, entry: ListNode, r: nat)
    requires var s := [head] + entries; Missed(s, entry, r) && r > 0 && 2 * r >= |s| - 1
    ensures entry !in entries && (entries == [] ==> entry != head)
  {
    assert forall k :: 0 <= k < |entries| ==> entries[k] == ([head] + entries)[k + 1];
  }

  lemma IsAmong(head: ListNode, entries: seq<ListNode>, r: nat)
    requires var s := [head] + entries; r < |s| && (r == 0 || 2 * r < |s| - 1)
    ensures var s := [head] + entries;
            forall entry | entry == After(s, r) || entry == s[|s| - 1 - r] :: entry in entries || (entries == [] && entry == head)
  {
  }

  /** The two fingers of list_contain after `r` rounds, and when they stop. */
  lemma Fingers(s: seq<ListNode>, r: nat)
    requires Ring(s) && s != [] && (r == 0 || |s| == r == 1 || (r < |s| && 2 * (r - 1) < |s| - 1))
    ensures r == 0 ==> s[0].next == After(s, 0) && s[0].prev == s[|s| - 1]
    ensures r == |s| == 1 ==> s[0].next == s[0] == s[0].prev
    ensures 0 < r < |s| ==>
              var before, after := After(s, r), s[|s| - 1 - r];
              && s[r].next == before && s[|s| - r].prev == after
              && ((before == s[0] || after == s[0] || before.prev == after || before.prev == after.next) <==> 2 * r >= |s| - 1)
  {
    var n := |s|;
    InARing(s);
    assert Between(s, 0);
    if 0 < r < n {
      assert Between(s, r) && Between(s, n - r);
      assert Between(s, if r + 1 == n then 0 else r + 1) && Between(s, n - 1 - r);
      assert After(s, n - 1 - r) == s[n - r];
    }
  }
}
