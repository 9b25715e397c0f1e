/** The ternary search tree of `tsearch_tree.c` on linked nodes. */
module TernaryTrees {
  import opened Basics
  import opened TstShape
  import opened TstMap
  import opened TstRuns

  /** `struct tst_node`; the value of an end node, which the source keeps in `e`, has a field of its own. */
  class TstNode<V> {
    var c: Char
    var l: TstNode?<V>
    var e: TstNode?<V>
    var r: TstNode?<V>
    var value: Option<V>
    ghost var shape: Tst<V>
    ghost var repr: set<TstNode<V>>

    /** The links spell `shape` with the nodes of `repr`, each once; the `r` link of an end node is not one
        of those links, but leads back over the `e` link to it, or is NULL. */
    ghost predicate Valid()
      reads this, repr
      decreases repr
    {
      && this in repr
      && (l != null ==> l in repr && l.repr <= repr && this !in l.repr && l in l.repr && l.Valid())
      && LeadsBack(l, null)
      && if c == TCHAR then
           && value.Some? && shape == End(value.value, ShapeOf(l), r != null)
           && repr == {this} + ReprOf(l)
         else
           && (e != null ==> e in repr && e.repr <= repr && this !in e.repr && e in e.repr && e.Valid())
           && (r != null ==> r in repr && r.repr <= repr && this !in r.repr && r in r.repr && r.Valid())
           && shape == Node(c, ShapeOf(l), ShapeOf(e), ShapeOf(r))
           && repr == {this} + ReprOf(l) + ReprOf(e) + ReprOf(r)
           && ReprOf(l) !! ReprOf(e) && ReprOf(l) !! ReprOf(r) && ReprOf(e) !! ReprOf(r)
           && LeadsBack(e, this) && LeadsBack(r, null)
    }

    constructor (c: Char, e: TstNode?<V>, value: Option<V>)
      ensures this.c == c && this.e == e && this.value == value && l == null && r == null
      ensures shape == Nil && repr == {}
    {
      this.c, this.e, this.value, l, r := c, e, value, null, null;
      shape, repr := Nil, {};
    }
  }

  /** What is below the three links of a node is valid, and apart. */
  ghost predicate Apart<V>(n: TstNode<V>)
    reads n, n.l, n.e, n.r, ReprOf(n.l), ReprOf(n.e), ReprOf(n.r)
  {
    && n.c != TCHAR && Good(n.l) && Good(n.e) && Good(n.r)
    && LeadsBack(n.l, null) && LeadsBack(n.e, n) && LeadsBack(n.r, null)
    && n !in ReprOf(n.l) && n !in ReprOf(n.e) && n !in ReprOf(n.r)
    && ReprOf(n.l) !! ReprOf(n.e) && ReprOf(n.l) !! ReprOf(n.r) && ReprOf(n.e) !! ReprOf(n.r)
  }

  /** What the links of a node spell, and the nodes below it. */
  ghost function Spelled<V>(n: TstNode<V>): Tst<V>
    reads n, n.l, n.e, n.r
  {
    Node(n.c, ShapeOf(n.l), ShapeOf(n.e), ShapeOf(n.r))
  }

  ghost function Below<V>(n: TstNode<V>): set<TstNode<V>>
    reads n, n.l, n.e, n.r
  {
    ReprOf(n.l) + ReprOf(n.e) + ReprOf(n.r)
  }

  lemma Parts<V>(n: TstNode<V>)
    requires n.Valid() && n.c != TCHAR
    ensures Apart(n) && n.shape == Spelled(n) && n.repr == {n} + Below(n)
  {
  }

  lemma Disjoint<V>(n: TstNode<V>)
    requires Apart(n)
    ensures Good(n.l) && Good(n.e) && Good(n.r) && LeadsBack(n.l, null) && LeadsBack(n.e, n) && LeadsBack(n.r, null)
    ensures n !in ReprOf(n.l) && n !in ReprOf(n.e) && n !in ReprOf(n.r)
    ensures ReprOf(n.l) !! ReprOf(n.e) && ReprOf(n.l) !! ReprOf(n.r) && ReprOf(n.e) !! ReprOf(n.r)
  {
  }

  // What is below one link has changed, and nothing below the others.

  twostate lemma LeftChanged<V>(n: TstNode<V>)
    requires old(Apart(n)) && n.c == old(n.c) && n.e == old(n.e) && n.r == old(n.r)
    requires unchanged(old(ReprOf(n.e))) && unchanged(old(ReprOf(n.r)))
    requires Good(n.l) && LeadsBack(n.l, null) && fresh(ReprOf(n.l) - old(ReprOf(n.l)))
    ensures Apart(n) && fresh(Below(n) - old(Below(n)))
    ensures ReprOf(n.l) <= old(ReprOf(n.l)) ==> Below(n) <= old(Below(n))
    ensures ShapeOf(n.e) == old(ShapeOf(n.e)) && ShapeOf(n.r) == old(ShapeOf(n.r))
  {
    hide TstNode.Valid;
  }

  twostate lemma BelowChanged<V>(n: TstNode<V>)
    requires old(Apart(n)) && n.c == old(n.c) && n.l == old(n.l) && n.r == old(n.r)
    requires unchanged(old(ReprOf(n.l))) && unchanged(old(ReprOf(n.r)))
    requires Good(n.e) && LeadsBack(n.e, n) && fresh(ReprOf(n.e) - old(ReprOf(n.e)))
    ensures Apart(n) && fresh(Below(n) - old(Below(n)))
    ensures ReprOf(n.e) <= old(ReprOf(n.e)) ==> Below(n) <= old(Below(n))
    ensures ShapeOf(n.l) == old(ShapeOf(n.l)) && ShapeOf(n.r) == old(ShapeOf(n.r))
  {
    hide TstNode.Valid;
  }

  twostate lemma RightChanged<V>(n: TstNode<V>)
    requires old(Apart(n)) && n.c == old(n.c) && n.l == old(n.l) && n.e == old(n.e)
    requires unchanged(old(ReprOf(n.l))) && unchanged(old(ReprOf(n.e)))
    requires Good(n.r) && LeadsBack(n.r, null) && fresh(ReprOf(n.r) - old(ReprOf(n.r)))
    ensures Apart(n) && fresh(Below(n) - old(Below(n)))
    ensures ReprOf(n.r) <= old(ReprOf(n.r)) ==> Below(n) <= old(Below(n))
    ensures ShapeOf(n.l) == old(ShapeOf(n.l)) && ShapeOf(n.e) == old(ShapeOf(n.e))
  {
    hide TstNode.Valid;
  }

  /** The links of a node have changed, or what is below them. */
  ghost method Refresh<V>(n: TstNode<V>)
    requires Apart(n)
    modifies n`shape, n`repr
    ensures n.Valid()
    ensures n.shape == old(Spelled(n)) && n.repr == old({n} + Below(n))
  {
    Disjoint(n);
    ghost var l, e, r, shape, below := n.l, n.e, n.r, Spelled(n), Below(n);
    hide TstNode.Valid, Apart;
    n.shape, n.repr := shape, {n} + below;
    assert Good(l) && Good(e) && Good(r);
    assert ReprOf(l) == old(ReprOf(l)) && ReprOf(e) == old(ReprOf(e)) && ReprOf(r) == old(ReprOf(r));
    assert Spelled(n) == shape && Below(n) == below;
    hide Good, ReprOf, ShapeOf, Spelled, Below;
    Whole(n);
  }

  lemma Whole<V>(n: TstNode<V>)
    requires n.c != TCHAR && Good(n.l) && Good(n.e) && Good(n.r)
    requires LeadsBack(n.l, null) && LeadsBack(n.e, n) && LeadsBack(n.r, null)
    requires n !in ReprOf(n.l) && n !in ReprOf(n.e) && n !in ReprOf(n.r)
    requires ReprOf(n.l) !! ReprOf(n.e) && ReprOf(n.l) !! ReprOf(n.r) && ReprOf(n.e) !! ReprOf(n.r)
    requires n.shape == Spelled(n) && n.repr == {n} + Below(n)
    ensures n.Valid()
  {
  }

  ghost method RefreshEnd<V>(n: TstNode<V>)
    requires n.c == TCHAR && n.value.Some? && Good(n.l) && LeadsBack(n.l, null) && n !in ReprOf(n.l)
    modifies n`shape, n`repr
    ensures n.Valid() && n.shape == old(End(n.value.value, ShapeOf(n.l), n.r != null)) && n.repr == old({n} + ReprOf(n.l))
  {
    n.shape, n.repr := End(n.value.value, ShapeOf(n.l), n.r != null), {n} + ReprOf(n.l);
  }

  ghost function ShapeOf<V>(n: TstNode?<V>): Tst<V>
    reads n
  {
    if n == null then Nil else n.shape
  }

  ghost function ReprOf<V>(n: TstNode?<V>): set<TstNode<V>>
    reads n
  {
    if n == null then {} else n.repr
  }

  ghost function Just<V>(n: TstNode?<V>): set<TstNode<V>> {
    if n == null then {} else {n}
  }

  ghost predicate Good<V>(n: TstNode?<V>)
    reads n, ReprOf(n)
  {
    n != null ==> n in n.repr && n.Valid()
  }

  /** If `n` is an end node, its `r` link is NULL or leads to `up`. */
  ghost predicate LeadsBack<V>(n: TstNode?<V>, up: TstNode?<V>)
    reads n
  {
    n != null && n.c == TCHAR ==> n.r == null || n.r == up
  }

  /** `tstree_t` */
  class TernaryTree<V> {
    var head: TstNode?<V>
    var keyNum: int

    ghost predicate Valid()
      reads this, head, ReprOf(head)
    {
      Good(head) && LeadsBack(head, null) && WellFormed(ShapeOf(head)) && Full(ShapeOf(head))
    }

    ghost function Shape(): Tst<V>
      reads this, head
    {
      ShapeOf(head)
    }

    ghost function Map(): map<Key, V>
      reads this, head, ReprOf(head)
      requires Valid()
    {
      Contents(Shape())
    }

    /** `tst_init` */
    constructor ()
      ensures Valid() && Map() == map[] && keyNum == 0
    {
      head, keyNum := null, 0;
    }

    /** `tst_search_r` */
    static method SearchFrom(n: TstNode?<V>, key: Key, i: nat) returns (found: Option<V>)
      requires Good(n) && i <= |key|
      ensures found == Search(ShapeOf(n), key, i)
      decreases ShapeOf(n)
    {
      if n == null {
        return None;
      }
      var c := CharAt(key, i);
      if n.c != TCHAR {
        if c == TCHAR { return None; }
        if c < n.c { found := SearchFrom(n.l, key, i); return; }
        if c == n.c { found := SearchFrom(n.e, key, i + 1); return; }
        found := SearchFrom(n.r, key, i);
      } else if c == TCHAR {
        found := n.value;
      } else {
        found := SearchFrom(n.l, key, i);
      }
    }

    /** `tst_search` */
    method Find(key: Key) returns (found: Option<V>)
      requires Valid()
      ensures found == Get(Map(), key)
    {
      found := SearchFrom(head, key, 0);
      SearchLooksUp(Shape(), key, 0);
      assert key[0..] == key;
    }

    /** `makeNullHead` */
    static method MakeNullHead(key: Key, value: V, i: nat) returns (n: TstNode<V>)
      requires i <= |key|
      ensures n.Valid() && fresh(n.repr) && n.shape == Made(key, value, i) && LeadsBack(n, null)
      decreases |key| - i
    {
      var c := CharAt(key, i);
      if c == TCHAR {
        n := new TstNode(TCHAR, null, Some(value));
        RefreshEnd(n);
      } else {
        var below := MakeNullHead(key, value, i + 1);
        n := NewNode(below, c);
      }
    }

    /** `new_tst_node` */
    static method NewNode(e: TstNode<V>, c: Char) returns (n: TstNode<V>)
      requires e.Valid() && LeadsBack(e, null) && c != TCHAR
      modifies e
      ensures n.Valid() && fresh(n) && n.repr == {n} + old(e.repr) && n.c == c
      ensures n.shape == Node(c, Nil, Linked(old(e.shape)), Nil)
    {
      n := new TstNode(c, e, None);
      ghost var nodes := e.repr;
      if e.c == TCHAR {
        e.r := n;
        RefreshEnd(e);
      }
      assert e.repr == nodes && e.Valid() && n !in e.repr;
      hide TstNode.Valid;
      Refresh(n);
    }

    /** `insertHeadR`, for the link that leads to `head`; `top` is where it leads afterwards.  Only directly
        below `up` an end node may have a back link. */
    static method InsertAt(head: TstNode?<V>, p: TstNode?<V>, ghost up: TstNode?<V>, key: Key, value: V, i: nat)
      returns (top: TstNode<V>, result: int, was: Option<V>)
      requires Good(head) && LeadsBack(head, up) && WellFormed(ShapeOf(head))
      requires i <= |key| && (i == |key| ==> p == up)
      modifies ReprOf(head)
      ensures Good(top) && LeadsBack(top, up) && fresh(top.repr - old(ReprOf(head)))
      ensures top.shape == Inserted(old(ShapeOf(head)), p != null, key, value, i)
      ensures was == Search(old(ShapeOf(head)), key, i) && result == if was.Some? then 1 else 0
      decreases ShapeOf(head), 3
    {
      var c := CharAt(key, i);
      if head == null {
        top := MakeNullHead(key, value, i);
        return top, 0, None;
      } else if head.c == TCHAR {
        result, was := InsertAtEnd(head, key, value, i);
        top := head;
      } else if c == TCHAR {
        top := new TstNode(TCHAR, null, Some(value));
        top.l, top.r := head, p;
        RefreshEnd(top);
        return top, 0, None;
      } else {
        result, was := InsertAtNode(head, key, value, i);
        top := head;
      }
    }

    /** Its part for end nodes, which stay where they are. */
    static method InsertAtEnd(head: TstNode<V>, key: Key, value: V, i: nat) returns (result: int, was: Option<V>)
      requires head.Valid() && WellFormed(head.shape) && head.c == TCHAR && i <= |key|
      modifies head.repr
      ensures head.Valid() && head.c == old(head.c) && head.r == old(head.r) && fresh(head.repr - old(head.repr))
      ensures head.shape == Inserted(old(head.shape), false, key, value, i)
      ensures was == Search(old(head.shape), key, i) && result == if was.Some? then 1 else 0
      decreases head.shape, 1
    {
      var c := CharAt(key, i);
      if c == TCHAR {
        was := head.value;
        head.value := Some(value);
        RefreshEnd(head);
        return 1, was;
      }
      var top;
      top, result, was := InsertAt(head.l, head, null, key, value, i);
      head.l := top;
      RefreshEnd(head);
    }

    /** Its part for other nodes, which stay too. */
    static method InsertAtNode(head: TstNode<V>, key: Key, value: V, i: nat) returns (result: int, was: Option<V>)
      requires head.Valid() && WellFormed(head.shape) && head.c != TCHAR && i < |key|
      modifies head.repr
      ensures head.Valid() && head.c == old(head.c) && fresh(head.repr - old(head.repr))
      ensures head.shape == Inserted(old(head.shape), true, key, value, i)
      ensures was == Search(old(head.shape), key, i) && result == if was.Some? then 1 else 0
      decreases head.shape, 2
    {
      Parts(head);
      UnderNode(head.shape, key, value, i);
      hide TstNode.Valid, Inserted, Search, WellFormed, Apart;
      var c := CharAt(key, i);
      if c < head.c {
        result, was := InsertLeft(head, key, value, i);
      } else if c == head.c {
        result, was := InsertBelow(head, key, value, i);
      } else {
        result, was := InsertRight(head, key, value, i);
      }
      Refresh(head);
    }

    static method InsertLeft(head: TstNode<V>, key: Key, value: V, i: nat) returns (result: int, was: Option<V>)
      requires Apart(head) && WellFormed(ShapeOf(head.l)) && i < |key| && key[i] < head.c
      modifies head, ReprOf(head.l)
      ensures Apart(head) && head.c == old(head.c) && fresh(Below(head) - old(Below(head)))
      ensures Spelled(head) == Node(head.c, Inserted(old(ShapeOf(head.l)), true, key, value, i), old(ShapeOf(head.e)), old(ShapeOf(head.r)))
      ensures was == Search(old(ShapeOf(head.l)), key, i) && result == if was.Some? then 1 else 0
      decreases Spelled(head), 0
    {
      Disjoint(head);
      hide TstNode.Valid, Inserted, Search, WellFormed, Apart;
      var top;
      top, result, was := InsertAt(head.l, head, null, key, value, i);
      assert head !in top.repr;
      head.l := top;
      LeftChanged(head);
    }

    static method InsertBelow(head: TstNode<V>, key: Key, value: V, i: nat) returns (result: int, was: Option<V>)
      requires Apart(head) && WellFormed(ShapeOf(head.e)) && i < |key| && key[i] == head.c
      modifies head, ReprOf(head.e)
      ensures Apart(head) && head.c == old(head.c) && fresh(Below(head) - old(Below(head)))
      ensures Spelled(head) == Node(head.c, old(ShapeOf(head.l)), Inserted(old(ShapeOf(head.e)), true, key, value, i + 1), old(ShapeOf(head.r)))
      ensures was == Search(old(ShapeOf(head.e)), key, i + 1) && result == if was.Some? then 1 else 0
      decreases Spelled(head), 0
    {
      Disjoint(head);
      hide TstNode.Valid, Inserted, Search, WellFormed, Apart;
      var top;
      top, result, was := InsertAt(head.e, head, head, key, value, i + 1);
      assert head !in top.repr;
      head.e := top;
      BelowChanged(head);
    }

    static method InsertRight(head: TstNode<V>, key: Key, value: V, i: nat) returns (result: int, was: Option<V>)
      requires Apart(head) && WellFormed(ShapeOf(head.r)) && i < |key| && key[i] > head.c
      modifies head, ReprOf(head.r)
      ensures Apart(head) && head.c == old(head.c) && fresh(Below(head) - old(Below(head)))
      ensures Spelled(head) == Node(head.c, old(ShapeOf(head.l)), old(ShapeOf(head.e)), Inserted(old(ShapeOf(head.r)), true, key, value, i))
      ensures was == Search(old(ShapeOf(head.r)), key, i) && result == if was.Some? then 1 else 0
      decreases Spelled(head), 0
    {
      Disjoint(head);
      hide TstNode.Valid, Inserted, Search, WellFormed, Apart;
      var top;
      top, result, was := InsertAt(head.r, head, null, key, value, i);
      assert head !in top.repr;
      head.r := top;
      RightChanged(head);
    }

    static lemma UnderNode(t: Tst<V>, key: Key, value: V, i: nat)
      requires t.Node? && i < |key| && WellFormed(t)
      ensures WellFormed(t.l) && WellFormed(t.e) && WellFormed(t.r)
      ensures Inserted(t, true, key, value, i) ==
              if key[i] < t.c then Node(t.c, Inserted(t.l, true, key, value, i), t.e, t.r)
              else if key[i] == t.c then Node(t.c, t.l, Inserted(t.e, true, key, value, i + 1), t.r)
              else Node(t.c, t.l, t.e, Inserted(t.r, true, key, value, i))
      ensures Search(t, key, i) ==
              if key[i] < t.c then Search(t.l, key, i)
              else if key[i] == t.c then Search(t.e, key, i + 1)
              else Search(t.r, key, i)
    {
    }

    /** Insertion at the head of a tree. */
    static method InsertTop(head: TstNode?<V>, key: Key, value: V) returns (top: TstNode<V>, result: int, was: Option<V>)
      requires Good(head) && LeadsBack(head, null) && WellFormed(ShapeOf(head)) && Full(ShapeOf(head))
      modifies ReprOf(head)
      ensures Good(top) && LeadsBack(top, null) && WellFormed(top.shape) && Full(top.shape)
      ensures top.shape == Inserted(old(ShapeOf(head)), false, key, value, 0)
      ensures Contents(top.shape) == Contents(old(ShapeOf(head)))[key := value]
      ensures was == Get(Contents(old(ShapeOf(head))), key) && result == (if was.Some? then 1 else 0)
    {
      InsertionUpdates(ShapeOf(head), key, value);
      InsertedKeeps(ShapeOf(head), false, key, value, 0);
      SearchLooksUp(ShapeOf(head), key, 0);
      assert key[0..] == key;
      top, result, was := InsertAt(head, null, null, key, value, 0);
    }

    /** `tst_insert` */
    method Insert(key: Key, value: V) returns (result: int, was: Option<V>)
      requires Valid()
      modifies this, ReprOf(head)
      ensures Valid() && Map() == old(Map())[key := value]
      ensures was == Get(old(Map()), key) && result == (if was.Some? then 1 else 0)
      ensures keyNum == old(keyNum) + 1 - result
      ensures Shape() == Inserted(old(Shape()), false, key, value, 0)
    {
      hide TstNode.Valid, WellFormed, Full, Contents, Inserted;
      var top;
      top, result, was := InsertTop(head, key, value);
      head := top;
      if result == 0 { keyNum := keyNum + 1; }
    }

    // ---------- deletion ----------

    /** `tst_delete_r`, for the link that leads to `head`; `top` is where it leads afterwards.  It says when it
        would have followed a NULL back link, instead of following it. */
    static method DeleteFrom(head: TstNode?<V>, up: TstNode?<V>, key: Key, i: nat)
      returns (top: TstNode?<V>, fault: bool, freed: Option<V>)
      requires Good(head) && LeadsBack(head, up) && WellFormed(ShapeOf(head)) && i <= |key|
      requires up !in ReprOf(head) && (up != null ==> up.e == head)
      modifies Just(up)`e, ReprOf(head)
      ensures Good(top) && LeadsBack(top, up) && ReprOf(top) <= old(ReprOf(head))
      ensures fault == Faults(old(ShapeOf(head)), key, i) && freed == Search(old(ShapeOf(head)), key, i)
      ensures ShapeOf(top) == if fault then old(ShapeOf(head)) else Deleted(old(ShapeOf(head)), key, i)
      decreases ShapeOf(head), 3
    {
      var c := CharAt(key, i);
      if head == null {
        return null, false, None;
      } else if head.c != TCHAR {
        if c == TCHAR {
          return head, false, None;
        }
        top, fault, freed := DeleteAtNode(head, key, i);
      } else if c == TCHAR {
        freed := head.value;
        if head.r == null {
          return head, true, freed;
        }
        head.r.e := head.l;
        return head.l, false, freed;
      } else {
        fault, freed := DeleteAtEnd(head, key, i);
        top := head;
      }
    }

    static method DeleteAtEnd(head: TstNode<V>, key: Key, i: nat) returns (fault: bool, freed: Option<V>)
      requires head.Valid() && WellFormed(head.shape) && head.c == TCHAR && i < |key|
      modifies head.repr
      ensures head.Valid() && head.c == old(head.c) && head.r == old(head.r) && head.repr <= old(head.repr)
      ensures fault == Faults(old(head.shape), key, i) && freed == Search(old(head.shape), key, i)
      ensures head.shape == if fault then old(head.shape) else Deleted(old(head.shape), key, i)
      decreases head.shape, 1
    {
      var top;
      top, fault, freed := DeleteFrom(head.l, null, key, i);
      head.l := top;
      RefreshEnd(head);
    }

    /** Its part for other nodes: the node is freed when nothing is left below it. */
    static method DeleteAtNode(head: TstNode<V>, key: Key, i: nat) returns (top: TstNode?<V>, fault: bool, freed: Option<V>)
      requires head.Valid() && WellFormed(head.shape) && head.c != TCHAR && i < |key|
      modifies head.repr
      ensures Good(top) && (top != null ==> top == head && head.c == old(head.c)) && ReprOf(top) <= old(head.repr)
      ensures fault == Faults(old(head.shape), key, i) && freed == Search(old(head.shape), key, i)
      ensures ShapeOf(top) == if fault then old(head.shape) else Deleted(old(head.shape), key, i)
      decreases head.shape, 2
    {
      ghost var t := head.shape;
      FromNode(t, key, i);
      hide Deleted, Search, Faults, WellFormed;
      fault, freed := DeleteUnder(head, key, i);
      Parts(head);
      NothingBelow(head);
      hide TstNode.Valid, Apart;
      top := if !fault && head.l == null && head.e == null && head.r == null then null else head;
    }

    static lemma NothingBelow(n: TstNode<V>)
      requires n.Valid()
      ensures (n.l == null <==> ShapeOf(n.l).Nil?) && (n.c != TCHAR ==> (n.e == null <==> ShapeOf(n.e).Nil?) && (n.r == null <==> ShapeOf(n.r).Nil?))
    {
    }

    static method DeleteUnder(head: TstNode<V>, key: Key, i: nat) returns (fault: bool, freed: Option<V>)
      requires head.Valid() && WellFormed(head.shape) && head.c != TCHAR && i < |key|
      modifies head.repr
      ensures head.Valid() && head.c == old(head.c) && head.repr <= old(head.repr)
      ensures fault == Faults(old(head.shape), key, i) && freed == Search(old(head.shape), key, i)
      ensures head.shape == if fault then old(head.shape) else Unpruned(old(head.shape), key, i)
      decreases head.shape, 1
    {
      Parts(head);
      FromNode(head.shape, key, i);
      hide TstNode.Valid, Deleted, Search, Faults, WellFormed, Apart;
      var c := CharAt(key, i);
      if c < head.c {
        fault, freed := DeleteLeft(head, key, i);
      } else if c == head.c {
        fault, freed := DeleteBelow(head, key, i);
      } else {
        fault, freed := DeleteRight(head, key, i);
      }
      Refresh(head);
    }

    static method DeleteLeft(head: TstNode<V>, key: Key, i: nat) returns (fault: bool, freed: Option<V>)
      requires Apart(head) && WellFormed(ShapeOf(head.l)) && i < |key| && key[i] < head.c
      modifies head, ReprOf(head.l)
      ensures Apart(head) && head.c == old(head.c) && Below(head) <= old(Below(head))
      ensures fault == Faults(old(ShapeOf(head.l)), key, i) && freed == Search(old(ShapeOf(head.l)), key, i)
      ensures Spelled(head) == Node(head.c, if fault then old(ShapeOf(head.l)) else Deleted(old(ShapeOf(head.l)), key, i), old(ShapeOf(head.e)), old(ShapeOf(head.r)))
      decreases Spelled(head), 0
    {
      Disjoint(head);
      hide TstNode.Valid, Deleted, Search, Faults, WellFormed, Apart;
      var top;
      top, fault, freed := DeleteFrom(head.l, null, key, i);
      assert head !in ReprOf(top);
      head.l := top;
      LeftChanged(head);
    }

    static method DeleteBelow(head: TstNode<V>, key: Key, i: nat) returns (fault: bool, freed: Option<V>)
      requires Apart(head) && WellFormed(ShapeOf(head.e)) && i < |key| && key[i] == head.c
      modifies head, ReprOf(head.e)
      ensures Apart(head) && head.c == old(head.c) && Below(head) <= old(Below(head))
      ensures fault == Faults(old(ShapeOf(head.e)), key, i + 1) && freed == Search(old(ShapeOf(head.e)), key, i + 1)
      ensures Spelled(head) == Node(head.c, old(ShapeOf(head.l)), if fault then old(ShapeOf(head.e)) else Deleted(old(ShapeOf(head.e)), key, i + 1), old(ShapeOf(head.r)))
      decreases Spelled(head), 0
    {
      Disjoint(head);
      hide TstNode.Valid, Deleted, Search, Faults, WellFormed, Apart;
      var top;
      top, fault, freed := DeleteFrom(head.e, head, key, i + 1);
      assert head !in ReprOf(top);
      head.e := top;
      BelowChanged(head);
    }

    static method DeleteRight(head: TstNode<V>, key: Key, i: nat) returns (fault: bool, freed: Option<V>)
      requires Apart(head) && WellFormed(ShapeOf(head.r)) && i < |key| && key[i] > head.c
      modifies head, ReprOf(head.r)
      ensures Apart(head) && head.c == old(head.c) && Below(head) <= old(Below(head))
      ensures fault == Faults(old(ShapeOf(head.r)), key, i) && freed == Search(old(ShapeOf(head.r)), key, i)
      ensures Spelled(head) == Node(head.c, old(ShapeOf(head.l)), old(ShapeOf(head.e)), if fault then old(ShapeOf(head.r)) else Deleted(old(ShapeOf(head.r)), key, i))
      decreases Spelled(head), 0
    {
      Disjoint(head);
      hide TstNode.Valid, Deleted, Search, Faults, WellFormed, Apart;
      var top;
      top, fault, freed := DeleteFrom(head.r, null, key, i);
      assert head !in ReprOf(top);
      head.r := top;
      RightChanged(head);
    }

    static lemma FromNode(t: Tst<V>, key: Key, i: nat)
      requires t.Node? && i < |key| && WellFormed(t)
      ensures WellFormed(t.l) && WellFormed(t.e) && WellFormed(t.r)
      ensures Deleted(t, key, i) == Pruned(Unpruned(t, key, i))
      ensures Search(t, key, i) ==
              if key[i] < t.c then Search(t.l, key, i)
              else if key[i] == t.c then Search(t.e, key, i + 1)
              else Search(t.r, key, i)
      ensures Faults(t, key, i) ==
              if key[i] < t.c then Faults(t.l, key, i)
              else if key[i] == t.c then Faults(t.e, key, i + 1)
              else Faults(t.r, key, i)
    {
    }

    /** Deletion at the head of a tree. */
    static method DeleteTop(head: TstNode?<V>, key: Key) returns (top: TstNode?<V>, fault: bool, freed: Option<V>)
      requires Good(head) && LeadsBack(head, null) && WellFormed(ShapeOf(head)) && Full(ShapeOf(head))
      modifies ReprOf(head)
      ensures Good(top) && LeadsBack(top, null) && WellFormed(ShapeOf(top)) && Full(ShapeOf(top))
      ensures ShapeOf(top) == (if fault then old(ShapeOf(head)) else Deleted(old(ShapeOf(head)), key, 0))
      ensures Contents(ShapeOf(top)) == Contents(old(ShapeOf(head))) - (if fault then {} else {key})
      ensures fault <==> key in Contents(old(ShapeOf(head))) && BackLink(old(ShapeOf(head)), key) == Some(false)
      ensures freed == Get(Contents(old(ShapeOf(head))), key)
    {
      ghost var t := ShapeOf(head);
      DeletionRemoves(t, key);
      DeletedKeeps(t, key, 0);
      SearchLooksUp(t, key, 0);
      FaultsWithoutLink(t, key, 0);
      assert key[0..] == key;
      hide TstNode.Valid, Contents, Deleted, BackLink, Search, Full;
      top, fault, freed := DeleteFrom(head, null, key, 0);
    }

    /** `tst_delete`; without a back link to follow it faults, exactly if the key is there. */
    method Delete(key: Key) returns (fault: bool, freed: Option<V>)
      requires Valid()
      modifies this, ReprOf(head)
      ensures Valid() && freed == Get(old(Map()), key)
      ensures fault <==> key in old(Map()) && BackLink(old(Shape()), key) == Some(false)
      ensures fault ==> Shape() == old(Shape()) && keyNum == old(keyNum)
      ensures !fault ==> Map() == old(Map()) - {key} && keyNum == old(keyNum) - 1
      ensures !fault ==> Shape() == Deleted(old(Shape()), key, 0)
    {
      hide TstNode.Valid, WellFormed, Full, Contents, Deleted, BackLink;
      var top;
      top, fault, freed := DeleteTop(head, key);
      head := top;
      if !fault { keyNum := keyNum - 1; }
    }
  }
}
