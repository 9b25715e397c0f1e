/** The ternary search tree refines a map; and when its deletion has a back link to follow. */
module TstMap {
  import opened Basics
  import opened TstShape

  // ---------- lookups ----------

  lemma LongerGet<V>(c: Char, m: map<Key, V>, k: Key)
    requires c != TCHAR
    ensures Get(Longer(c, m), k) == if k != [] && k[0] == c then Get(m, k[1..]) else None
  {
    if k != [] && k[0] == c {
      assert Cons(c, k[1..]) == k;
    }
    assert forall s <- m :: Cons(c, s)[1..] == s;
  }

  /** Keys of a tree that is not an end node start with one of its top characters. */
  lemma {:induction false} KeysStartAtTop<V>(t: Tst<V>, k: Key)
    requires WellFormed(t) && k in Contents(t)
    ensures if k == [] then t.End? else k[0] in Tops(t)
    decreases t
  {
    match t
    case Node(c, l, e, r) =>
      LongerGet(c, Contents(e), k);
      if k in Contents(l) { KeysStartAtTop(l, k); }
      if k in Contents(r) { KeysStartAtTop(r, k); }
    case End(_, l, _) =>
      if k != [] { KeysStartAtTop(l, k); }
  }

  /** Where a node's keys are. */
  lemma NodeGet<V>(c: Char, l: Tst<V>, e: Tst<V>, r: Tst<V>, k: Key)
    requires WellFormed(Node(c, l, e, r))
    ensures Get(Contents(Node(c, l, e, r)), k) ==
            if k == [] then None
            else if k[0] < c then Get(Contents(l), k)
            else if k[0] == c then Get(Contents(e), k[1..])
            else Get(Contents(r), k)
  {
    LongerGet(c, Contents(e), k);
    if k in Contents(l) { KeysStartAtTop(l, k); }
    if k in Contents(r) { KeysStartAtTop(r, k); }
  }

  lemma EndGet<V>(value: V, l: Tst<V>, linked: bool, k: Key)
    requires WellFormed(End(value, l, linked))
    ensures Get(Contents(End(value, l, linked)), k) == if k == [] then Some(value) else Get(Contents(l), k)
  {
  }

  lemma NotEndGet<V>(t: Tst<V>)
    requires WellFormed(t) && !t.End?
    ensures Get(Contents(t), []) == None
  {
    if [] in Contents(t) { KeysStartAtTop(t, []); }
  }

  lemma KeyTail(key: Key, i: nat)
    requires i < |key|
    ensures key[i..][0] == CharAt(key, i) != TCHAR && key[i..][1..] == key[i + 1..]
  {
  }

  /** When `k` is the rest of the key from `i` on. */
  lemma SameKey(key: Key, i: nat, k: Key)
    requires i < |key|
    ensures k == key[i..] <==> k != [] && k[0] == key[i] && k[1..] == key[i + 1..]
  {
    if k != [] { assert k == [k[0]] + k[1..]; }
    assert key[i..] == [key[i]] + key[i + 1..];
  }

  /** A search looks its key up. */
  lemma {:induction false} SearchLooksUp<V>(t: Tst<V>, key: Key, i: nat)
    requires WellFormed(t) && i <= |key|
    ensures Search(t, key, i) == Get(Contents(t), key[i..])
    decreases t
  {
    assert t.Nil? ==> Contents(t) == map[];
    hide Contents;
    if i < |key| { KeyTail(key, i); }
    match t
    case Nil =>
    case Node(d, l, e, r) =>
      NodeGet(d, l, e, r, key[i..]);
      if i < |key| {
        if key[i] < d { SearchLooksUp(l, key, i); }
        else if key[i] == d { SearchLooksUp(e, key, i + 1); }
        else { SearchLooksUp(r, key, i); }
      }
    case End(value, l, linked) =>
      EndGet(value, l, linked, key[i..]);
      if i < |key| { SearchLooksUp(l, key, i); }
  }

  lemma FindLooksUp<V>(t: Tst<V>, key: Key)
    requires WellFormed(t)
    ensures Search(t, key, 0) == Get(Contents(t), key)
  {
    SearchLooksUp(t, key, 0);
    assert key[0..] == key;
  }

  // ---------- insertion ----------

  ghost function Put<V>(was: Option<V>, hit: bool, value: V): Option<V> {
    if hit then Some(value) else was
  }

  lemma {:induction false} MadeIsRight<V>(key: Key, value: V, i: nat, k: Key)
    requires i <= |key|
    ensures var t := Made(key, value, i);
            && WellFormed(t) && Full(t) && Unemptied(t) && !t.Nil? && (t.End? <==> i == |key|)
            && Tops(t) == (if i < |key| then {key[i]} else {})
            && Get(Contents(t), k) == (if k == key[i..] then Some(value) else None)
    decreases |key| - i
  {
    var nil: Tst<V> := Nil;
    assert Contents(nil) == map[];
    if i < |key| {
      KeyTail(key, i);
      var e := Made(key, value, i + 1);
      MadeIsRight(key, value, i + 1, if k != [] then k[1..] else []);
      assert Contents(Linked(e)) == Contents(e);
      assert WellFormed(Node(key[i], nil, Linked(e), nil));
      NodeGet(key[i], nil, Linked(e), nil, k);
      if k != [] && k[0] == key[i] { assert k == [key[i]] + k[1..] && key[i..] == [key[i]] + key[i + 1..]; }
    }
  }

  /** Insertion keeps the tree well-formed, and the tree is never empty after it. */
  lemma {:induction false} InsertedKeeps<V>(t: Tst<V>, below: bool, key: Key, value: V, i: nat)
    requires WellFormed(t) && i <= |key|
    ensures var u := Inserted(t, below, key, value, i);
            && WellFormed(u) && !u.Nil? && (Full(t) ==> Full(u)) && (Unemptied(t) ==> Unemptied(u))
            && Tops(u) == Tops(t) + (if i < |key| then {key[i]} else {})
            && (u.End? <==> t.End? || i == |key|)
    decreases t
  {
    match t
    case Nil => MadeIsRight(key, value, i, []);
    case Node(d, l, e, r) =>
      if i < |key| {
        if key[i] < d { InsertedKeeps(l, true, key, value, i); }
        else if key[i] == d { InsertedKeeps(e, true, key, value, i + 1); }
        else { InsertedKeeps(r, true, key, value, i); }
      }
    case End(_, l, _) =>
      if i < |key| { InsertedKeeps(l, true, key, value, i); }
  }

  /** Insertion binds its key, and no other. */
  lemma {:induction false} InsertedGet<V>(t: Tst<V>, below: bool, key: Key, value: V, i: nat, k: Key)
    requires WellFormed(t) && i <= |key|
    ensures WellFormed(Inserted(t, below, key, value, i))
    ensures Get(Contents(Inserted(t, below, key, value, i)), k) == Put(Get(Contents(t), k), k == key[i..], value)
    decreases t
  {
    InsertedKeeps(t, below, key, value, i);
    assert t.Nil? ==> Contents(t) == map[];
    hide Contents;
    if i < |key| { KeyTail(key, i); }
    match t
    case Nil => MadeIsRight(key, value, i, k);
    case Node(d, l, e, r) =>
      NodeGet(d, l, e, r, k);
      if i == |key| {
        EndGet(value, t, below, k);
      } else if key[i] < d {
        NodeGet(d, Inserted(l, true, key, value, i), e, r, k);
        InsertedGet(l, true, key, value, i, k);
      } else if key[i] == d {
        SameKey(key, i, k);
        NodeGet(d, l, Inserted(e, true, key, value, i + 1), r, k);
        if k != [] { InsertedGet(e, true, key, value, i + 1, k[1..]); }
      } else {
        NodeGet(d, l, e, Inserted(r, true, key, value, i), k);
        InsertedGet(r, true, key, value, i, k);
      }
    case End(was, l, linked) =>
      EndGet(was, l, linked, k);
      if i == |key| {
        EndGet(value, l, linked, k);
      } else {
        EndGet(was, Inserted(l, true, key, value, i), linked, k);
        InsertedGet(l, true, key, value, i, k);
      }
  }

  lemma InsertionGets<V>(t: Tst<V>, key: Key, value: V, k: Key)
    requires WellFormed(t)
    ensures WellFormed(Inserted(t, false, key, value, 0))
    ensures Get(Contents(Inserted(t, false, key, value, 0)), k) == Get(Contents(t)[key := value], k)
  {
    InsertedGet(t, false, key, value, 0, k);
    assert key[0..] == key;
  }

  /** Insertion is map update. */
  lemma InsertionUpdates<V>(t: Tst<V>, key: Key, value: V)
    requires WellFormed(t)
    ensures WellFormed(Inserted(t, false, key, value, 0))
    ensures Contents(Inserted(t, false, key, value, 0)) == Contents(t)[key := value]
  {
    InsertedKeeps(t, false, key, value, 0);
    hide Contents, Inserted, WellFormed, Get;
    forall k: Key ensures Get(Contents(Inserted(t, false, key, value, 0)), k) == Get(Contents(t)[key := value], k) {
      InsertionGets(t, key, value, k);
    }
    SameLookups(Contents(Inserted(t, false, key, value, 0)), Contents(t)[key := value]);
  }

  lemma SameLookups<V>(m: map<Key, V>, n: map<Key, V>)
    requires forall k: Key :: Get(m, k) == Get(n, k)
    ensures m == n
  {
    assert forall k: Key :: k in m <==> Get(m, k).Some?;
    assert forall k: Key :: k in n <==> Get(n, k).Some?;
    forall k | k in m ensures k in n && m[k] == n[k] {
      assert Get(m, k) == Get(n, k);
    }
    forall k | k in n ensures k in m {
      assert Get(m, k) == Get(n, k);
    }
  }

  // ---------- deletion ----------

  /** Deletion keeps the tree well-formed and pruned, and leaves nothing exactly if nothing else was there. */
  lemma {:induction false} DeletedKeeps<V>(t: Tst<V>, key: Key, i: nat)
    requires WellFormed(t) && i <= |key|
    ensures var u := Deleted(t, key, i);
            WellFormed(u) && (Full(t) ==> Full(u)) && Tops(u) <= Tops(t) && (u.End? ==> t.End?)
    decreases t
  {
    match t
    case Nil =>
    case Node(d, l, e, r) =>
      if i < |key| {
        if key[i] < d { DeletedKeeps(l, key, i); }
        else if key[i] == d { DeletedKeeps(e, key, i + 1); }
        else { DeletedKeeps(r, key, i); }
      }
    case End(_, l, _) => DeletedKeeps(l, key, i);
  }

  lemma PrunedGet<V>(t: Tst<V>, k: Key)
    requires t.Node? && WellFormed(t)
    ensures Get(Contents(Pruned(t)), k) == Get(Contents(t), k)
  {
    NodeGet(t.c, t.l, t.e, t.r, k);
  }

  /** Deletion below a node, before the node is freed if it is left without anything. */
  ghost function Unpruned<V>(t: Tst<V>, key: Key, i: nat): Tst<V>
    requires t.Node? && i < |key|
  {
    if key[i] < t.c then Node(t.c, Deleted(t.l, key, i), t.e, t.r)
    else if key[i] == t.c then Node(t.c, t.l, Deleted(t.e, key, i + 1), t.r)
    else Node(t.c, t.l, t.e, Deleted(t.r, key, i))
  }

  lemma UnprunedKeeps<V>(t: Tst<V>, key: Key, i: nat)
    requires t.Node? && i < |key| && WellFormed(t)
    ensures WellFormed(Unpruned(t, key, i)) && Deleted(t, key, i) == Pruned(Unpruned(t, key, i))
    ensures WellFormed(t.l) && WellFormed(t.e) && WellFormed(t.r)
  {
    if key[i] < t.c { DeletedKeeps(t.l, key, i); }
    else if key[i] == t.c { DeletedKeeps(t.e, key, i + 1); }
    else { DeletedKeeps(t.r, key, i); }
  }

  lemma {:induction false} DeletedGet<V>(t: Tst<V>, key: Key, i: nat, k: Key)
    requires WellFormed(t) && i <= |key|
    ensures WellFormed(Deleted(t, key, i))
    ensures Get(Contents(Deleted(t, key, i)), k) == if k == key[i..] then None else Get(Contents(t), k)
    decreases t, 2
  {
    DeletedKeeps(t, key, i);
    match t
    case Nil =>
    case Node(d, l, e, r) => DeletedGetNode(t, key, i, k);
    case End(value, l, linked) =>
      EndGet(value, l, linked, k);
      NotEndGet(l);
      if i < |key| {
        KeyTail(key, i);
        DeletedKeeps(l, key, i);
        EndGet(value, Deleted(l, key, i), linked, k);
        DeletedGet(l, key, i, k);
      }
  }

  lemma {:induction false} DeletedGetNode<V>(t: Tst<V>, key: Key, i: nat, k: Key)
    requires WellFormed(t) && i <= |key| && t.Node?
    ensures WellFormed(Deleted(t, key, i))
    ensures Get(Contents(Deleted(t, key, i)), k) == if k == key[i..] then None else Get(Contents(t), k)
    decreases t, 1
  {
    DeletedKeeps(t, key, i);
    if i == |key| {
      NodeGet(t.c, t.l, t.e, t.r, k);
    } else {
      UnprunedKeeps(t, key, i);
      hide WellFormed, Contents, Deleted, Pruned, Unpruned;
      PrunedGet(Unpruned(t, key, i), k);
      SameKey(key, i, k);
      if key[i] == t.c { UnprunedGetBelow(t, key, i, k); } else { UnprunedGetBeside(t, key, i, k); }
    }
  }

  lemma {:induction false} UnprunedGetBeside<V>(t: Tst<V>, key: Key, i: nat, k: Key)
    requires WellFormed(t) && i < |key| && t.Node? && key[i] != t.c && WellFormed(Unpruned(t, key, i))
    ensures Get(Contents(Unpruned(t, key, i)), k) == if k == key[i..] then None else Get(Contents(t), k)
    decreases t, 0
  {
    UnprunedKeeps(t, key, i);
    hide WellFormed, Contents, Deleted;
    var u := Unpruned(t, key, i);
    NodeGet(t.c, t.l, t.e, t.r, k);
    NodeGet(u.c, u.l, u.e, u.r, k);
    KeyTail(key, i);
    if key[i] < t.c { DeletedGet(t.l, key, i, k); } else { DeletedGet(t.r, key, i, k); }
  }

  lemma {:induction false} UnprunedGetBelow<V>(t: Tst<V>, key: Key, i: nat, k: Key)
    requires WellFormed(t) && i < |key| && t.Node? && key[i] == t.c && WellFormed(Unpruned(t, key, i))
    ensures Get(Contents(Unpruned(t, key, i)), k) ==
            if k != [] && k[0] == key[i] && k[1..] == key[i + 1..] then None else Get(Contents(t), k)
    decreases t, 0
  {
    UnprunedKeeps(t, key, i);
    hide WellFormed, Contents, Deleted;
    var u := Unpruned(t, key, i);
    NodeGet(t.c, t.l, t.e, t.r, k);
    NodeGet(u.c, u.l, u.e, u.r, k);
    if k != [] { DeletedGet(t.e, key, i + 1, k[1..]); }
  }

  lemma DeletionGets<V>(t: Tst<V>, key: Key, k: Key)
    requires WellFormed(t)
    ensures WellFormed(Deleted(t, key, 0))
    ensures Get(Contents(Deleted(t, key, 0)), k) == Get(Contents(t) - {key}, k)
  {
    DeletedGet(t, key, 0, k);
    assert key[0..] == key;
  }

  /** Deletion removes its key from the map, and nothing else. */
  lemma DeletionRemoves<V>(t: Tst<V>, key: Key)
    requires WellFormed(t)
    ensures WellFormed(Deleted(t, key, 0))
    ensures Contents(Deleted(t, key, 0)) == Contents(t) - {key}
  {
    DeletedKeeps(t, key, 0);
    hide Contents, Deleted, WellFormed, Get;
    forall k: Key ensures Get(Contents(Deleted(t, key, 0)), k) == Get(Contents(t) - {key}, k) {
      DeletionGets(t, key, k);
    }
    SameLookups(Contents(Deleted(t, key, 0)), Contents(t) - {key});
  }

  /** In a pruned tree, every link that is not NULL leads to a key. */
  lemma {:induction false} EveryNodeHasAKey<V>(t: Tst<V>) returns (k: Key)
    requires WellFormed(t) && Full(t) && !t.Nil?
    ensures k in Contents(t)
    decreases t
  {
    if t.End? {
      k := [];
    } else if !t.l.Nil? {
      k := EveryNodeHasAKey(t.l);
    } else if !t.r.Nil? {
      k := EveryNodeHasAKey(t.r);
    } else {
      var s := EveryNodeHasAKey(t.e);
      k := Cons(t.c, s);
      assert k[1..] == s;
      LongerGet(t.c, Contents(t.e), k);
    }
  }

  /** So the head is NULL if and only if there are no keys. */
  lemma EmptyIffNil<V>(t: Tst<V>)
    requires WellFormed(t) && Full(t)
    ensures t.Nil? <==> Contents(t) == map[]
  {
    if !t.Nil? {
      var k := EveryNodeHasAKey(t);
    }
  }

}
