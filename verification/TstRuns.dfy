/** When deletion from a ternary search tree has a back link to follow, and what its operations keep. */
module TstRuns {
  import opened Basics
  import opened TstShape
  import opened TstMap

  // ---------- back links ----------

  /** Deletion follows a NULL link exactly if its key is there and the end node does not lead back. */
  lemma {:induction false} FaultsWithoutLink<V>(t: Tst<V>, key: Key, i: nat)
    requires WellFormed(t) && i <= |key|
    ensures Faults(t, key, i) <==> BackLink(t, key[i..]) == Some(false)
    ensures BackLink(t, key[i..]).Some? <==> Search(t, key, i).Some?
    decreases t
  {
    if i < |key| { KeyTail(key, i); }
    match t
    case Nil =>
    case Node(d, l, e, r) =>
      if i < |key| {
        FaultsWithoutLink(l, key, i);
        FaultsWithoutLink(e, key, i + 1);
        FaultsWithoutLink(r, key, i);
      }
    case End(value, l, linked) => FaultsWithoutLink(l, key, i);
  }

  /** Whether a new key's end node gets a back link: the empty key's never does at the root, and others do
      unless they fill a vacated place. */
  function GetsLink<V>(t: Tst<V>, below: bool, k: Key): bool {
    if k == [] then !t.Nil? && below else !Vacated(t, k)
  }

  lemma {:induction false} MadeLinks<V>(key: Key, value: V, i: nat, k: Key)
    requires i <= |key|
    ensures BackLink(Made(key, value, i), k) == if k == key[i..] then Some(i < |key|) else None
    decreases |key| - i
  {
    if i < |key| {
      SameKey(key, i, k);
      if k != [] { MadeLinks(key, value, i + 1, k[1..]); }
    }
  }

  /** Insertion keeps all back links, and gives its key one exactly as said. */
  lemma {:induction false} InsertedLinks<V>(t: Tst<V>, below: bool, key: Key, value: V, i: nat, k: Key)
    requires WellFormed(t) && i <= |key|
    ensures BackLink(Inserted(t, below, key, value, i), k) ==
            if k == key[i..] && BackLink(t, k).None? then Some(GetsLink(t, below, k)) else BackLink(t, k)
    decreases t
  {
    if i < |key| { SameKey(key, i, k); }
    match t
    case Nil => MadeLinks(key, value, i, k);
    case Node(d, l, e, r) =>
      if i < |key| {
        if key[i] < d {
          InsertedLinks(l, true, key, value, i, k);
        } else if key[i] == d {
          if k != [] { InsertedLinks(e, true, key, value, i + 1, k[1..]); }
        } else {
          InsertedLinks(r, true, key, value, i, k);
        }
      }
    case End(_, l, _) =>
      if i < |key| {
        InsertedLinks(l, true, key, value, i, k);
      } else if k != [] {
      }
  }

  lemma {:induction false} DeletedLinks<V>(t: Tst<V>, key: Key, i: nat, k: Key)
    requires WellFormed(t) && i <= |key|
    ensures BackLink(Deleted(t, key, i), k) == if k == key[i..] then None else BackLink(t, k)
    decreases t
  {
    if i < |key| { SameKey(key, i, k); }
    match t
    case Nil =>
    case Node(d, l, e, r) =>
      if i < |key| {
        if key[i] < d {
          DeletedLinks(l, key, i, k);
        } else if key[i] == d {
          if k != [] { DeletedLinks(e, key, i + 1, k[1..]); }
        } else {
          DeletedLinks(r, key, i, k);
        }
      }
    case End(_, l, _) =>
      if i < |key| {
        DeletedLinks(l, key, i, k);
      }
  }

  lemma {:induction false} NothingVacated<V>(t: Tst<V>, k: Key)
    requires Unemptied(t)
    ensures !Vacated(t, k)
    decreases t
  {
    match t
    case Nil =>
    case Node(c, l, e, r) =>
      NothingVacated(l, k);
      NothingVacated(r, k);
      if k != [] { NothingVacated(e, k[1..]); }
    case End(_, l, _) => NothingVacated(l, k);
  }

  // ---------- runs ----------

  datatype Op<V> = Insert(key: Key, value: V) | Delete(key: Key)

  /** `tstree_t`, and how often a key was deleted that was not there. */
  datatype Table<V> = Table(head: Tst<V>, keyNum: int, misses: nat)

  /** `tst_insert` and `tst_delete` */
  function Applied<V>(s: Table<V>, op: Op<V>): Table<V> {
    match op
    case Insert(key, value) =>
      Table(Inserted(s.head, false, key, value, 0),
            if Search(s.head, key, 0).Some? then s.keyNum else s.keyNum + 1, s.misses)
    case Delete(key) =>
      Table(Deleted(s.head, key, 0), s.keyNum - 1, if Search(s.head, key, 0).Some? then s.misses else s.misses + 1)
  }

  /** No deletion follows a NULL link. */
  predicate Allowed<V>(s: Table<V>, ops: seq<Op<V>>)
    decreases |ops|
  {
    ops != [] ==> (ops[0].Delete? ==> !Faults(s.head, ops[0].key, 0)) && Allowed(Applied(s, ops[0]), ops[1..])
  }

  function Run<V>(s: Table<V>, ops: seq<Op<V>>): Table<V>
    decreases |ops|
  {
    if ops == [] then s else Run(Applied(s, ops[0]), ops[1..])
  }

  /** The same operations on a map. */
  function Replayed<V>(m: map<Key, V>, ops: seq<Op<V>>): map<Key, V>
    decreases |ops|
  {
    if ops == [] then m else
      var op := ops[0];
      Replayed(if op.Insert? then m[op.key := op.value] else m - {op.key}, ops[1..])
  }

  predicate Right<V>(s: Table<V>) {
    WellFormed(s.head) && Full(s.head) && s.keyNum + s.misses == |Contents(s.head)|
  }

  lemma SizeWith<V>(m: map<Key, V>, key: Key, value: V)
    ensures |m[key := value]| == |m| + if key in m then 0 else 1
  {
    assert m[key := value].Keys == m.Keys + {key};
  }

  lemma SizeWithout<V>(m: map<Key, V>, key: Key)
    ensures |m - {key}| == |m| - if key in m then 1 else 0
  {
    assert (m - {key}).Keys == m.Keys - {key};
    if key !in m { assert m.Keys - {key} == m.Keys; }
  }

  lemma AppliedKeeps<V>(s: Table<V>, op: Op<V>)
    requires Right(s)
    ensures Right(Applied(s, op))
    ensures Contents(Applied(s, op).head) ==
            if op.Insert? then Contents(s.head)[op.key := op.value] else Contents(s.head) - {op.key}
  {
    if op.Insert? { InsertKeeps(s, op.key, op.value); } else { DeleteKeeps(s, op.key); }
  }

  lemma InsertKeeps<V>(s: Table<V>, key: Key, value: V)
    requires Right(s)
    ensures Right(Applied(s, Insert(key, value)))
    ensures Contents(Applied(s, Insert(key, value)).head) == Contents(s.head)[key := value]
  {
    FindLooksUp(s.head, key);
    InsertedKeeps(s.head, false, key, value, 0);
    InsertionUpdates(s.head, key, value);
    SizeWith(Contents(s.head), key, value);
    hide Contents, WellFormed, Full, Inserted, Search;
  }

  lemma DeleteKeeps<V>(s: Table<V>, key: Key)
    requires Right(s)
    ensures Right(Applied(s, Delete(key)))
    ensures Contents(Applied(s, Delete(key)).head) == Contents(s.head) - {key}
  {
    FindLooksUp(s.head, key);
    DeletedKeeps(s.head, key, 0);
    DeletionRemoves(s.head, key);
    SizeWithout(Contents(s.head), key);
    hide Contents, WellFormed, Full, Deleted, Search;
  }

  lemma {:induction false} RunFrom<V>(s: Table<V>, ops: seq<Op<V>>)
    requires Right(s)
    ensures Right(Run(s, ops)) && Contents(Run(s, ops).head) == Replayed(Contents(s.head), ops)
    decreases |ops|
  {
    if ops != [] {
      AppliedKeeps(s, ops[0]);
      RunFrom(Applied(s, ops[0]), ops[1..]);
    }
  }

  /** A new tree. */
  function Empty<V>(): Table<V> {
    Table(Nil, 0, 0)
  }

  /** Whatever is done to a tree, it stands for the map that the same operations make; it stays well-formed
      and pruned, so that its head is NULL exactly if there are no keys; and key_num is the number of keys
      less the number of deletions that missed.  */
  lemma RunRefinesMap<V>(ops: seq<Op<V>>)
    requires Allowed(Empty(), ops)
    ensures var s := Run(Empty(), ops);
            && WellFormed(s.head) && Full(s.head)
            && Contents(s.head) == Replayed(map[], ops)
            && (s.head.Nil? <==> Replayed(map[], ops) == map[])
            && s.keyNum == |Replayed(map[], ops)| - s.misses
  {
    var s: Table<V> := Empty();
    assert Contents(s.head) == map[];
    RunFrom(s, ops);
    hide Run, Replayed, Allowed, WellFormed, Full, Contents;
    EmptyIffNil(Run(s, ops).head);
  }

  lemma {:induction false} InsertionsMissNothing<V>(s: Table<V>, ops: seq<Op<V>>)
    requires Unemptied(s.head) && WellFormed(s.head) && forall i :: 0 <= i < |ops| ==> ops[i].Insert?
    requires forall k: Key :: BackLink(s.head, k).Some? ==> BackLink(s.head, k) == Some(k != [])
    ensures Allowed(s, ops) && Run(s, ops).misses == s.misses && WellFormed(Run(s, ops).head)
    ensures forall k: Key :: BackLink(Run(s, ops).head, k).Some? ==> BackLink(Run(s, ops).head, k) == Some(k != [])
    decreases |ops|
  {
    if ops != [] {
      var op, t := ops[0], Applied(s, ops[0]);
      InsertedKeeps(s.head, false, op.key, op.value, 0);
      assert op.key[0..] == op.key;
      forall k: Key ensures BackLink(t.head, k).Some? ==> BackLink(t.head, k) == Some(k != []) {
        InsertedLinks(s.head, false, op.key, op.value, 0, k);
        NothingVacated(s.head, k);
      }
      InsertionsMissNothing(t, ops[1..]);
    }
  }

  /** As long as keys are only inserted, key_num is their number; and then any one of them can be deleted,
      unless it is the empty one. */
  lemma AfterInsertions<V>(ops: seq<Op<V>>, key: Key)
    requires forall i :: 0 <= i < |ops| ==> ops[i].Insert?
    ensures var s := Run(Empty(), ops);
            && Allowed(Empty(), ops) && s.keyNum == |Replayed(map[], ops)|
            && (Faults(s.head, key, 0) <==> key == [] && key in Replayed(map[], ops))
  {
    var s: Table<V> := Empty();
    InsertionsMissNothing(s, ops);
    RunRefinesMap(ops);
    var t := Run(s, ops).head;
    assert key[0..] == key;
    FaultsWithoutLink(t, key, 0);
    SearchLooksUp(t, key, 0);
  }

  /** key_num keeps step with the keys unless a deletion misses, and then it does not. */
  lemma KeyNumInStep<V>(s: Table<V>, op: Op<V>)
    requires WellFormed(s.head) && s.keyNum == |Contents(s.head)|
    ensures WellFormed(Applied(s, op).head)
    ensures Applied(s, op).keyNum == |Contents(Applied(s, op).head)| <==> !(op.Delete? && Search(s.head, op.key, 0).None?)
  {
    FindLooksUp(s.head, op.key);
    hide Contents, WellFormed, Full, Inserted, Deleted, Search;
    if op.Insert? {
      InsertionUpdates(s.head, op.key, op.value);
      SizeWith(Contents(s.head), op.key, op.value);
    } else {
      DeletionRemoves(s.head, op.key);
      SizeWithout(Contents(s.head), op.key);
    }
  }

  /** A deletion from an empty tree makes it negative. */
  lemma KeyNumGoesNegative(key: Key)
    ensures var s: Table<int> := Run(Empty(), [Delete(key)]); s.keyNum == -1 && s.head.Nil?
  {
    var s: Table<int> := Empty();
    assert [Op<int>.Delete(key)][1..] == [];
    assert Run(s, [Delete(key)]) == Run(Applied(s, Delete(key)), []);
  }

  /** A key that was deleted and is inserted again can lose its back link; deleting it once more would follow
      a NULL pointer. */
  lemma VacatedPlaceLosesLink(a: Char, b: Char)
    requires TCHAR < a < b
    ensures var ops := [Insert([a], 1), Insert([b], 2), Delete([a]), Insert([a], 3)];
            Allowed(Empty(), ops) && [a] in Replayed(map[], ops) && Faults(Run(Empty(), ops).head, [a], 0)
  {
    var left := Node(b, Nil, End(2, Nil, true), Nil);
    var s1 := Table(Node(a, Nil, End(1, Nil, true), Nil), 1, 0);
    var s2 := Table(Node(a, Nil, End(1, Nil, true), left), 2, 0);
    var s3 := Table(Node(a, Nil, Nil, left), 1, 0);
    var s4 := Table(Node(a, Nil, End(3, Nil, false), left), 2, 0);
    var ops := [Insert([a], 1), Insert([b], 2), Delete([a]), Insert([a], 3)];
    assert Made([a], 1, 1) == End(1, Nil, false) && Made([b], 2, 1) == End(2, Nil, false) && Made([a], 3, 1) == End(3, Nil, false);
    assert Applied(Empty(), ops[0]) == s1;
    var nil: Tst<int> := Nil;
    assert Search(nil, [b], 0) == None && Search(nil, [a], 1) == None;
    assert Inserted(Nil, true, [b], 2, 0) == left && Applied(s1, ops[1]) == s2;
    assert Search(End(1, Nil, true), [a], 1) == Some(1) && Deleted(End(1, Nil, true), [a], 1) == Nil;
    assert Applied(s2, ops[2]) == s3 && !Faults(End(1, Nil, true), [a], 1);
    assert Inserted(Nil, true, [a], 3, 1) == End(3, Nil, false) && Applied(s3, ops[3]) == s4;
    assert Faults(End(3, Nil, false), [a], 1);
    RunOfFour(Empty(), ops);
    ReplayOfFour(map[], ops);
  }

  lemma RunOfFour<V>(s: Table<V>, ops: seq<Op<V>>)
    requires |ops| == 4
    ensures var t, u := Applied(s, ops[0]), Applied(Applied(s, ops[0]), ops[1]);
            var v := Applied(u, ops[2]);
            && Run(s, ops) == Applied(v, ops[3])
            && (ops[0].Insert? && ops[1].Insert? && ops[3].Insert? && (ops[2].Delete? ==> !Faults(u.head, ops[2].key, 0))
                ==> Allowed(s, ops))
  {
    var t, u := Applied(s, ops[0]), Applied(Applied(s, ops[0]), ops[1]);
    var v := Applied(u, ops[2]);
    var ops1, ops2, ops3 := ops[1..], ops[2..], ops[3..];
    assert ops1[1..] == ops2 && ops2[1..] == ops3 && ops3[1..] == [];
    assert Run(v, ops3) == Run(Applied(v, ops3[0]), []) && Run(u, ops2) == Run(v, ops3) && Run(t, ops1) == Run(u, ops2);
    if ops[0].Insert? && ops[1].Insert? && ops[3].Insert? && (ops[2].Delete? ==> !Faults(u.head, ops[2].key, 0)) {
      assert Allowed(v, ops3);
      assert Allowed(u, ops2);
      assert Allowed(t, ops1);
    }
  }

  lemma ReplayOfFour<V>(m: map<Key, V>, ops: seq<Op<V>>)
    requires |ops| == 4 && ops[3].Insert?
    ensures ops[3].key in Replayed(m, ops)
  {
    var ops1, ops2, ops3 := ops[1..], ops[2..], ops[3..];
    assert ops1[1..] == ops2 && ops2[1..] == ops3 && ops3[1..] == [];
    assert forall n: map<Key, V> :: Replayed(n, ops3) == Replayed(n[ops[3].key := ops[3].value], []);
    assert forall n: map<Key, V> :: ops[3].key in Replayed(n, ops3);
    assert forall n: map<Key, V> :: ops[3].key in Replayed(n, ops2);
    assert forall n: map<Key, V> :: ops[3].key in Replayed(n, ops1);
  }
}
