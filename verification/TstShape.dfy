/** Ternary search trees, as values: what `tsearch_tree.c` does to a tree, branch by branch, and what this
    means for the map from keys to values that the tree stands for.

    A key is a C string: characters that are not 0, and a terminator.  A node with a character has smaller
    characters to its left, larger ones to its right, and the rest of its keys below `e`.  An end node
    (a vnode of the source) has a value, and in its `l` link the tree that it was put above.  Its `r` link
    is meant to lead back to the node above it; `linked` says that it does, otherwise it is NULL.
  */
module TstShape {

  import opened Basics

  type Char = int
  type Key = k: seq<Char> | forall i :: 0 <= i < |k| ==> k[i] != 0

  datatype Tst<V> =
    | Nil
    | Node(c: Char, l: Tst<V>, e: Tst<V>, r: Tst<V>)
    | End(value: V, l: Tst<V>, linked: bool)

  const TCHAR: Char := 0

  /** `*(key + i)`, which must not be past the terminator. */
  function CharAt(key: Key, i: nat): Char
    requires i <= |key|
  {
    if i < |key| then key[i] else TCHAR
  }

  // ---------- operations ----------

  /** `tst_search_r` */
  function Search<V>(t: Tst<V>, key: Key, i: nat): Option<V>
    requires i <= |key|
  {
    var c := CharAt(key, i);
    match t
    case Nil => None
    case Node(d, l, e, r) =>
      if c == TCHAR then None
      else if c < d then Search(l, key, i)
      else if c == d then Search(e, key, i + 1)
      else Search(r, key, i)
    case End(value, l, _) => if c == TCHAR then Some(value) else Search(l, key, i)
  }

  /** `makeNullHead` */
  function Made<V>(key: Key, value: V, i: nat): Tst<V>
    requires i <= |key|
    decreases |key| - i
  {
    if i == |key| then End(value, Nil, false) else Node(key[i], Nil, Linked(Made(key, value, i + 1)), Nil)
  }

  /** An end node that has been put below a node by `new_tst_node`. */
  function Linked<V>(t: Tst<V>): Tst<V> {
    if t.End? then t.(linked := true) else t
  }

  /** `insertHeadR`; `below` says that there is a node above, as its parameter `p` does. */
  function Inserted<V>(t: Tst<V>, below: bool, key: Key, value: V, i: nat): Tst<V>
    requires i <= |key|
  {
    var c := CharAt(key, i);
    match t
    case Nil => Made(key, value, i)
    case End(was, l, linked) =>
      if c == TCHAR then End(value, l, linked) else End(was, Inserted(l, true, key, value, i), linked)
    case Node(d, l, e, r) =>
      if c == TCHAR then End(value, t, below)
      else if c < d then Node(d, Inserted(l, true, key, value, i), e, r)
      else if c == d then Node(d, l, Inserted(e, true, key, value, i + 1), r)
      else Node(d, l, e, Inserted(r, true, key, value, i))
  }

  /** The node is freed if nothing is left below it. */
  function Pruned<V>(t: Tst<V>): Tst<V>
    requires t.Node?
  {
    if t.l.Nil? && t.e.Nil? && t.r.Nil? then Nil else t
  }

  /** `tst_delete_r`, if it does not follow a NULL back link. */
  function Deleted<V>(t: Tst<V>, key: Key, i: nat): Tst<V>
    requires i <= |key|
  {
    var c := CharAt(key, i);
    match t
    case Nil => Nil
    case Node(d, l, e, r) =>
      if c == TCHAR then t
      else if c < d then Pruned(Node(d, Deleted(l, key, i), e, r))
      else if c == d then Pruned(Node(d, l, Deleted(e, key, i + 1), r))
      else Pruned(Node(d, l, e, Deleted(r, key, i)))
    case End(value, l, linked) => if c == TCHAR then l else End(value, Deleted(l, key, i), linked)
  }

  /** The end node that deletion frees has no back link to follow. */
  function Faults<V>(t: Tst<V>, key: Key, i: nat): bool
    requires i <= |key|
  {
    var c := CharAt(key, i);
    match t
    case Nil => false
    case Node(d, l, e, r) =>
      if c == TCHAR then false
      else if c < d then Faults(l, key, i)
      else if c == d then Faults(e, key, i + 1)
      else Faults(r, key, i)
    case End(_, l, linked) => if c == TCHAR then !linked else Faults(l, key, i)
  }

  // ---------- well-formed trees ----------

  /** The characters on the top level of a tree, over which it branches. */
  function Tops<V>(t: Tst<V>): set<Char> {
    match t
    case Nil => {}
    case Node(c, l, _, r) => Tops(l) + {c} + Tops(r)
    case End(_, l, _) => Tops(l)
  }

  /** Characters are in order, and end nodes are only at the root or directly below an `e` link. */
  predicate WellFormed<V>(t: Tst<V>) {
    match t
    case Nil => true
    case Node(c, l, e, r) =>
      && c != TCHAR && !l.End? && !r.End? && WellFormed(l) && WellFormed(e) && WellFormed(r)
      && (forall x <- Tops(l) :: x < c) && (forall x <- Tops(r) :: c < x)
    case End(_, l, _) => !l.End? && WellFormed(l)
  }

  /** No node without anything below it. */
  predicate Full<V>(t: Tst<V>) {
    match t
    case Nil => true
    case Node(_, l, e, r) => !(l.Nil? && e.Nil? && r.Nil?) && Full(l) && Full(e) && Full(r)
    case End(_, l, _) => Full(l)
  }

  /** No `e` link has been emptied. */
  predicate Unemptied<V>(t: Tst<V>) {
    match t
    case Nil => true
    case Node(_, l, e, r) => !e.Nil? && Unemptied(l) && Unemptied(e) && Unemptied(r)
    case End(_, l, _) => Unemptied(l)
  }

  // ---------- back links ----------

  /** Whether the end node of the key `k`, if there is one, leads back. */
  function BackLink<V>(t: Tst<V>, k: Key): Option<bool> {
    match t
    case Nil => None
    case Node(c, l, e, r) =>
      if k == [] then None
      else if k[0] < c then BackLink(l, k)
      else if k[0] == c then BackLink(e, k[1..])
      else BackLink(r, k)
    case End(_, l, linked) => if k == [] then Some(linked) else BackLink(l, k)
  }

  /** There are nodes for all characters of `k`, and the `e` link of the last one has been emptied. */
  function Vacated<V>(t: Tst<V>, k: Key): bool {
    match t
    case Nil => false
    case Node(c, l, e, r) =>
      if k == [] then false
      else if k[0] < c then Vacated(l, k)
      else if k[0] == c then if |k| == 1 then e.Nil? else Vacated(e, k[1..])
      else Vacated(r, k)
    case End(_, l, _) => k != [] && Vacated(l, k)
  }

  // ---------- the map ----------

  function Get<V>(m: map<Key, V>, k: Key): Option<V> {
    if k in m then Some(m[k]) else None
  }

  function Longer<V>(c: Char, m: map<Key, V>): map<Key, V>
    requires c != TCHAR
  {
    map k | k in (set s | s in m :: Cons(c, s)) :: m[k[1..]]
  }

  function Cons(c: Char, k: Key): Key
    requires c != TCHAR
  {
    [c] + k
  }

  /** What the tree stands for, whatever order it branches in. */
  function Contents<V>(t: Tst<V>): map<Key, V>
    requires WellFormed(t)
  {
    match t
    case Nil => map[]
    case Node(c, l, e, r) => Contents(l) + Longer(c, Contents(e)) + Contents(r)
    case End(value, l, _) => Contents(l)[[] := value]
  }
}
