/** Red-black trees as values, and the zipper used to talk about a cursor inside one.

    `Tree` is the shape the linked nodes of `src/common/ds/rbtree.c` spell out, `Path` is everything
    around a cursor, and `Plug` puts the two back together.  The invariants of the comment at the top of
    that file are stated for a whole tree and, separately, for a path with a hole, so that a fix-up loop
    can say what is true above and below its cursor.
  */
module RbShape {

  datatype Color = Red | Black

  datatype Tree<T> = Leaf | Bin(left: Tree<T>, item: T, color: Color, right: Tree<T>)

  /** The way from the hole up to the root: `InLeft` means that the hole is the left child of `item`. */
  datatype Path<T> =
    | Top
    | InLeft(up: Path<T>, item: T, color: Color, right: Tree<T>)
    | InRight(up: Path<T>, left: Tree<T>, item: T, color: Color)

  function InOrder<T>(t: Tree<T>): seq<T> {
    match t
    case Leaf => []
    case Bin(l, x, _, r) => InOrder(l) + [x] + InOrder(r)
  }

  ghost function Items<T>(t: Tree<T>): set<T> {
    match t
    case Leaf => {}
    case Bin(l, x, _, r) => Items(l) + {x} + Items(r)
  }

  function RootColor<T>(t: Tree<T>): Color {
    if t.Leaf? then Black else t.color
  }

  // ---------- the red-black properties ----------

  /** Number of black nodes on the leftmost way down; by `Balanced` on every way down. */
  function BlackHeight<T>(t: Tree<T>): nat {
    match t
    case Leaf => 0
    case Bin(l, _, c, _) => BlackHeight(l) + if c.Black? then 1 else 0
  }

  predicate Balanced<T>(t: Tree<T>) {
    t.Bin? ==> Balanced(t.left) && Balanced(t.right) && BlackHeight(t.left) == BlackHeight(t.right)
  }

  predicate NoRedRed<T>(t: Tree<T>) {
    t.Bin? ==>
      && NoRedRed(t.left) && NoRedRed(t.right)
      && (t.color.Red? ==> RootColor(t.left).Black? && RootColor(t.right).Black?)
  }

  predicate RedBlack<T>(t: Tree<T>) {
    Balanced(t) && NoRedRed(t) && RootColor(t).Black?
  }

  /** No node occurs twice. */
  ghost predicate Distinct<T>(t: Tree<T>) {
    t.Bin? ==>
      && Distinct(t.left) && Distinct(t.right)
      && t.item !in Items(t.left) && t.item !in Items(t.right) && Items(t.left) !! Items(t.right)
  }

  // ---------- the same around a hole ----------

  function Plug<T>(p: Path<T>, t: Tree<T>): Tree<T>
    decreases p
  {
    match p
    case Top => t
    case InLeft(up, x, c, r) => Plug(up, Bin(t, x, c, r))
    case InRight(up, l, x, c) => Plug(up, Bin(l, x, c, t))
  }

  ghost function PathItems<T>(p: Path<T>): set<T> {
    match p
    case Top => {}
    case InLeft(up, x, _, r) => PathItems(up) + {x} + Items(r)
    case InRight(up, l, x, _) => PathItems(up) + {x} + Items(l)
  }

  function Before<T>(p: Path<T>): seq<T> {
    match p
    case Top => []
    case InLeft(up, _, _, _) => Before(up)
    case InRight(up, l, x, _) => Before(up) + InOrder(l) + [x]
  }

  function After<T>(p: Path<T>): seq<T> {
    match p
    case Top => []
    case InLeft(up, x, _, r) => [x] + InOrder(r) + After(up)
    case InRight(up, _, _, _) => After(up)
  }

  function Depth<T>(p: Path<T>): nat {
    if p.Top? then 0 else 1 + Depth(p.up)
  }

  /** Color of the root of `Plug(p, t)` when the root of `t` has color `c`. */
  function OuterColor<T>(p: Path<T>, c: Color): Color {
    if p.Top? then c else OuterColor(p.up, p.color)
  }

  /** The path asks for a tree of black height `h` in its hole. */
  predicate BalancedAround<T>(p: Path<T>, h: nat) {
    match p
    case Top => true
    case InLeft(up, _, c, r) =>
      Balanced(r) && BlackHeight(r) == h && BalancedAround(up, h + if c.Black? then 1 else 0)
    case InRight(up, l, _, c) =>
      Balanced(l) && BlackHeight(l) == h && BalancedAround(up, h + if c.Black? then 1 else 0)
  }

  /** The path accepts a root of color `c` in its hole. */
  predicate NoRedRedAround<T>(p: Path<T>, c: Color) {
    match p
    case Top => true
    case InLeft(up, _, d, r) =>
      NoRedRed(r) && (d.Red? ==> c.Black? && RootColor(r).Black?) && NoRedRedAround(up, d)
    case InRight(up, l, _, d) =>
      NoRedRed(l) && (d.Red? ==> c.Black? && RootColor(l).Black?) && NoRedRedAround(up, d)
  }

  /** Nothing on the path occurs twice or among `s`, the items of the tree in the hole. */
  ghost predicate DistinctAround<T>(p: Path<T>, s: set<T>) {
    match p
    case Top => true
    case InLeft(up, x, _, r) =>
      && x !in s && x !in Items(r) && s !! Items(r)
      && Distinct(r) && DistinctAround(up, s + {x} + Items(r))
    case InRight(up, l, x, _) =>
      && x !in s && x !in Items(l) && s !! Items(l)
      && Distinct(l) && DistinctAround(up, Items(l) + {x} + s)
  }

  // ---------- focusing loses nothing and adds nothing ----------

  lemma Regroup<T>(a: seq<T>, b: seq<T>, c: seq<T>, d: seq<T>, e: seq<T>)
    ensures a + (b + c + d) + e == a + b + (c + d + e) == (a + b + c) + d + e
  {
  }

  lemma {:induction false} PlugInOrder<T>(p: Path<T>, t: Tree<T>)
    ensures InOrder(Plug(p, t)) == Before(p) + InOrder(t) + After(p)
    decreases p
  {
    match p
    case Top =>
    case InLeft(up, x, c, r) =>
      PlugInOrder(up, Bin(t, x, c, r));
      Regroup(Before(up), InOrder(t), [x], InOrder(r), After(up));
    case InRight(up, l, x, c) =>
      PlugInOrder(up, Bin(l, x, c, t));
      Regroup(Before(up), InOrder(l), [x], InOrder(t), After(up));
  }

  lemma PlugBinOrder<T>(p: Path<T>, l: Tree<T>, x: T, c: Color, r: Tree<T>)
    ensures InOrder(Plug(p, Bin(l, x, c, r))) == Before(p) + InOrder(l) + [x] + InOrder(r) + After(p)
  {
    PlugInOrder(p, Bin(l, x, c, r));
    Regroup(Before(p), InOrder(l), [x], InOrder(r), After(p));
  }

  lemma {:induction false} PlugItems<T>(p: Path<T>, t: Tree<T>)
    ensures Items(Plug(p, t)) == PathItems(p) + Items(t)
    decreases p
  {
    match p
    case Top =>
    case InLeft(up, x, c, r) => PlugItems(up, Bin(t, x, c, r));
    case InRight(up, l, x, c) => PlugItems(up, Bin(l, x, c, t));
  }

  lemma {:induction false} PlugBalanced<T>(p: Path<T>, t: Tree<T>)
    ensures Balanced(Plug(p, t)) <==> Balanced(t) && BalancedAround(p, BlackHeight(t))
    decreases p
  {
    match p
    case Top =>
    case InLeft(up, x, c, r) => PlugBalanced(up, Bin(t, x, c, r));
    case InRight(up, l, x, c) =>
      PlugBalanced(up, Bin(l, x, c, t));
  }

  lemma {:induction false} PlugNoRedRed<T>(p: Path<T>, t: Tree<T>)
    ensures NoRedRed(Plug(p, t)) <==> NoRedRed(t) && NoRedRedAround(p, RootColor(t))
    ensures RootColor(Plug(p, t)) == OuterColor(p, RootColor(t))
    decreases p
  {
    match p
    case Top =>
    case InLeft(up, x, c, r) => PlugNoRedRed(up, Bin(t, x, c, r));
    case InRight(up, l, x, c) => PlugNoRedRed(up, Bin(l, x, c, t));
  }

  lemma {:induction false} PlugDistinct<T>(p: Path<T>, t: Tree<T>)
    ensures Distinct(Plug(p, t)) <==> Distinct(t) && DistinctAround(p, Items(t))
    decreases p
  {
    match p
    case Top =>
    case InLeft(up, x, c, r) => PlugDistinct(up, Bin(t, x, c, r));
    case InRight(up, l, x, c) => PlugDistinct(up, Bin(l, x, c, t));
  }

  /** The red-black properties of a whole tree, seen from any cursor in it. */
  lemma PlugRedBlack<T>(p: Path<T>, t: Tree<T>)
    ensures RedBlack(Plug(p, t)) <==>
            && Balanced(t) && BalancedAround(p, BlackHeight(t))
            && NoRedRed(t) && NoRedRedAround(p, RootColor(t))
            && OuterColor(p, RootColor(t)).Black?
  {
    PlugBalanced(p, t);
    PlugNoRedRed(p, t);
  }

  lemma {:induction false} AroundIsDisjoint<T>(p: Path<T>, s: set<T>)
    requires DistinctAround(p, s)
    ensures PathItems(p) !! s
    decreases p
  {
    match p
    case Top =>
    case InLeft(up, x, _, r) => AroundIsDisjoint(up, s + {x} + Items(r));
    case InRight(up, l, x, _) => AroundIsDisjoint(up, Items(l) + {x} + s);
  }

  lemma {:induction false} AroundSmaller<T>(p: Path<T>, s: set<T>, s': set<T>)
    requires DistinctAround(p, s) && s' <= s
    ensures DistinctAround(p, s')
    decreases p
  {
    match p
    case Top =>
    case InLeft(up, x, _, r) => AroundSmaller(up, s + {x} + Items(r), s' + {x} + Items(r));
    case InRight(up, l, x, _) => AroundSmaller(up, Items(l) + {x} + s, Items(l) + {x} + s');
  }

  lemma NearestIsDisjoint<T>(p: Path<T>, s: set<T>)
    requires !p.Top? && DistinctAround(p, s)
    ensures p.item !in PathItems(p.up)
    ensures p.InLeft? ==> PathItems(p.up) !! Items(p.right)
    ensures p.InRight? ==> PathItems(p.up) !! Items(p.left)
  {
    AroundIsDisjoint(p.up, if p.InLeft? then s + {p.item} + Items(p.right) else Items(p.left) + {p.item} + s);
  }

  // ---------- cursors ----------

  /** A tree with a cursor: the tree at the cursor, and what is around it. */
  datatype Cursor<T> = At(path: Path<T>, tree: Tree<T>) {

    function Whole(): Tree<T> {
      Plug(path, tree)
    }

    /** One level up. */
    function Up(): Cursor<T>
      requires !path.Top?
    {
      match path
      case InLeft(up, x, c, r) => At(up, Bin(tree, x, c, r))
      case InRight(up, l, x, c) => At(up, Bin(l, x, c, tree))
    }

    /** The other child of the parent. */
    function Sibling(): Tree<T>
      requires !path.Top?
    {
      if path.InLeft? then path.right else path.left
    }

    /** The cursor on the sibling. */
    function Across(): Cursor<T>
      requires !path.Top?
    {
      match path
      case InLeft(up, x, c, r) => At(InRight(up, tree, x, c), r)
      case InRight(up, l, x, c) => At(InLeft(up, x, c, tree), l)
    }

    /** The cursors on the children. */
    function DownLeft(): Cursor<T>
      requires tree.Bin?
    {
      At(InLeft(path, tree.item, tree.color, tree.right), tree.left)
    }

    function DownRight(): Cursor<T>
      requires tree.Bin?
    {
      At(InRight(path, tree.left, tree.item, tree.color), tree.right)
    }

    /** The same cursor, with the node there in another color. */
    function Paint(c: Color): Cursor<T> {
      At(path, Painted(tree, c))
    }

    function ParentColor(): Color {
      if path.Top? then Black else path.color
    }
  }

  /** All items before those of the tree at the cursor, and they. */
  function Upto<T>(c: Cursor<T>): seq<T> {
    Before(c.path) + InOrder(c.tree)
  }

  /** The tree at the cursor, and all items after it. */
  function From<T>(c: Cursor<T>): seq<T> {
    InOrder(c.tree) + After(c.path)
  }

  /** All items before, and all items after, the one at the cursor. */
  function Preceding<T>(c: Cursor<T>): seq<T>
    requires c.tree.Bin?
  {
    Before(c.path) + InOrder(c.tree.left)
  }

  function Following<T>(c: Cursor<T>): seq<T>
    requires c.tree.Bin?
  {
    InOrder(c.tree.right) + After(c.path)
  }

  lemma WholeOrder<T>(c: Cursor<T>)
    requires c.tree.Bin?
    ensures InOrder(c.Whole()) == Preceding(c) + [c.tree.item] + Following(c)
  {
    PlugBinOrder(c.path, c.tree.left, c.tree.item, c.tree.color, c.tree.right);
  }

  /** A climb from a right child keeps what is up to the cursor, one from a left child what is from it. */
  lemma Climb<T>(c: Cursor<T>)
    requires !c.path.Top?
    ensures c.path.InRight? ==> Upto(c.Up()) == Upto(c) && From(c) == Following(c.Up())
    ensures c.path.InLeft? ==> From(c.Up()) == From(c) && Upto(c) == Preceding(c.Up())
  {
  }

  lemma OuterItem<T>(c: Cursor<T>)
    requires c.tree.Bin?
    ensures c.tree.right.Leaf? ==> Upto(c) == Preceding(c) + [c.tree.item]
    ensures c.tree.left.Leaf? ==> From(c) == [c.tree.item] + Following(c)
  {
    if c.tree.right.Leaf? { assert InOrder(c.tree) == InOrder(c.tree.left) + [c.tree.item]; }
    if c.tree.left.Leaf? { assert InOrder(c.tree) == [c.tree.item] + InOrder(c.tree.right); }
  }

  function Painted<T>(t: Tree<T>, c: Color): Tree<T> {
    if t.Leaf? then t else t.(color := c)
  }

  lemma {:induction false} PlugIsBin<T>(p: Path<T>, t: Tree<T>)
    requires t.Bin? || !p.Top?
    ensures Plug(p, t).Bin?
    decreases p
  {
    if !p.Top? { PlugIsBin(p.up, At(p, t).Up().tree); }
  }

  lemma UpIsWhole<T>(c: Cursor<T>)
    requires !c.path.Top?
    ensures c.Up().Whole() == c.Whole()
  {
  }

  lemma SameOrder<T>(p: Path<T>, t: Tree<T>, t': Tree<T>)
    requires InOrder(t) == InOrder(t')
    ensures InOrder(Plug(p, t)) == InOrder(Plug(p, t'))
  {
    PlugInOrder(p, t);
    PlugInOrder(p, t');
  }

  lemma TurnKeepsOrder<T>(a: Tree<T>, x: T, cx: Color, b: Tree<T>, y: T, cy: Color, c: Tree<T>, cx': Color, cy': Color)
    ensures InOrder(Bin(a, x, cx, Bin(b, y, cy, c))) == InOrder(Bin(Bin(a, x, cx', b), y, cy', c))
  {
    Regroup([], InOrder(a), [x], InOrder(b), [y] + InOrder(c));
    assert InOrder(Bin(a, x, cx, Bin(b, y, cy, c))) == InOrder(a) + [x] + (InOrder(b) + [y] + InOrder(c));
  }

  // ---------- paths on paths ----------

  /** The path `inner`, continued by `outer` where it ends. */
  function Onto<T>(inner: Path<T>, outer: Path<T>): Path<T>
    decreases inner
  {
    match inner
    case Top => outer
    case InLeft(up, x, c, r) => InLeft(Onto(up, outer), x, c, r)
    case InRight(up, l, x, c) => InRight(Onto(up, outer), l, x, c)
  }

  lemma {:induction false} PlugOnto<T>(inner: Path<T>, outer: Path<T>, t: Tree<T>)
    ensures Plug(Onto(inner, outer), t) == Plug(outer, Plug(inner, t))
    decreases inner
  {
    if !inner.Top? { PlugOnto(inner.up, outer, At(inner, t).Up().tree); }
  }

  lemma {:induction false} OntoItems<T>(inner: Path<T>, outer: Path<T>)
    ensures PathItems(Onto(inner, outer)) == PathItems(inner) + PathItems(outer)
    decreases inner
  {
    if !inner.Top? { OntoItems(inner.up, outer); }
  }

  /** Only ever to the left. */
  predicate Leftmost<T>(p: Path<T>) {
    !p.Top? ==> p.InLeft? && Leftmost(p.up)
  }

  lemma {:induction false} NothingBefore<T>(p: Path<T>)
    requires Leftmost(p)
    ensures Before(p) == []
  {
    if !p.Top? { NothingBefore(p.up); }
  }

  predicate Rightmost<T>(p: Path<T>) {
    !p.Top? ==> p.InRight? && Rightmost(p.up)
  }

  lemma {:induction false} NothingAfter<T>(p: Path<T>)
    requires Rightmost(p)
    ensures After(p) == []
  {
    if !p.Top? { NothingAfter(p.up); }
  }

  lemma {:induction false} BeforeAndAfterOnto<T>(inner: Path<T>, outer: Path<T>)
    ensures Before(Onto(inner, outer)) == Before(outer) + Before(inner)
    ensures After(Onto(inner, outer)) == After(inner) + After(outer)
    decreases inner
  {
    if !inner.Top? { BeforeAndAfterOnto(inner.up, outer); }
  }

  /** The leftmost node below a right child comes right after the parent of that child. */
  lemma LeftmostBelow<T>(c: Cursor<T>, spine: Path<T>, d: Cursor<T>)
    requires c.tree.Bin? && d.tree.Bin? && d.tree.left.Leaf? && Leftmost(spine)
    requires d.path == Onto(spine, c.DownRight().path) && Plug(spine, d.tree) == c.tree.right
    ensures d.Whole() == c.Whole() && Preceding(d) == Preceding(c) + [c.tree.item]
  {
    PlugOnto(spine, c.DownRight().path, d.tree);
    UpIsWhole(c.DownRight());
    NothingBefore(spine);
    BeforeAndAfterOnto(spine, c.DownRight().path);
  }

  lemma RightmostBelow<T>(c: Cursor<T>, spine: Path<T>, d: Cursor<T>)
    requires c.tree.Bin? && d.tree.Bin? && d.tree.right.Leaf? && Rightmost(spine)
    requires d.path == Onto(spine, c.DownLeft().path) && Plug(spine, d.tree) == c.tree.left
    ensures d.Whole() == c.Whole() && Following(d) == [c.tree.item] + Following(c)
  {
    PlugOnto(spine, c.DownLeft().path, d.tree);
    UpIsWhole(c.DownLeft());
    NothingAfter(spine);
    BeforeAndAfterOnto(spine, c.DownLeft().path);
  }

  /** Where an item of a tree is. */
  lemma {:induction false} Locate<T>(t: Tree<T>, x: T, p: Path<T>) returns (c: Cursor<T>)
    requires x in Items(t)
    ensures c.tree.Bin? && c.tree.item == x && c.Whole() == Plug(p, t)
    decreases t
  {
    if t.item == x {
      c := At(p, t);
    } else if x in Items(t.left) {
      c := Locate(t.left, x, InLeft(p, t.item, t.color, t.right));
    } else {
      c := Locate(t.right, x, InRight(p, t.left, t.item, t.color));
    }
  }
}
