/** The linked nodes of `src/common/ds/rbtree.h` and what it means that they spell out a tree.

    The packed word `__rb_parent_color` is two fields here, `parent` and `color`; NULL leaves are `null`.
    What the links of a set of nodes say is written down as a value, a `Links`, so that what one operation
    does to them can be proved about values.
  */
module RbLinks {
  import opened RbShape
  import opened RbFixup

  class Node {
    const key: int  // stands for the structure the node is embedded in
    var parent: Node?
    var color: Color
    var right: Node?
    var left: Node?

    /** `rb_node_init` on a new node. */
    constructor (key: int)
      ensures this.key == key
      ensures parent == null && color == Red && right == null && left == null
    {
      this.key := key;
      left, right := null, null;
      parent, color := null, Red;
    }
  }

  datatype Cell = Cell(parent: Node?, color: Color, left: Node?, right: Node?)

  type Links = map<Node, Cell>

  ghost function LinksOf(nodes: set<Node>): Links
    reads nodes
  {
    map n | n in nodes :: Cell(n.parent, n.color, n.left, n.right)
  }

  predicate IsRed(n: Node?)
    reads n
  {
    n != null && n.color == Red
  }

  predicate IsBlack(n: Node?)
    reads n
  {
    n == null || n.color == Black
  }

  predicate IsRoot(n: Node?)
    reads n
  {
    n != null && n.parent == null
  }

  predicate IsLChild(n: Node?)
    reads n, if n == null then null else n.parent
  {
    n != null && n.parent != null && n.parent.left == n
  }

  predicate IsRChild(n: Node?)
    reads n, if n == null then null else n.parent
  {
    n != null && n.parent != null && n.parent.right == n
  }

  // ---------- from links to shapes ----------

  function RootOf(t: Tree<Node>): Node? {
    if t.Leaf? then null else t.item
  }

  function ParentOf(p: Path<Node>): Node? {
    if p.Top? then null else p.item
  }

  /** The links below the root of `t` spell out `t`, and its parent link is `parent`. */
  ghost predicate Spells(h: Links, t: Tree<Node>, parent: Node?) {
    match t
    case Leaf => true
    case Bin(l, n, c, r) =>
      && n in h && h[n] == Cell(parent, c, RootOf(l), RootOf(r))
      && Spells(h, l, n) && Spells(h, r, n)
  }

  /** The links from `root` down to the hole of `p` spell out `p`, and the hole holds `x`. */
  ghost predicate SpellsAround(h: Links, p: Path<Node>, x: Node?, root: Node?) {
    match p
    case Top => root == x
    case InLeft(up, n, c, r) =>
      && n in h && h[n] == Cell(ParentOf(up), c, x, RootOf(r))
      && Spells(h, r, n) && SpellsAround(h, up, n, root)
    case InRight(up, l, n, c) =>
      && n in h && h[n] == Cell(ParentOf(up), c, RootOf(l), x)
      && Spells(h, l, n) && SpellsAround(h, up, n, root)
  }

  /** The links of `h` are exactly those of the tree of `c`, which hangs off `root`. */
  ghost predicate Focus(h: Links, root: Node?, c: Cursor<Node>) {
    && Distinct(c.tree) && DistinctAround(c.path, Items(c.tree)) && h.Keys == PathItems(c.path) + Items(c.tree)
    && Spells(h, c.tree, ParentOf(c.path)) && SpellsAround(h, c.path, RootOf(c.tree), root)
  }

  /** Moving the cursor one level up or down changes nothing. */
  lemma FocusUp(h: Links, root: Node?, c: Cursor<Node>)
    requires !c.path.Top?
    ensures Focus(h, root, c) <==> Focus(h, root, c.Up())
  {
    var p, t := c.path, c.tree;
    if p.InLeft? {
      assert Items(Bin(t, p.item, p.color, p.right)) == Items(t) + {p.item} + Items(p.right);
    } else {
      assert Items(Bin(p.left, p.item, p.color, t)) == Items(p.left) + {p.item} + Items(t);
    }
  }

  lemma FocusAcross(h: Links, root: Node?, c: Cursor<Node>)
    requires !c.path.Top?
    ensures Focus(h, root, c) <==> Focus(h, root, c.Across())
  {
    FocusUp(h, root, c);
    FocusUp(h, root, c.Across());
  }

  /** What the fields of the node at the cursor and of its parent hold. */
  lemma AtCursor(h: Links, root: Node?, c: Cursor<Node>)
    requires Focus(h, root, c)
    ensures c.tree.Bin? ==>
              c.tree.item in h && h[c.tree.item] == Cell(ParentOf(c.path), c.tree.color, RootOf(c.tree.left), RootOf(c.tree.right))
    ensures c.tree.Bin? && c.tree.left.Bin? ==> c.tree.left.item in h && h[c.tree.left.item].color == c.tree.left.color
    ensures c.tree.Bin? && c.tree.right.Bin? ==> c.tree.right.item in h && h[c.tree.right.item].color == c.tree.right.color
    ensures c.path.Top? ==> root == RootOf(c.tree)
    ensures !c.path.Top? ==>
              var up := c.Up().tree;
              && c.path.item in h && up.item == c.path.item
              && h[up.item] == Cell(ParentOf(c.path.up), c.path.color, RootOf(up.left), RootOf(up.right))
              && (c.tree.Bin? ==> (c.path.InLeft? <==> RootOf(up.left) == RootOf(c.tree)) && (c.path.InRight? <==> RootOf(up.right) == RootOf(c.tree)))
  {
    assert c.tree.Bin? ==> Spells(h, c.tree.left, c.tree.item) && Spells(h, c.tree.right, c.tree.item);
  }

  /** A focus is the linked tree itself, whatever the cursor. */
  lemma {:induction false} FocusIsWhole(h: Links, root: Node?, c: Cursor<Node>)
    ensures Focus(h, root, c) <==> Focus(h, root, At(Top, c.Whole()))
    decreases c.path
  {
    if !c.path.Top? {
      FocusUp(h, root, c);
      FocusIsWhole(h, root, c.Up());
    }
  }

  // ---------- what a change elsewhere leaves alone ----------

  lemma {:induction false} SpellsKept(h: Links, h': Links, t: Tree<Node>, parent: Node?)
    requires Spells(h, t, parent)
    requires forall n <- Items(t) | n in h :: n in h' && h'[n] == h[n]
    ensures Spells(h', t, parent)
  {
    if t.Bin? {
      SpellsKept(h, h', t.left, t.item);
      SpellsKept(h, h', t.right, t.item);
    }
  }

  lemma {:induction false} AroundKept(h: Links, h': Links, p: Path<Node>, x: Node?, root: Node?)
    requires SpellsAround(h, p, x, root)
    requires forall n <- PathItems(p) | n in h :: n in h' && h'[n] == h[n]
    ensures SpellsAround(h', p, x, root)
    decreases p
  {
    match p
    case Top =>
    case InLeft(up, n, _, r) =>
      SpellsKept(h, h', r, n);
      AroundKept(h, h', up, n, root);
    case InRight(up, l, n, _) =>
      SpellsKept(h, h', l, n);
      AroundKept(h, h', up, n, root);
  }

  /** Of the links of `h`, at most those of the nodes in `these` are different in `h'`. */
  ghost predicate OnlyThese(h: Links, h': Links, these: set<Node?>) {
    h'.Keys == h.Keys && forall n | n in h && n !in these :: h'[n] == h[n]
  }

  /** The root of `t`, if any, has come to have the parent link `parent`. */
  ghost predicate Reparented(h: Links, h': Links, t: Tree<Node>, parent: Node?) {
    t.Bin? && t.item in h ==> t.item in h' && h'[t.item] == h[t.item].(parent := parent)
  }

  /** The link of the hole of `p`, unless that is the tree's root link, has come to hold `x`. */
  ghost predicate Redirected(h: Links, h': Links, p: Path<Node>, x: Node?) {
    !p.Top? && p.item in h ==>
      && p.item in h'
      && h'[p.item] == if p.InLeft? then h[p.item].(left := x) else h[p.item].(right := x)
  }

  function NewRoot(root: Node?, p: Path<Node>, x: Node?): Node? {
    if p.Top? then x else root
  }

  lemma SpellsReparented(h: Links, h': Links, t: Tree<Node>, parent: Node?, parent': Node?)
    requires Spells(h, t, parent) && Distinct(t) && Reparented(h, h', t, parent')
    requires forall n <- Items(t) | n in h && n != RootOf(t) :: n in h' && h'[n] == h[n]
    ensures Spells(h', t, parent')
  {
    if t.Bin? {
      SpellsKept(h, h', t.left, t.item);
      SpellsKept(h, h', t.right, t.item);
    }
  }

  lemma AroundRedirected(h: Links, h': Links, p: Path<Node>, x: Node?, root: Node?, x': Node?)
    requires SpellsAround(h, p, x, root) && DistinctAround(p, {}) && Redirected(h, h', p, x')
    requires forall n <- PathItems(p) | n in h && n != ParentOf(p) :: n in h' && h'[n] == h[n]
    ensures SpellsAround(h', p, x', NewRoot(root, p, x'))
  {
    if !p.Top? {
      NearestIsDisjoint(p, {});
      AroundKept(h, h', p.up, p.item, root);
      if p.InLeft? {
        SpellsKept(h, h', p.right, p.item);
      } else {
        SpellsKept(h, h', p.left, p.item);
      }
    }
  }

  // ---------- rotations ----------

  /** Two neighbouring nodes, `x` before `y` in order, and all that hangs around them. */
  datatype Pivot = Pivot(p: Path<Node>, a: Tree<Node>, x: Node, cx: Color, b: Tree<Node>, y: Node, cy: Color, c: Tree<Node>)
  {
    /** `x` on top. */
    function XOnTop(): Cursor<Node> {
      At(p, Bin(a, x, cx, Bin(b, y, cy, c)))
    }

    /** `y` on top. */
    function YOnTop(): Cursor<Node> {
      At(p, Bin(Bin(a, x, cx, b), y, cy, c))
    }

    function Shape(xOnTop: bool): Cursor<Node> {
      if xOnTop then XOnTop() else YOnTop()
    }

    function Top(xOnTop: bool): Node {
      if xOnTop then x else y
    }

    /** What the links of `x` and of `y` hold. */
    function XCell(xOnTop: bool): Cell {
      if xOnTop then Cell(ParentOf(p), cx, RootOf(a), y) else Cell(y, cx, RootOf(a), RootOf(b))
    }

    function YCell(xOnTop: bool): Cell {
      if xOnTop then Cell(x, cy, RootOf(b), RootOf(c)) else Cell(ParentOf(p), cy, x, RootOf(c))
    }

    /** What the two shapes have in common, as flat facts. */
    ghost predicate Apart() {
      && x != y && x !in Items(a) && x !in Items(b) && x !in Items(c) && x !in PathItems(p)
      && y !in Items(a) && y !in Items(b) && y !in Items(c) && y !in PathItems(p)
      && Items(a) !! Items(b) && Items(a) !! Items(c) && Items(b) !! Items(c)
      && PathItems(p) !! Items(a) && PathItems(p) !! Items(b) && PathItems(p) !! Items(c)
      && Distinct(a) && Distinct(b) && Distinct(c) && DistinctAround(p, {})
    }
  }

  lemma PivotKeepsItems(k: Pivot)
    ensures Items(k.XOnTop().tree) == Items(k.YOnTop().tree)
    ensures Distinct(k.XOnTop().tree) <==> Distinct(k.YOnTop().tree)
    ensures Distinct(k.XOnTop().tree) && DistinctAround(k.p, Items(k.XOnTop().tree)) ==> k.Apart()
  {
    if DistinctAround(k.p, Items(k.XOnTop().tree)) {
      AroundIsDisjoint(k.p, Items(k.XOnTop().tree));
      AroundSmaller(k.p, Items(k.XOnTop().tree), {});
    }
  }

  /** The links of the pivot, and the four parts around it. */
  ghost predicate PivotLinks(h: Links, root: Node?, k: Pivot, xOnTop: bool) {
    && k.x in h && k.y in h && h[k.x] == k.XCell(xOnTop) && h[k.y] == k.YCell(xOnTop)
    && Spells(h, k.a, k.x) && Spells(h, k.b, k.Top(!xOnTop)) && Spells(h, k.c, k.y)
    && SpellsAround(h, k.p, k.Top(xOnTop), root)
  }

  lemma PivotFocus(h: Links, root: Node?, k: Pivot, xOnTop: bool)
    ensures var t := k.Shape(xOnTop).tree;
            Focus(h, root, k.Shape(xOnTop)) <==>
              && Distinct(t) && DistinctAround(k.p, Items(t)) && h.Keys == PathItems(k.p) + Items(t)
              && PivotLinks(h, root, k, xOnTop)
  {
    if xOnTop {
      assert Spells(h, k.XOnTop().tree.right, k.x) <==>
             k.y in h && h[k.y] == k.YCell(true) && Spells(h, k.b, k.y) && Spells(h, k.c, k.y);
    } else {
      assert Spells(h, k.YOnTop().tree.left, k.y) <==>
             k.x in h && h[k.x] == k.XCell(false) && Spells(h, k.a, k.x) && Spells(h, k.b, k.x);
    }
  }

  /** The few links that a rotation reads: those of the pivot, of the tree between, and of the parent. */
  ghost predicate Hinge(h: Links, k: Pivot, xOnTop: bool) {
    var par := ParentOf(k.p); var mid := RootOf(k.b); var top := k.Top(xOnTop);
    && k.x in h && k.y in h && k.x != k.y && h[k.x] == k.XCell(xOnTop) && h[k.y] == k.YCell(xOnTop)
    && (mid != null ==> mid in h && mid != k.x && mid != k.y && mid != par)
    && (par != null ==> par in h && par != k.x && par != k.y)
    && (k.p.InLeft? ==> h[par].left == top)
    && (k.p.InRight? ==> h[par].right == top && h[par].left != top)
  }

  lemma HingeOf(h: Links, root: Node?, k: Pivot, xOnTop: bool)
    requires k.Apart() && PivotLinks(h, root, k, xOnTop)
    ensures Hinge(h, k, xOnTop)
  {
    assert k.b.Bin? ==> k.b.item in Items(k.b);
    assert k.p.InRight? && k.p.left.Bin? ==> k.p.left.item in PathItems(k.p);
  }

  /** What a rotation that ends with `x` on top, or with `y` on top, does to the links. */
  ghost predicate Turned(h: Links, h': Links, k: Pivot, xOnTop: bool) {
    && OnlyThese(h, h', {k.x, k.y, RootOf(k.b), ParentOf(k.p)})
    && k.x in h' && k.y in h' && h'[k.x] == k.XCell(xOnTop) && h'[k.y] == k.YCell(xOnTop)
    && Reparented(h, h', k.b, k.Top(!xOnTop)) && Redirected(h, h', k.p, k.Top(xOnTop))
  }

  lemma TreesTurned(h: Links, h': Links, k: Pivot, xOnTop: bool)
    requires k.Apart() && Turned(h, h', k, xOnTop)
    requires Spells(h, k.a, k.x) && Spells(h, k.b, k.Top(xOnTop)) && Spells(h, k.c, k.y)
    ensures Spells(h', k.a, k.x) && Spells(h', k.b, k.Top(!xOnTop)) && Spells(h', k.c, k.y)
  {
    assert RootOf(k.b) in Items(k.b) + {null};
    assert ParentOf(k.p) in PathItems(k.p) + {null};
    SpellsKept(h, h', k.a, k.x);
    SpellsKept(h, h', k.c, k.y);
    SpellsReparented(h, h', k.b, k.Top(xOnTop), k.Top(!xOnTop));
  }

  lemma PivotTurned(h: Links, h': Links, root: Node?, k: Pivot, xOnTop: bool)
    requires k.Apart() && PivotLinks(h, root, k, !xOnTop) && Turned(h, h', k, xOnTop)
    ensures PivotLinks(h', NewRoot(root, k.p, k.Top(xOnTop)), k, xOnTop)
  {
    TreesTurned(h, h', k, xOnTop);
    assert RootOf(k.b) in Items(k.b) + {null};
    AroundRedirected(h, h', k.p, k.Top(!xOnTop), root, k.Top(xOnTop));
  }

  /** Rotating keeps a linked tree linked: the assignments of a rotation lead from one shape to the other. */
  lemma RotationKeepsFocus(h: Links, h': Links, root: Node?, k: Pivot, xOnTop: bool)
    requires Focus(h, root, k.Shape(!xOnTop)) && Turned(h, h', k, xOnTop)
    ensures Focus(h', NewRoot(root, k.p, k.Top(xOnTop)), k.Shape(xOnTop))
  {
    PivotFocus(h, root, k, !xOnTop);
    PivotKeepsItems(k);
    PivotTurned(h, h', root, k, xOnTop);
    PivotFocus(h', NewRoot(root, k.p, k.Top(xOnTop)), k, xOnTop);
  }

  // ---------- colors ----------

  /** Painting the node at the cursor. */
  lemma PaintingKeepsFocus(h: Links, h': Links, root: Node?, c: Cursor<Node>, color: Color)
    requires Focus(h, root, c) && c.tree.Bin?
    requires h' == h[c.tree.item := h[c.tree.item].(color := color)]
    ensures Focus(h', root, At(c.path, Painted(c.tree, color)))
  {
    var n := c.tree.item;
    AroundIsDisjoint(c.path, Items(c.tree));
    SpellsKept(h, h', c.tree.left, n);
    SpellsKept(h, h', c.tree.right, n);
    AroundKept(h, h', c.path, n, root);
  }

  // ---------- nodes that come and go ----------

  /** A new red node in the place of a NULL leaf. */
  lemma LeafReplaced(h: Links, h': Links, root: Node?, p: Path<Node>, z: Node)
    requires Focus(h, root, At(p, Leaf)) && z !in h
    requires h'.Keys == h.Keys + {z} && h'[z] == Cell(ParentOf(p), Red, null, null)
    requires Redirected(h, h', p, z) && forall n | n in h && n != ParentOf(p) :: h'[n] == h[n]
    ensures Focus(h', NewRoot(root, p, z), At(p, Bin(Leaf, z, Red, Leaf)))
  {
    var t := Bin(Leaf, z, Red, Leaf);
    AroundRedirected(h, h', p, null, root, z);
    AroundGrown(p, {}, z);
    assert Items(t) == {} + {z};
  }

  lemma {:induction false} AroundGrown(p: Path<Node>, s: set<Node>, z: Node)
    requires DistinctAround(p, s) && z !in PathItems(p)
    ensures DistinctAround(p, s + {z})
    decreases p
  {
    match p
    case Top =>
    case InLeft(up, x, _, r) =>
      assert s + {z} + {x} + Items(r) == s + {x} + Items(r) + {z};
      AroundGrown(up, s + {x} + Items(r), z);
    case InRight(up, l, x, _) =>
      assert Items(l) + {x} + (s + {z}) == Items(l) + {x} + s + {z};
      AroundGrown(up, Items(l) + {x} + s, z);
  }

  /** `rb_transplant(u, v)`, as far as links go, for the root `u` of the tree at the cursor. */
  ghost predicate Transplanted(h: Links, h': Links, p: Path<Node>, u: Node, v: Tree<Node>) {
    && h'.Keys == h.Keys - {u}
    && Redirected(h, h', p, RootOf(v)) && Reparented(h, h', v, ParentOf(p))
    && forall n | n in h' && n != ParentOf(p) && n != RootOf(v) :: h'[n] == h[n]
  }

  /** A node with at most one child, replaced by that child. */
  lemma ChildSpliced(h: Links, h': Links, root: Node?, c: Cursor<Node>)
    requires Focus(h, root, c) && c.tree.Bin? && (c.tree.left.Leaf? || c.tree.right.Leaf?)
    requires Transplanted(h, h', c.path, c.tree.item, OnlyChild(c.tree))
    ensures Focus(h', NewRoot(root, c.path, RootOf(OnlyChild(c.tree))), At(c.path, OnlyChild(c.tree)))
  {
    var u, v := c.tree.item, OnlyChild(c.tree);
    AroundIsDisjoint(c.path, Items(c.tree));
    assert Items(c.tree) == Items(v) + {u};
    AroundSmaller(c.path, Items(c.tree), Items(v));
    AroundSmaller(c.path, Items(c.tree), {});
    assert RootOf(v) in Items(v) + {null} && ParentOf(c.path) in PathItems(c.path) + {null};
    SpellsReparented(h, h', v, u, ParentOf(c.path));
    AroundRedirected(h, h', c.path, u, root, RootOf(v));
  }

  /** The node `y`, from elsewhere, takes over all links of `x`. */
  ghost predicate TakenOver(h: Links, h': Links, p: Path<Node>, l: Tree<Node>, x: Node, c: Color, r: Tree<Node>, y: Node) {
    && h'.Keys == h.Keys - {x} + {y}
    && h'[y] == Cell(ParentOf(p), c, RootOf(l), RootOf(r))
    && Redirected(h, h', p, y) && Reparented(h, h', l, y) && Reparented(h, h', r, y)
    && forall n | n in h && n != x && n != ParentOf(p) && n != RootOf(l) && n != RootOf(r) :: h'[n] == h[n]
  }

  lemma SubstitutedParts(h: Links, h': Links, root: Node?, p: Path<Node>, l: Tree<Node>, x: Node, c: Color, r: Tree<Node>, y: Node)
    requires Spells(h, l, x) && Spells(h, r, x) && SpellsAround(h, p, x, root)
    requires Distinct(l) && Distinct(r) && DistinctAround(p, {}) && PathItems(p) !! Items(l) && PathItems(p) !! Items(r)
    requires Items(l) !! Items(r) && x !in Items(l) && x !in Items(r) && x !in PathItems(p)
    requires y !in h && TakenOver(h, h', p, l, x, c, r, y)
    ensures Spells(h', l, y) && Spells(h', r, y) && SpellsAround(h', p, y, NewRoot(root, p, y))
  {
    assert RootOf(l) in Items(l) + {null} && RootOf(r) in Items(r) + {null} && ParentOf(p) in PathItems(p) + {null};
    SpellsReparented(h, h', l, x, y);
    SpellsReparented(h, h', r, x, y);
    AroundRedirected(h, h', p, x, root, y);
  }

  lemma DistinctSubstituted(p: Path<Node>, l: Tree<Node>, x: Node, c: Color, r: Tree<Node>, y: Node)
    requires Distinct(Bin(l, x, c, r)) && DistinctAround(p, Items(Bin(l, x, c, r)))
    requires y !in Items(l) && y !in Items(r) && y !in PathItems(p)
    ensures Distinct(Bin(l, y, c, r)) && DistinctAround(p, Items(Bin(l, y, c, r))) && DistinctAround(p, {})
    ensures Items(Bin(l, x, c, r)) == Items(l) + Items(r) + {x} && Items(Bin(l, y, c, r)) == Items(l) + Items(r) + {y}
    ensures PathItems(p) !! Items(l) && PathItems(p) !! Items(r) && x !in PathItems(p)
  {
    var s := Items(Bin(l, x, c, r));
    assert s == Items(l) + Items(r) + {x} && Items(Bin(l, y, c, r)) == Items(l) + Items(r) + {y};
    AroundIsDisjoint(p, s);
    AroundSmaller(p, s, Items(l) + Items(r));
    AroundSmaller(p, s, {});
    AroundGrown(p, Items(l) + Items(r), y);
  }

  lemma Substituted(h: Links, h': Links, root: Node?, p: Path<Node>, l: Tree<Node>, x: Node, c: Color, r: Tree<Node>, y: Node)
    requires Focus(h, root, At(p, Bin(l, x, c, r))) && y !in h
    requires TakenOver(h, h', p, l, x, c, r, y)
    ensures Focus(h', NewRoot(root, p, y), At(p, Bin(l, y, c, r)))
  {
    DistinctSubstituted(p, l, x, c, r, y);
    SubstitutedParts(h, h', root, p, l, x, c, r, y);
  }

  /** The same when `y` is the right child of `x`: it then keeps its own right subtree. */
  lemma ChildSubstituted(h: Links, h': Links, root: Node?, p: Path<Node>, l: Tree<Node>, x: Node, c: Color, y: Node, cy: Color, r: Tree<Node>)
    requires Focus(h, root, At(p, Bin(l, x, c, Bin(Leaf, y, cy, r))))
    requires h'.Keys == h.Keys - {x} && y in h' && h'[y] == Cell(ParentOf(p), c, RootOf(l), RootOf(r))
    requires Redirected(h, h', p, y) && Reparented(h, h', l, y)
    requires forall n | n in h' && n != y && n != ParentOf(p) && n != RootOf(l) :: h'[n] == h[n]
    ensures Focus(h', NewRoot(root, p, y), At(p, Bin(l, y, c, r)))
  {
    hide Focus;
    var d := At(InRight(p, l, x, c), Bin(Leaf, y, cy, r));
    FocusUp(h, root, d);
    Family(h, root, p, l, x, c, Bin(Leaf, y, cy, r));
    AtCursor(h, root, d);
    FocusUp(h, root, d.DownRight());
    AtCursor(h, root, d.DownRight());
    var h1 := map n | n in h && n != y ::
      if n == x then h[n].(right := RootOf(r)) else if n == RootOf(r) then h[n].(parent := x) else h[n];
    assert OnlyChild(d.tree) == r;
    ChildSpliced(h, h1, root, d);
    FocusUp(h1, root, At(d.path, r));
    Substituted(h1, h', root, p, l, x, c, r, y);
  }

  /** A node, its parent and the roots below it are different nodes. */
  lemma Family(h: Links, root: Node?, p: Path<Node>, l: Tree<Node>, x: Node, c: Color, r: Tree<Node>)
    requires Focus(h, root, At(p, Bin(l, x, c, r)))
    ensures x in h && x != ParentOf(p) && (!p.Top? ==> ParentOf(p) in h)
    ensures l.Bin? ==> RootOf(l) in h && RootOf(l) !in {x, RootOf(r), ParentOf(p)}
    ensures r.Bin? ==> RootOf(r) in h && RootOf(r) !in {x, ParentOf(p)}
    ensures r.Bin? && r.left.Bin? ==> RootOf(r.left) in h && RootOf(r.left) !in {x, RootOf(l), RootOf(r), ParentOf(p)}
    ensures r.Bin? && r.right.Bin? ==> RootOf(r.right) in h && RootOf(r.right) !in {x, RootOf(l), RootOf(r), ParentOf(p)}
  {
    AroundIsDisjoint(p, Items(Bin(l, x, c, r)));
    assert RootOf(l) in Items(l) + {null} && RootOf(r) in Items(r) + {null} && ParentOf(p) in PathItems(p) + {null};
    assert r.Bin? ==> RootOf(r.left) in Items(r) + {null} && RootOf(r.right) in Items(r) + {null};
    assert r.Bin? && r.left.Bin? ==> r.left.item in Items(r.left);
    assert r.Bin? && r.right.Bin? ==> r.right.item in Items(r.right);
    assert r.Bin? ==> Distinct(r);
  }
}
