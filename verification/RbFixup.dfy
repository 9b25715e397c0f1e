/** The case analyses of `rb_insert_fixup` and `rb_delete_fixup`, on trees with a cursor.

    Each case is a function from one cursor to the next; the lemmas say that it keeps the order of the
    items and what is known about the colors above and below the cursor.  The case numbers are those of
    the comments in `src/common/ds/rbtree.c`.
  */
module RbFixup {
  import opened RbShape

  // ---------- insertion ----------

  /** All is well, except that the red node at the cursor may have a red parent. */
  predicate RedAtCursor<T>(c: Cursor<T>) {
    && c.tree.Bin? && c.tree.color.Red?
    && Balanced(c.tree) && BalancedAround(c.path, BlackHeight(c.tree))
    && NoRedRed(c.tree) && NoRedRedAround(c.path, Black)
    && OuterColor(c.path, Black).Black?
  }

  /** The parent is red, so that there is a black grandparent. */
  predicate RedTwice<T>(c: Cursor<T>) {
    && RedAtCursor(c) && !c.path.Top? && c.path.color.Red?
    && !c.path.up.Top? && c.path.up.color.Black?
  }

  lemma GrandparentIsBlack<T>(c: Cursor<T>)
    requires RedAtCursor(c) && c.ParentColor().Red?
    ensures RedTwice(c)
  {
    assert NoRedRedAround(c.path.up, Red);
    assert OuterColor(c.path.up, Red).Black?;
  }

  /** What is known around the grandparent. */
  lemma AroundGrandparent<T>(c: Cursor<T>)
    requires RedTwice(c)
    ensures var g := c.path.up; var uncle := c.Up().Sibling();
            && BalancedAround(g.up, BlackHeight(c.tree) + 1) && NoRedRedAround(g.up, Black) && OuterColor(g.up, Black).Black?
            && Balanced(uncle) && NoRedRed(uncle) && BlackHeight(uncle) == BlackHeight(c.tree)
            && Balanced(c.Sibling()) && NoRedRed(c.Sibling()) && BlackHeight(c.Sibling()) == BlackHeight(c.tree)
            && RootColor(c.Sibling()).Black?
  {
    assert NoRedRedAround(c.path.up, Red);
    assert BalancedAround(c.path.up, BlackHeight(c.tree));
    assert OuterColor(c.path.up, Red).Black?;
  }

  /** A change of the tree below the grandparent that keeps its order keeps the order of the whole. */
  lemma SameOrderTwiceUp<T>(c: Cursor<T>, d: Cursor<T>)
    requires !c.path.Top? && !c.path.up.Top? && d.path == c.path.up.up
    ensures InOrder(d.tree) == InOrder(c.Up().Up().tree) ==> InOrder(d.Whole()) == InOrder(c.Whole())
  {
    UpIsWhole(c);
    UpIsWhole(c.Up());
    if InOrder(d.tree) == InOrder(c.Up().Up().tree) { SameOrder(d.path, d.tree, c.Up().Up().tree); }
  }

  lemma SameOrderUp<T>(c: Cursor<T>, d: Cursor<T>)
    requires !c.path.Top? && d.path == c.path.up
    ensures InOrder(d.tree) == InOrder(c.Up().tree) ==> InOrder(d.Whole()) == InOrder(c.Whole())
  {
    UpIsWhole(c);
    if InOrder(d.tree) == InOrder(c.Up().tree) { SameOrder(d.path, d.tree, c.Up().tree); }
  }

  /** Case 1: parent and uncle turn black, the grandparent red, and the cursor moves there. */
  function Recolored<T>(c: Cursor<T>): Cursor<T>
    requires !c.path.Top? && !c.path.up.Top?
  {
    var parent := Painted(c.Up().tree, Black);
    match c.path.up
    case InLeft(up, g, _, uncle) => At(up, Bin(parent, g, Red, Painted(uncle, Black)))
    case InRight(up, uncle, g, _) => At(up, Bin(Painted(uncle, Black), g, Red, parent))
  }

  lemma RecoloredKeeps<T>(c: Cursor<T>)
    requires RedTwice(c) && RootColor(c.Up().Sibling()).Red?
    ensures RedAtCursor(Recolored(c))
    ensures InOrder(Recolored(c).Whole()) == InOrder(c.Whole())
  {
    SameOrderTwiceUp(c, Recolored(c));
    AroundGrandparent(c);
    assert InOrder(Painted(c.Up().tree, Black)) == InOrder(c.Up().tree);
    var d := Recolored(c);
    assert RootColor(d.tree.left).Black? && RootColor(d.tree.right).Black?;
    assert InOrder(Painted(c.Up().Sibling(), Black)) == InOrder(c.Up().Sibling());
  }

  /** Case 2: the cursor is an inner grandchild; a rotation makes it an outer one. */
  predicate Inner<T>(c: Cursor<T>) {
    !c.path.Top? && !c.path.up.Top? && (c.path.InLeft? != c.path.up.InLeft?)
  }

  function Straightened<T>(c: Cursor<T>): Cursor<T>
    requires Inner(c) && c.tree.Bin?
  {
    var Bin(tl, z, col, tr) := c.tree;
    match c.path
    case InRight(up, s, x, cx) => At(InLeft(up, z, col, tr), Bin(s, x, cx, tl))
    case InLeft(up, x, cx, s) => At(InRight(up, tl, z, col), Bin(tr, x, cx, s))
  }

  lemma StraightenedKeeps<T>(c: Cursor<T>)
    requires RedTwice(c) && Inner(c)
    ensures var d := Straightened(c);
            && RedTwice(d) && !Inner(d) && d.path.up == c.path.up && d.Up().Sibling() == c.Up().Sibling()
            && InOrder(d.Whole()) == InOrder(c.Whole())
  {
    SameOrderUp(c, Straightened(c).Up());
    UpIsWhole(Straightened(c));
    AroundGrandparent(c);
    var Bin(tl, z, col, tr) := c.tree;
    match c.path
    case InRight(up, s, x, cx) => TurnKeepsOrder(s, x, cx, tl, z, col, tr, cx, col);
    case InLeft(up, x, cx, s) => TurnKeepsOrder(tl, z, col, tr, x, cx, s, col, cx);
  }

  /** Case 3: the parent turns black and rises above the grandparent, which turns red. */
  function Lifted<T>(c: Cursor<T>): Cursor<T>
    requires !c.path.Top? && !c.path.up.Top? && !Inner(c)
  {
    match c.path
    case InLeft(InLeft(up, g, _, uncle), x, _, s) => At(InLeft(up, x, Black, Bin(s, g, Red, uncle)), c.tree)
    case InRight(InRight(up, uncle, g, _), s, x, _) => At(InRight(up, Bin(uncle, g, Red, s), x, Black), c.tree)
  }

  lemma LiftedKeeps<T>(c: Cursor<T>)
    requires RedTwice(c) && !Inner(c) && RootColor(c.Up().Sibling()).Black?
    ensures var d := Lifted(c);
            && RedAtCursor(d) && d.ParentColor().Black?
            && InOrder(d.Whole()) == InOrder(c.Whole())
  {
    SameOrderTwiceUp(c, Lifted(c).Up());
    UpIsWhole(Lifted(c));
    AroundGrandparent(c);
    match c.path
    case InLeft(InLeft(up, g, _, uncle), x, _, s) => TurnKeepsOrder(c.tree, x, Black, s, g, Red, uncle, Red, Black);
    case InRight(InRight(up, uncle, g, _), s, x, _) => TurnKeepsOrder(uncle, g, Black, s, x, Red, c.tree, Red, Black);
  }

  /** When the parent is black, only the root may still have to be painted. */
  lemma InsertionDone<T>(c: Cursor<T>)
    requires RedAtCursor(c) && c.ParentColor().Black?
    ensures RedBlack(Painted(c.Whole(), Black))
    ensures InOrder(Painted(c.Whole(), Black)) == InOrder(c.Whole())
  {
    PlugRedBlack(c.path, c.tree);
  }

  // ---------- deletion ----------

  /** All would be well if the tree at the cursor had one more black node on each way down. */
  predicate LackAtCursor<T>(c: Cursor<T>) {
    && Balanced(c.tree) && BalancedAround(c.path, BlackHeight(c.tree) + 1)
    && NoRedRed(Painted(c.tree, Black)) && NoRedRedAround(c.path, Black)
    && OuterColor(c.path, Black).Black?
  }

  /** Paths below the root, with a black node at the cursor: the loop of `rb_delete_fixup` goes on. */
  predicate DoublyBlack<T>(c: Cursor<T>) {
    LackAtCursor(c) && !c.path.Top? && RootColor(c.tree).Black?
  }

  /** The sibling of a doubly black node is never a NULL leaf. */
  lemma SiblingExists<T>(c: Cursor<T>)
    requires DoublyBlack(c)
    ensures c.Sibling().Bin?
    ensures Balanced(c.Sibling()) && NoRedRed(c.Sibling()) && BlackHeight(c.Sibling()) == BlackHeight(c.tree) + 1
    ensures RootColor(c.Sibling()).Red? ==> c.ParentColor().Black?
    ensures BalancedAround(c.path.up, BlackHeight(c.tree) + 1 + if c.path.color.Black? then 1 else 0)
    ensures NoRedRedAround(c.path.up, c.path.color) && OuterColor(c.path.up, c.path.color).Black?
  {
  }

  /** Case 1: a red sibling rises above the parent; the new sibling is black. */
  function SiblingRaised<T>(c: Cursor<T>): Cursor<T>
    requires !c.path.Top? && c.Sibling().Bin?
  {
    match c.path
    case InLeft(up, q, _, Bin(wl, w, _, wr)) => At(InLeft(InLeft(up, w, Black, wr), q, Red, wl), c.tree)
    case InRight(up, Bin(wl, w, _, wr), q, _) => At(InRight(InRight(up, wl, w, Black), wr, q, Red), c.tree)
  }

  lemma SiblingRaisedKeeps<T>(c: Cursor<T>)
    requires DoublyBlack(c) && RootColor(c.Sibling()).Red?
    ensures c.Sibling().Bin?
    ensures var d := SiblingRaised(c);
            && DoublyBlack(d) && RootColor(d.Sibling()).Black? && d.ParentColor().Red?
            && InOrder(d.Whole()) == InOrder(c.Whole())
  {
    SiblingExists(c);
    UpIsWhole(SiblingRaised(c));
    UpIsWhole(SiblingRaised(c).Up());
    SameOrderUp(c, SiblingRaised(c).Up().Up());
    match c.path
    case InLeft(up, q, _, Bin(wl, w, _, wr)) => TurnKeepsOrder(c.tree, q, Black, wl, w, Red, wr, Red, Black);
    case InRight(up, Bin(wl, w, _, wr), q, _) => TurnKeepsOrder(wl, w, Black, wr, q, Red, c.tree, Red, Black);
  }

  /** Case 2: the sibling turns red and the lack moves up. */
  function SiblingReddened<T>(c: Cursor<T>): Cursor<T>
    requires !c.path.Top?
  {
    match c.path
    case InLeft(up, q, cq, w) => At(up, Bin(c.tree, q, cq, Painted(w, Red)))
    case InRight(up, w, q, cq) => At(up, Bin(Painted(w, Red), q, cq, c.tree))
  }

  lemma SiblingReddenedKeeps<T>(c: Cursor<T>)
    requires DoublyBlack(c) && RootColor(c.Sibling()).Black? && c.Sibling().Bin?
    requires RootColor(c.Sibling().left).Black? && RootColor(c.Sibling().right).Black?
    ensures LackAtCursor(SiblingReddened(c))
    ensures InOrder(SiblingReddened(c).Whole()) == InOrder(c.Whole())
  {
    SameOrderUp(c, SiblingReddened(c));
    SiblingExists(c);
    assert InOrder(Painted(c.Sibling(), Red)) == InOrder(c.Sibling());
  }

  /** Case 3: a rotation at the sibling moves its red child to the outside. */
  function RedMovedOut<T>(c: Cursor<T>): Cursor<T>
    requires !c.path.Top? && c.Sibling().Bin?
    requires c.path.InLeft? ==> c.Sibling().left.Bin?
    requires c.path.InRight? ==> c.Sibling().right.Bin?
  {
    match c.path
    case InLeft(up, q, cq, Bin(Bin(a, v, _, b), w, _, wr)) => At(InLeft(up, q, cq, Bin(a, v, Black, Bin(b, w, Red, wr))), c.tree)
    case InRight(up, Bin(wl, w, _, Bin(a, v, _, b)), q, cq) => At(InRight(up, Bin(Bin(wl, w, Red, a), v, Black, b), q, cq), c.tree)
  }

  /** The child of the sibling that is farther from the cursor. */
  function OuterNephew<T>(c: Cursor<T>): Tree<T>
    requires !c.path.Top? && c.Sibling().Bin?
  {
    if c.path.InLeft? then c.path.right.right else c.path.left.left
  }

  function InnerNephew<T>(c: Cursor<T>): Tree<T>
    requires !c.path.Top? && c.Sibling().Bin?
  {
    if c.path.InLeft? then c.path.right.left else c.path.left.right
  }

  lemma RedMovedOutKeeps<T>(c: Cursor<T>)
    requires DoublyBlack(c) && RootColor(c.Sibling()).Black? && c.Sibling().Bin?
    requires RootColor(OuterNephew(c)).Black? && RootColor(InnerNephew(c)).Red?
    ensures var d := RedMovedOut(c);
            && DoublyBlack(d) && RootColor(d.Sibling()).Black? && RootColor(OuterNephew(d)).Red?
            && d.path.up == c.path.up && InOrder(d.Whole()) == InOrder(c.Whole())
  {
    SiblingExists(c);
    UpIsWhole(RedMovedOut(c));
    SameOrderUp(c, RedMovedOut(c).Up());
    var d := RedMovedOut(c);
    assert Balanced(InnerNephew(c)) && NoRedRed(InnerNephew(c));
    assert Balanced(OuterNephew(d)) && NoRedRed(OuterNephew(d));
    assert Balanced(d.Sibling()) && NoRedRed(d.Sibling()) && BlackHeight(d.Sibling()) == BlackHeight(c.Sibling());
    match c.path
    case InLeft(up, q, cq, Bin(Bin(a, v, _, b), w, _, wr)) => TurnKeepsOrder(a, v, Black, b, w, Red, wr, Red, Black);
    case InRight(up, Bin(wl, w, _, Bin(a, v, _, b)), q, cq) => TurnKeepsOrder(wl, w, Black, a, v, Red, b, Red, Black);
  }

  /** Case 4: the sibling rises and takes the parent's color; parent and outer nephew turn black. */
  function LackFilled<T>(c: Cursor<T>): Cursor<T>
    requires !c.path.Top? && c.Sibling().Bin?
  {
    match c.path
    case InLeft(up, q, cq, Bin(wl, w, _, wr)) => At(up, Bin(Bin(c.tree, q, Black, wl), w, cq, Painted(wr, Black)))
    case InRight(up, Bin(wl, w, _, wr), q, cq) => At(up, Bin(Painted(wl, Black), w, cq, Bin(wr, q, Black, c.tree)))
  }

  lemma LackFilledDone<T>(c: Cursor<T>)
    requires DoublyBlack(c) && RootColor(c.Sibling()).Black? && c.Sibling().Bin? && RootColor(OuterNephew(c)).Red?
    ensures RedBlack(LackFilled(c).Whole())
  {
    SiblingExists(c);
    PlugRedBlack(LackFilled(c).path, LackFilled(c).tree);
    match c.path
    case InLeft(up, q, cq, Bin(wl, w, _, wr)) => FilledTree(c.tree, q, wl, w, cq, Painted(wr, Black));
    case InRight(up, Bin(wl, w, _, wr), q, cq) => FilledTree(wr, q, c.tree, w, cq, Painted(wl, Black));
  }

  /** Either side of case 4: three trees of equal black height below two black nodes. */
  lemma FilledTree<T>(a: Tree<T>, x: T, b: Tree<T>, y: T, cy: Color, nephew: Tree<T>)
    requires Balanced(a) && Balanced(b) && Balanced(nephew) && NoRedRed(a) && NoRedRed(b) && NoRedRed(nephew)
    requires BlackHeight(a) == BlackHeight(b) && BlackHeight(nephew) == BlackHeight(a) + 1 && RootColor(nephew).Black?
    ensures var t := Bin(Bin(a, x, Black, b), y, cy, nephew);
            Balanced(t) && NoRedRed(t) && BlackHeight(t) == BlackHeight(nephew) + if cy.Black? then 1 else 0
    ensures var t := Bin(nephew, y, cy, Bin(a, x, Black, b));
            Balanced(t) && NoRedRed(t) && BlackHeight(t) == BlackHeight(nephew) + if cy.Black? then 1 else 0
  {
  }

  lemma LackFilledOrder<T>(c: Cursor<T>)
    requires !c.path.Top? && c.Sibling().Bin?
    ensures InOrder(LackFilled(c).Whole()) == InOrder(c.Whole())
  {
    SameOrderUp(c, LackFilled(c));
    assert InOrder(Painted(OuterNephew(c), Black)) == InOrder(OuterNephew(c));
    match c.path
    case InLeft(up, q, cq, Bin(wl, w, cw, wr)) =>
      TurnKeepsOrder(c.tree, q, cq, wl, w, cw, wr, Black, cq);
    case InRight(up, Bin(wl, w, cw, wr), q, cq) =>
      TurnKeepsOrder(wl, w, cq, wr, q, Black, c.tree, cw, cq);
  }

  /** A red node at the cursor, or the root: painting it black is all that is left to do. */
  lemma DeletionDone<T>(c: Cursor<T>)
    requires LackAtCursor(c) && (c.path.Top? || RootColor(c.tree).Red?)
    ensures RedBlack(Plug(c.path, Painted(c.tree, Black)))
    ensures InOrder(Plug(c.path, Painted(c.tree, Black))) == InOrder(c.Whole())
  {
    PlugRedBlack(c.path, Painted(c.tree, Black));
    SameOrder(c.path, c.tree, Painted(c.tree, Black));
  }

  // ---------- taking a node out ----------

  /** The only child of a node that has at most one. */
  function OnlyChild<T>(t: Tree<T>): Tree<T>
    requires t.Bin? && (t.left.Leaf? || t.right.Leaf?)
  {
    if t.left.Leaf? then t.right else t.left
  }

  /** Taking out a black node leaves a lack where it was; taking out a red one does no harm. */
  lemma NodeTakenOut<T>(c: Cursor<T>)
    requires RedBlack(c.Whole()) && c.tree.Bin? && (c.tree.left.Leaf? || c.tree.right.Leaf?)
    ensures c.tree.color.Black? ==> LackAtCursor(At(c.path, OnlyChild(c.tree)))
    ensures c.tree.color.Red? ==> RedBlack(Plug(c.path, OnlyChild(c.tree)))
  {
    PlugRedBlack(c.path, c.tree);
    PlugRedBlack(c.path, OnlyChild(c.tree));
    assert BlackHeight(c.tree.left) == BlackHeight(c.tree.right);
    assert OuterColor(c.path, Red) == OuterColor(c.path, Black) || c.path.Top?;
  }

  lemma OnlyChildOrder<T>(c: Cursor<T>)
    requires c.tree.Bin? && (c.tree.left.Leaf? || c.tree.right.Leaf?)
    ensures InOrder(Plug(c.path, OnlyChild(c.tree))) == Preceding(c) + Following(c)
  {
    PlugInOrder(c.path, OnlyChild(c.tree));
  }

  /** Colors do not depend on which item is where. */
  lemma {:induction false} PathRenamed<T>(inner: Path<T>, outer: Path<T>, l: Tree<T>, x: T, y: T, c: Color, h: nat, d: Color)
    ensures var p := Onto(inner, InRight(outer, l, x, c)); var q := Onto(inner, InRight(outer, l, y, c));
            && (BalancedAround(p, h) <==> BalancedAround(q, h))
            && (NoRedRedAround(p, d) <==> NoRedRedAround(q, d))
            && OuterColor(p, d) == OuterColor(q, d)
    decreases inner
  {
    if !inner.Top? {
      PathRenamed(inner.up, outer, l, x, y, c, h + if inner.color.Black? then 1 else 0, inner.color);
    }
  }

  /** The successor `y`, taken out from below the right child, in the place of `x`. */
  lemma SuccessorMoved<T>(p: Path<T>, l: Tree<T>, x: T, cx: Color, spine: Path<T>, y: T, cy: Color, yr: Tree<T>)
    requires RedBlack(Plug(p, Bin(l, x, cx, Plug(spine, Bin(Leaf, y, cy, yr))))) && Leftmost(spine)
    ensures var d := At(Onto(spine, InRight(p, l, y, cx)), yr);
            && (cy.Black? ==> LackAtCursor(d))
            && (cy.Red? ==> RedBlack(d.Whole()))
            && InOrder(d.Whole()) == Before(p) + InOrder(l) + ([y] + (InOrder(yr) + After(spine))) + After(p)
    ensures InOrder(Plug(p, Bin(l, x, cx, Plug(spine, Bin(Leaf, y, cy, yr)))))
         == Before(p) + InOrder(l) + [x] + ([y] + (InOrder(yr) + After(spine))) + After(p)
  {
    var t := Bin(Leaf, y, cy, yr);
    var r, r' := Plug(spine, t), Plug(spine, yr);
    var c := At(Onto(spine, InRight(p, l, x, cx)), t);
    var d := At(Onto(spine, InRight(p, l, y, cx)), yr);
    PlugOnto(spine, InRight(p, l, x, cx), t);
    NodeTakenOut(c);
    PlugRedBlack(c.path, yr);
    PlugRedBlack(d.path, yr);
    PathRenamed(spine, p, l, x, y, cx, BlackHeight(yr) + 1, Black);
    PathRenamed(spine, p, l, x, y, cx, BlackHeight(yr), RootColor(yr));
    SuccessorOrder(p, l, x, cx, spine, y, cy, yr);
  }

  lemma SpineOrder<T>(spine: Path<T>, y: T, cy: Color, yr: Tree<T>)
    requires Leftmost(spine)
    ensures InOrder(Plug(spine, yr)) == InOrder(yr) + After(spine)
    ensures InOrder(Plug(spine, Bin(Leaf, y, cy, yr))) == [y] + (InOrder(yr) + After(spine))
  {
    NothingBefore(spine);
    PlugInOrder(spine, yr);
    PlugBinOrder(spine, Leaf, y, cy, yr);
    ConcatFacts(Before(spine), InOrder<T>(Leaf), y, InOrder(yr), After(spine));
  }

  lemma ConcatFacts<T>(a: seq<T>, b: seq<T>, y: T, c: seq<T>, d: seq<T>)
    requires a == b == []
    ensures a + c + d == c + d && a + b + [y] + c + d == [y] + (c + d)
  {
  }

  lemma SuccessorOrder<T>(p: Path<T>, l: Tree<T>, x: T, cx: Color, spine: Path<T>, y: T, cy: Color, yr: Tree<T>)
    requires Leftmost(spine)
    ensures InOrder(Plug(Onto(spine, InRight(p, l, y, cx)), yr))
         == Before(p) + InOrder(l) + ([y] + (InOrder(yr) + After(spine))) + After(p)
    ensures InOrder(Plug(p, Bin(l, x, cx, Plug(spine, Bin(Leaf, y, cy, yr)))))
         == Before(p) + InOrder(l) + [x] + ([y] + (InOrder(yr) + After(spine))) + After(p)
  {
    SpineOrder(spine, y, cy, yr);
    PlugOnto(spine, InRight(p, l, y, cx), yr);
    PlugBinOrder(p, l, x, cx, Plug(spine, Bin(Leaf, y, cy, yr)));
    PlugBinOrder(p, l, y, cx, Plug(spine, yr));
    Reassociate(Before(p) + InOrder(l), [y], InOrder(yr) + After(spine));
  }

  lemma Reassociate<T>(a: seq<T>, b: seq<T>, c: seq<T>)
    ensures a + b + c == a + (b + c)
  {
  }
}
