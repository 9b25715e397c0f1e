module RbTrees {
  import opened RbShape
  import opened RbLinks
  import opened RbFixup
  import opened RbOrder

  class RbTree {
    var root: Node?
    ghost var nodes: set<Node>
    ghost var shape: Tree<Node>

    ghost function Links(): Links
      reads this, nodes
    {
      LinksOf(nodes)
    }

    /** The links spell out `shape`, and `shape` is a red-black tree. */
    ghost predicate Valid()
      reads this, nodes
    {
      Focus(Links(), root, At(Top, shape)) && RedBlack(shape)
    }

    /** The nodes in order. */
    ghost function Order(): seq<Node>
      reads this
    {
      InOrder(shape)
    }

    constructor ()
      ensures Valid() && nodes == {} && Order() == []
    {
      root := null;
      nodes := {};
      shape := Leaf;
    }

    /** `AtCursor`, in terms of the fields. */
    lemma Here(c: Cursor<Node>)
      requires Focus(Links(), root, c)
      ensures c.tree.Bin? ==>
                && c.tree.item in nodes
                && c.tree.item.parent == ParentOf(c.path) && c.tree.item.color == c.tree.color
                && c.tree.item.left == RootOf(c.tree.left) && c.tree.item.right == RootOf(c.tree.right)
                && (c.tree.left.Bin? ==> c.tree.left.item in nodes && c.tree.left.item.color == c.tree.left.color)
                && (c.tree.right.Bin? ==> c.tree.right.item in nodes && c.tree.right.item.color == c.tree.right.color)
      ensures c.path.Top? ==> root == RootOf(c.tree)
      ensures !c.path.Top? ==>
                var p, up := c.path.item, c.Up().tree;
                && p in nodes && p.parent == ParentOf(c.path.up) && p.color == c.path.color
                && p.left == RootOf(up.left) && p.right == RootOf(up.right)
                && (c.tree.Bin? ==> (c.path.InLeft? <==> p.left == c.tree.item) && (c.path.InRight? <==> p.right == c.tree.item))
    {
      AtCursor(Links(), root, c);
    }

    /** `rb_set_color`. */
    method SetColor(n: Node, color: Color, ghost c: Cursor<Node>)
      requires c.tree.Bin? && c.tree.item == n && Focus(Links(), root, c)
      modifies n`color
      ensures Focus(Links(), root, c.Paint(color))
    {
      ghost var h := Links();
      AtCursor(h, root, c);
      n.color := color;
      assert Links() == h[n := h[n].(color := color)];
      PaintingKeepsFocus(h, Links(), root, c, color);
    }

    /** Lets the link that led to `u` lead to `v`: the common part of the rotations and of `rb_transplant`. */
    method Redirect(u: Node, v: Node?)
      modifies this`root, u.parent
      ensures var par := old(u.parent);
              if par == null then root == v
              else root == old(root) && par.parent == old(par.parent) && par.color == old(par.color)
                   && par.left == (if old(par.left) == u then v else old(par.left))
                   && par.right == (if old(par.left) == u then old(par.right) else v)
    {
      if IsRoot(u) {
        root := v;
      } else if IsLChild(u) {
        u.parent.left := v;
      } else {
        u.parent.right := v;
      }
    }

    method RotateLeft(x: Node, ghost k: Pivot)
      requires k.x == x && Focus(Links(), root, k.XOnTop())
      modifies this`root, nodes
      ensures Focus(Links(), root, k.YOnTop())
    {
      ghost var h, r := Links(), root;
      PivotFocus(h, r, k, true);
      PivotKeepsItems(k);
      HingeOf(h, r, k, true);
      TurnLeft(x, k);
      RotationKeepsFocus(h, Links(), r, k, false);
    }

    method TurnLeft(x: Node, ghost k: Pivot)
      requires k.x == x && Hinge(Links(), k, true)
      modifies this`root, nodes
      ensures Turned(old(Links()), Links(), k, false) && root == NewRoot(old(root), k.p, k.y)
    {
      LinkLeft(x);
    }

    /** The assignments of `rb_left_rotate`. */
    method LinkLeft(x: Node)
      requires x.right != null && x.right != x && x.right != x.parent && x.parent != x
      requires var mid := x.right.left; mid != null ==> mid != x && mid != x.right && mid != x.parent
      requires {x, x.right} <= nodes && {x.right.left, x.parent} <= nodes + {null}
      modifies this`root, x, x.right, x.right.left, x.parent
      ensures var y, mid, par := old(x.right), old(x.right.left), old(x.parent);
              && x.parent == y && x.color == old(x.color) && x.left == old(x.left) && x.right == mid
              && y.parent == par && y.color == old(y.color) && y.left == x && y.right == old(y.right)
              && (mid != null ==> mid.parent == x && mid.color == old(mid.color) && mid.left == old(mid.left) && mid.right == old(mid.right))
              && (par == null ==> root == y)
              && (par != null ==>
                    && root == old(root) && par.parent == old(par.parent) && par.color == old(par.color)
                    && par.left == (if old(par.left) == x then y else old(par.left))
                    && par.right == (if old(par.left) == x then old(par.right) else y))
    {
      var newRoot := x.right;
      x.right := newRoot.left;
      if newRoot.left != null {
        newRoot.left.parent := x;
      }
      newRoot.parent := x.parent;
      Redirect(x, newRoot);
      newRoot.left := x;
      x.parent := newRoot;
    }

    method RotateRight(y: Node, ghost k: Pivot)
      requires k.y == y && Focus(Links(), root, k.YOnTop())
      modifies this`root, nodes
      ensures Focus(Links(), root, k.XOnTop())
    {
      ghost var h, r := Links(), root;
      PivotFocus(h, r, k, false);
      PivotKeepsItems(k);
      HingeOf(h, r, k, false);
      TurnRight(y, k);
      RotationKeepsFocus(h, Links(), r, k, true);
    }

    method TurnRight(y: Node, ghost k: Pivot)
      requires k.y == y && Hinge(Links(), k, false)
      modifies this`root, nodes
      ensures Turned(old(Links()), Links(), k, true) && root == NewRoot(old(root), k.p, k.x)
    {
      LinkRight(y);
    }

    /** The assignments of `rb_right_rotate`. */
    method LinkRight(y: Node)
      requires y.left != null && y.left != y && y.left != y.parent && y.parent != y
      requires var mid := y.left.right; mid != null ==> mid != y && mid != y.left && mid != y.parent
      requires {y, y.left} <= nodes && {y.left.right, y.parent} <= nodes + {null}
      modifies this`root, y, y.left, y.left.right, y.parent
      ensures var x, mid, par := old(y.left), old(y.left.right), old(y.parent);
              && y.parent == x && y.color == old(y.color) && y.right == old(y.right) && y.left == mid
              && x.parent == par && x.color == old(x.color) && x.right == y && x.left == old(x.left)
              && (mid != null ==> mid.parent == y && mid.color == old(mid.color) && mid.left == old(mid.left) && mid.right == old(mid.right))
              && (par == null ==> root == x)
              && (par != null ==>
                    && root == old(root) && par.parent == old(par.parent) && par.color == old(par.color)
                    && par.left == (if old(par.left) == y then x else old(par.left))
                    && par.right == (if old(par.left) == y then old(par.right) else x))
    {
      var newRoot := y.left;
      y.left := newRoot.right;
      if newRoot.right != null {
        newRoot.right.parent := y;
      }
      newRoot.parent := y.parent;
      Redirect(y, newRoot);
      newRoot.right := y;
      y.parent := newRoot;
    }

    // ---------- rb_insert_fixup ----------

    method InsertFixup(node: Node, ghost c: Cursor<Node>) returns (ghost t: Tree<Node>)
      requires RedAtCursor(c) && c.tree.item == node && Focus(Links(), root, c)
      modifies this`root, nodes
      ensures Focus(Links(), root, At(Top, t)) && RedBlack(t) && InOrder(t) == InOrder(c.Whole())
    {
      hide Focus, LinksOf;
      var z := node;
      ghost var d := c;
      Here(d);
      while IsRed(z.parent)
        invariant RedAtCursor(d) && d.tree.item == z && Focus(Links(), root, d)
        invariant z.parent == ParentOf(d.path) && (IsRed(z.parent) <==> d.ParentColor().Red?)
        invariant InOrder(d.Whole()) == InOrder(c.Whole())
        decreases if d.ParentColor().Red? then 1 + Depth(d.path) else 0
      {
        GrandparentIsBlack(d);
        z, d := FixRedTwice(z, d);
        Here(d);
      }
      InsertionDone(d);
      PlugIsBin(d.path, d.tree);
      FocusIsWhole(Links(), root, d);
      t := Painted(d.Whole(), Black);
      Here(At(Top, d.Whole()));
      SetColor(root, Black, At(Top, d.Whole()));
    }

    /** One round of the loop. */
    method FixRedTwice(z: Node, ghost c: Cursor<Node>) returns (z': Node, ghost d: Cursor<Node>)
      requires RedTwice(c) && c.tree.item == z && Focus(Links(), root, c)
      modifies this`root, nodes
      ensures RedAtCursor(d) && d.tree.item == z' && Focus(Links(), root, d)
      ensures InOrder(d.Whole()) == InOrder(c.Whole())
      ensures d.ParentColor().Red? ==> Depth(d.path) == Depth(c.path) - 2
    {
      hide Focus, LinksOf;
      Here(c);
      FocusUp(Links(), root, c);
      Here(c.Up());
      FocusAcross(Links(), root, c.Up());
      Here(c.Up().Across());
      z' := z;
      if IsLChild(z.parent) {
        var pr := z.parent.parent.right;
        if IsRed(pr) {
          d := Recolored(c);
          z' := RedUncle(z, pr, c);
          RecoloredKeeps(c);
        } else {
          z', d := BlackUncleLeft(z, c);
        }
      } else {
        var pl := z.parent.parent.left;
        if IsRed(pl) {
          d := Recolored(c);
          z' := RedUncle(z, pl, c);
          RecoloredKeeps(c);
        } else {
          z', d := BlackUncleRight(z, c);
        }
      }
    }

    /** Case 1, on either side. */
    method RedUncle(z: Node, uncle: Node, ghost c: Cursor<Node>) returns (z': Node)
      requires Focus(Links(), root, c) && c.tree.Bin? && c.tree.item == z && !c.path.Top? && !c.path.up.Top?
      requires RootOf(c.Up().Sibling()) == uncle
      modifies this`root, nodes
      ensures Focus(Links(), root, Recolored(c)) && Recolored(c).tree.item == z'
    {
      hide Focus, LinksOf;
      Here(c);
      FocusUp(Links(), root, c);
      Here(c.Up());
      ghost var up := c.Up();
      SetColor(z.parent, Black, up);
      up := up.Paint(Black);
      FocusAcross(Links(), root, up);
      up := up.Across();
      Here(up);
      SetColor(uncle, Black, up);
      up := up.Paint(Black);
      FocusUp(Links(), root, up);
      SetColor(z.parent.parent, Red, up.Up());
      z' := z.parent.parent;
    }

    /** Cases 2 and 3 below a left child. */
    method BlackUncleLeft(z: Node, ghost c: Cursor<Node>) returns (z': Node, ghost d: Cursor<Node>)
      requires RedTwice(c) && c.tree.item == z && Focus(Links(), root, c)
      requires c.path.up.InLeft? && RootColor(c.Up().Sibling()).Black?
      modifies this`root, nodes
      ensures RedAtCursor(d) && d.tree.item == z' && Focus(Links(), root, d)
      ensures InOrder(d.Whole()) == InOrder(c.Whole()) && d.ParentColor().Black?
    {
      hide Focus, LinksOf;
      z', d := z, c;
      Here(c);
      if IsRChild(z') {
        z' := z'.parent;
        FocusUp(Links(), root, c);
        RotateLeft(z', Pivot(c.path.up, c.path.left, z', Red, c.tree.left, z, Red, c.tree.right));
        d := Straightened(c);
        FocusUp(Links(), root, d);
        StraightenedKeeps(c);
      }
      LiftedKeeps(d);
      LiftLeft(z', d);
      d := Lifted(d);
    }

    method LiftLeft(z: Node, ghost c: Cursor<Node>)
      requires Focus(Links(), root, c) && c.tree.Bin? && c.tree.item == z
      requires c.path.InLeft? && c.path.up.InLeft?
      modifies this`root, nodes
      ensures Focus(Links(), root, Lifted(c))
    {
      hide Focus, LinksOf;
      PaintElders(z, c);
      ghost var InLeft(InLeft(top, g, _, uncle), x, _, s) := c.path;
      RotateRight(z.parent.parent, Pivot(top, c.tree, x, Black, s, g, Red, uncle));
      FocusUp(Links(), root, Lifted(c));
    }

    /** Cases 2 and 3 below a right child. */
    method BlackUncleRight(z: Node, ghost c: Cursor<Node>) returns (z': Node, ghost d: Cursor<Node>)
      requires RedTwice(c) && c.tree.item == z && Focus(Links(), root, c)
      requires c.path.up.InRight? && RootColor(c.Up().Sibling()).Black?
      modifies this`root, nodes
      ensures RedAtCursor(d) && d.tree.item == z' && Focus(Links(), root, d)
      ensures InOrder(d.Whole()) == InOrder(c.Whole()) && d.ParentColor().Black?
    {
      hide Focus, LinksOf;
      z', d := z, c;
      Here(c);
      if IsLChild(z') {
        z' := z'.parent;
        FocusUp(Links(), root, c);
        RotateRight(z', Pivot(c.path.up, c.tree.left, z, Red, c.tree.right, z', Red, c.path.right));
        d := Straightened(c);
        FocusUp(Links(), root, d);
        StraightenedKeeps(c);
      }
      LiftedKeeps(d);
      LiftRight(z', d);
      d := Lifted(d);
    }

    method LiftRight(z: Node, ghost c: Cursor<Node>)
      requires Focus(Links(), root, c) && c.tree.Bin? && c.tree.item == z
      requires c.path.InRight? && c.path.up.InRight?
      modifies this`root, nodes
      ensures Focus(Links(), root, Lifted(c))
    {
      hide Focus, LinksOf;
      PaintElders(z, c);
      ghost var InRight(InRight(top, uncle, g, _), s, x, _) := c.path;
      RotateLeft(z.parent.parent, Pivot(top, uncle, g, Red, s, x, Black, c.tree));
      FocusUp(Links(), root, Lifted(c));
    }

    /** Case 3 before the rotation: the parent turns black, the grandparent red. */
    method PaintElders(z: Node, ghost c: Cursor<Node>)
      requires Focus(Links(), root, c) && c.tree.Bin? && c.tree.item == z && !c.path.Top? && !c.path.up.Top?
      modifies nodes
      ensures Focus(Links(), root, c.Up().Paint(Black).Up().Paint(Red))
      ensures z.parent == c.path.item && z.parent.parent == c.path.up.item
    {
      hide Focus, LinksOf;
      Here(c);
      FocusUp(Links(), root, c);
      Here(c.Up());
      ghost var up := c.Up();
      SetColor(z.parent, Black, up);
      up := up.Paint(Black);
      FocusUp(Links(), root, up);
      SetColor(z.parent.parent, Red, up.Up());
    }

    // ---------- rb_delete_fixup ----------

    method DeleteFixup(pnode: Node?, node: Node?, isRight: bool, ghost c: Cursor<Node>) returns (ghost t: Tree<Node>)
      requires LackAtCursor(c) && Focus(Links(), root, c)
      requires node == RootOf(c.tree) && pnode == ParentOf(c.path) && isRight == c.path.InRight?
      modifies this`root, nodes
      ensures Focus(Links(), root, At(Top, t)) && RedBlack(t) && InOrder(t) == InOrder(c.Whole())
    {
      hide Focus, LinksOf;
      if pnode == null {
        if node != null {
          Here(c);
          SetColor(node, Black, c);
        }
        t := Painted(c.tree, Black);
        DeletionDone(c);
        return;
      }
      var x := node;
      ghost var d := c;
      Here(d);
      while !IsRoot(x) && IsBlack(x)
        invariant LackAtCursor(d) && x == RootOf(d.tree) && Focus(Links(), root, d)
        invariant x == null ==> d == c
        invariant x != null ==> x.parent == ParentOf(d.path) && x.color == RootColor(d.tree)
        invariant InOrder(d.Whole()) == InOrder(c.Whole())
        decreases if RootColor(d.tree).Red? then 0 else Depth(d.path)
      {
        var p := if x == null then pnode else x.parent;
        Here(d);
        var isLeft := if x == null then !isRight else IsLChild(x);
        if isLeft {
          x, d := FixLackLeft(p, d);
        } else {
          x, d := FixLackRight(p, d);
        }
        Here(d);
      }
      Here(d);
      SetColor(x, Black, d);
      DeletionDone(d);
      FocusIsWhole(Links(), root, d.Paint(Black));
      t := d.Paint(Black).Whole();
    }

    /** One round of the loop, below a left link. */
    method FixLackLeft(p: Node, ghost c: Cursor<Node>) returns (x: Node, ghost d: Cursor<Node>)
      requires DoublyBlack(c) && c.path.InLeft? && c.path.item == p && Focus(Links(), root, c)
      modifies this`root, nodes
      ensures LackAtCursor(d) && RootOf(d.tree) == x && Focus(Links(), root, d)
      ensures InOrder(d.Whole()) == InOrder(c.Whole())
      ensures RootColor(d.tree).Red? || Depth(d.path) < Depth(c.path)
    {
      hide Focus, LinksOf;
      SiblingExists(c);
      d := c;
      Here(c);
      FocusAcross(Links(), root, c);
      Here(c.Across());
      var w := p.right;
      if w == null {
        assert false;  // the way out for a missing sibling is never taken
      }
      if IsRed(w) {
        d := SiblingRaised(c);
        SiblingRaisedKeeps(c);
        RaiseSiblingLeft(p, w, c);
        Here(d);
        w := p.right;
        SiblingExists(d);
      }
      x, d := BlackSiblingLeft(p, w, d);
    }

    /** Case 1. */
    method RaiseSiblingLeft(p: Node, w: Node, ghost c: Cursor<Node>)
      requires c.path.InLeft? && c.path.item == p && Focus(Links(), root, c)
      requires c.path.right.Bin? && c.path.right.item == w
      modifies this`root, nodes
      ensures Focus(Links(), root, SiblingRaised(c))
    {
      hide Focus, LinksOf;
      FocusAcross(Links(), root, c);
      ghost var a := c.Across();
      Here(c);
      Here(a);
      SetColor(w, Black, a);
      FocusUp(Links(), root, a.Paint(Black));
      SetColor(p, Red, a.Paint(Black).Up());
      ghost var InLeft(up, _, _, Bin(wl, _, _, wr)) := c.path;
      RotateLeft(p, Pivot(up, c.tree, p, Red, wl, w, Black, wr));
      FocusUp(Links(), root, SiblingRaised(c).Up());
      FocusUp(Links(), root, SiblingRaised(c));
    }

    /** Cases 2, 3 and 4. */
    method BlackSiblingLeft(p: Node, w0: Node, ghost c0: Cursor<Node>) returns (x: Node, ghost d: Cursor<Node>)
      requires DoublyBlack(c0) && c0.path.InLeft? && c0.path.item == p && Focus(Links(), root, c0)
      requires RootColor(c0.Sibling()).Black? && RootOf(c0.Sibling()) == w0
      modifies this`root, nodes
      ensures LackAtCursor(d) && RootOf(d.tree) == x && Focus(Links(), root, d)
      ensures InOrder(d.Whole()) == InOrder(c0.Whole())
      ensures d == SiblingReddened(c0) || d.path.Top?
    {
      hide Focus, LinksOf;
      var w := w0;
      ghost var c := c0;
      FocusAcross(Links(), root, c);
      Here(c.Across());
      if IsBlack(w.left) && IsBlack(w.right) {
        SetColor(w, Red, c.Across());
        x := p;
        d := SiblingReddened(c);
        SiblingReddenedKeeps(c);
        FocusUp(Links(), root, c.Across().Paint(Red));
      } else {
        if IsBlack(w.right) {
          c := RedMovedOut(c0);
          RedMovedOutKeeps(c0);
          w := MoveRedOutLeft(w, c0);
        }
        LackFilledDone(c);
        LackFilledOrder(c);
        FillLackLeft(p, w, c);
        d := At(Top, LackFilled(c).Whole());
        FocusIsWhole(Links(), root, LackFilled(c));
        Here(d);
        PlugIsBin(LackFilled(c).path, LackFilled(c).tree);
        x := root;
      }
    }

    method MoveRedOutLeft(w: Node, ghost c: Cursor<Node>) returns (w': Node)
      requires c.path.InLeft? && c.path.right.Bin? && c.path.right.item == w && c.path.right.left.Bin?
      requires Focus(Links(), root, c)
      modifies this`root, nodes
      ensures Focus(Links(), root, RedMovedOut(c)) && RootOf(RedMovedOut(c).Sibling()) == w'
    {
      hide Focus, LinksOf;
      FocusAcross(Links(), root, c);
      ghost var a := c.Across();
      Here(a);
      SetColor(w, Red, a);
      a := a.Paint(Red);
      Here(a);
      FocusUp(Links(), root, a.DownLeft());
      SetColor(w.left, Black, a.DownLeft());
      FocusUp(Links(), root, a.DownLeft().Paint(Black));
      ghost var Bin(Bin(b, v, _, m), _, _, wr) := a.tree;
      RotateRight(w, Pivot(a.path, b, v, Black, m, w, Red, wr));
      a := At(a.path, Bin(b, v, Black, Bin(m, w, Red, wr)));
      FocusAcross(Links(), root, RedMovedOut(c));
      FocusUp(Links(), root, a.DownRight());
      Here(a.DownRight());
      w' := w.parent;
    }

    /** Case 4. */
    method FillLackLeft(p: Node, w: Node, ghost c: Cursor<Node>)
      requires c.path.InLeft? && c.path.item == p && c.path.right.Bin? && c.path.right.item == w && c.path.right.right.Bin?
      requires Focus(Links(), root, c)
      modifies this`root, nodes
      ensures Focus(Links(), root, LackFilled(c))
    {
      hide Focus, LinksOf;
      Here(c);
      FocusAcross(Links(), root, c);
      ghost var InLeft(up, _, cp, Bin(wl, _, _, wr)) := c.path;
      ghost var a := c.Across();
      Here(a);
      SetColor(w, p.color, a);
      a := a.Paint(cp);
      FocusUp(Links(), root, a);
      SetColor(p, Black, a.Up());
      a := At(InRight(up, c.tree, p, Black), a.tree);
      FocusUp(Links(), root, a);
      Here(a);
      FocusUp(Links(), root, a.DownRight());
      SetColor(w.right, Black, a.DownRight());
      FocusUp(Links(), root, a.DownRight().Paint(Black));
      FocusUp(Links(), root, a.DownRight().Paint(Black).Up());
      RotateLeft(p, Pivot(up, c.tree, p, Black, wl, w, cp, Painted(wr, Black)));
    }

    /** One round of the loop, below a right link. */
    method FixLackRight(p: Node, ghost c: Cursor<Node>) returns (x: Node, ghost d: Cursor<Node>)
      requires DoublyBlack(c) && c.path.InRight? && c.path.item == p && Focus(Links(), root, c)
      modifies this`root, nodes
      ensures LackAtCursor(d) && RootOf(d.tree) == x && Focus(Links(), root, d)
      ensures InOrder(d.Whole()) == InOrder(c.Whole())
      ensures RootColor(d.tree).Red? || Depth(d.path) < Depth(c.path)
    {
      hide Focus, LinksOf;
      SiblingExists(c);
      d := c;
      Here(c);
      FocusAcross(Links(), root, c);
      Here(c.Across());
      var w := p.left;
      if w == null {
        assert false;  // the way out for a missing sibling is never taken
      }
      if IsRed(w) {
        d := SiblingRaised(c);
        SiblingRaisedKeeps(c);
        RaiseSiblingRight(p, w, c);
        Here(d);
        w := p.left;
        SiblingExists(d);
      }
      x, d := BlackSiblingRight(p, w, d);
    }

    /** Case 1. */
    method RaiseSiblingRight(p: Node, w: Node, ghost c: Cursor<Node>)
      requires c.path.InRight? && c.path.item == p && Focus(Links(), root, c)
      requires c.path.left.Bin? && c.path.left.item == w
      modifies this`root, nodes
      ensures Focus(Links(), root, SiblingRaised(c))
    {
      hide Focus, LinksOf;
      FocusAcross(Links(), root, c);
      ghost var a := c.Across();
      Here(c);
      Here(a);
      SetColor(w, Black, a);
      FocusUp(Links(), root, a.Paint(Black));
      SetColor(p, Red, a.Paint(Black).Up());
      ghost var InRight(up, Bin(wl, _, _, wr), _, _) := c.path;
      RotateRight(p, Pivot(up, wl, w, Black, wr, p, Red, c.tree));
      FocusUp(Links(), root, SiblingRaised(c).Up());
      FocusUp(Links(), root, SiblingRaised(c));
    }

    /** Cases 2, 3 and 4. */
    method BlackSiblingRight(p: Node, w0: Node, ghost c0: Cursor<Node>) returns (x: Node, ghost d: Cursor<Node>)
      requires DoublyBlack(c0) && c0.path.InRight? && c0.path.item == p && Focus(Links(), root, c0)
      requires RootColor(c0.Sibling()).Black? && RootOf(c0.Sibling()) == w0
      modifies this`root, nodes
      ensures LackAtCursor(d) && RootOf(d.tree) == x && Focus(Links(), root, d)
      ensures InOrder(d.Whole()) == InOrder(c0.Whole())
      ensures d == SiblingReddened(c0) || d.path.Top?
    {
      hide Focus, LinksOf;
      var w := w0;
      ghost var c := c0;
      FocusAcross(Links(), root, c);
      Here(c.Across());
      if IsBlack(w.left) && IsBlack(w.right) {
        SetColor(w, Red, c.Across());
        x := p;
        d := SiblingReddened(c);
        SiblingReddenedKeeps(c);
        FocusUp(Links(), root, c.Across().Paint(Red));
      } else {
        if IsBlack(w.left) {
          c := RedMovedOut(c0);
          RedMovedOutKeeps(c0);
          w := MoveRedOutRight(w, c0);
        }
        LackFilledDone(c);
        LackFilledOrder(c);
        FillLackRight(p, w, c);
        d := At(Top, LackFilled(c).Whole());
        FocusIsWhole(Links(), root, LackFilled(c));
        Here(d);
        PlugIsBin(LackFilled(c).path, LackFilled(c).tree);
        x := root;
      }
    }

    method MoveRedOutRight(w: Node, ghost c: Cursor<Node>) returns (w': Node)
      requires c.path.InRight? && c.path.left.Bin? && c.path.left.item == w && c.path.left.right.Bin?
      requires Focus(Links(), root, c)
      modifies this`root, nodes
      ensures Focus(Links(), root, RedMovedOut(c)) && RootOf(RedMovedOut(c).Sibling()) == w'
    {
      hide Focus, LinksOf;
      FocusAcross(Links(), root, c);
      ghost var a := c.Across();
      Here(a);
      SetColor(w, Red, a);
      a := a.Paint(Red);
      Here(a);
      FocusUp(Links(), root, a.DownRight());
      SetColor(w.right, Black, a.DownRight());
      FocusUp(Links(), root, a.DownRight().Paint(Black));
      ghost var Bin(wl, _, _, Bin(m, v, _, b)) := a.tree;
      RotateLeft(w, Pivot(a.path, wl, w, Red, m, v, Black, b));
      a := At(a.path, Bin(Bin(wl, w, Red, m), v, Black, b));
      FocusAcross(Links(), root, RedMovedOut(c));
      FocusUp(Links(), root, a.DownLeft());
      Here(a.DownLeft());
      w' := w.parent;
    }

    /** Case 4. */
    method FillLackRight(p: Node, w: Node, ghost c: Cursor<Node>)
      requires c.path.InRight? && c.path.item == p && c.path.left.Bin? && c.path.left.item == w && c.path.left.left.Bin?
      requires Focus(Links(), root, c)
      modifies this`root, nodes
      ensures Focus(Links(), root, LackFilled(c))
    {
      hide Focus, LinksOf;
      Here(c);
      FocusAcross(Links(), root, c);
      ghost var InRight(up, Bin(wl, _, _, wr), _, cp) := c.path;
      ghost var a := c.Across();
      Here(a);
      SetColor(w, p.color, a);
      a := a.Paint(cp);
      FocusUp(Links(), root, a);
      SetColor(p, Black, a.Up());
      a := At(InLeft(up, p, Black, c.tree), a.tree);
      FocusUp(Links(), root, a);
      Here(a);
      FocusUp(Links(), root, a.DownLeft());
      SetColor(w.left, Black, a.DownLeft());
      FocusUp(Links(), root, a.DownLeft().Paint(Black));
      FocusUp(Links(), root, a.DownLeft().Paint(Black).Up());
      RotateRight(p, Pivot(up, Painted(wl, Black), w, cp, wr, p, Black, c.tree));
    }

    // ---------- rb_insert ----------

    method Insert(z: Node, cmp: (int, int) -> int) returns (ghost k: nat)
      requires Valid() && z !in nodes
      modifies this, nodes, z
      ensures Valid() && nodes == old(nodes) + {z}
      ensures k <= |old(Order())| && Order() == old(Order())[..k] + [z] + old(Order())[k..]
      ensures TotalPreorder(cmp) && old(Sorted(cmp, Order())) ==>
                Between(cmp, old(Order())[..k], z.key, old(Order())[k..]) && Sorted(cmp, Order())
    {
      hide Focus, LinksOf;
      ghost var s := Order();
      var p, c := FindLeaf(z.key, cmp);
      z.left, z.right := null, null;
      z.parent, z.color := null, Red;
      LinksUntouched(old(Links()), Links());
      Attach(z, p, p != null && cmp(z.key, p.key) < 0, c.path);
      k := Grow(z, c.path);
      assert s[..k] == Before(c.path) && s[k..] == After(c.path);
      if TotalPreorder(cmp) && Sorted(cmp, s) { InsertionKeepsSorted(cmp, s, k, z); }
    }

    lemma LinksUntouched(h: Links, h': Links)
      requires h.Keys == h'.Keys && forall n | n in h :: h[n] == h'[n]
      ensures h == h'
    {
    }

    /** The descent of `rb_insert`: the future parent of a node with key `z`. */
    method FindLeaf(z: int, cmp: (int, int) -> int) returns (p: Node?, ghost c: Cursor<Node>)
      requires Valid()
      ensures Focus(Links(), root, c) && c.Whole() == shape && c.tree.Leaf? && p == ParentOf(c.path)
      ensures p != null ==> (c.path.InLeft? <==> cmp(z, p.key) < 0)
      ensures TotalPreorder(cmp) && Sorted(cmp, Order()) ==> Between(cmp, Before(c.path), z, After(c.path))
    {
      hide Focus, LinksOf;
      p := null;
      var node := root;
      c := At(Top, shape);
      Here(c);
      while node != null
        invariant Focus(Links(), root, c) && c.Whole() == shape
        invariant node == RootOf(c.tree) && p == ParentOf(c.path)
        invariant p != null ==> (c.path.InLeft? <==> cmp(z, p.key) < 0)
        invariant TotalPreorder(cmp) && Sorted(cmp, Order()) ==> Between(cmp, Before(c.path), z, After(c.path))
        decreases c.tree
      {
        Here(c);
        p := node;
        if TotalPreorder(cmp) && Sorted(cmp, Order()) { DescentStep(cmp, c, z); }
        if cmp(z, p.key) < 0 {
          node := node.left;
          c := c.DownLeft();
        } else {
          node := node.right;
          c := c.DownRight();
        }
        FocusUp(Links(), root, c);
      }
    }

    /** Hangs a new red node `z` below `p`. */
    method Attach(z: Node, p: Node?, left: bool, ghost path: Path<Node>)
      requires Focus(Links(), root, At(path, Leaf)) && z !in nodes && p == ParentOf(path)
      requires z.left == null && z.right == null && z.color == Red && (p != null ==> left == path.InLeft?)
      modifies this`root, this`nodes, nodes, z
      ensures nodes == old(nodes) + {z} && Focus(Links(), root, At(path, Bin(Leaf, z, Red, Leaf)))
    {
      ghost var h, r := Links(), root;
      AtCursor(h, root, At(path, Leaf));
      z.parent := p;
      if p == null {
        root := z;
      } else if left {
        p.left := z;
      } else {
        p.right := z;
      }
      nodes := nodes + {z};
      LeafReplaced(h, Links(), r, path, z);
    }

    /** Restores the invariant after `Attach`. */
    method Grow(z: Node, ghost path: Path<Node>) returns (ghost k: nat)
      requires RedBlack(shape) && Plug(path, Leaf) == shape
      requires Focus(Links(), root, At(path, Bin(Leaf, z, Red, Leaf)))
      modifies this`root, this`shape, nodes
      ensures Valid() && k == |Before(path)|
      ensures old(Order()) == Before(path) + After(path) && Order() == Before(path) + [z] + After(path)
    {
      hide Focus, LinksOf;
      PlugRedBlack(path, Leaf);
      PlugInOrder(path, Leaf);
      PlugInOrder(path, Bin(Leaf, z, Red, Leaf));
      shape := InsertFixup(z, At(path, Bin(Leaf, z, Red, Leaf)));
      k := |Before(path)|;
    }

    // ---------- __rb_min, __rb_max, rb_next, rb_prev ----------

    method Min(root0: Node?, ghost c: Cursor<Node>) returns (min: Node?, ghost spine: Path<Node>, ghost d: Cursor<Node>)
      requires Focus(Links(), root, c) && root0 == RootOf(c.tree)
      ensures Focus(Links(), root, d) && min == RootOf(d.tree) && (min == null <==> root0 == null)
      ensures d.tree.Bin? ==> d.tree.left.Leaf?
      ensures Leftmost(spine) && d.path == Onto(spine, c.path) && Plug(spine, d.tree) == c.tree
    {
      hide Focus, LinksOf;
      min := root0;
      spine, d := Top, c;
      Here(d);
      while min != null && min.left != null
        invariant Focus(Links(), root, d) && min == RootOf(d.tree) && (min == null <==> root0 == null)
        invariant min != null ==> min.left == RootOf(d.tree.left)
        invariant Leftmost(spine) && d.path == Onto(spine, c.path) && Plug(spine, d.tree) == c.tree
        decreases d.tree
      {
        min := min.left;
        spine, d := InLeft(spine, d.tree.item, d.tree.color, d.tree.right), d.DownLeft();
        FocusUp(Links(), root, d);
        Here(d);
      }
    }

    method Max(root0: Node?, ghost c: Cursor<Node>) returns (max: Node?, ghost spine: Path<Node>, ghost d: Cursor<Node>)
      requires Focus(Links(), root, c) && root0 == RootOf(c.tree)
      ensures Focus(Links(), root, d) && max == RootOf(d.tree) && (max == null <==> root0 == null)
      ensures d.tree.Bin? ==> d.tree.right.Leaf?
      ensures Rightmost(spine) && d.path == Onto(spine, c.path) && Plug(spine, d.tree) == c.tree
    {
      hide Focus, LinksOf;
      max := root0;
      spine, d := Top, c;
      Here(d);
      while max != null && max.right != null
        invariant Focus(Links(), root, d) && max == RootOf(d.tree) && (max == null <==> root0 == null)
        invariant max != null ==> max.right == RootOf(d.tree.right)
        invariant Rightmost(spine) && d.path == Onto(spine, c.path) && Plug(spine, d.tree) == c.tree
        decreases d.tree
      {
        max := max.right;
        spine, d := InRight(spine, d.tree.left, d.tree.item, d.tree.color), d.DownRight();
        FocusUp(Links(), root, d);
        Here(d);
      }
    }

    method NextFrom(node: Node, ghost c: Cursor<Node>) returns (next: Node?, ghost spine: Path<Node>, ghost d: Cursor<Node>)
      requires Focus(Links(), root, c) && c.tree.Bin? && c.tree.item == node
      ensures next == null ==> Following(c) == []
      ensures next != null ==>
                && Focus(Links(), root, d) && d.tree.Bin? && d.tree.item == next && d.Whole() == c.Whole()
                && Preceding(d) == Preceding(c) + [node]
      ensures c.tree.right.Bin? ==>
                && next != null && d.tree.left.Leaf? && Leftmost(spine)
                && d.path == Onto(spine, c.DownRight().path) && Plug(spine, d.tree) == c.tree.right
    {
      hide Focus, LinksOf;
      Here(c);
      next := node.right;
      spine, d := Top, c;
      if next == null {
        OuterItem(c);
        if IsRoot(node) {
          return null, spine, d;
        } else if IsLChild(node) {
          d := c.Up();
          FocusUp(Links(), root, c);
          Climb(c);
          return node.parent, spine, d;
        } else {
          next, d := NextAbove(node, c);
        }
      } else {
        FocusUp(Links(), root, c.DownRight());
        next, spine, d := Min(next, c.DownRight());
        LeftmostBelow(c, spine, d);
      }
    }

    /** The climb of `rb_next` from a right child. */
    method NextAbove(node: Node, ghost c: Cursor<Node>) returns (next: Node?, ghost d: Cursor<Node>)
      requires Focus(Links(), root, c) && c.tree.Bin? && c.tree.item == node && c.path.InRight?
      ensures next == null ==> After(c.path) == []
      ensures next != null ==>
                && Focus(Links(), root, d) && d.tree.Bin? && d.tree.item == next && d.Whole() == c.Whole()
                && Preceding(d) == Upto(c)
    {
      hide Focus, LinksOf;
      Here(c);
      FocusUp(Links(), root, c);
      Climb(c);
      var n := node.parent;
      d := c.Up();
      Here(d);
      while n != null && IsRChild(n)
        invariant Focus(Links(), root, d) && d.tree.Bin? && n == d.tree.item && d.Whole() == c.Whole()
        invariant n.parent == ParentOf(d.path) && (IsRChild(n) <==> d.path.InRight?)
        invariant After(d.path) == After(c.path) && Upto(d) == Upto(c)
        decreases d.path
      {
        FocusUp(Links(), root, d);
        Climb(d);
        n := n.parent;
        d := d.Up();
        Here(d);
      }
      if IsRoot(n) {
        return null, d;
      }
      FocusUp(Links(), root, d);
      Climb(d);
      next := n.parent;
      d := d.Up();
    }

    method PrevFrom(node: Node, ghost c: Cursor<Node>) returns (prev: Node?, ghost d: Cursor<Node>)
      requires Focus(Links(), root, c) && c.tree.Bin? && c.tree.item == node
      ensures prev == null ==> Preceding(c) == []
      ensures prev != null ==>
                && Focus(Links(), root, d) && d.tree.Bin? && d.tree.item == prev && d.Whole() == c.Whole()
                && Following(d) == [node] + Following(c)
    {
      hide Focus, LinksOf;
      Here(c);
      prev := node.left;
      d := c;
      if prev == null {
        OuterItem(c);
        if IsRoot(node) {
          return null, d;
        } else if IsRChild(node) {
          d := c.Up();
          FocusUp(Links(), root, c);
          Climb(c);
          return node.parent, d;
        } else {
          prev, d := PrevAbove(node, c);
        }
      } else {
        FocusUp(Links(), root, c.DownLeft());
        ghost var spine;
        prev, spine, d := Max(prev, c.DownLeft());
        RightmostBelow(c, spine, d);
      }
    }

    /** The climb of `rb_prev` from a left child. */
    method PrevAbove(node: Node, ghost c: Cursor<Node>) returns (prev: Node?, ghost d: Cursor<Node>)
      requires Focus(Links(), root, c) && c.tree.Bin? && c.tree.item == node && c.path.InLeft?
      ensures prev == null ==> Before(c.path) == []
      ensures prev != null ==>
                && Focus(Links(), root, d) && d.tree.Bin? && d.tree.item == prev && d.Whole() == c.Whole()
                && Following(d) == From(c)
    {
      hide Focus, LinksOf;
      Here(c);
      FocusUp(Links(), root, c);
      Climb(c);
      var n := node.parent;
      d := c.Up();
      Here(d);
      while n != null && IsLChild(n)
        invariant Focus(Links(), root, d) && d.tree.Bin? && n == d.tree.item && d.Whole() == c.Whole()
        invariant n.parent == ParentOf(d.path) && (IsLChild(n) <==> d.path.InLeft?)
        invariant Before(d.path) == Before(c.path) && From(d) == From(c)
        decreases d.path
      {
        FocusUp(Links(), root, d);
        Climb(d);
        n := n.parent;
        d := d.Up();
        Here(d);
      }
      if IsRoot(n) {
        return null, d;
      }
      FocusUp(Links(), root, d);
      Climb(d);
      prev := n.parent;
      d := d.Up();
    }

    // ---------- rb_erase ----------

    /** `rb_transplant`. */
    method Transplant(u: Node, v: Node?)
      requires u.parent != u && v != u && (v != null ==> v != u.parent)
      modifies this`root, u.parent, v
      ensures var par := old(u.parent);
              && (par == null ==> root == v)
              && (par != null ==>
                    && root == old(root) && par.parent == old(par.parent) && par.color == old(par.color)
                    && par.left == (if old(par.left) == u then v else old(par.left))
                    && par.right == (if old(par.left) == u then old(par.right) else v))
              && (v != null ==> v.parent == par && v.color == old(v.color) && v.left == old(v.left) && v.right == old(v.right))
    {
      Redirect(u, v);
      if v != null {
        v.parent := u.parent;
      }
    }

    /** Takes a node with at most one child out of the tree. */
    method SpliceOut(u: Node, v: Node?, ghost c: Cursor<Node>)
      requires Focus(Links(), root, c) && c.tree.Bin? && c.tree.item == u
      requires (c.tree.left.Leaf? || c.tree.right.Leaf?) && v == RootOf(OnlyChild(c.tree))
      modifies this`root, this`nodes, nodes
      ensures nodes == old(nodes) - {u} && Focus(Links(), root, At(c.path, OnlyChild(c.tree)))
    {
      ghost var h, r := Links(), root;
      SpliceLinks(u, v, c);
      ChildSpliced(h, Links(), r, c);
    }

    method SpliceLinks(u: Node, v: Node?, ghost c: Cursor<Node>)
      requires Focus(Links(), root, c) && c.tree.Bin? && c.tree.item == u
      requires (c.tree.left.Leaf? || c.tree.right.Leaf?) && v == RootOf(OnlyChild(c.tree))
      modifies this`root, this`nodes, nodes
      ensures nodes == old(nodes) - {u} && root == NewRoot(old(root), c.path, v)
      ensures Transplanted(old(Links()), Links(), c.path, u, OnlyChild(c.tree))
    {
      hide Focus;
      Here(c);
      Family(Links(), root, c.path, c.tree.left, u, c.tree.color, c.tree.right);
      Transplant(u, v);
      nodes := nodes - {u};
    }

    /** The case of two children, up to the fix-up: the successor takes the place of `node`. */
    method SpliceSuccessor(node: Node, ghost c: Cursor<Node>)
      returns (delColor: Color, pdel: Node?, cld: Node?, isRight: bool, ghost d: Cursor<Node>)
      requires Focus(Links(), root, c) && c.tree.Bin? && c.tree.item == node && RedBlack(c.Whole())
      requires c.tree.left.Bin? && c.tree.right.Bin?
      modifies this`root, this`nodes, nodes
      ensures nodes == old(nodes) - {node} && Focus(Links(), root, d)
      ensures cld == RootOf(d.tree) && pdel == ParentOf(d.path) && isRight == d.path.InRight?
      ensures if delColor.Black? then LackAtCursor(d) else RedBlack(d.Whole())
      ensures InOrder(d.Whole()) == Preceding(c) + Following(c)
    {
      hide Focus, LinksOf;
      ghost var p, l, cn := c.path, c.tree.left, c.tree.color;
      Here(c);
      var y, spine, e := NextFrom(node, c);
      Here(e);
      ghost var yr := e.tree.right;
      SuccessorMoved(p, l, node, cn, spine, y, e.tree.color, yr);
      Reassociate(Before(p) + InOrder(l), InOrder(c.tree.right), After(p));
      SpineOrder(spine, y, e.tree.color, yr);
      delColor := y.color;
      pdel := y.parent;
      cld := y.right;
      isRight := IsRChild(y);
      d := At(Onto(spine, InRight(p, l, y, cn)), yr);
      AdjacentSuccessor(node, y, spine, c, e);
      if pdel == node {
        pdel := y;
        TakeOverNear(node, y, c, e.tree.color, yr);
      } else {
        TakeOverFar(node, y, spine, c, e);
      }
      FocusIsWhole(Links(), root, d);
      FocusIsWhole(Links(), root, At(p, Bin(l, y, cn, Plug(spine, yr))));
      PlugOnto(spine, InRight(p, l, y, cn), yr);
    }

    lemma AdjacentSuccessor(node: Node, y: Node, spine: Path<Node>, c: Cursor<Node>, e: Cursor<Node>)
      requires Focus(Links(), root, e) && c.tree.Bin? && c.tree.item == node
      requires e.tree.Bin? && e.tree.item == y && e.path == Onto(spine, c.DownRight().path)
      ensures y.parent == node <==> spine.Top?
    {
      Here(e);
      NearestIsDisjoint(e.path, Items(e.tree));
      if !spine.Top? { OntoItems(spine.up, c.DownRight().path); }
    }

    /** The successor is the right child of `node`, and keeps its right subtree. */
    method TakeOverNear(node: Node, y: Node, ghost c: Cursor<Node>, ghost cy: Color, ghost yr: Tree<Node>)
      requires Focus(Links(), root, c) && c.tree.Bin? && c.tree.item == node
      requires c.tree.left.Bin? && c.tree.right == Bin(Leaf, y, cy, yr)
      modifies this`root, this`nodes, nodes
      ensures nodes == old(nodes) - {node}
      ensures Focus(Links(), root, At(c.path, Bin(c.tree.left, y, c.tree.color, yr)))
    {
      hide Focus;
      ghost var h, r := Links(), root;
      Here(c);
      FocusUp(h, r, c.DownRight());
      Here(c.DownRight());
      Family(h, r, c.path, c.tree.left, node, c.tree.color, c.tree.right);
      NearLinks(node, y);
      nodes := nodes - {node};
      ChildSubstituted(h, Links(), r, c.path, c.tree.left, node, c.tree.color, y, cy, yr);
    }

    method NearLinks(node: Node, y: Node)
      requires node.left != null && y != node && node.parent != node && y != node.parent && node.left != node
      requires node.left != y && node.left != node.parent
      modifies this`root, node.parent, node.left, y
      ensures var par, l := old(node.parent), old(node.left);
              && (par == null ==> root == y)
              && (par != null ==>
                    && root == old(root) && par.parent == old(par.parent) && par.color == old(par.color)
                    && par.left == (if old(par.left) == node then y else old(par.left))
                    && par.right == (if old(par.left) == node then old(par.right) else y))
              && l.parent == y && l.color == old(l.color) && l.left == old(l.left) && l.right == old(l.right)
              && y.parent == par && y.color == node.color && y.left == l && y.right == old(y.right)
    {
      Transplant(node, y);
      node.left.parent := y;
      y.left := node.left;
      y.color := node.color;
    }

    /** The successor lies deeper; it is first replaced by its right child. */
    method TakeOverFar(node: Node, y: Node, ghost spine: Path<Node>, ghost c: Cursor<Node>, ghost e: Cursor<Node>)
      requires Focus(Links(), root, c) && Focus(Links(), root, e) && c.tree.Bin? && c.tree.item == node
      requires c.tree.left.Bin? && e.tree.Bin? && e.tree.item == y && e.tree.left.Leaf? && !spine.Top?
      requires e.path == Onto(spine, c.DownRight().path) && Plug(spine, e.tree) == c.tree.right
      modifies this`root, this`nodes, nodes
      ensures nodes == old(nodes) - {node}
      ensures Focus(Links(), root, At(c.path, Bin(c.tree.left, y, c.tree.color, Plug(spine, e.tree.right))))
    {
      hide Focus, LinksOf;
      ghost var p, l, r := c.path, c.tree.left, Plug(spine, e.tree.right);
      ghost var rest := At(p, Bin(l, node, c.tree.color, r));
      Here(c);
      Here(e);
      assert y != node by { DifferentNodes(spine, c, e); }
      SpliceOut(y, y.right, e);
      PlugOnto(spine, c.DownRight().path, e.tree.right);
      FocusIsWhole(Links(), root, At(e.path, e.tree.right));
      FocusIsWhole(Links(), root, rest);
      PlugIsBin(spine, e.tree.right);
      TakeOver(node, y, rest);
    }

    lemma DifferentNodes(spine: Path<Node>, c: Cursor<Node>, e: Cursor<Node>)
      requires Focus(Links(), root, e) && c.tree.Bin? && e.tree.Bin? && e.path == Onto(spine, c.DownRight().path)
      ensures e.tree.item != c.tree.item
    {
      OntoItems(spine, c.DownRight().path);
      AroundIsDisjoint(e.path, Items(e.tree));
    }

    method TakeOver(node: Node, y: Node, ghost c: Cursor<Node>)
      requires Focus(Links(), root, c) && c.tree.Bin? && c.tree.item == node && y !in nodes
      requires c.tree.left.Bin? && c.tree.right.Bin?
      modifies this`root, this`nodes, nodes, y
      ensures nodes == old(nodes) - {node} + {y}
      ensures Focus(Links(), root, At(c.path, Bin(c.tree.left, y, c.tree.color, c.tree.right)))
    {
      hide Focus;
      ghost var h, r := Links(), root;
      Here(c);
      Family(h, r, c.path, c.tree.left, node, c.tree.color, c.tree.right);
      FarLinks(node, y);
      nodes := nodes - {node} + {y};
      Substituted(h, Links(), r, c.path, c.tree.left, node, c.tree.color, c.tree.right, y);
    }

    method FarLinks(node: Node, y: Node)
      requires node.left != null && node.right != null && node.parent != node && node.left != node && node.right != node
      requires node.left != node.right && node.left != node.parent && node.right != node.parent
      requires y !in {node, node.parent, node.left, node.right}
      modifies this`root, node.parent, node.left, node.right, y
      ensures var par, l, r := old(node.parent), old(node.left), old(node.right);
              && (par == null ==> root == y)
              && (par != null ==>
                    && root == old(root) && par.parent == old(par.parent) && par.color == old(par.color)
                    && par.left == (if old(par.left) == node then y else old(par.left))
                    && par.right == (if old(par.left) == node then old(par.right) else y))
              && l.parent == y && l.color == old(l.color) && l.left == old(l.left) && l.right == old(l.right)
              && r.parent == y && r.color == old(r.color) && r.left == old(r.left) && r.right == old(r.right)
              && y.parent == par && y.color == node.color && y.left == l && y.right == r
    {
      y.right := node.right;
      node.right.parent := y;
      Transplant(node, y);
      node.left.parent := y;
      y.left := node.left;
      y.color := node.color;
    }

    method Erase(node: Node) returns (ghost k: nat)
      requires Valid() && node in nodes
      modifies this, nodes
      ensures Valid() && nodes == old(nodes) - {node} && node.parent == node
      ensures k < |old(Order())| && old(Order())[k] == node && Order() == old(Order())[..k] + old(Order())[k + 1..]
    {
      hide Focus, LinksOf;
      ghost var c;
      c, k := CursorOn(node);
      WholeOrder(c);
      var delColor, pdel, cld, isRight, d := Splice(node, c);
      if delColor == Black {
        shape := DeleteFixup(pdel, cld, isRight, d);
      } else {
        FocusIsWhole(Links(), root, d);
        shape := d.Whole();
      }
      MakeOrphan(node);
    }

    /** `rb_erase` up to the fix-up. */
    method Splice(node: Node, ghost c: Cursor<Node>)
      returns (delColor: Color, pdel: Node?, cld: Node?, isRight: bool, ghost d: Cursor<Node>)
      requires Focus(Links(), root, c) && c.tree.Bin? && c.tree.item == node && RedBlack(c.Whole())
      modifies this`root, this`nodes, nodes
      ensures nodes == old(nodes) - {node} && Focus(Links(), root, d)
      ensures cld == RootOf(d.tree) && pdel == ParentOf(d.path) && isRight == d.path.InRight?
      ensures if delColor.Black? then LackAtCursor(d) else RedBlack(d.Whole())
      ensures InOrder(d.Whole()) == Preceding(c) + Following(c)
    {
      hide Focus, LinksOf;
      Here(c);
      delColor, pdel, isRight, d := node.color, node.parent, IsRChild(node), c;
      if node.left == null {
        cld := node.right;
        SpliceOut(node, node.right, c);
        d := At(c.path, OnlyChild(c.tree));
        NodeTakenOut(c);
        OnlyChildOrder(c);
      } else if node.right == null {
        cld := node.left;
        SpliceOut(node, node.left, c);
        d := At(c.path, OnlyChild(c.tree));
        NodeTakenOut(c);
        OnlyChildOrder(c);
      } else {
        delColor, pdel, cld, isRight, d := SpliceSuccessor(node, c);
      }
    }

    /** `RB_MAKE_ORPHAN`: the node's own address, whose lowest bit is that of a red node. */
    method MakeOrphan(node: Node)
      requires node !in nodes
      modifies node
      ensures node.parent == node && node.color == Red && Links() == old(Links())
    {
      node.parent, node.color := node, Red;
    }

    // ---------- iteration ----------

    /** The cursor on a node of a valid tree, and the index of the node in order. */
    lemma CursorOn(node: Node) returns (c: Cursor<Node>, i: nat)
      requires Valid() && node in nodes
      ensures Focus(Links(), root, c) && c.tree.Bin? && c.tree.item == node && c.Whole() == shape
      ensures i < |Order()| && Order()[i] == node && Order()[..i] == Preceding(c) && Order()[i + 1..] == Following(c)
    {
      c := Locate(shape, node, Top);
      FocusIsWhole(Links(), root, c);
      WholeOrder(c);
      i := |Preceding(c)|;
    }

    /** `rb_first`. */
    method First() returns (first: Node?)
      requires Valid()
      ensures first == Item(Order(), 0)
    {
      ghost var spine, d;
      first, spine, d := Min(root, At(Top, shape));
      PlugOnto(spine, Top, d.tree);
      NothingBefore(spine);
      BeforeAndAfterOnto(spine, Top);
      if first != null { WholeOrder(d); }
    }

    /** `rb_last`. */
    method Last() returns (last: Node?)
      requires Valid()
      ensures last == Item(Order(), |Order()| - 1)
    {
      ghost var spine, d;
      last, spine, d := Max(root, At(Top, shape));
      PlugOnto(spine, Top, d.tree);
      NothingAfter(spine);
      BeforeAndAfterOnto(spine, Top);
      if last != null { WholeOrder(d); }
    }

    /** `rb_next`. */
    method Next(node: Node) returns (next: Node?)
      requires Valid() && node in nodes
      ensures forall i :: 0 <= i < |Order()| && Order()[i] == node ==> next == Item(Order(), i + 1)
    {
      ghost var c, i := CursorOn(node);
      ghost var spine, d;
      next, spine, d := NextFrom(node, c);
      if next != null { WholeOrder(d); }
      ListsItems(shape);
    }

    /** `rb_prev`. */
    method Prev(node: Node) returns (prev: Node?)
      requires Valid() && node in nodes
      ensures forall i :: 0 <= i < |Order()| && Order()[i] == node ==> prev == Item(Order(), i - 1)
    {
      ghost var c, i := CursorOn(node);
      ghost var d;
      prev, d := PrevFrom(node, c);
      if prev != null { WholeOrder(d); }
      ListsItems(shape);
    }

    /** A walk with `rb_first` and `rb_next`, as in `rb_int_print_list`. */
    method Walk() returns (s: seq<Node>)
      requires Valid()
      ensures s == Order()
    {
      ListsItems(shape);
      s := [];
      var node := First();
      while node != null
        invariant s <= Order() && node == Item(Order(), |s|)
        decreases |Order()| - |s|
      {
        assert Order()[|s|] == node;
        var next := Next(node);
        s := s + [node];
        node := next;
      }
    }

    /** The same with `rb_last` and `rb_prev`: backwards. */
    method WalkBack() returns (s: seq<Node>)
      requires Valid()
      ensures |s| == |Order()| && forall i :: 0 <= i < |s| ==> s[i] == Order()[|s| - 1 - i]
    {
      ListsItems(shape);
      s := [];
      var node := Last();
      ghost var order, k := Order(), |Order()| - 1;
      assert forall i :: 0 <= i < |order| ==> order[i] in nodes;
      while node != null
        invariant -1 <= k < |order| && |s| == |order| - 1 - k && order == Order()
        invariant node == Item(order, k)
        invariant forall i :: 0 <= i < |s| ==> s[i] == order[|order| - 1 - i]
        decreases k
      {
        assert 0 <= k < |Order()| && Order()[k] == node;
        var prev := Prev(node);
        assert prev == Item(Order(), k - 1);
        s := s + [node];
        node, k := prev, k - 1;
      }
    }

    /** From any node but the last, `rb_next` and `rb_prev` lead there and back. */
    method ThereAndBack(node: Node) returns (next: Node?, back: Node?)
      requires Valid() && node in nodes
      ensures if next == null then Order() != [] && node == Order()[|Order()| - 1] else next in nodes && back == node
    {
      ListsItems(shape);
      ghost var c, i := CursorOn(node);
      next := Next(node);
      back := null;
      if next != null {
        assert Order()[i + 1] == next;
        back := Prev(next);
      }
    }

    /** And from any node but the first, back and there. */
    method BackAndThere(node: Node) returns (prev: Node?, there: Node?)
      requires Valid() && node in nodes
      ensures if prev == null then Order() != [] && node == Order()[0] else prev in nodes && there == node
    {
      ListsItems(shape);
      ghost var c, i := CursorOn(node);
      prev := Prev(node);
      there := null;
      if prev != null {
        assert Order()[i - 1] == prev;
        there := Next(prev);
      }
    }
  }

  function Item(s: seq<Node>, i: int): Node? {
    if 0 <= i < |s| then s[i] else null
  }
}
