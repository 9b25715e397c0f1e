/** The table of watched descriptors of `src/fevent_loop/_ev_watch_item.c`: a red-black tree searched by
    descriptor, which refines a finite map.
  */
module WatchTrees {
  import opened RbShape
  import opened RbFixup
  import opened RbLinks
  import opened RbOrder
  import opened RbTrees

  // ---------- how deep a red-black tree can be ----------

  function Height<T>(t: Tree<T>): nat {
    if t.Leaf? then 0
    else 1 + if Height(t.left) >= Height(t.right) then Height(t.left) else Height(t.right)
  }

  function Pow2(n: nat): (r: nat)
    ensures r >= 1
  {
    if n == 0 then 1 else 2 * Pow2(n - 1)
  }

  lemma {:induction false} HeightBound<T>(t: Tree<T>)
    requires Balanced(t) && NoRedRed(t)
    ensures Height(t) <= 2 * BlackHeight(t) + if RootColor(t).Red? then 1 else 0
  {
    if t.Bin? {
      HeightBound(t.left);
      HeightBound(t.right);
    }
  }

  lemma {:induction false} SizeBound<T>(t: Tree<T>)
    requires Balanced(t)
    ensures |InOrder(t)| + 1 >= Pow2(BlackHeight(t))
  {
    if t.Bin? {
      SizeBound(t.left);
      SizeBound(t.right);
    }
  }

  lemma {:induction false} Pow2Monotone(m: nat, n: nat)
    requires m <= n
    ensures Pow2(m) <= Pow2(n)
  {
    if m < n { Pow2Monotone(m, n - 1); }
  }

  lemma {:induction false} Pow2Double(n: nat)
    ensures Pow2(2 * n) == Pow2(n) * Pow2(n)
  {
    if n > 0 {
      Pow2Double(n - 1);
      assert Pow2(2 * n) == 2 * Pow2(2 * n - 1) == 4 * Pow2(2 * (n - 1));
    }
  }

  /** At most `2 * log2(size + 1)` nodes on any way down, stated without logarithms. */
  lemma HeightIsLogarithmic<T>(t: Tree<T>)
    requires RedBlack(t)
    ensures var n := |InOrder(t)| + 1; Pow2(Height(t)) <= n * n
  {
    HeightBound(t);
    SizeBound(t);
    var b := BlackHeight(t);
    Pow2Monotone(Height(t), 2 * b);
    Pow2Double(b);
    Squares(Pow2(b), |InOrder(t)| + 1);
  }

  lemma Squares(a: nat, b: nat)
    requires a <= b
    ensures a * a <= b * b
  {
    assert a * a <= a * b <= b * b;
  }

  // ---------- the table ----------

  ghost predicate Ascending(s: seq<Node>) {
    forall i, j :: 0 <= i < j < |s| ==> s[i].key < s[j].key
  }

  /** `fd` can only be the key of a node that is neither in `before` nor in `after`. */
  ghost predicate Apart(before: seq<Node>, fd: int, after: seq<Node>) {
    (forall n <- before :: n.key < fd) && (forall n <- after :: fd < n.key)
  }

  lemma SearchStep(c: Cursor<Node>, fd: int)
    requires Ascending(InOrder(c.Whole())) && c.tree.Bin? && Apart(Before(c.path), fd, After(c.path))
    ensures fd < c.tree.item.key ==> Apart(Before(c.DownLeft().path), fd, After(c.DownLeft().path))
    ensures fd > c.tree.item.key ==> Apart(Before(c.DownRight().path), fd, After(c.DownRight().path))
  {
    var s, n := InOrder(c.Whole()), c.tree.item;
    var b, l, r := Before(c.path), InOrder(c.tree.left), InOrder(c.tree.right);
    PlugBinOrder(c.path, c.tree.left, n, c.tree.color, c.tree.right);
    assert s[|b| + |l|] == n;
    forall m | m in l ensures m.key < n.key {
      var i :| 0 <= i < |l| && l[i] == m;
      assert s[|b| + i] == m;
    }
    forall m | m in r ensures n.key < m.key {
      var i :| 0 <= i < |r| && r[i] == m;
      assert s[|b| + |l| + 1 + i] == m;
    }
  }

  ghost function Owner(nodes: set<Node>, fd: int): Node
    requires exists n :: n in nodes && n.key == fd
  {
    var n :| n in nodes && n.key == fd;
    n
  }

  class WatchTree {
    const tree: RbTree

    ghost predicate Valid()
      reads this, tree, tree.nodes
    {
      tree.Valid() && Ascending(tree.Order())
    }

    /** The finite map that the tree stands for. */
    ghost function Map(): map<int, Node>
      reads tree, tree.nodes
    {
      map fd | fd in (set n | n in tree.nodes :: n.key) :: Owner(tree.nodes, fd)
    }

    constructor ()
      ensures Valid() && fresh(tree) && tree.nodes == {} && Map() == map[]
    {
      tree := new RbTree();
    }

    /** Nodes and keys determine each other. */
    lemma MapFacts()
      requires Valid()
      ensures forall n <- tree.nodes :: n.key in Map() && Map()[n.key] == n
      ensures forall n <- tree.Order() :: n in tree.nodes
    {
      ListsItems(tree.shape);
      assert tree.nodes == Items(tree.shape);
      forall m, n | m in tree.nodes && n in tree.nodes && m.key == n.key ensures m == n {
        var i :| 0 <= i < |tree.Order()| && tree.Order()[i] == m;
        var j :| 0 <= j < |tree.Order()| && tree.Order()[j] == n;
      }
    }

    /** `ev_watch_tree_search`; `steps` counts the rounds of the loop. */
    method Search(fd: int) returns (w: Node?, ghost steps: nat)
      requires Valid()
      ensures w == if fd in Map() then Map()[fd] else null
      ensures var n := |tree.Order()| + 1; Pow2(steps) <= n * n
    {
      hide Focus;
      w := tree.root;
      steps := 0;
      ghost var c := At(Top, tree.shape);
      tree.Here(c);
      while w != null
        invariant Focus(tree.Links(), tree.root, c) && c.Whole() == tree.shape && w == RootOf(c.tree)
        invariant Apart(Before(c.path), fd, After(c.path))
        invariant steps + Height(c.tree) <= Height(tree.shape)
        decreases c.tree
      {
        tree.Here(c);
        SearchStep(c, fd);
        steps := steps + 1;
        var val := w.key;
        if fd == val {
          break;
        } else if fd < val {
          w := w.left;
          c := c.DownLeft();
        } else {
          w := w.right;
          c := c.DownRight();
        }
        FocusUp(tree.Links(), tree.root, c);
      }
      HeightIsLogarithmic(tree.shape);
      Pow2Monotone(steps, Height(tree.shape));
      MapFacts();
      if w == null { NotFound(c, fd); }
    }

    lemma NotFound(c: Cursor<Node>, fd: int)
      requires Valid() && c.Whole() == tree.shape && c.tree.Leaf? && Apart(Before(c.path), fd, After(c.path))
      ensures fd !in Map()
    {
      PlugInOrder(c.path, Leaf);
      ListsItems(tree.shape);
      assert tree.nodes == Items(tree.shape);
    }

    /** `ev_watch_tree_add`: inserts unless the descriptor is there already. */
    method Add(w: Node) returns (ret: int)
      requires Valid() && w !in tree.nodes && w.left == null && w.right == null && w.color == Red
      modifies tree, tree.nodes, w
      ensures Valid()
      ensures w.key in old(Map()) ==> ret == -1 && Map() == old(Map())
      ensures w.key !in old(Map()) ==> ret == 0 && Map() == old(Map())[w.key := w]
      ensures tree.nodes == old(tree.nodes) + if ret == 0 then {w} else {}
    {
      hide Focus, LinksOf;
      var p, found, c := FindSlot(w.key);
      MapFacts();
      if found {
        return -1;
      }
      NotFound(c, w.key);
      ghost var s, m := tree.Order(), Map();
      tree.Attach(w, p, p != null && w.key < p.key, c.path);
      ghost var k := tree.Grow(w, c.path);
      assert tree.Order() == Before(c.path) + [w] + After(c.path);
      PlugInOrder(c.path, Leaf);
      InsertedAscending(Before(c.path), w, After(c.path));
      MapFacts();
      assert Map() == m[w.key := w];
      ret := 0;
    }

    lemma InsertedAscending(b: seq<Node>, w: Node, a: seq<Node>)
      requires Ascending(b + a) && Apart(b, w.key, a)
      ensures Ascending(b + [w] + a)
    {
      var s, t := b + a, b + [w] + a;
      forall i, j | 0 <= i < j < |t| ensures t[i].key < t[j].key {
        assert i < |b| ==> t[i] == b[i] == s[i];
        assert i > |b| ==> t[i] == a[i - |b| - 1] == s[i - 1];
        assert j < |b| ==> t[j] == b[j] == s[j];
        assert j > |b| ==> t[j] == a[j - |b| - 1] == s[j - 1];
      }
    }

    /** The descent of `ev_watch_tree_add`. */
    method FindSlot(fd: int) returns (p: Node?, found: bool, ghost c: Cursor<Node>)
      requires Valid()
      ensures Focus(tree.Links(), tree.root, c) && c.Whole() == tree.shape
      ensures found ==> exists n :: n in tree.nodes && n.key == fd
      ensures !found ==>
                && c.tree.Leaf? && p == ParentOf(c.path) && Apart(Before(c.path), fd, After(c.path))
                && (p != null ==> (c.path.InLeft? <==> fd < p.key))
    {
      hide Focus, LinksOf;
      p := null;
      var node := tree.root;
      c := At(Top, tree.shape);
      tree.Here(c);
      while node != null
        invariant Focus(tree.Links(), tree.root, c) && c.Whole() == tree.shape
        invariant node == RootOf(c.tree) && p == ParentOf(c.path)
        invariant Apart(Before(c.path), fd, After(c.path))
        invariant p != null ==> (c.path.InLeft? <==> fd < p.key)
        decreases c.tree
      {
        tree.Here(c);
        SearchStep(c, fd);
        p := node;
        if fd < p.key {
          node := node.left;
          c := c.DownLeft();
        } else if fd > p.key {
          node := node.right;
          c := c.DownRight();
        } else {
          return p, true, c;
        }
        FocusUp(tree.Links(), tree.root, c);
      }
      found := false;
    }

    /** `ev_watch_tree_delete`. */
    method Delete(fd: int) returns (w: Node?)
      requires Valid()
      modifies tree, tree.nodes
      ensures Valid()
      ensures w == if fd in old(Map()) then old(Map())[fd] else null
      ensures Map() == old(Map()) - {fd} && tree.nodes <= old(tree.nodes)
    {
      hide Focus, LinksOf;
      ghost var steps;
      w, steps := Search(fd);
      MapFacts();
      ghost var m := Map();
      if w != null {
        ghost var k := tree.Erase(w);
        MapFacts();
      }
      assert Map() == m - {fd};
    }
  }
}
