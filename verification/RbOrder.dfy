/** Orders on keys, and where a descent through a sorted tree ends up. */
module RbOrder {
  import opened RbShape
  import opened RbLinks

  /** A comparison as `rb_insert` expects it: the sign of `cmp(a, b)` is a total preorder. */
  ghost predicate TotalPreorder(cmp: (int, int) -> int) {
    && (forall a, b :: cmp(a, b) < 0 <==> cmp(b, a) > 0)
    && (forall a, b, c :: cmp(a, b) <= 0 && cmp(b, c) <= 0 ==> cmp(a, c) <= 0)
  }

  ghost predicate Sorted(cmp: (int, int) -> int, s: seq<Node>) {
    forall i, j :: 0 <= i < j < |s| ==> cmp(s[i].key, s[j].key) <= 0
  }

  /** `z` belongs after all of `before` and before all of `after`, and after its equals. */
  ghost predicate Between(cmp: (int, int) -> int, before: seq<Node>, z: int, after: seq<Node>) {
    && (forall n <- before :: cmp(z, n.key) >= 0)
    && (forall n <- after :: cmp(z, n.key) < 0)
  }

  /** One step of a descent, to either side of the node at the cursor. */
  lemma DescentStep(cmp: (int, int) -> int, c: Cursor<Node>, z: int)
    requires TotalPreorder(cmp) && Sorted(cmp, InOrder(c.Whole())) && c.tree.Bin?
    requires Between(cmp, Before(c.path), z, After(c.path))
    ensures cmp(z, c.tree.item.key) < 0 ==> Between(cmp, Before(c.DownLeft().path), z, After(c.DownLeft().path))
    ensures cmp(z, c.tree.item.key) >= 0 ==> Between(cmp, Before(c.DownRight().path), z, After(c.DownRight().path))
  {
    var s, n := InOrder(c.Whole()), c.tree.item;
    var b, l, r := Before(c.path), InOrder(c.tree.left), InOrder(c.tree.right);
    PlugBinOrder(c.path, c.tree.left, n, c.tree.color, c.tree.right);
    assert s[|b| + |l|] == n;
    forall m | m in l ensures cmp(m.key, n.key) <= 0 {
      var i :| 0 <= i < |l| && l[i] == m;
      assert s[|b| + i] == m;
    }
    forall m | m in r ensures cmp(n.key, m.key) <= 0 {
      var i :| 0 <= i < |r| && r[i] == m;
      assert s[|b| + |l| + 1 + i] == m;
    }
  }

  /** Inserting between keeps a sequence sorted. */
  lemma InsertionKeepsSorted(cmp: (int, int) -> int, s: seq<Node>, k: nat, z: Node)
    requires TotalPreorder(cmp) && Sorted(cmp, s) && k <= |s| && Between(cmp, s[..k], z.key, s[k..])
    ensures Sorted(cmp, s[..k] + [z] + s[k..])
  {
    forall i | 0 <= i < k ensures cmp(s[i].key, z.key) <= 0 {
      assert s[..k][i] in s[..k];
    }
    forall i | k <= i < |s| ensures cmp(z.key, s[i].key) <= 0 {
      assert s[k..][i - k] in s[k..];
    }
  }

  /** A tree lists each of its nodes once. */
  lemma {:induction false} ListsItems(t: Tree<Node>)
    requires Distinct(t)
    ensures forall i :: 0 <= i < |InOrder(t)| ==> InOrder(t)[i] in Items(t)
    ensures forall n <- Items(t) :: n in InOrder(t)
    ensures forall i, j :: 0 <= i < j < |InOrder(t)| ==> InOrder(t)[i] != InOrder(t)[j]
  {
    if t.Bin? {
      ListsItems(t.left);
      ListsItems(t.right);
      var l, r, s := InOrder(t.left), InOrder(t.right), InOrder(t);
      forall i, j | 0 <= i < j < |s| ensures s[i] != s[j] {
        assert i < |l| ==> s[i] == l[i];
        assert i > |l| ==> s[i] == r[i - |l| - 1];
        assert j < |l| ==> s[j] == l[j];
        assert j > |l| ==> s[j] == r[j - |l| - 1];
      }
    }
  }
}
