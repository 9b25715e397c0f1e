/** The watch pool of `_ev_watch_pool.c`: the watch tree together with what the kernel has open and armed.

    Freeing a watch item closes its descriptor.  The kernel then takes it out of epoll, unless the open file is
    shared: another descriptor refers to it, made by dup(2) or in another process.  epoll_ctl fails for closed
    descriptors; `granted` is whether it succeeds for an open one.
  */
module WatchPools {
  import opened RbShape
  import opened RbLinks
  import opened WatchTrees

  class WatchPool {
    const items: WatchTree
    var open: set<int>       // of the kernel: the open descriptors
    var armed: set<int>      // and what epoll may report

    ghost predicate Valid()
      reads this, items, items.tree, items.tree.nodes
    {
      items.Valid()
    }

    /** epoll only has descriptors whose item is still there. */
    ghost predicate Covered()
      reads this, items, items.tree, items.tree.nodes
      requires Valid()
    {
      forall fd <- armed :: fd in items.Map()
    }

    constructor (open: set<int>)
      ensures Valid() && Covered() && fresh(items) && fresh(items.tree) && items.tree.nodes == {}
      ensures items.Map() == map[] && armed == {} && this.open == open
    {
      items := new WatchTree();
      armed := {};
      this.open := open;
    }

    /** The part of `ev_watch_item_free` that the kernel sees. */
    method Close(fd: int, shared: bool)
      modifies this`open, this`armed
      ensures open == old(open) - {fd}
      ensures armed == if shared then old(armed) else old(armed) - {fd}
    {
      open := open - {fd};
      if !shared { armed := armed - {fd}; }
    }

    /** `ev_watch_pool_add`.  If it fails, the descriptor is closed, and not watched any more even if it was
        before: then the new item is freed and used all the same (`misused`), its descriptor is closed, epoll_ctl
        fails for that reason, and the old item is taken out of the tree.  Exactly if the open file is shared,
        an armed descriptor is left without an item. */
    method Add(w: Node, granted: bool, shared: bool) returns (ret: int, misused: bool)
      requires Valid() && w !in items.tree.nodes && w.left == null && w.right == null && w.color == Red
      modifies this, items.tree, items.tree.nodes, w
      ensures Valid() && items.tree.nodes <= old(items.tree.nodes) + {w} && (misused <==> w.key in old(items.Map()))
      ensures ret == if !misused && granted && w.key in old(open) then 0 else -1
      ensures ret == 0 ==> items.Map() == old(items.Map())[w.key := w] && armed == old(armed) + {w.key} && open == old(open)
      ensures ret == -1 ==> items.Map() == old(items.Map()) - {w.key} && open == old(open) - {w.key}
      ensures ret == -1 ==> armed == if shared then old(armed) else old(armed) - {w.key}
      ensures old(Covered()) ==> (Covered() <==> !(misused && shared && w.key in old(armed)))
    {
      hide WatchTree.Valid, WatchTree.Map;
      ghost var m := items.Map();
      ret := items.Add(w);
      misused := ret == -1;
      if misused { Close(w.key, shared); }
      if granted && w.key in open {
        armed := armed + {w.key};
      } else {
        var gone := items.Delete(w.key);
        if !misused { assert m[w.key := w] - {w.key} == m - {w.key}; }
        Close(w.key, shared);
        ret := -1;
      }
    }

    /** `ev_watch_pool_del`; the item is gone and the descriptor closed even if epoll_ctl fails, and only then
        the result is -1.  Exactly if that happens to an armed descriptor whose open file is shared, epoll is
        left with an item that has been freed. */
    method Del(fd: int, granted: bool, shared: bool) returns (ret: int, gone: Node?)
      requires Valid()
      modifies this, items.tree, items.tree.nodes
      ensures Valid() && gone == (if fd in old(items.Map()) then old(items.Map())[fd] else null)
      ensures items.Map() == old(items.Map()) - {fd} && items.tree.nodes <= old(items.tree.nodes)
      ensures open == old(open) - (if fd in old(items.Map()) then {fd} else {})
      ensures var ctl := granted && fd in old(open);
              && ret == (if fd in old(items.Map()) && !ctl then -1 else 0)
              && armed == old(armed) - (if fd in old(items.Map()) && (ctl || !shared) then {fd} else {})
              && (old(Covered()) ==> (Covered() <==> ctl || !shared || fd !in old(armed)))
    {
      ret := 0;
      gone := items.Delete(fd);
      if gone != null {
        if granted && fd in open { armed := armed - {fd}; } else { ret := -1; }
        Close(fd, shared);
      }
    }

    /** `ev_watch_pool_mod`: arms a watched descriptor again. */
    method Mod(fd: int, granted: bool) returns (ret: int)
      requires Valid()
      modifies this`armed
      ensures Valid() && items.Map() == old(items.Map())
      ensures var ctl := granted && fd in open;
              && armed == old(armed) + (if fd in items.Map() && ctl then {fd} else {})
              && ret == (if fd in items.Map() && !ctl then -1 else 0)
      ensures old(Covered()) ==> Covered()
    {
      var w, _ := items.Search(fd);
      if w == null {
        return 0;
      }
      if !(granted && fd in open) {
        return -1;
      }
      armed := armed + {fd};
      return 0;
    }
  }

  /** A descriptor that is added twice is closed and forgotten; if its open file is shared, epoll still reports
      it. */
  method AddedTwice(fd: int, granted: bool, shared: bool) returns (pool: WatchPool, first: int, second: int)
    ensures fresh(pool) && pool.Valid() && first == (if granted then 0 else -1) && second == -1
    ensures pool.items.Map() == map[] && fd !in pool.open
    ensures (pool.Covered() <==> fd !in pool.armed) && (fd in pool.armed <==> granted && shared)
  {
    pool := new WatchPool({fd});
    var v := new Node(fd);
    var misused;
    first, misused := pool.Add(v, granted, shared);
    assert pool.items.Map() == if granted then map[fd := v] else map[];
    var w := new Node(fd);
    second, misused := pool.Add(w, granted, shared);
    assert pool.items.Map() == map[];
  }
}
