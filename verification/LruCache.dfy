/**
 The LRU cache of src/util/LRUCache.h: handles in a red-black tree by key, and in one of two lists
 by whether somebody besides the cache refers to them.

 Handles are named by their addresses; their fields are a map.
 */
module LruCache {
  import opened RbTree
  import opened Lists
  import opened LruShelf
  import opened LruTree
  import opened LruFacts
  import opened LruState

  class LruCacheT {
    const tree: RbRoot
    /** The handles, not_use, in_use and size. */
    var shelf: Shelf
    var maxSize: nat
    var next: Ref
    /** The whole cache: these fields, the users, the map it stands for, and the times of release. */
    ghost var st: State

    ghost function Ord(): seq<Ref>
      reads this, tree
    {
      Order(tree.tree)
    }

    ghost predicate Valid()
      reads this, tree
    {
      tree.Valid() && shelf == st.shelf && next == st.next && Whole(Ord(), st)
    }

    constructor ()
      ensures Valid() && st == EMPTY && maxSize == 0 && fresh(tree)
    {
      tree := new RbRoot();
      shelf, maxSize, next, st := Shelf(map[], [], [], 0, []), 0, 1, EMPTY;
      new;
      EmptyWhole();
    }

    /** set_max_size */
    method SetMaxSize(n: nat)
      requires Valid()
      modifies `maxSize
      ensures Valid() && maxSize == n
    {
      maxSize := n;
    }

    /** The fields take the values of a new state. */
    method Install(s: Shelf, n: Ref, ghost new': State)
      requires tree.Valid() && s == new'.shelf && n == new'.next && Whole(Ord(), new')
      modifies `shelf, `next, `st
      ensures Valid() && st == new'
    {
      shelf, next, st := s, n, new';
    }

    /** The search loop of get and put: the first handle not below the key, and the place for the key. */
    method Find(key: int) returns (bound: Ref, parent: Ref, side: Side, ghost n: nat)
      requires Valid()
      ensures Parted(Ord(), key, KeysOf(shelf.handles), n) && bound == (if n < |Ord()| then Ord()[n] else NIL)
      ensures parent == NIL ==> Ord() == [] && tree.root == NIL
      ensures parent != NIL ==> parent in Ids(tree.tree) && tree.links.Has(parent)
                                && tree.links.Child(side, parent) == NIL
      ensures parent != NIL ==> if side.L? then n < |Ord()| && Ord()[n] == parent else n > 0 && Ord()[n - 1] == parent
    {
      bound, parent, side, n := Search(key, KeysOf(shelf.handles));
    }

    /** The loop, on any tree in ascending order of key */
    method Search(key: int, ghost k: map<Ref, int>) returns (bound: Ref, parent: Ref, side: Side, ghost n: nat)
      requires tree.Valid() && Ascending(Ord(), k) && k == KeysOf(shelf.handles)
      ensures Parted(Ord(), key, k, n) && bound == (if n < |Ord()| then Ord()[n] else NIL)
      ensures parent == NIL ==> Ord() == [] && tree.root == NIL
      ensures parent != NIL ==> parent in Ids(tree.tree) && tree.links.Has(parent)
                                && tree.links.Child(side, parent) == NIL
      ensures parent != NIL ==> if side.L? then n < |Ord()| && Ord()[n] == parent else n > 0 && Ord()[n - 1] == parent
    {
      hide Ascending;
      hide Bounds;
      hide Parted;
      hide Order;
      ghost var p, u := Top, tree.tree;
      BoundsTop(key, k);
      var cur := tree.root;
      bound, parent, side := NIL, NIL, L;
      while cur != NIL
        invariant At(p, u, tree.root, tree.links) && Plug(p, u) == tree.tree && Root(u) == cur
        invariant parent == Head(p) && (p.Step? ==> side == p.side)
        invariant Bounds(p, key, k) && bound == First(After(p))
        decreases u
      {
        parent := cur;
        side := L;
        Narrow(L, p, u, key, k);
        if shelf.handles[cur].key < key {
          side := R;
          Narrow(R, p, u, key, k);
        } else {
          bound := cur;
        }
        Refocus(side, u.id, Far(side, u), p, Near(side, u), tree.root, tree.links);
        cur := tree.links.Child(side, cur);
        p, u := Step(side, u.id, Far(side, u), p), Near(side, u);
      }
      n := |Before(p)|;
      Arrived(p, tree.tree, key, k);
    }

    /** get */
    method Get(key: int) returns (e: Ref)
      requires Valid()
      modifies `shelf, `next, `st
      ensures Valid() && e == (if key in old(st).table then old(st).table[key] else NIL)
      ensures if e == NIL then st == old(st) else Held(old(st), e) && st == Took(old(st), e)
    {
      ghost var n: nat;
      var bound, parent, side;
      bound, parent, side, n := Find(key);
      FoundIff(Ord(), shelf, st.table, key, n);
      if bound != NIL && !(key < shelf.handles[bound].key) {
        Take(bound);
        return bound;
      }
      e := NIL;
    }

    /** ref, of a cached handle */
    method Take(e: Ref)
      requires Valid() && Cached(shelf, e)
      modifies `shelf, `next, `st
      ensures Valid() && Held(old(st), e) && st == Took(old(st), e)
    {
      CachedHeld(Ord(), st, e);
      TookWhole(Ord(), st, e);
      Install(RefUp(shelf, e), next, Took(st, e));
    }

    /** release, of a reference that get or put gave out */
    method Release(e: Ref)
      requires Valid() && e in st.users && st.users[e] > 0
      modifies `shelf, `next, `st
      ensures Valid() && Held(old(st), e) && st == Released(old(st), e)
    {
      UsedHeld(Ord(), st, e);
      ReleasedWhole(Ord(), st, e);
      Install(Unref(shelf, e), next, Released(st, e));
    }

    /** rb_erase of a handle */
    method TreeErase(e: Ref) returns (ghost n: nat)
      requires tree.Valid() && e in Ord()
      modifies tree
      ensures tree.Valid() && n < |old(Ord())| && old(Ord())[n] == e && Ord() == Rem(old(Ord()), n)
    {
      OrderIds(tree.tree, e);
      n := tree.Erase(e);
    }

    /** rb_erase and erase_node */
    method Evict(e: Ref)
      requires Valid() && Cached(shelf, e)
      modifies tree, `shelf, `next, `st
      ensures Valid() && Held(old(st), e) && st == Erased(old(st), e)
    {
      CachedHeld(Ord(), st, e);
      InOrder(Ord(), shelf, e);
      ghost var n := TreeErase(e);
      ErasedWhole(old(Ord()), st, n);
      Install(EraseNode(shelf, e), next, Erased(st, e));
    }

    /** del: the key is gone; a user's handle lives on. */
    method Del(key: int)
      requires Valid()
      modifies tree, `shelf, `next, `st
      ensures Valid()
      ensures if key in old(st).table
              then Held(old(st), old(st).table[key])
                   && st == Erased(old(st), old(st).table[key])
                            .(at := old(st).at[old(st).table[key] := old(st).now], now := old(st).now + 1)
              else st == old(st)
    {
      DelIs(Ord(), st, key);
      hide Whole;
      hide Erased;
      hide Released;
      hide Took;
      var e := Get(key);
      if e != NIL {
        Release(e);
        Evict(e);
      }
    }

    /** The handle unused for longest goes. */
    method EvictFirst(ghost a: State, ghost n: nat)
      requires Valid() && shelf.notUse != [] && Thin(a, st, n)
      modifies tree, `shelf, `next, `st
      ensures Valid() && Thin(a, st, n + 1)
    {
      FirstUnused(Ord(), st);
      ThinStep(a, st, n, Ord());
      Evict(shelf.notUse[0]);
    }

    /** prune */
    method Prune()
      requires Valid()
      modifies tree, `shelf, `next, `st
      ensures Valid() && Pruned(old(st), st)
    {
      ghost var n := 0;
      ThinStart(Ord(), st);
      while shelf.notUse != []
        invariant Valid() && Thin(old(st), st, n)
        decreases |shelf.notUse|
      {
        EvictFirst(old(st), n);
        n := n + 1;
      }
      PruneDone(old(Ord()), old(st), Ord(), st, n);
    }

    /** The first part of put: the key now leads to a new handle with two references. */
    method Store(key: int, value: int) returns (e: Ref)
      requires Valid()
      modifies tree, `shelf, `next, `st
      ensures Valid() && e == old(st).next
      ensures (key in old(st).table ==> Held(old(st), old(st).table[key]) && old(st).table[key] != e)
      ensures st == Stored(old(st), key, value)
    {
      ghost var n: nat;
      var bound, parent, side;
      bound, parent, side, n := Find(key);
      FoundIff(Ord(), shelf, st.table, key, n);
      CanStore(Ord(), st, key);
      e := next;
      if bound != NIL && !(key < shelf.handles[bound].key) {
        Swap(bound, key, value, n);
      } else {
        Hang(parent, side, key, value, n);
      }
    }

    /** rb_replace_node of the handle in place n */
    method TreeReplace(b: Ref, e: Ref, ghost n: nat)
      requires tree.Valid() && n < |Ord()| && Ord()[n] == b && e != NIL && e !in Ord()
      modifies tree
      ensures tree.Valid() && Ord() == old(Ord())[n := e]
    {
      OrderIds(tree.tree, b);
      OrderIds(tree.tree, e);
      ghost var t := tree.tree;
      ghost var pos := tree.ReplaceNode(b, e);
      OnlyThere(t, pos);
    }

    /** put of a key that is there */
    method Swap(bound: Ref, key: int, value: int, ghost n: nat)
      requires Valid() && n < |Ord()| && Ord()[n] == bound && key in st.table && st.table[key] == bound
      requires Held(st, bound) && bound != st.next && st.next != NIL && st.next !in Ord()
      modifies tree, `shelf, `next, `st
      ensures Valid() && st == Stored(old(st), key, value)
    {
      hide Whole;
      hide EraseNode;
      StoredOver(Ord(), st, n, key, value);
      TreeReplace(bound, next, n);
      Install(EraseNode(Added(shelf, next, key, value), bound), next + 1, Stored(st, key, value));
    }

    /** rb_link_node and rb_insert_color of a handle */
    method TreeInsert(e: Ref, parent: Ref, side: Side, ghost n: nat)
      requires tree.Valid() && n <= |Ord()| && e != NIL && e !in Ord()
      requires parent == NIL ==> Ord() == [] && tree.root == NIL
      requires parent != NIL ==> parent in Ids(tree.tree) && tree.links.Has(parent)
                                 && tree.links.Child(side, parent) == NIL
      requires parent != NIL ==> if side.L? then n < |Ord()| && Ord()[n] == parent else n > 0 && Ord()[n - 1] == parent
      modifies tree
      ensures tree.Valid() && Ord() == Ins(old(Ord()), n, e)
    {
      OrderIds(tree.tree, e);
      ghost var t := tree.tree;
      ghost var pos := tree.Insert(e, parent, side);
      if parent != NIL {
        OnlyThere(t, if side.L? then n else n - 1);
      }
    }

    /** put of a new key */
    method Hang(parent: Ref, side: Side, key: int, value: int, ghost n: nat)
      requires Valid() && key !in st.table && Parted(Ord(), key, KeysOf(shelf.handles), n) && st.next != NIL
      requires st.next !in Ord()
      requires parent == NIL ==> Ord() == [] && tree.root == NIL
      requires parent != NIL ==> parent in Ids(tree.tree) && tree.links.Has(parent)
                                 && tree.links.Child(side, parent) == NIL
      requires parent != NIL ==> if side.L? then n < |Ord()| && Ord()[n] == parent else n > 0 && Ord()[n - 1] == parent
      modifies tree, `shelf, `next, `st
      ensures Valid() && st == Stored(old(st), key, value)
    {
      hide Whole;
      hide Added;
      StoredNew(Ord(), st, n, key, value);
      TreeInsert(next, parent, side, n);
      Install(Added(shelf, next, key, value), next + 1, Stored(st, key, value));
    }

    /** The end of put: while there are too many, the handle unused for longest goes. */
    method Shrink()
      requires Valid()
      modifies tree, `shelf, `next, `st
      ensures Valid() && Shrunk(old(st), st, maxSize)
    {
      hide Thinned;
      hide Whole;
      ghost var n := 0;
      ThinStart(Ord(), st);
      if maxSize > 0 {
        while shelf.size > maxSize && shelf.notUse != []
          invariant Valid() && Thin(old(st), st, n) && (n > 0 ==> shelf.size >= maxSize)
          decreases |shelf.notUse|
        {
          EvictFirst(old(st), n);
          n := n + 1;
        }
      }
      ShrinkDone(old(Ord()), old(st), Ord(), st, n, maxSize);
    }

    /** put */
    method Put(key: int, value: int) returns (e: Ref)
      requires Valid()
      modifies tree, `shelf, `next, `st
      ensures Valid() && PutDone(old(st), st, key, value, e, maxSize)
    {
      e := Store(key, value);
      Shrink();
      PutMeans(old(Ord()), old(st), Ord(), st, key, value, maxSize);
    }
  }
}
