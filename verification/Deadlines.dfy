/**
 The deadline index of src/kernel/poller.c: a sorted list for deadlines that arrive in order, a
 red-black tree with cached extremes for the others, a list of nodes without deadline, and the timer
 that is armed from them.

 A struct timespec is its number of nanoseconds; TimeoutCmp connects the two.  The lists of
 list.h are sequences.
 */
module Deadlines {
  import opened RbTree
  import opened Lists
  import opened DeadlineOrder
  import opened DeadlineState

  lemma {:induction false} EmptyTree(t: Tree, h: Links)
    requires Shape(t, h) && Root(t) == NIL
    ensures Order(t) == []
  {
  }

  lemma {:induction false} NonEmptyTree(t: Tree)
    requires Root(t) != NIL
    ensures Order(t) != []
  {
  }

  lemma {:induction false} NoneAfterLast(t: Tree, l: seq<Ref>, n: Ref, r: seq<Ref>)
    requires Uniq(t) && Order(t) == l + [n] + r && n == Last(Order(t))
    ensures r == []
  {
    if r != [] {
      OrderDistinct(t, |l|, |Order(t)| - 1);
    }
  }

  /** The last node has no right child. */
  lemma {:induction false} LastSlot(t: Tree, root: Ref, h: Links)
    requires At(Top, t, root, h) && Order(t) != []
    ensures Last(Order(t)) != NIL && Last(Order(t)) in Ids(t) && h.Has(Last(Order(t)))
    ensures h.Child(R, Last(Order(t))) == NIL
  {
    var n := Last(Order(t));
    OrderIds(t, n);
    var p, s := Focus(t, n, root, h);
    OrderAround(p, s);
    NoneAfterLast(t, Before(p) + Order(s.left), n, Order(s.right) + After(p));
    assert Order(s.right) == [];
    assert s.right == Leaf;
  }

  /** A place found by descent: it is first exactly when it is to the left of the first node, and never last. */
  lemma {:induction false} Inside(ord: seq<Ref>, pos: nat, parent: Ref, side: Side, t: nat, d: map<Ref, nat>)
    requires Sorted(ord, d) && NoDup(ord) && Fits(ord, parent, side, t, d) && pos <= |ord| && ord != []
    requires if side.L? then pos < |ord| && ord[pos] == parent else 0 < pos && ord[pos - 1] == parent
    requires t < d[Last(ord)]
    ensures pos < |ord| && t < d[ord[pos]] && (pos > 0 ==> d[ord[pos - 1]] <= t)
    ensures pos == 0 <==> parent == First(ord) && side.L?
    ensures First(ord) == ord[0] && Last(ord) == ord[|ord| - 1] && forall x :: x in ord ==> x in d
  {
  }

  /** The nodes before the place are due no later than t, those after it later. */
  ghost predicate Bounds(p: Path, t: nat, d: map<Ref, nat>) {
    && (forall x :: x in Before(p) ==> x in d && d[x] <= t)
    && (forall x :: x in After(p) ==> x in d && t < d[x])
  }

  /** A node due at t belongs next to `parent` on that side. */
  ghost predicate Fits(ord: seq<Ref>, parent: Ref, side: Side, t: nat, d: map<Ref, nat>)
  {
    forall i :: 0 <= i < |ord| && ord[i] == parent ==>
      && (if side.L? then ord[i] in d && t < d[ord[i]] else ord[i] in d && d[ord[i]] <= t)
      && (side.L? && i > 0 ==> ord[i - 1] in d && d[ord[i - 1]] <= t)
      && (side.R? && i + 1 < |ord| ==> ord[i + 1] in d && t < d[ord[i + 1]])
  }

  lemma {:induction false} InOrder(p: Path, u: Tree)
    requires u.Node?
    ensures u.id in Order(Plug(p, u))
  {
    var pos := SplitOrder(p, u);
  }

  lemma {:induction false} NarrowLeft(p: Path, u: Tree, t: nat, d: map<Ref, nat>)
    requires u.Node? && Bounds(p, t, d) && u.id in d && t < d[u.id]
    requires forall x :: x in Order(u.right) ==> x in d && d[u.id] <= d[x]
    ensures Bounds(Step(L, u.id, u.right, p), t, d)
  {
    var q := Step(L, u.id, u.right, p);
    assert Before(q) == Before(p) && After(q) == [u.id] + Order(u.right) + After(p);
  }

  lemma {:induction false} NarrowRight(p: Path, u: Tree, t: nat, d: map<Ref, nat>)
    requires u.Node? && Bounds(p, t, d) && u.id in d && d[u.id] <= t
    requires forall x :: x in Order(u.left) ==> x in d && d[x] <= d[u.id]
    ensures Bounds(Step(R, u.id, u.left, p), t, d)
  {
    var q := Step(R, u.id, u.left, p);
    assert After(q) == After(p) && Before(q) == Before(p) + Order(u.left) + [u.id];
  }

  lemma {:induction false} Narrow(side: Side, p: Path, u: Tree, t: nat, d: map<Ref, nat>)
    requires u.Node? && Sorted(Order(Plug(p, u)), d) && Bounds(p, t, d)
    requires u.id in d && (side.L? <==> t < d[u.id])
    ensures Bounds(Step(side, u.id, Far(side, u), p), t, d)
  {
    OrderAround(p, u);
    AroundMiddle(Before(p) + Order(u.left), u.id, Order(u.right) + After(p), d);
    if side.L? {
      NarrowLeft(p, u, t, d);
    } else {
      NarrowRight(p, u, t, d);
    }
  }

  lemma {:induction false} Found(p: Path, u: Tree, tree: Tree, t: nat, d: map<Ref, nat>)
    requires p.Step? && u.Leaf? && Plug(p, u) == tree && Uniq(tree) && Bounds(p, t, d)
    ensures p.id in Ids(tree) && Fits(Order(tree), p.id, p.side, t, d)
  {
    OrderPlug(p, u);
    var o := Order(tree);
    var k := |Before(p)|;
    var i := if p.side.L? then k else k - 1;
    assert o == Before(p) + After(p);
    assert o[i] == p.id;
    OrderIds(tree, p.id);
    forall j | 0 <= j < |o| && o[j] == p.id
      ensures j == i
    {
      if i < j {
        OrderDistinct(tree, i, j);
      } else if j < i {
        OrderDistinct(tree, j, i);
      }
    }
  }

  /** Where the tree puts a node: behind those due no later, and first exactly if there are none. */
  lemma {:induction false} PlacedAt(ord: seq<Ref>, pos: nat, node: Ref, t: nat, d: map<Ref, nat>)
    requires Sorted(ord, d) && node !in ord && node != NIL && pos <= |ord|
    requires (pos > 0 ==> d[node := t][ord[pos - 1]] <= t) && (pos < |ord| ==> t < d[node := t][ord[pos]])
    ensures pos == Front(ord, d, t) && (First(Ins(ord, pos, node)) == node <==> pos == 0)
  {
    assert pos > 0 ==> ord[pos - 1] in ord;
    assert pos < |ord| ==> ord[pos] in ord;
    FrontIs(ord, d, t, pos);
    EarlyFirst(ord, pos, node);
  }

  lemma {:induction false} LastListed(x: Index, node: Ref)
    requires x.Valid() && node !in x.list
    ensures x.list != [] ==> Last(x.list) in x.d && Last(x.list) != node
  {
    assert x.list != [] ==> Last(x.list) in x.list;
  }

  lemma {:induction false} FirstTimed(x: Index)
    requires x.Valid()
    ensures x.list != [] ==> First(x.list) in x.d && First(x.list) != NIL
    ensures x.ord != [] ==> First(x.ord) in x.d && First(x.ord) != NIL
  {
    assert x.list != [] ==> First(x.list) in x.list;
    assert x.ord != [] ==> First(x.ord) in x.ord;
  }

  lemma {:induction false} CutIsFront(s: seq<Ref>, expired: seq<Ref>, rest: seq<Ref>, d: map<Ref, nat>, now: nat)
    requires Sorted(s, d) && Cut(s, expired, rest, d, now) && (rest != [] ==> rest[0] in d && d[rest[0]] > now)
    ensures var k := Front(s, d, now); s[..k] == expired && s[k..] == rest
  {
    var k := |expired|;
    assert k > 0 ==> s[k - 1] == expired[k - 1] && expired[k - 1] in expired;
    assert k < |s| ==> s[k] == rest[0];
    FrontIs(s, d, now, k);
  }

  lemma {:induction false} CutsSweep(x: Index, some: seq<Ref>, list: seq<Ref>, others: seq<Ref>, ord: seq<Ref>,
                                     now: nat)
    requires x.Valid() && Cut(x.list, some, list, x.d, now) && Cut(x.ord, others, ord, x.d, now)
    requires (list != [] ==> list[0] in x.d && x.d[list[0]] > now) && (ord != [] ==> ord[0] in x.d && x.d[ord[0]] > now)
    ensures x.(list := list, ord := ord) == x.Sweep(now) && some + others == x.Due(now)
  {
    CutIsFront(x.list, some, list, x.d, now);
    CutIsFront(x.ord, others, ord, x.d, now);
  }

  lemma {:induction false} RootOrdered(t: Tree, root: Ref, h: Links)
    requires At(Top, t, root, h) && root != NIL
    ensures root in Ids(t) && root in Order(t)
  {
    OrderIds(t, root);
  }

  class DeadlineIndex {
    const tree: RbRoot
    var first: Ref
    var last: Ref
    var timeoList: seq<Ref>
    var noTimeoList: seq<Ref>
    var timeout: map<Ref, nat>
    var inTree: set<Ref>
    /** The absolute time of the timer; 0 when it is disarmed. */
    var armed: nat

    ghost function TreeOrder(): seq<Ref>
      reads this, tree
    {
      Order(tree.tree)
    }

    ghost predicate Valid()
      reads this, tree
    {
      && tree.Valid()
      && Indexed(TreeOrder(), timeoList, noTimeoList, timeout, inTree)
      && first == First(TreeOrder()) && last == Last(TreeOrder())
    }

    ghost function State(): Index
      reads this, tree
    {
      Index(TreeOrder(), timeoList, noTimeoList, timeout, inTree, armed)
    }

    /** The timed nodes with their deadlines. */
    ghost function Timed(): map<Ref, nat>
      reads this, tree
    {
      TimedOf(TreeOrder(), timeoList, timeout)
    }

    /** The timer goes off no later than the earliest deadline. */
    ghost predicate Covered()
      reads this, tree
    {
      CoveredBy(armed, Timed())
    }

    constructor ()
      ensures Valid() && State() == NoIndex() && Timed() == map[] && fresh(tree) && Covered()
    {
      tree := new RbRoot();
      first, last, timeoList, noTimeoList, timeout, inTree, armed := NIL, NIL, [], [], map[], {}, 0;
    }

    /** The search for the place of a node: equal deadlines go to the right. */
    method Descend(t: nat) returns (parent: Ref, side: Side)
      requires Valid() && TreeOrder() != []
      ensures parent != NIL && parent in Ids(tree.tree)
      ensures tree.links.Has(parent) && tree.links.Child(side, parent) == NIL
      ensures Fits(TreeOrder(), parent, side, t, timeout)
    {
      ghost var p, u := Top, tree.tree;
      var cur := tree.root;
      parent, side := NIL, L;
      while cur != NIL
        invariant At(p, u, tree.root, tree.links) && Plug(p, u) == tree.tree && Root(u) == cur
        invariant p.Step? ==> parent == p.id && side == p.side
        invariant p.Top? ==> u == tree.tree
        invariant Bounds(p, t, timeout)
        decreases u
      {
        InOrder(p, u);
        parent := cur;
        side := if t < timeout[cur] then L else R;
        Narrow(side, p, u, t, timeout);
        Refocus(side, u.id, Far(side, u), p, Near(side, u), tree.root, tree.links);
        cur := tree.links.Child(side, cur);
        p, u := Step(side, u.id, Far(side, u), p), Near(side, u);
      }
      Found(p, u, tree.tree, t, timeout);
    }

    /** The node is in none of the lists nor in the tree. */
    ghost predicate Unused(node: Ref)
      reads this, tree
    {
      node != NIL && node !in TreeOrder() && node !in timeoList && node !in noTimeoList && node !in inTree
    }

    /** Where a node due at t may stand. */
    ghost predicate Place(ord: seq<Ref>, pos: nat, t: nat)
      reads this
    {
      pos <= |ord| && (forall x :: x in ord ==> x in timeout)
      && (pos > 0 ==> timeout[ord[pos - 1]] <= t) && (pos < |ord| ==> t < timeout[ord[pos]])
    }

    /** __poller_tree_insert into an empty tree */
    method LinkRoot(node: Ref) returns (ghost pos: nat)
      requires Valid() && Unused(node) && tree.root == NIL
      modifies tree, `first, `last
      ensures tree.Valid() && old(TreeOrder()) == [] && pos == 0 && TreeOrder() == Ins([], 0, node)
      ensures first == First(TreeOrder()) && last == Last(TreeOrder())
    {
      EmptyTree(tree.tree, tree.links);
      OrderIds(tree.tree, node);
      first, last := node, node;
      pos := tree.Insert(node, NIL, L);
    }

    /** __poller_tree_insert, when the node is due after all others of the tree */
    method LinkLast(node: Ref, t: nat) returns (ghost pos: nat)
      requires Valid() && Unused(node) && TreeOrder() != [] && last in timeout && t >= timeout[last]
      modifies tree, `last
      ensures tree.Valid() && Place(old(TreeOrder()), pos, t) && TreeOrder() == Ins(old(TreeOrder()), pos, node)
      ensures first == First(TreeOrder()) && last == Last(TreeOrder())
    {
      OrderIds(tree.tree, node);
      LastSlot(tree.tree, tree.root, tree.links);
      pos := tree.Insert(node, last, R);
      AtEnd(old(TreeOrder()), pos);
      last := node;
    }

    /** The search for the place and the insertion there */
    method LinkFound(node: Ref, t: nat) returns (parent: Ref, side: Side, ghost pos: nat)
      requires Valid() && Unused(node) && TreeOrder() != []
      modifies tree
      ensures tree.Valid() && pos <= |old(TreeOrder())| && TreeOrder() == Ins(old(TreeOrder()), pos, node)
      ensures Fits(old(TreeOrder()), parent, side, t, timeout)
      ensures if side.L? then pos < |old(TreeOrder())| && old(TreeOrder())[pos] == parent
              else 0 < pos && old(TreeOrder())[pos - 1] == parent
    {
      OrderIds(tree.tree, node);
      parent, side := Descend(t);
      hide Order;
      hide Ids;
      hide Indexed;
      hide Fits;
      pos := tree.Insert(node, parent, side);
    }

    /** __poller_tree_insert, when the place has to be searched */
    method LinkInside(node: Ref, t: nat) returns (ghost pos: nat)
      requires Valid() && Unused(node) && TreeOrder() != [] && last in timeout && t < timeout[last]
      modifies tree, `first
      ensures tree.Valid() && Place(old(TreeOrder()), pos, t) && TreeOrder() == Ins(old(TreeOrder()), pos, node)
      ensures first == First(TreeOrder()) && last == Last(TreeOrder())
    {
      ghost var ord := TreeOrder();
      assert Sorted(ord, timeout) && NoDup(ord);
      hide Order;
      hide Indexed;
      hide Sorted;
      hide NoDup;
      hide Fits;
      hide First;
      hide Last;
      hide Ins;
      var parent, side;
      parent, side, pos := LinkFound(node, t);
      Inside(ord, pos, parent, side, t, timeout);
      InsEnds(ord, pos, node);
      if parent == first && side.L? {
        first := node;
      }
    }

    /** The three cases of __poller_tree_insert */
    method Link(node: Ref) returns (ghost pos: nat)
      requires Valid() && Unused(node) && node in timeout && timeout[node] > 0
      modifies tree, `first, `last
      ensures tree.Valid() && Place(old(TreeOrder()), pos, timeout[node])
      ensures TreeOrder() == Ins(old(TreeOrder()), pos, node)
      ensures first == First(TreeOrder()) && last == Last(TreeOrder())
    {
      LastTimed(TreeOrder(), timeoList, noTimeoList, timeout, inTree);
      hide Order;
      hide Ins;
      hide Place;
      if tree.root == NIL {
        pos := LinkRoot(node);
      } else {
        NonEmptyTree(tree.tree);
        if timeout[node] >= timeout[last] {
          pos := LinkLast(node, timeout[node]);
        } else {
          pos := LinkInside(node, timeout[node]);
        }
      }
    }

    /** __poller_tree_insert */
    method TreeInsert(node: Ref) returns (ghost pos: nat)
      requires Valid() && Unused(node) && node in timeout && timeout[node] > 0
      modifies tree, `first, `last, `inTree
      ensures Valid() && inTree == old(inTree) + {node}
      ensures Place(old(TreeOrder()), pos, timeout[node]) && TreeOrder() == Ins(old(TreeOrder()), pos, node)
    {
      ghost var ord := TreeOrder();
      pos := Link(node);
      SetFlag(node, ord, pos);
    }

    /** node->in_rbtree = 1 */
    method SetFlag(node: Ref, ghost ord: seq<Ref>, ghost pos: nat)
      requires Indexed(ord, timeoList, noTimeoList, timeout, inTree) && node in timeout && timeout[node] > 0
      requires node != NIL && node !in ord && node !in timeoList && node !in noTimeoList
      requires Place(ord, pos, timeout[node]) && TreeOrder() == Ins(ord, pos, node)
      requires tree.Valid() && first == First(TreeOrder()) && last == Last(TreeOrder())
      modifies `inTree
      ensures Valid() && inTree == old(inTree) + {node}
    {
      TreeInserted(ord, timeoList, noTimeoList, timeout, inTree, pos, node);
      hide Order;
      hide Ins;
      hide Indexed;
      inTree := inTree + {node};
    }

    /** rb_next (d == R) or rb_prev (d == L) */
    method Adjacent(d: Side, node: Ref, ghost pos: nat) returns (n: Ref)
      requires tree.Valid() && NoDup(TreeOrder()) && pos < |TreeOrder()| && TreeOrder()[pos] == node
      ensures d.R? ==> n == if pos + 1 < |TreeOrder()| then TreeOrder()[pos + 1] else NIL
      ensures d.L? ==> n == if pos > 0 then TreeOrder()[pos - 1] else NIL
    {
      OrderIds(tree.tree, node);
      n := tree.Neighbor(d, node);
    }

    /** The cached extremes, before the node is erased from the tree */
    method MoveEnds(node: Ref, ghost pos: nat)
      requires Valid() && pos < |TreeOrder()| && TreeOrder()[pos] == node
      modifies `first, `last
      ensures first == First(Rem(TreeOrder(), pos)) && last == Last(Rem(TreeOrder(), pos))
    {
      ghost var ord := TreeOrder();
      if node == first {
        SamePos(ord, 0, pos);
        first := Adjacent(R, node, pos);
      }
      if node == last {
        SamePos(ord, |ord| - 1, pos);
        last := Adjacent(L, node, pos);
      }
      RemEnds(ord, pos);
    }

    /** rb_erase */
    method TreeDrop(node: Ref, ghost pos: nat)
      requires tree.Valid() && NoDup(TreeOrder()) && pos < |TreeOrder()| && TreeOrder()[pos] == node
      modifies tree
      ensures tree.Valid() && TreeOrder() == Rem(old(TreeOrder()), pos)
    {
      OrderIds(tree.tree, node);
      ghost var at := tree.Erase(node);
      SamePos(old(TreeOrder()), pos, at);
    }

    /** __poller_tree_erase */
    method TreeErase(node: Ref, ghost pos: nat)
      requires Valid() && pos < |TreeOrder()| && TreeOrder()[pos] == node
      modifies tree, `first, `last, `inTree
      ensures Valid() && inTree == old(inTree) - {node} && TreeOrder() == Rem(old(TreeOrder()), pos)
    {
      ghost var ord := TreeOrder();
      MoveEnds(node, pos);
      TreeDrop(node, pos);
      inTree := inTree - {node};
      TreeErased(ord, timeoList, noTimeoList, timeout, old(inTree), pos);
    }

    /** node->timeout = t, before the node is inserted */
    method SetDeadline(node: Ref, t: nat)
      requires Valid() && Unused(node)
      modifies `timeout
      ensures Valid() && Unused(node) && timeout == old(timeout)[node := t]
    {
      TimeoutSet(TreeOrder(), timeoList, noTimeoList, timeout, inTree, node, t);
      timeout := timeout[node := t];
    }

    /** list_add_tail to timeo_list */
    method AppendTimed(node: Ref)
      requires Valid() && Unused(node) && node in timeout && timeout[node] > 0
      requires timeoList != [] ==> timeout[Last(timeoList)] <= timeout[node]
      modifies `timeoList
      ensures Valid() && timeoList == old(timeoList) + [node]
    {
      ListAppended(TreeOrder(), timeoList, noTimeoList, timeout, inTree, node);
      timeoList := timeoList + [node];
    }

    /** __poller_insert_node with an empty list; x is the index before the deadline was written. */
    method InsertFirst(node: Ref, t: nat, ghost x: Index)
      requires Valid() && Unused(node) && t > 0 && State() == x.(d := x.d[node := t]) && timeoList == []
      modifies `timeoList, `armed
      ensures Valid() && State() == x.InsertFirst(node, t)
    {
      ghost var ord := TreeOrder();
      SortedBefore(ord, x.d, node, t);
      FirstNil(ord, timeoList, noTimeoList, timeout, inTree);
      assert first != NIL ==> first in ord;
      AppendTimed(node);
      if first == NIL || t < timeout[first] {
        armed := t;
      }
    }

    /** __poller_insert_node with a node due no earlier than the end of the list */
    method InsertLast(node: Ref, t: nat, ghost x: Index)
      requires Valid() && Unused(node) && t > 0 && State() == x.(d := x.d[node := t])
      requires timeoList != [] && t >= timeout[Last(timeoList)]
      modifies `timeoList
      ensures Valid() && State() == x.(list := x.list + [node], d := x.d[node := t])
    {
      AppendTimed(node);
    }

    /** __poller_tree_insert: where the node goes, and whether it is first */
    method InsertInTree(node: Ref, t: nat, ghost d: map<Ref, nat>) returns (ghost pos: nat)
      requires Valid() && Unused(node) && t > 0 && timeout == d[node := t]
      modifies tree, `first, `last, `inTree
      ensures Valid() && inTree == old(inTree) + {node} && pos == Front(old(TreeOrder()), d, t)
      ensures TreeOrder() == Ins(old(TreeOrder()), pos, node) && (node == first <==> pos == 0)
    {
      ghost var ord := TreeOrder();
      SortedBefore(ord, d, node, t);
      hide Order;
      pos := TreeInsert(node);
      hide Indexed;
      hide Front;
      hide Ins;
      PlacedAt(ord, pos, node, t, d);
    }

    /** __poller_insert_node with a node due before the end of the list */
    method InsertEarly(node: Ref, t: nat, ghost x: Index)
      requires Valid() && Unused(node) && t > 0 && State() == x.(d := x.d[node := t])
      requires timeoList != [] && t < timeout[Last(timeoList)]
      modifies tree, `first, `last, `inTree, `armed
      ensures Valid() && State() == x.InsertEarly(node, t)
    {
      SortedBefore(timeoList, x.d, node, t);
      assert Sorted(timeoList, timeout) && timeoList[0] in timeoList;
      hide Order;
      hide Indexed;
      hide Front;
      hide Ins;
      ghost var pos := InsertInTree(node, t, x.d);
      if node == first && t < timeout[First(timeoList)] {
        armed := t;
      }
    }

    /** __poller_insert_node, with the assignment of node->timeout before it */
    method InsertNode(node: Ref, t: nat)
      requires Valid() && Unused(node) && t > 0
      modifies this, tree
      ensures Valid() && State() == old(State()).Insert(node, t)
      ensures Timed() == old(Timed())[node := t] && (old(Covered()) ==> Covered())
    {
      ghost var x := State();
      Inserted(x, node, t);
      SetDeadline(node, t);
      LastListed(x, node);
      hide Indexed;
      if timeoList == [] {
        InsertFirst(node, t, x);
      } else if t >= timeout[Last(timeoList)] {
        InsertLast(node, t, x);
      } else {
        InsertEarly(node, t, x);
      }
    }

    /** list_add_tail to no_timeo_list */
    method AddUntimed(node: Ref)
      requires Valid() && Unused(node)
      modifies `noTimeoList
      ensures Valid() && State() == old(State()).Append(node) && Timed() == old(Timed())
    {
      noTimeoList := noTimeoList + [node];
    }

    /** __poller_new_node clears in_rbtree, which a sweep may have left set on the node that had this address before. */
    method NewNode(node: Ref)
      requires Valid() && node != NIL && !State().Has(node)
      modifies `inTree
      ensures Valid() && Unused(node) && State() == old(State()).Fresh(node)
    {
      inTree := inTree - {node};
    }

    /** list_del on a node of timeo_list or no_timeo_list */
    method ListDel(node: Ref)
      requires Valid() && (node in timeoList || node in noTimeoList)
      modifies `timeoList, `noTimeoList
      ensures Valid() && timeoList == Unlink(old(timeoList), node) && noTimeoList == Unlink(old(noTimeoList), node)
    {
      Unlinked(TreeOrder(), timeoList, noTimeoList, timeout, inTree, node);
      timeoList := Unlink(timeoList, node);
      noTimeoList := Unlink(noTimeoList, node);
    }

    method RemoveFromTree(node: Ref)
      requires Valid() && node in TreeOrder()
      modifies tree, `first, `last, `inTree
      ensures Valid() && TreeOrder() == Unlink(old(TreeOrder()), node) && inTree == old(inTree) - {node}
    {
      ghost var pos := UnlinkIs(TreeOrder(), node);
      TreeErase(node, pos);
    }

    method TakeNode(node: Ref)
      requires Valid() && State().Has(node)
      modifies tree, `first, `last, `inTree, `timeoList, `noTimeoList
      ensures Valid() && State() == old(State()).Remove(node)
    {
      assert node in inTree ==> node in TreeOrder();
      assert node !in inTree ==> node in timeoList || node in noTimeoList;
      hide Order;
      hide Indexed;
      hide Unlink;
      if node in inTree {
        RemoveFromTree(node);
      } else {
        ListDel(node);
      }
    }

    /** How del, mod, del_timer and the event handlers take a node out of the index; the timer is left alone. */
    method Remove(node: Ref)
      requires Valid() && State().Has(node)
      modifies tree, `first, `last, `inTree, `timeoList, `noTimeoList
      ensures Valid() && Unused(node) && State() == old(State()).Remove(node)
      ensures Timed() == old(Timed()) - {node} && (old(Covered()) ==> Covered())
    {
      Removed(State(), node);
      ghost var x := State();
      TakeNode(node);
      assert State() == x.Remove(node);
    }

    /** poller_set_timeout on a registered node; t is 0 for a negative timeout */
    method SetTimeout(node: Ref, t: nat)
      requires Valid() && State().Has(node)
      modifies this, tree
      ensures Valid()
      ensures State() == if t > 0 then old(State()).Remove(node).Insert(node, t)
              else old(State()).Remove(node).Append(node)
      ensures Timed() == (if t > 0 then old(Timed())[node := t] else old(Timed()) - {node})
      ensures old(Covered()) ==> Covered()
    {
      Reinserted(Timed(), node, t);
      Remove(node);
      if t > 0 {
        InsertNode(node, t);
      } else {
        AddUntimed(node);
      }
    }

    method EraseFirst() returns (next: Ref)
      requires Valid() && first != NIL
      modifies tree
      ensures tree.Valid() && old(TreeOrder()) != [] && TreeOrder() == old(TreeOrder()[1..])
      ensures next == First(TreeOrder())
    {
      ghost var ord := TreeOrder();
      FirstNil(ord, timeoList, noTimeoList, timeout, inTree);
      next := TakeOffFirst(first);
    }

    /** rb_next and rb_erase of the first node */
    method TakeOffFirst(node: Ref) returns (next: Ref)
      requires tree.Valid() && NoDup(TreeOrder()) && TreeOrder() != [] && TreeOrder()[0] == node
      modifies tree
      ensures tree.Valid() && TreeOrder() == old(TreeOrder())[1..] && next == First(TreeOrder())
    {
      OrderIds(tree.tree, node);
      next := Adjacent(R, node, 0);
      ghost var pos := tree.Erase(node);
      AtFront(old(TreeOrder()), pos);
    }

    /** The tree loop of __poller_handle_timeout takes out the first node; in_rbtree is not reset. */
    method TakeFirst() returns (node: Ref)
      requires Valid() && first != NIL
      modifies tree, `first, `last
      ensures Valid() && old(TreeOrder()) != [] && node == old(TreeOrder()[0]) && TreeOrder() == old(TreeOrder()[1..])
    {
      node := first;
      ghost var ord := TreeOrder();
      first := EraseFirst();
      if first == NIL {
        last := NIL;
      }
      FirstTaken(old(TreeOrder()), timeoList, noTimeoList, timeout, inTree);
    }

    /** The list loop of __poller_handle_timeout */
    method SweepList(now: nat) returns (expired: seq<Ref>)
      requires Valid()
      modifies `timeoList
      ensures Valid() && State() == old(State()).(list := timeoList)
      ensures Cut(old(timeoList), expired, timeoList, timeout, now)
      ensures timeoList != [] ==> timeoList[0] in timeout && timeout[timeoList[0]] > now
    {
      expired := [];
      ghost var list := timeoList;
      assert list == [] + list;
      while timeoList != [] && timeout[timeoList[0]] <= now
        invariant Valid() && Cut(list, expired, timeoList, timeout, now)
        decreases |timeoList|
      {
        ListCut(TreeOrder(), timeoList, noTimeoList, timeout, inTree);
        CutMore(list, expired, timeoList, timeout, now);
        expired := expired + [timeoList[0]];
        timeoList := timeoList[1..];
      }
    }

    /** The tree loop of __poller_handle_timeout */
    method SweepTree(now: nat) returns (expired: seq<Ref>)
      requires Valid()
      modifies tree, `first, `last
      ensures Valid() && Cut(old(TreeOrder()), expired, TreeOrder(), timeout, now)
      ensures TreeOrder() != [] ==> TreeOrder()[0] in timeout && timeout[TreeOrder()[0]] > now
    {
      expired := [];
      ghost var ord, rest := TreeOrder(), TreeOrder();
      assert ord == [] + ord;
      FirstNil(rest, timeoList, noTimeoList, timeout, inTree);
      while first != NIL && timeout[first] <= now
        invariant Valid() && rest == TreeOrder() && Cut(ord, expired, rest, timeout, now)
        invariant first == NIL <==> rest == []
        decreases |rest|
      {
        expired := TakeDue(ord, expired, now);
        rest := TreeOrder();
      }
    }

    method TakeDue(ghost ord: seq<Ref>, expired: seq<Ref>, now: nat) returns (more: seq<Ref>)
      requires Valid() && Cut(ord, expired, TreeOrder(), timeout, now)
      requires first != NIL && first in timeout && timeout[first] <= now
      modifies tree, `first, `last
      ensures Valid() && Cut(ord, more, TreeOrder(), timeout, now) && |TreeOrder()| < |old(TreeOrder())|
      ensures first == NIL <==> TreeOrder() == []
    {
      CutMore(ord, expired, TreeOrder(), timeout, now);
      var node := TakeFirst();
      more := expired + [node];
      FirstNil(TreeOrder(), timeoList, noTimeoList, timeout, inTree);
    }

    /** Both loops of __poller_handle_timeout */
    method SweepBoth(now: nat) returns (expired: seq<Ref>)
      requires Valid()
      modifies tree, `first, `last, `timeoList
      ensures Valid() && State() == old(State()).Sweep(now) && expired == old(State()).Due(now)
    {
      ghost var x := State();
      assert x.Valid();
      hide Order;
      hide Indexed;
      hide Cut;
      hide Front;
      hide Index.Due;
      hide Index.Sweep;
      var some := SweepList(now);
      ghost var y := State();
      var others := SweepTree(now);
      assert State() == y.(ord := State().ord);
      CutsSweep(x, some, y.list, others, State().ord, now);
      expired := some + others;
    }

    /** __poller_handle_timeout up to the unlock: exactly the nodes due at `now` are taken out, each once. */
    method Sweep(now: nat) returns (expired: seq<Ref>)
      requires Valid()
      modifies tree, `first, `last, `timeoList
      ensures Valid() && State() == old(State()).Sweep(now) && expired == old(State()).Due(now) && NoDup(expired)
      ensures forall n :: n in expired <==> n in old(Timed()) && old(Timed())[n] <= now
      ensures Timed() == DueAfter(old(Timed()), now)
    {
      Swept(State(), now);
      hide Order;
      hide Indexed;
      hide NoDup;
      hide TimedOf;
      hide DueAfter;
      hide Index.Due;
      hide Index.Sweep;
      expired := SweepBoth(now);
    }

    /** The tree loop of poller_stop */
    method TakeTree() returns (taken: seq<Ref>)
      requires tree.Valid() && NoDup(TreeOrder())
      modifies tree
      ensures tree.Valid() && TreeOrder() == [] && forall n :: n in taken <==> n in old(TreeOrder())
    {
      taken := [];
      ghost var rest := TreeOrder();
      while tree.root != NIL
        invariant tree.Valid() && rest == TreeOrder() && NoDup(rest)
        invariant forall n :: n in taken || n in rest <==> n in old(TreeOrder())
        decreases |rest|
      {
        var node := TakeRoot();
        taken := [node] + taken;
        rest := TreeOrder();
      }
      EmptyTree(tree.tree, tree.links);
    }

    method TakeRoot() returns (node: Ref)
      requires tree.Valid() && NoDup(TreeOrder()) && tree.root != NIL
      modifies tree
      ensures tree.Valid() && NoDup(TreeOrder()) && |TreeOrder()| < |old(TreeOrder())|
      ensures forall n :: n in TreeOrder() <==> n in old(TreeOrder()) && n != node
      ensures node in old(TreeOrder())
    {
      node := tree.root;
      RootOrdered(tree.tree, tree.root, tree.links);
      ghost var at := tree.Erase(node);
      RemMembers(old(TreeOrder()), at);
    }

    /** The critical section of poller_stop: all nodes are taken out of tree and lists. */
    method TakeAll() returns (taken: seq<Ref>)
      requires Valid()
      modifies tree, `first, `last, `timeoList, `noTimeoList
      ensures Valid() && State() == old(State()).Clear() && forall n :: n in taken <==> old(State()).Has(n)
    {
      first, last := NIL, NIL;
      taken := TakeTree();
      taken := noTimeoList + (timeoList + taken);
      timeoList, noTimeoList := [], [];
    }

    /** __poller_set_timer: the timer is armed for the earliest deadline, or disarmed. */
    method SetTimer()
      requires Valid()
      modifies `armed
      ensures Valid() && State() == old(State()).Rearm() && Timed() == old(Timed()) && Covered()
      ensures if Timed() == map[] then armed == 0 else exists n :: n in Timed() && armed == Timed()[n]
    {
      Rearmed(State());
      FirstTimed(State());
      var node := First(timeoList);
      if first != NIL && (node == NIL || timeout[first] < timeout[node]) {
        node := first;
      }
      armed := if node != NIL then timeout[node] else 0;
    }
  }
}
