/**
 Search by key in a red-black tree.  Used by module LruCache.
 */
module LruTree {
  import opened RbTree
  import opened Lists

  ghost predicate Ascending(ord: seq<Ref>, k: map<Ref, int>) {
    && (forall i :: 0 <= i < |ord| ==> ord[i] in k)
    && (forall i, j :: 0 <= i < j < |ord| ==> k[ord[i]] < k[ord[j]])
  }

  /** The first n nodes have smaller keys, the others do not. */
  ghost predicate Parted(ord: seq<Ref>, key: int, k: map<Ref, int>, n: nat) {
    && n <= |ord| && (forall i :: 0 <= i < n ==> ord[i] in k && k[ord[i]] < key)
    && (forall i :: n <= i < |ord| ==> ord[i] in k && key <= k[ord[i]])
  }

  ghost predicate Bounds(p: Path, key: int, k: map<Ref, int>) {
    && (forall x :: x in Before(p) ==> x in k && k[x] < key)
    && (forall x :: x in After(p) ==> x in k && key <= k[x])
  }

  lemma {:induction false} Around(l: seq<Ref>, m: Ref, r: seq<Ref>, k: map<Ref, int>)
    requires Ascending(l + [m] + r, k)
    ensures m in k && (forall x :: x in l ==> x in k && k[x] < k[m]) && (forall x :: x in r ==> x in k && k[m] < k[x])
  {
    var o := l + [m] + r;
    assert o[|l|] == m;
    forall x | x in l
      ensures x in k && k[x] < k[m]
    {
      var i :| 0 <= i < |l| && l[i] == x;
      assert o[i] == x;
    }
    forall x | x in r
      ensures x in k && k[m] < k[x]
    {
      var i :| 0 <= i < |r| && r[i] == x;
      assert o[|l| + 1 + i] == x;
    }
  }

  lemma {:induction false} NarrowLeft(p: Path, u: Tree, key: int, k: map<Ref, int>)
    requires u.Node? && Bounds(p, key, k) && u.id in k && key <= k[u.id]
    requires forall x :: x in Order(u.right) ==> x in k && k[u.id] < k[x]
    ensures Bounds(Step(L, u.id, u.right, p), key, k)
    ensures First(After(Step(L, u.id, u.right, p))) == u.id
  {
    var q := Step(L, u.id, u.right, p);
    assert Before(q) == Before(p) && After(q) == [u.id] + Order(u.right) + After(p);
  }

  lemma {:induction false} NarrowRight(p: Path, u: Tree, key: int, k: map<Ref, int>)
    requires u.Node? && Bounds(p, key, k) && u.id in k && k[u.id] < key
    requires forall x :: x in Order(u.left) ==> x in k && k[x] < k[u.id]
    ensures Bounds(Step(R, u.id, u.left, p), key, k)
    ensures After(Step(R, u.id, u.left, p)) == After(p)
  {
    var q := Step(R, u.id, u.left, p);
    assert After(q) == After(p) && Before(q) == Before(p) + Order(u.left) + [u.id];
  }

  lemma {:induction false} BoundsTop(key: int, k: map<Ref, int>)
    ensures Bounds(Top, key, k) && First(After(Top)) == NIL
  {
  }

  lemma {:induction false} Narrow(side: Side, p: Path, u: Tree, key: int, k: map<Ref, int>)
    requires u.Node? && Ascending(Order(Plug(p, u)), k) && Bounds(p, key, k)
    ensures u.id in k
    ensures (side.L? <==> key <= k[u.id]) ==> Bounds(Step(side, u.id, Far(side, u), p), key, k)
    ensures First(After(Step(side, u.id, Far(side, u), p))) == if side.L? then u.id else First(After(p))
  {
    OrderAround(p, u);
    Around(Before(p) + Order(u.left), u.id, Order(u.right) + After(p), k);
    if side.L? && key <= k[u.id] {
      NarrowLeft(p, u, key, k);
    } else if side.R? && k[u.id] < key {
      NarrowRight(p, u, key, k);
    }
    assert After(Step(L, u.id, u.right, p)) == [u.id] + Order(u.right) + After(p);
  }

  /** The end of a search: the place between smaller keys and the others. */
  lemma {:induction false} Arrived(p: Path, t: Tree, key: int, k: map<Ref, int>)
    requires Plug(p, Leaf) == t && Bounds(p, key, k)
    ensures var o, n := Order(t), |Before(p)|;
            && Parted(o, key, k, n) && First(After(p)) == (if n < |o| then o[n] else NIL)
            && (p.Top? ==> o == [])
            && (p.Step? ==> p.id in Ids(t) && if p.side.L? then n < |o| && o[n] == p.id else n > 0 && o[n - 1] == p.id)
  {
    OrderPlug(p, Leaf);
    var o, n := Order(t), |Before(p)|;
    assert o == Before(p) + After(p);
    OrderIds(t, Head(p));
    PartedAt(Before(p), After(p), key, k);
  }

  lemma {:induction false} PartedAt(b: seq<Ref>, a: seq<Ref>, key: int, k: map<Ref, int>)
    requires (forall x :: x in b ==> x in k && k[x] < key) && (forall x :: x in a ==> x in k && key <= k[x])
    ensures Parted(b + a, key, k, |b|)
  {
    forall i | |b| <= i < |b + a|
      ensures (b + a)[i] in k && key <= k[(b + a)[i]]
    {
      assert (b + a)[i] in a;
    }
  }

  lemma {:induction false} AscendingNoDup(ord: seq<Ref>, k: map<Ref, int>)
    requires Ascending(ord, k)
    ensures NoDup(ord)
  {
  }

  lemma {:induction false} AscendingIns(ord: seq<Ref>, k: map<Ref, int>, n: nat, e: Ref, key: int)
    requires Ascending(ord, k) && Parted(ord, key, k, n) && e !in ord && (n < |ord| ==> k[ord[n]] != key)
    ensures Ascending(Ins(ord, n, e), k[e := key])
  {
    var r, k' := Ins(ord, n, e), k[e := key];
    assert |r| == |ord| + 1;
    forall i, j | 0 <= i < j < |r|
      ensures r[i] in k' && r[j] in k' && k'[r[i]] < k'[r[j]]
    {
      InsAt(ord, n, e, i);
      InsAt(ord, n, e, j);
      if i == n && j > n + 1 {
        assert k[ord[n]] < k[ord[j - 1]];
      }
    }
    forall i | 0 <= i < |r|
      ensures r[i] in k'
    {
      InsAt(ord, n, e, i);
    }
  }

  lemma {:induction false} AscendingReplace(ord: seq<Ref>, k: map<Ref, int>, n: nat, e: Ref, key: int)
    requires Ascending(ord, k) && n < |ord| && e !in ord && k[ord[n]] == key
    ensures Ascending(ord[n := e], k[e := key])
  {
  }

  lemma {:induction false} AscendingRem(ord: seq<Ref>, k: map<Ref, int>, n: nat)
    requires Ascending(ord, k) && n < |ord|
    ensures Ascending(Rem(ord, n), k)
  {
  }

  lemma {:induction false} AscendingSame(ord: seq<Ref>, k: map<Ref, int>, k': map<Ref, int>)
    requires Ascending(ord, k) && forall x :: x in ord ==> x in k' && x in k && k'[x] == k[x]
    ensures Ascending(ord, k')
  {
  }
}
