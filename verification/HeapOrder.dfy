/**
 Binary heaps of targets, loosened at one place, and load sums.  Used by module LoadHeap.
 */
module HeapOrder {
  type Id = nat

  datatype Load = Load(cur: nat, max: nat)

  /** target_cmp */
  function TargetCmp(a: Load, b: Load): int {
    var l1, l2 := a.cur * b.max, b.cur * a.max;
    if l1 < l2 then -1 else if l1 > l2 then 1 else 0
  }

  function Ratio(l: Load): real
    requires l.max > 0
  {
    l.cur as real / l.max as real
  }

  lemma {:induction false} RealProduct(x: nat, y: nat)
    ensures (x * y) as real == x as real * y as real
  {
  }

  lemma {:induction false} DivLess(a: real, b: real, c: real, d: real)
    requires b > 0.0 && d > 0.0
    ensures a / b < c / d <==> a * d < c * b
    ensures a / b == c / d <==> a * d == c * b
  {
    var x, y := a / b, c / d;
    assert a == x * b && c == y * d;
    var p := b * d;
    assert p > 0.0;
    assert a * d == x * p && c * b == y * p;
    if x < y { assert x * p < y * p; }
    if x > y { assert x * p > y * p; }
  }

  /** The cross products compare the load ratios. */
  lemma {:induction false} CmpIsRatio(a: Load, b: Load)
    requires a.max > 0 && b.max > 0
    ensures TargetCmp(a, b) < 0 <==> Ratio(a) < Ratio(b)
    ensures TargetCmp(a, b) == 0 <==> Ratio(a) == Ratio(b)
  {
    RealProduct(a.cur, b.max);
    RealProduct(b.cur, a.max);
    DivLess(a.cur as real, a.max as real, b.cur as real, b.max as real);
  }

  lemma {:induction false} RatioBelowOne(l: Load)
    requires l.max > 0
    ensures Ratio(l) < 1.0 <==> l.cur < l.max
  {
    DivLess(l.cur as real, l.max as real, 1.0, 1.0);
  }

  // ----- heap order over keys -----

  function Parent(i: nat): nat
    requires i > 0
  {
    (i - 1) / 2
  }

  predicate Keyed(h: seq<Id>, k: map<Id, real>) {
    forall i :: 0 <= i < |h| ==> h[i] in k
  }

  predicate Ordered(h: seq<Id>, k: map<Id, real>)
    requires Keyed(h, k)
  {
    forall i :: 0 < i < |h| ==> k[h[Parent(i)]] <= k[h[i]]
  }

  /** Ordered but for the edges at j; skipping j, order holds there too. */
  predicate Loose(h: seq<Id>, k: map<Id, real>, j: nat)
    requires Keyed(h, k)
  {
    && (forall i :: 0 < i < |h| && i != j && Parent(i) != j ==> k[h[Parent(i)]] <= k[h[i]])
    && (forall i :: 0 < i < |h| && Parent(i) == j && 0 < j < |h| ==> k[h[Parent(j)]] <= k[h[i]])
  }

  predicate Above(h: seq<Id>, k: map<Id, real>, j: nat)
    requires Keyed(h, k)
  {
    0 < j < |h| ==> k[h[Parent(j)]] <= k[h[j]]
  }

  predicate Below(h: seq<Id>, k: map<Id, real>, j: nat)
    requires Keyed(h, k)
  {
    forall i :: 0 < i < |h| && Parent(i) == j && j < |h| ==> k[h[j]] <= k[h[i]]
  }

  lemma {:induction false} OrderedIff(h: seq<Id>, k: map<Id, real>, j: nat)
    requires Keyed(h, k) && j < |h|
    ensures Ordered(h, k) <==> Loose(h, k, j) && Above(h, k, j) && Below(h, k, j)
  {
    if Ordered(h, k) {
      forall i | 0 < i < |h| && Parent(i) == j && 0 < j
        ensures k[h[Parent(j)]] <= k[h[i]]
      {
        assert k[h[Parent(i)]] <= k[h[i]];
      }
    }
  }

  function Swap(h: seq<Id>, i: nat, j: nat): (r: seq<Id>)
    requires i < |h| && j < |h|
    ensures |r| == |h| && r[i] == h[j] && r[j] == h[i] && forall m :: 0 <= m < |h| && m != i && m != j ==> r[m] == h[m]
  {
    h[i := h[j]][j := h[i]]
  }

  /** One step of the hole towards the root. */
  lemma {:induction false} SwapUp(h: seq<Id>, k: map<Id, real>, j: nat)
    requires Keyed(h, k) && 0 < j < |h| && Loose(h, k, j) && k[h[j]] <= k[h[Parent(j)]]
    ensures Keyed(Swap(h, j, Parent(j)), k) && Loose(Swap(h, j, Parent(j)), k, Parent(j))
    ensures Below(Swap(h, j, Parent(j)), k, Parent(j))
  {
    var p := Parent(j);
    var r := Swap(h, j, p);
    forall i | 0 < i < |r| && i != p && Parent(i) != p
      ensures k[r[Parent(i)]] <= k[r[i]]
    {
      if Parent(i) == j {
        assert k[h[p]] <= k[h[i]];
      }
    }
    forall i | 0 < i < |r| && Parent(i) == p
      ensures k[r[p]] <= k[r[i]] && (0 < p ==> k[r[Parent(p)]] <= k[r[i]])
    {
      if i != j {
        assert k[h[p]] <= k[h[i]];
      }
      if 0 < p {
        assert k[h[Parent(p)]] <= k[h[p]];
      }
    }
  }

  /** One step of the hole towards the leaves, to the least child c. */
  lemma {:induction false} SwapDown(h: seq<Id>, k: map<Id, real>, j: nat, c: nat)
    requires Keyed(h, k) && 0 < c < |h| && Parent(c) == j && Loose(h, k, j) && Above(h, k, j)
    requires k[h[c]] <= k[h[j]] && forall i :: 0 < i < |h| && Parent(i) == j ==> k[h[c]] <= k[h[i]]
    ensures Keyed(Swap(h, j, c), k) && Loose(Swap(h, j, c), k, c) && Above(Swap(h, j, c), k, c)
  {
    var r := Swap(h, j, c);
    forall i | 0 < i < |r| && i != c && Parent(i) != c
      ensures k[r[Parent(i)]] <= k[r[i]]
    {
    }
    forall i | 0 < i < |r| && Parent(i) == c
      ensures k[r[Parent(c)]] <= k[r[i]]
    {
      assert k[h[c]] <= k[h[i]];
    }
  }

  /** The root has the least key. */
  lemma {:induction false} RootLeast(h: seq<Id>, k: map<Id, real>, i: nat)
    requires Keyed(h, k) && Ordered(h, k) && i < |h|
    ensures k[h[0]] <= k[h[i]]
    decreases i
  {
    if i > 0 {
      RootLeast(h, k, Parent(i));
    }
  }

  /** Changing the key of one target. */
  lemma {:induction false} Rekeyed(h: seq<Id>, k: map<Id, real>, j: nat, v: real)
    requires Keyed(h, k) && Ordered(h, k) && j < |h| && forall i :: 0 <= i < |h| && h[i] == h[j] ==> i == j
    ensures var k' := k[h[j] := v];
            Keyed(h, k') && Loose(h, k', j) && (k[h[j]] <= v ==> Above(h, k', j)) && (v <= k[h[j]] ==> Below(h, k', j))
  {
    OrderedIff(h, k, j);
  }

  ghost predicate Perm(a: seq<Id>, b: seq<Id>) {
    multiset(a) == multiset(b)
  }

  lemma {:induction false} PermTrans(a: seq<Id>, b: seq<Id>, c: seq<Id>)
    requires Perm(a, b) && Perm(b, c)
    ensures Perm(a, c)
  {
  }

  // ----- load sums -----

  function Plus(a: Load, b: Load): Load {
    Load(a.cur + b.cur, a.max + b.max)
  }

  /** The summed loads of the targets. */
  function Total(h: seq<Id>, loads: map<Id, Load>): Load
    requires forall i :: 0 <= i < |h| ==> h[i] in loads
  {
    if h == [] then Load(0, 0) else Plus(loads[h[0]], Total(h[1..], loads))
  }

  ghost predicate Covers(h: seq<Id>, loads: map<Id, Load>) {
    forall i :: 0 <= i < |h| ==> h[i] in loads
  }

  lemma {:induction false} TotalTake(h: seq<Id>, loads: map<Id, Load>, i: nat)
    requires Covers(h, loads) && i < |h|
    ensures Total(h, loads) == Plus(loads[h[i]], Total(h[..i] + h[i + 1..], loads))
    decreases i
  {
    var r := h[..i] + h[i + 1..];
    if i == 0 {
      assert r == h[1..];
    } else {
      TotalTake(h[1..], loads, i - 1);
      assert r[0] == h[0] && r[1..] == h[1..][..i - 1] + h[1..][i..];
    }
  }

  lemma {:induction false} TakeOut(h: seq<Id>, i: nat)
    requires i < |h|
    ensures multiset(h[..i] + h[i + 1..]) == multiset(h) - multiset{h[i]}
  {
    assert h == h[..i] + ([h[i]] + h[i + 1..]);
  }

  /** The sums do not depend on the order. */
  lemma {:induction false} TotalPermutes(h: seq<Id>, r: seq<Id>, loads: map<Id, Load>)
    requires Covers(h, loads) && Covers(r, loads) && Perm(h, r)
    ensures Total(h, loads) == Total(r, loads)
    decreases |h|
  {
    hide Total;
    if h == [] {
      assert |multiset(h)| == |h| && |multiset(r)| == |r|;
    } else {
      assert h[0] in multiset(r);
      var i :| 0 <= i < |r| && r[i] == h[0];
      var g, rest := h[1..], r[..i] + r[i + 1..];
      assert h[..0] + h[1..] == g;
      BothLess(h, r, i, g, rest);
      TotalTake(r, loads, i);
      TotalTake(h, loads, 0);
      TotalPermutes(g, rest, loads);
    }
  }

  lemma {:induction false} BothLess(h: seq<Id>, r: seq<Id>, i: nat, g: seq<Id>, rest: seq<Id>)
    requires Perm(h, r) && h != [] && i < |r| && r[i] == h[0] && g == h[1..] && rest == r[..i] + r[i + 1..]
    ensures Perm(g, rest)
  {
    TakeOut(r, i);
    TakeOut(h, 0);
    assert h[..0] + h[1..] == h[1..];
  }

  lemma {:induction false} TotalOther(h: seq<Id>, loads: map<Id, Load>, x: Id, l: Load)
    requires Covers(h, loads) && x !in h
    ensures Total(h, loads[x := l]) == Total(h, loads)
    decreases |h|
  {
    if h != [] {
      TotalOther(h[1..], loads, x, l);
    }
  }

  /** Changing the load of one target. */
  lemma {:induction false} TotalChanges(h: seq<Id>, loads: map<Id, Load>, j: nat, l: Load)
    requires Covers(h, loads) && j < |h| && forall i :: 0 <= i < |h| && i != j ==> h[i] != h[j]
    ensures Plus(Total(h, loads[h[j] := l]), loads[h[j]]) == Plus(Total(h, loads), l)
  {
    var rest := h[..j] + h[j + 1..];
    TotalTake(h, loads, j);
    TotalTake(h, loads[h[j] := l], j);
    TotalOther(rest, loads, h[j], l);
  }

  lemma {:induction false} TotalFull(h: seq<Id>, loads: map<Id, Load>)
    requires Covers(h, loads) && forall i :: 0 <= i < |h| ==> loads[h[i]].cur >= loads[h[i]].max
    ensures Total(h, loads).cur >= Total(h, loads).max
    decreases |h|
  {
    if h != [] {
      TotalFull(h[1..], loads);
    }
  }
}
