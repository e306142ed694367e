/**
 The heap of a scheduling group with its back-indices and sums, as values.  Used by module LoadHeap.
 */
module GroupFacts {
  import Lists
  import opened HeapOrder

  /** What acquire, add and remove report; Waits is an acquire that goes to sleep. */
  datatype Outcome = Done | Again | Waits | Exists | Invalid | Busy | NoEntry

  /** A target's group: none, this one, or another one. */
  datatype Owner = NoGroup | This | Other

  function KeysOf(loads: map<Id, Load>): map<Id, real> {
    map x | x in loads && loads[x].max > 0 :: Ratio(loads[x])
  }

  ghost predicate Loaded(h: seq<Id>, loads: map<Id, Load>) {
    forall i :: 0 <= i < |h| ==> h[i] in loads && loads[h[i]].max > 0
  }

  /** The back-indices are right, except for the target in the hole. */
  ghost predicate Indexed(h: seq<Id>, index: map<Id, nat>, hole: nat) {
    forall i :: 0 <= i < |h| && i != hole ==> h[i] in index && index[h[i]] == i
  }

  /** The heap with its hole filled. */
  ghost predicate Hole(h: seq<Id>, v: seq<Id>, j: nat) {
    |h| == |v| && j < |h| && forall i :: 0 <= i < |h| && i != j ==> h[i] == v[i]
  }

  lemma {:induction false} SwapPermutes(h: seq<Id>, i: nat, j: nat)
    requires i < |h| && j < |h|
    ensures Perm(Swap(h, i, j), h)
  {
  }

  lemma {:induction false} SwapNoDup(h: seq<Id>, i: nat, j: nat)
    requires i < |h| && j < |h| && Lists.NoDup(h)
    ensures Lists.NoDup(Swap(h, i, j))
  {
  }

  /** Moving the entry at c into the hole at j, with its index, moves the hole to c. */
  lemma {:induction false} HoleMoves(h: seq<Id>, v: seq<Id>, index: map<Id, nat>, j: nat, c: nat)
    requires Hole(h, v, j) && c < |h| && c != j && Lists.NoDup(v) && Indexed(v, index, j)
    ensures Hole(h[j := h[c]], Swap(v, j, c), c) && Indexed(Swap(v, j, c), index[h[c] := j], c)
  {
    var w := Swap(v, j, c);
    forall i | 0 <= i < |w| && i != c
      ensures w[i] in index[h[c] := j] && index[h[c] := j][w[i]] == i
    {
      if i != j {
        assert v[i] != v[c];
      }
    }
  }

  /** Filling the hole. */
  lemma {:induction false} HoleFilled(h: seq<Id>, v: seq<Id>, index: map<Id, nat>, j: nat, x: Id)
    requires Hole(h, v, j) && v[j] == x && Lists.NoDup(v) && Indexed(v, index, j)
    ensures h[j := x] == v && Indexed(v, index[x := j], |v|)
  {
    forall i | 0 <= i < |v|
      ensures v[i] in index[x := j] && index[x := j][v[i]] == i
    {
      if i != j {
        assert v[i] != v[j];
      }
    }
  }

  lemma {:induction false} LoadedPermutes(h: seq<Id>, r: seq<Id>, loads: map<Id, Load>)
    requires Loaded(h, loads) && Perm(r, h)
    ensures Loaded(r, loads) && Keyed(r, KeysOf(loads))
  {
    forall i | 0 <= i < |r|
      ensures r[i] in loads && loads[r[i]].max > 0
    {
      assert r[i] in multiset(h);
    }
  }

  lemma {:induction false} LoadSet(h: seq<Id>, index: map<Id, nat>, loads: map<Id, Load>, x: Id, l: Load)
    requires Lists.NoDup(h) && Indexed(h, index, |h|) && Loaded(h, loads) && Keyed(h, KeysOf(loads))
    requires Ordered(h, KeysOf(loads))
    requires x in h && l.max == loads[x].max
    ensures x in index && index[x] < |h| && h[index[x]] == x && Loaded(h, loads[x := l]) && Indexed(h, index, index[x])
    ensures Plus(Total(h, loads[x := l]), loads[x]) == Plus(Total(h, loads), l)
    ensures var k := KeysOf(loads[x := l]);
            && Keyed(h, k) && Loose(h, k, index[x])
            && (l.cur >= loads[x].cur ==> Above(h, k, index[x])) && (l.cur <= loads[x].cur ==> Below(h, k, index[x]))
  {
    AtIndex(h, index, x);
    var j := index[x];
    TotalChanges(h, loads, j, l);
    KeysChange(loads, x, l);
    Rekeyed(h, KeysOf(loads), j, Ratio(l));
    RatioGrows(loads[x], l);
  }

  lemma {:induction false} KnownSet(h: seq<Id>, loads: map<Id, Load>, owner: map<Id, Owner>, waiting: map<Id, nat>,
                                    x: Id, l: Load)
    requires Known(h, loads, owner, waiting) && x in loads && l.max == loads[x].max && l.cur <= l.max
    ensures Known(h, loads[x := l], owner, waiting)
  {
  }

  lemma {:induction false} KnownNew(h: seq<Id>, loads: map<Id, Load>, owner: map<Id, Owner>, waiting: map<Id, nat>,
                                    x: Id, l: Load)
    requires Known(h, loads, owner, waiting) && x !in loads && 0 < l.max && l.cur <= l.max
    ensures Known(h, loads[x := l], owner[x := NoGroup], waiting[x := 0])
  {
  }

  lemma {:induction false} Without(total: Load, l: Load, rest: Load)
    requires total == Plus(l, rest)
    ensures total.cur >= l.cur && total.max >= l.max && Load(total.cur - l.cur, total.max - l.max) == rest
  {
  }

  /** The group is as before when there is one more target outside it. */
  lemma {:induction false} NewcomerHarmless(h: seq<Id>, loads: map<Id, Load>, owner: map<Id, Owner>,
                                            waiting: map<Id, nat>, x: Id, l: Load)
    requires Loaded(h, loads) && Keyed(h, KeysOf(loads)) && Ordered(h, KeysOf(loads)) && Known(h, loads, owner, waiting)
    requires x !in loads && 0 < l.max && l.cur <= l.max
    ensures var loads' := loads[x := l];
            Loaded(h, loads') && Keyed(h, KeysOf(loads')) && Ordered(h, KeysOf(loads'))
            && Total(h, loads') == Total(h, loads)
            && Known(h, loads', owner[x := NoGroup], waiting[x := 0])
  {
    NewcomerOutside(h, loads, x);
    hide Total;
    hide Ordered;
    hide KeysOf;
    KnownNew(h, loads, owner, waiting, x, l);
    TotalOther(h, loads, x, l);
    NewKey(loads, x, l);
    OtherKey(h, KeysOf(loads), x, Ratio(l));
  }

  lemma {:induction false} NewcomerOutside(h: seq<Id>, loads: map<Id, Load>, x: Id)
    requires Covers(h, loads) && x !in loads
    ensures x !in h
  {
  }

  lemma {:induction false} NewKey(loads: map<Id, Load>, x: Id, l: Load)
    requires l.max > 0
    ensures KeysOf(loads[x := l]) == KeysOf(loads)[x := Ratio(l)]
  {
  }

  lemma {:induction false} Inserted(h: seq<Id>, index: map<Id, nat>, loads: map<Id, Load>, x: Id)
    requires Lists.NoDup(h) && Indexed(h, index, |h|) && Loaded(h, loads) && Keyed(h, KeysOf(loads))
    requires Ordered(h, KeysOf(loads))
    requires x !in h && x in loads && loads[x].max > 0
    ensures Lists.NoDup(h + [x]) && Indexed(h + [x], index[x := |h|], |h|) && Loaded(h + [x], loads)
    ensures Keyed(h + [x], KeysOf(loads))
    ensures Loose(h + [x], KeysOf(loads), |h|) && Below(h + [x], KeysOf(loads), |h|)
  {
    var k, r := KeysOf(loads), h + [x];
    assert forall i :: 0 <= i < |h| ==> r[i] == h[i];
  }

  lemma {:induction false} Cut(h: seq<Id>, index: map<Id, nat>, loads: map<Id, Load>, n: nat)
    requires Lists.NoDup(h) && Indexed(h, index, |h|) && Loaded(h, loads) && Keyed(h, KeysOf(loads))
    requires Ordered(h, KeysOf(loads)) && n <= |h|
    ensures Lists.NoDup(h[..n]) && Indexed(h[..n], index, n) && Loaded(h[..n], loads) && Keyed(h[..n], KeysOf(loads))
    ensures Ordered(h[..n], KeysOf(loads))
  {
  }

  lemma {:induction false} AtIndex(h: seq<Id>, index: map<Id, nat>, x: Id)
    requires Indexed(h, index, |h|) && x in h
    ensures x in index && index[x] < |h| && h[index[x]] == x
  {
    var i :| 0 <= i < |h| && h[i] == x;
  }

  /** The last target takes the place of the removed one. */
  lemma {:induction false} Moved(h: seq<Id>, index: map<Id, nat>, loads: map<Id, Load>, j: nat, x: Id, r: seq<Id>,
                                 rest: seq<Id>)
    requires Lists.NoDup(h) && Indexed(h, index, |h|) && Loaded(h, loads) && Keyed(h, KeysOf(loads))
    requires Ordered(h, KeysOf(loads)) && j < |h| - 1
    requires x == h[|h| - 1] && r == h[..|h| - 1][j := x] && rest == h[..j] + h[j + 1..]
    ensures Lists.NoDup(r) && Indexed(r, index[x := j], j) && Loaded(r, loads) && Keyed(r, KeysOf(loads))
    ensures Loose(r, KeysOf(loads), j)
    ensures Perm(r, rest)
  {
    MovedEntries(h, index, loads, j, x, r);
    MovedOrder(h, KeysOf(loads), j, x, r);
    MovedMultiset(h, j);
  }

  lemma {:induction false} MovedEntries(h: seq<Id>, index: map<Id, nat>, loads: map<Id, Load>, j: nat, x: Id,
                                        r: seq<Id>)
    requires Lists.NoDup(h) && Indexed(h, index, |h|) && Loaded(h, loads) && j < |h| - 1
    requires x == h[|h| - 1] && r == h[..|h| - 1][j := x]
    ensures Lists.NoDup(r) && Indexed(r, index[x := j], j) && Loaded(r, loads)
  {
  }

  lemma {:induction false} MovedOrder(h: seq<Id>, k: map<Id, real>, j: nat, x: Id, r: seq<Id>)
    requires Keyed(h, k) && Ordered(h, k) && j < |h| - 1 && x == h[|h| - 1] && r == h[..|h| - 1][j := x]
    ensures Keyed(r, k) && Loose(r, k, j)
  {
    forall i | 0 < i < |r| && Parent(i) == j && 0 < j
      ensures k[r[Parent(j)]] <= k[r[i]]
    {
      assert k[h[Parent(j)]] <= k[h[j]] <= k[h[i]];
    }
  }

  lemma {:induction false} MovedMultiset(h: seq<Id>, j: nat)
    requires j < |h| - 1
    ensures Perm(h[..|h| - 1][j := h[|h| - 1]], h[..j] + h[j + 1..])
  {
    var n := |h| - 1;
    var a, x, b, y := h[..j], h[j], h[j + 1..n], h[n];
    assert h[..n][j := y] == a + ([y] + b);
    assert h[j + 1..] == b + [y];
  }

  /** What is left when the target at j leaves. */
  lemma {:induction false} Left(h: seq<Id>, j: nat, r: seq<Id>, loads: map<Id, Load>, owner: map<Id, Owner>,
                                waiting: map<Id, nat>)
    requires j < |h| && Lists.NoDup(h) && Covers(h, loads) && Covers(r, loads) && Known(h, loads, owner, waiting)
    requires Perm(r, h[..j] + h[j + 1..])
    ensures multiset(r) == multiset(h) - multiset{h[j]} && Total(h, loads) == Plus(loads[h[j]], Total(r, loads))
    ensures Known(r, loads, owner[h[j] := NoGroup], waiting)
  {
    TakeOut(h, j);
    TotalTake(h, loads, j);
    TotalPermutes(h[..j] + h[j + 1..], r, loads);
    LeaveKnown(h, r, loads, owner, waiting, h[j]);
  }

  lemma {:induction false} JoinTotal(h: seq<Id>, loads: map<Id, Load>, x: Id)
    requires Covers(h, loads) && x in loads
    ensures Covers(h + [x], loads) && Total(h + [x], loads) == Plus(loads[x], Total(h, loads))
  {
    var r := h + [x];
    TotalTake(r, loads, |h|);
    assert r[..|h|] + r[|h| + 1..] == h;
  }

  /** The sums and the members with one more target, in whatever order */
  lemma {:induction false} Joined(h: seq<Id>, r: seq<Id>, loads: map<Id, Load>, owner: map<Id, Owner>,
                                  waiting: map<Id, nat>, x: Id)
    requires Loaded(h, loads) && Loaded(r, loads) && Known(h, loads, owner, waiting) && Perm(r, h + [x]) && x in loads
    ensures Total(r, loads) == Plus(loads[x], Total(h, loads)) && Known(r, loads, owner[x := This], waiting)
  {
    JoinTotal(h, loads, x);
    TotalPermutes(r, h + [x], loads);
    JoinKnown(h, r, loads, owner, waiting, x);
  }

  lemma {:induction false} JoinKnown(h: seq<Id>, r: seq<Id>, loads: map<Id, Load>, owner: map<Id, Owner>,
                                     waiting: map<Id, nat>, x: Id)
    requires Known(h, loads, owner, waiting) && Perm(r, h + [x]) && x in loads
    ensures Known(r, loads, owner[x := This], waiting)
  {
    assert forall y :: y in r <==> y in multiset(r);
    assert forall y :: y in h + [x] <==> y in multiset(h + [x]);
  }

  lemma {:induction false} LeaveKnown(h: seq<Id>, r: seq<Id>, loads: map<Id, Load>, owner: map<Id, Owner>,
                                      waiting: map<Id, nat>, x: Id)
    requires Known(h, loads, owner, waiting) && multiset(r) == multiset(h) - multiset{x} && Lists.NoDup(h) && x in h
    ensures Known(r, loads, owner[x := NoGroup], waiting)
  {
    assert forall y :: y in r <==> y in multiset(r);
    assert forall y :: y in h <==> y in multiset(h);
    OnceOnly(h, x);
  }

  lemma {:induction false} OnceOnly(h: seq<Id>, x: Id)
    requires Lists.NoDup(h) && x in h
    ensures multiset(h)[x] == 1
  {
    var i :| 0 <= i < |h| && h[i] == x;
    var rest := h[..i] + h[i + 1..];
    TakeOut(h, i);
    assert x !in rest && x !in multiset(rest);
  }

  function OneMoreLoad(loads: map<Id, Load>, x: Id): map<Id, Load>
    requires x in loads
  {
    loads[x := Load(loads[x].cur + 1, loads[x].max)]
  }

  /** A member with room and no member has a smaller load ratio. */
  ghost predicate Lightest(h: seq<Id>, loads: map<Id, Load>, x: Id) {
    && Loaded(h, loads) && x in h && x in loads && loads[x].max > 0 && loads[x].cur < loads[x].max
    && forall y :: y in h ==> y in loads && loads[y].max > 0 && Ratio(loads[x]) <= Ratio(loads[y])
  }

  lemma {:induction false} OtherKey(h: seq<Id>, k: map<Id, real>, x: Id, v: real)
    requires Keyed(h, k) && Ordered(h, k) && x !in h
    ensures Keyed(h, k[x := v]) && Ordered(h, k[x := v])
  {
  }

  lemma {:induction false} TotalAtLeast(h: seq<Id>, loads: map<Id, Load>, x: Id)
    requires Covers(h, loads) && x in h
    ensures x in loads && Total(h, loads).cur >= loads[x].cur
  {
    var j :| 0 <= j < |h| && h[j] == x;
    TotalTake(h, loads, j);
  }

  /** What the group knows about targets: only its own carry its mark, and none is above its maximum. */
  ghost predicate Known(h: seq<Id>, loads: map<Id, Load>, owner: map<Id, Owner>, waiting: map<Id, nat>) {
    && (forall x :: x in loads ==> x in owner && x in waiting && loads[x].max > 0 && loads[x].cur <= loads[x].max)
    && (forall x :: x in loads ==> (owner[x] == This <==> x in h))
    && (forall x :: x in h ==> x in loads)
  }

  lemma {:induction false} KnownPermutes(h: seq<Id>, r: seq<Id>, loads: map<Id, Load>, owner: map<Id, Owner>,
                                         waiting: map<Id, nat>)
    requires Known(h, loads, owner, waiting) && Perm(r, h)
    ensures Known(r, loads, owner, waiting)
  {
    assert forall x :: x in h <==> x in multiset(h);
    assert forall x :: x in r <==> x in multiset(r);
  }

  lemma {:induction false} KeysChange(loads: map<Id, Load>, x: Id, l: Load)
    requires x in loads && l.max > 0
    ensures KeysOf(loads[x := l]) == KeysOf(loads)[x := Ratio(l)]
  {
  }

  lemma {:induction false} RatioGrows(a: Load, b: Load)
    requires a.max > 0 && b.max == a.max
    ensures a.cur <= b.cur ==> Ratio(a) <= Ratio(b)
    ensures b.cur <= a.cur ==> Ratio(b) <= Ratio(a)
  {
    DivLess(b.cur as real, b.max as real, a.cur as real, a.max as real);
    DivLess(a.cur as real, a.max as real, b.cur as real, b.max as real);
    ProductLe(a.cur as real, b.cur as real, a.max as real);
    ProductLe(b.cur as real, a.cur as real, a.max as real);
  }

  lemma {:induction false} ProductLe(x: real, y: real, m: real)
    requires m > 0.0
    ensures x <= y ==> x * m <= y * m
  {
  }

  lemma {:induction false} LeastOfAll(h: seq<Id>, k: map<Id, real>)
    requires Keyed(h, k) && Ordered(h, k)
    ensures forall x :: x in h ==> k[h[0]] <= k[x]
  {
    forall x | x in h
      ensures k[h[0]] <= k[x]
    {
      var i :| 0 <= i < |h| && h[i] == x;
      RootLeast(h, k, i);
    }
  }

  /** The mediant argument: a group that is not full has a root that is not full. */
  lemma {:induction false} RootSpare(h: seq<Id>, loads: map<Id, Load>)
    requires Loaded(h, loads) && Keyed(h, KeysOf(loads)) && Ordered(h, KeysOf(loads))
    requires Total(h, loads).cur < Total(h, loads).max
    ensures h != [] && loads[h[0]].cur < loads[h[0]].max
  {
    if h != [] && loads[h[0]].cur >= loads[h[0]].max {
      forall i | 0 <= i < |h|
        ensures loads[h[i]].cur >= loads[h[i]].max
      {
        RootLeast(h, KeysOf(loads), i);
        RatioBelowOne(loads[h[0]]);
        RatioBelowOne(loads[h[i]]);
      }
      TotalFull(h, loads);
    }
  }

  lemma {:induction false} ChildrenOf(top: nat)
    ensures Parent(2 * top + 1) == top && Parent(2 * top + 2) == top
    ensures forall i :: 0 < i && Parent(i) == top ==> i == 2 * top + 1 || i == 2 * top + 2
  {
  }

  // ----- the group of a target that somebody waits on -----

  /** A step that does not change the group of a target that somebody waits on. */
  ghost predicate Staying(owner: map<Id, Owner>, waiting: map<Id, nat>, owner': map<Id, Owner>) {
    forall x :: x in owner && x in waiting && waiting[x] > 0 ==> x in owner' && owner'[x] == owner[x]
  }
}
