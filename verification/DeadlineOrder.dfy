/**
 Sequences of nodes ordered by deadline, the map of deadlines they stand for, and what it means for an armed
 timer to cover the earliest of them.  Used by module Deadlines.
 */
module DeadlineOrder {
  import opened RbTree
  import opened Lists

  const BILLION: int := 1_000_000_000

  datatype Timespec = Timespec(sec: int, nsec: int)

  predicate Normal(t: Timespec) {
    0 <= t.nsec < BILLION
  }

  function Nanos(t: Timespec): int {
    t.sec * BILLION + t.nsec
  }

  /** __timeout_cmp */
  function Cmp(a: Timespec, b: Timespec): int {
    if a.sec - b.sec == 0 then a.nsec - b.nsec else a.sec - b.sec
  }

  /** __poller_node_set_timeout, for a non-negative number of milliseconds */
  function AddMillis(now: Timespec, ms: nat): Timespec {
    var t := Timespec(now.sec + ms / 1000, now.nsec + ms % 1000 * 1000000);
    if t.nsec >= BILLION then Timespec(t.sec + 1, t.nsec - BILLION) else t
  }

  /** The comparison is that of the instants, and adding a timeout stays in normal form. */
  lemma {:induction false} TimeoutCmp(a: Timespec, b: Timespec, ms: nat)
    requires Normal(a) && Normal(b)
    ensures Cmp(a, b) < 0 <==> Nanos(a) < Nanos(b)
    ensures Cmp(a, b) > 0 <==> Nanos(a) > Nanos(b)
    ensures Normal(AddMillis(a, ms)) && Nanos(AddMillis(a, ms)) == Nanos(a) + ms * 1000000
  {
    assert ms == ms / 1000 * 1000 + ms % 1000;
    if a.sec < b.sec {
      assert a.sec * BILLION <= (b.sec - 1) * BILLION;
    } else if a.sec > b.sec {
      assert b.sec * BILLION <= (a.sec - 1) * BILLION;
    }
  }

  // ----- sorted sequences of nodes -----

  lemma {:induction false} SortedOther(s: seq<Ref>, d: map<Ref, nat>, x: Ref, t: nat)
    requires Sorted(s, d) && x !in s
    ensures Sorted(s, d[x := t])
  {
  }

  /** The list and the tree hold the timed nodes, each in order of deadline. */
  ghost predicate Indexed(ord: seq<Ref>, list: seq<Ref>, none: seq<Ref>, d: map<Ref, nat>, inTree: set<Ref>) {
    && Sorted(ord, d) && NoDup(ord) && Sorted(list, d) && NoDup(list) && NoDup(none)
    && (forall x :: x in ord ==> x !in list && x !in none && x in inTree && x != NIL)
    && (forall x :: x in list ==> x !in none && x !in inTree && x != NIL)
    && (forall x :: x in none ==> x !in inTree && x != NIL)
  }

  function TimedOf(ord: seq<Ref>, list: seq<Ref>, d: map<Ref, nat>): map<Ref, nat> {
    map n | n in d && (n in list || n in ord) :: d[n]
  }

  /** The nodes that are not due yet. */
  function DueAfter(m: map<Ref, nat>, now: nat): map<Ref, nat> {
    map n | n in m && m[n] > now :: m[n]
  }

  predicate CoveredBy(armed: nat, m: map<Ref, nat>) {
    forall n :: n in m ==> 0 < armed <= m[n]
  }

  lemma {:induction false} Unlinked(ord: seq<Ref>, list: seq<Ref>, none: seq<Ref>, d: map<Ref, nat>, inTree: set<Ref>,
                                    x: Ref)
    requires Indexed(ord, list, none, d, inTree)
    ensures Indexed(ord, Unlink(list, x), Unlink(none, x), d, inTree)
  {
    UnlinkMembers(list, x);
    UnlinkMembers(none, x);
    UnlinkSorted(list, x, d);
  }

  lemma {:induction false} TimedRem(ord: seq<Ref>, list: seq<Ref>, d: map<Ref, nat>, pos: nat)
    requires NoDup(ord) && pos < |ord| && ord[pos] !in list
    ensures TimedOf(Rem(ord, pos), list, d) == TimedOf(ord, list, d) - {ord[pos]}
  {
    RemMembers(ord, pos);
  }

  lemma {:induction false} TimedUnlink(ord: seq<Ref>, list: seq<Ref>, none: seq<Ref>, d: map<Ref, nat>, x: Ref)
    requires NoDup(list) && NoDup(none) && x !in ord
    ensures TimedOf(ord, Unlink(list, x), d) == TimedOf(ord, list, d) - {x}
    ensures x !in Unlink(list, x) && forall y :: y in Unlink(none, x) <==> y in none && y != x
  {
    UnlinkMembers(list, x);
    UnlinkMembers(none, x);
  }

  lemma {:induction false} FirstTaken(ord: seq<Ref>, list: seq<Ref>, none: seq<Ref>, d: map<Ref, nat>, inTree: set<Ref>)
    requires Indexed(ord, list, none, d, inTree) && ord != []
    ensures Indexed(ord[1..], list, none, d, inTree)
  {
  }

  lemma {:induction false} FirstNil(ord: seq<Ref>, list: seq<Ref>, none: seq<Ref>, d: map<Ref, nat>, inTree: set<Ref>)
    requires Indexed(ord, list, none, d, inTree)
    ensures First(ord) == NIL <==> ord == []
  {
    if ord != [] {
      assert ord[0] in ord;
    }
  }

  lemma {:induction false} LastTimed(ord: seq<Ref>, list: seq<Ref>, none: seq<Ref>, d: map<Ref, nat>, inTree: set<Ref>)
    requires Indexed(ord, list, none, d, inTree)
    ensures ord != [] ==> Last(ord) in ord && Last(ord) in d
  {
    if ord != [] {
      assert ord[|ord| - 1] in ord;
    }
  }

  lemma {:induction false} ListCut(ord: seq<Ref>, list: seq<Ref>, none: seq<Ref>, d: map<Ref, nat>, inTree: set<Ref>)
    requires Indexed(ord, list, none, d, inTree) && list != []
    ensures Indexed(ord, list[1..], none, d, inTree)
  {
  }

  lemma {:induction false} SweptMembers(ord: seq<Ref>, list: seq<Ref>, ord': seq<Ref>, list': seq<Ref>, some: seq<Ref>,
                                        others: seq<Ref>,
                                        d: map<Ref, nat>, now: nat)
    requires Cut(ord, others, ord', d, now) && Cut(list, some, list', d, now) && Sorted(ord, d) && Sorted(list, d)
    requires NoDup(ord) && NoDup(list) && forall x :: x in ord ==> x !in list
    requires (list' != [] ==> d[list'[0]] > now) && (ord' != [] ==> d[ord'[0]] > now)
    ensures NoDup(some + others)
    ensures forall n :: n in some + others <==> n in TimedOf(ord, list, d) && TimedOf(ord, list, d)[n] <= now
    ensures TimedOf(ord', list', d) == DueAfter(TimedOf(ord, list, d), now)
  {
    Later(others, ord', d, now);
    Later(some, list', d, now);
    NoDupParts(others, ord');
    NoDupParts(some, list');
    assert forall n :: n in others ==> n in ord;
    assert forall n :: n in some ==> n in list;
    NoDupJoin(some, others);
  }

  lemma {:induction false} Reinserted(m: map<Ref, nat>, x: Ref, t: nat)
    ensures (m - {x})[x := t] == m[x := t]
  {
  }

  /** Taking out a node never needs a new timer. */
  lemma {:induction false} CoveredWithout(armed: nat, m: map<Ref, nat>, m': map<Ref, nat>, x: Ref)
    requires m' == m - {x} && CoveredBy(armed, m)
    ensures CoveredBy(armed, m')
  {
  }

  predicate AllDue(s: seq<Ref>, d: map<Ref, nat>, now: nat) {
    forall n :: n in s ==> n in d && d[n] <= now
  }

  /** A sweep has cut `expired` off the front of `all`. */
  predicate Cut(all: seq<Ref>, expired: seq<Ref>, rest: seq<Ref>, d: map<Ref, nat>, now: nat) {
    all == expired + rest && AllDue(expired, d, now)
  }

  lemma {:induction false} CutMore(all: seq<Ref>, expired: seq<Ref>, rest: seq<Ref>, d: map<Ref, nat>, now: nat)
    requires Cut(all, expired, rest, d, now) && rest != [] && rest[0] in d && d[rest[0]] <= now
    ensures Cut(all, expired + [rest[0]], rest[1..], d, now)
  {
    assert expired + rest == (expired + [rest[0]]) + rest[1..];
  }

  /** What follows the first node due after `now` is due after it too. */
  lemma {:induction false} Later(x: seq<Ref>, y: seq<Ref>, d: map<Ref, nat>, now: nat)
    requires Sorted(x + y, d) && (y != [] ==> d[y[0]] > now)
    ensures forall n :: n in y ==> n in d && d[n] > now
  {
    forall n | n in y
      ensures n in d && d[n] > now
    {
      var i :| 0 <= i < |y| && y[i] == n;
      assert (x + y)[|x| + i] == n && (x + y)[|x|] == y[0];
    }
  }

  lemma {:induction false} Earliest(ord: seq<Ref>, list: seq<Ref>, d: map<Ref, nat>, node: Ref)
    requires Sorted(ord, d) && Sorted(list, d) && NIL !in ord && NIL !in list
    requires node == if ord != [] && (list == [] || d[ord[0]] < d[list[0]]) then ord[0] else First(list)
    ensures node == NIL <==> TimedOf(ord, list, d) == map[]
    ensures node != NIL ==> node in TimedOf(ord, list, d) && d[node] > 0
    ensures forall n :: n in TimedOf(ord, list, d) ==> node in d && d[node] <= d[n]
  {
    if ord != [] {
      assert ord[0] in TimedOf(ord, list, d);
    }
    if list != [] {
      assert list[0] in TimedOf(ord, list, d);
    }
  }

  lemma {:induction false} SortedBefore(s: seq<Ref>, d: map<Ref, nat>, x: Ref, t: nat)
    requires Sorted(s, d[x := t]) && x !in s
    ensures Sorted(s, d) && forall y :: y in s ==> d[y] == d[x := t][y]
  {
  }

  lemma {:induction false} Appended(ord: seq<Ref>, list: seq<Ref>, d: map<Ref, nat>, x: Ref, t: nat)
    requires x !in ord && x !in list
    ensures TimedOf(ord, list + [x], d[x := t]) == TimedOf(ord, list, d)[x := t]
  {
  }

  lemma {:induction false} TimedInTree(ord: seq<Ref>, list: seq<Ref>, d: map<Ref, nat>, x: Ref, t: nat, pos: nat)
    requires x !in ord && x !in list && pos <= |ord|
    ensures TimedOf(Ins(ord, pos, x), list, d[x := t]) == TimedOf(ord, list, d)[x := t]
  {
    InsMembers(ord, pos, x);
  }

  lemma {:induction false} EmptyListCovered(ord: seq<Ref>, d: map<Ref, nat>, x: Ref, t: nat, before: nat, armed: nat)
    requires Sorted(ord, d) && t > 0
    requires armed == if ord == [] || t < d[ord[0]] then t else before
    ensures CoveredBy(before, TimedOf(ord, [], d)) ==> CoveredBy(armed, TimedOf(ord, [], d)[x := t])
  {
    var m := TimedOf(ord, [], d);
    if ord == [] || t < d[ord[0]] {
      NowCovered(m, x, t);
    } else {
      StillCovered(before, m, x, t, ord[0]);
    }
  }

  lemma {:induction false} TreeCovered(ord: seq<Ref>, list: seq<Ref>, d: map<Ref, nat>, x: Ref, t: nat, pos: nat,
                                       before: nat, armed: nat)
    requires Sorted(ord, d) && Sorted(list, d) && t > 0 && list != []
    requires pos <= |ord| && (pos > 0 ==> d[ord[pos - 1]] <= t) && (pos < |ord| ==> t <= d[ord[pos]])
    requires armed == if pos == 0 && t < d[list[0]] then t else before
    ensures CoveredBy(before, TimedOf(ord, list, d)) ==> CoveredBy(armed, TimedOf(ord, list, d)[x := t])
  {
    var m := TimedOf(ord, list, d);
    if pos > 0 {
      StillCovered(before, m, x, t, ord[pos - 1]);
    } else if t < d[list[0]] {
      NowCovered(m, x, t);
    } else {
      StillCovered(before, m, x, t, list[0]);
    }
  }

  lemma {:induction false} EarlyFirst(ord: seq<Ref>, pos: nat, x: Ref)
    requires pos <= |ord| && x !in ord && x != NIL
    ensures First(Ins(ord, pos, x)) == x <==> pos == 0
  {
  }

  /** A node put into the tree because it is due before the end of the list */
  lemma {:induction false} EarlyCovers(ord: seq<Ref>, list: seq<Ref>, d: map<Ref, nat>, x: Ref, t: nat, pos: nat,
                                       before: nat, armed: nat)
    requires Sorted(ord, d[x := t]) && Sorted(list, d[x := t]) && x !in ord && x !in list && t > 0 && list != []
    requires pos <= |ord|
    requires (pos > 0 ==> d[x := t][ord[pos - 1]] <= t) && (pos < |ord| ==> t <= d[x := t][ord[pos]])
    requires armed == if pos == 0 && t < d[x := t][list[0]] then t else before
    ensures TimedOf(Ins(ord, pos, x), list, d[x := t]) == TimedOf(ord, list, d)[x := t]
    ensures CoveredBy(before, TimedOf(ord, list, d)) ==> CoveredBy(armed, TimedOf(Ins(ord, pos, x), list, d[x := t]))
  {
    SortedBefore(ord, d, x, t);
    SortedBefore(list, d, x, t);
    assert list[0] in list && (pos > 0 ==> ord[pos - 1] in ord) && (pos < |ord| ==> ord[pos] in ord);
    hide Ins;
    TimedInTree(ord, list, d, x, t, pos);
    TreeCovered(ord, list, d, x, t, pos, before, armed);
  }

  lemma {:induction false} ListAppended(ord: seq<Ref>, list: seq<Ref>, none: seq<Ref>, d: map<Ref, nat>,
                                        inTree: set<Ref>, x: Ref)
    requires Indexed(ord, list, none, d, inTree) && x in d && d[x] > 0 && x != NIL
    requires x !in ord && x !in list && x !in none && x !in inTree && (list != [] ==> d[Last(list)] <= d[x])
    ensures Indexed(ord, list + [x], none, d, inTree)
  {
    SortedIns(list, |list|, x, d);
    assert Ins(list, |list|, x) == list + [x];
  }

  /** A node due no earlier than another one needs no new timer. */
  lemma {:induction false} StillCovered(armed: nat, m: map<Ref, nat>, x: Ref, t: nat, y: Ref)
    requires y in m && m[y] <= t
    ensures CoveredBy(armed, m) ==> CoveredBy(armed, m[x := t])
  {
  }

  /** A node due no later than all others is the one to arm the timer from. */
  lemma {:induction false} NowCovered(m: map<Ref, nat>, x: Ref, t: nat)
    requires t > 0 && forall y :: y in m ==> t <= m[y]
    ensures CoveredBy(t, m[x := t])
  {
  }

  lemma {:induction false} TimeoutSet(ord: seq<Ref>, list: seq<Ref>, none: seq<Ref>, d: map<Ref, nat>, inTree: set<Ref>,
                                      x: Ref, t: nat)
    requires Indexed(ord, list, none, d, inTree) && x !in ord && x !in list
    ensures Indexed(ord, list, none, d[x := t], inTree)
  {
    SortedOther(ord, d, x, t);
    SortedOther(list, d, x, t);
  }

  lemma {:induction false} TreeErased(ord: seq<Ref>, list: seq<Ref>, none: seq<Ref>, d: map<Ref, nat>, inTree: set<Ref>,
                                      pos: nat)
    requires Indexed(ord, list, none, d, inTree) && pos < |ord|
    ensures Indexed(Rem(ord, pos), list, none, d, inTree - {ord[pos]})
  {
    SortedRem(ord, pos, d);
    RemMembers(ord, pos);
  }

  lemma {:induction false} InsEnds(s: seq<Ref>, pos: nat, x: Ref)
    requires pos <= |s|
    ensures First(Ins(s, pos, x)) == if pos == 0 then x else s[0]
    ensures Last(Ins(s, pos, x)) == if pos == |s| then x else s[|s| - 1]
  {
  }

  lemma {:induction false} RemEnds(s: seq<Ref>, pos: nat)
    requires pos < |s|
    ensures First(Rem(s, pos)) == if pos > 0 then s[0] else if |s| > 1 then s[1] else NIL
    ensures Last(Rem(s, pos)) == if pos + 1 < |s| then s[|s| - 1] else if |s| > 1 then s[|s| - 2] else NIL
  {
  }

  lemma {:induction false} AtEnd(ord: seq<Ref>, pos: nat)
    requires NoDup(ord) && 0 < pos <= |ord| && ord[pos - 1] == Last(ord)
    ensures pos == |ord|
  {
  }

  lemma {:induction false} TreeInserted(ord: seq<Ref>, list: seq<Ref>, none: seq<Ref>, d: map<Ref, nat>,
                                        inTree: set<Ref>,
                                        pos: nat, x: Ref)
    requires Indexed(ord, list, none, d, inTree) && pos <= |ord| && x in d && d[x] > 0
    requires x !in ord && x !in list && x !in none && x != NIL
    requires (pos > 0 ==> d[ord[pos - 1]] <= d[x]) && (pos < |ord| ==> d[x] <= d[ord[pos]])
    ensures Indexed(Ins(ord, pos, x), list, none, d, inTree + {x})
  {
    SortedIns(ord, pos, x, d);
    InsMembers(ord, pos, x);
  }

  /** In a sorted sequence, what is before the middle is due no later than it, what is after it no earlier. */
  lemma {:induction false} AroundMiddle(l: seq<Ref>, m: Ref, r: seq<Ref>, d: map<Ref, nat>)
    requires Sorted(l + [m] + r, d)
    ensures m in d
    ensures forall x :: x in l ==> x in d && d[x] <= d[m]
    ensures forall x :: x in r ==> x in d && d[m] <= d[x]
  {
    var o := l + [m] + r;
    assert o[|l|] == m;
    forall x | x in l
      ensures x in d && d[x] <= d[m]
    {
      var i :| 0 <= i < |l| && l[i] == x;
      assert o[i] == x;
    }
    forall x | x in r
      ensures x in d && d[m] <= d[x]
    {
      var i :| 0 <= i < |r| && r[i] == x;
      assert o[|l| + 1 + i] == x;
    }
  }

}
