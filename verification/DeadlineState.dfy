/**
 The deadline index of src/kernel/poller.c as a value, with one function per operation: what class DeadlineIndex
 of module Deadlines does to its fields, and what module PollerIndex runs.
 */
module DeadlineState {
  import opened RbTree
  import opened Lists
  import opened DeadlineOrder

  /** How many nodes at the front are due by t; a node due at t goes behind them. */
  function Front(s: seq<Ref>, d: map<Ref, nat>, t: nat): (k: nat)
    ensures k <= |s|
  {
    if s == [] || (s[0] in d && t < d[s[0]]) then 0 else 1 + Front(s[1..], d, t)
  }

  lemma {:induction false} FrontIs(s: seq<Ref>, d: map<Ref, nat>, t: nat, k: nat)
    requires Sorted(s, d) && k <= |s| && (k > 0 ==> d[s[k - 1]] <= t) && (k < |s| ==> t < d[s[k]])
    ensures Front(s, d, t) == k
    decreases |s|
  {
    if k > 0 {
      assert s[k - 1] in s && s[0] in s;
      FrontIs(s[1..], d, t, k - 1);
    } else if s != [] {
      assert s[0] in s;
    }
  }

  lemma {:induction false} FrontDue(s: seq<Ref>, d: map<Ref, nat>, t: nat)
    requires Sorted(s, d)
    ensures var k := Front(s, d, t); (k > 0 ==> d[s[k - 1]] <= t) && (k < |s| ==> t < d[s[k]])
    decreases |s|
  {
    if s != [] {
      assert s[0] in s;
      FrontDue(s[1..], d, t);
    }
  }

  /**
   `ord` are the nodes of the tree in order, `list` and `none` those of timeo_list and no_timeo_list, `d` the deadlines
   written into nodes, `inTree` the nodes with in_rbtree set, `armed` the time of the timer (0 when it is disarmed).
   */
  datatype Index = Index(
    ord: seq<Ref>, list: seq<Ref>, none: seq<Ref>, d: map<Ref, nat>, inTree: set<Ref>, armed: nat)
  {
    /** __poller_new_node at this address */
    function Fresh(n: Ref): Index {
      this.(inTree := inTree - {n})
    }

    /** __poller_insert_node: the timer is set only where the code does it. */
    function Insert(n: Ref, t: nat): Index {
      if list == [] then InsertFirst(n, t)
      else if Last(list) !in d || t >= d[Last(list)] then this.(list := list + [n], d := d[n := t])
      else InsertEarly(n, t)
    }

    function InsertFirst(n: Ref, t: nat): Index {
      this.(list := [n], d := d[n := t],
            armed := if First(ord) == NIL || (First(ord) in d && t < d[First(ord)]) then t else armed)
    }

    function InsertEarly(n: Ref, t: nat): Index {
      var k := Front(ord, d, t);
      this.(ord := Ins(ord, k, n), d := d[n := t], inTree := inTree + {n},
            armed := if k == 0 && First(list) in d && t < d[First(list)] then t else armed)
    }

    /** list_add_tail to no_timeo_list */
    function Append(n: Ref): Index {
      this.(none := none + [n])
    }

    /** How a node is taken out; the timer is left alone. */
    function Remove(n: Ref): Index {
      if n in inTree then this.(ord := Unlink(ord, n), inTree := inTree - {n})
      else this.(list := Unlink(list, n), none := Unlink(none, n))
    }

    /** The nodes that __poller_handle_timeout takes out */
    function Due(now: nat): seq<Ref> {
      list[..Front(list, d, now)] + ord[..Front(ord, d, now)]
    }

    /** __poller_handle_timeout leaves in_rbtree set. */
    function Sweep(now: nat): Index {
      this.(list := list[Front(list, d, now)..], ord := ord[Front(ord, d, now)..])
    }

    /** __poller_set_timer */
    function Rearm(): Index {
      var a, b := First(list), First(ord);
      var n := if b != NIL && (a == NIL || (a in d && b in d && d[b] < d[a])) then b else a;
      this.(armed := if n in d && n != NIL then d[n] else 0)
    }

    /** poller_stop */
    function Clear(): Index {
      this.(ord := [], list := [], none := [])
    }

    /** The timed nodes with their deadlines */
    function Timed(): map<Ref, nat> {
      TimedOf(ord, list, d)
    }

    predicate Covered() {
      CoveredBy(armed, Timed())
    }

    predicate Has(n: Ref) {
      n in ord || n in list || n in none
    }

    ghost predicate Valid() {
      Indexed(ord, list, none, d, inTree)
    }
  }

  function NoIndex(): Index {
    Index([], [], [], map[], {}, 0)
  }

  // ----- insertion -----

  lemma {:induction false} FreshValid(x: Index, n: Ref)
    requires x.Valid() && !x.Has(n)
    ensures x.Fresh(n).Valid() && n !in x.Fresh(n).inTree
  {
  }

  lemma {:induction false} FirstInserted(x: Index, n: Ref, t: nat)
    requires x.Valid() && !x.Has(n) && n != NIL && n !in x.inTree && t > 0 && x.list == []
    ensures x.InsertFirst(n, t).Valid() && x.InsertFirst(n, t).Timed() == x.Timed()[n := t]
    ensures x.Covered() ==> x.InsertFirst(n, t).Covered()
  {
    TimeoutSet(x.ord, [], x.none, x.d, x.inTree, n, t);
    ListAppended(x.ord, [], x.none, x.d[n := t], x.inTree, n);
    assert [] + [n] == [n];
    FirstNil(x.ord, [], x.none, x.d, x.inTree);
    Appended(x.ord, [], x.d, n, t);
    EmptyListCovered(x.ord, x.d, n, t, x.armed, x.InsertFirst(n, t).armed);
  }

  lemma {:induction false} LastInserted(x: Index, n: Ref, t: nat)
    requires x.Valid() && !x.Has(n) && n != NIL && n !in x.inTree && t > 0
    requires x.list != [] && Last(x.list) in x.d && t >= x.d[Last(x.list)]
    ensures x.(list := x.list + [n], d := x.d[n := t]).Valid()
    ensures x.(list := x.list + [n], d := x.d[n := t]).Timed() == x.Timed()[n := t]
    ensures x.Covered() ==> x.(list := x.list + [n], d := x.d[n := t]).Covered()
  {
    TimeoutSet(x.ord, x.list, x.none, x.d, x.inTree, n, t);
    ListAppended(x.ord, x.list, x.none, x.d[n := t], x.inTree, n);
    Appended(x.ord, x.list, x.d, n, t);
    assert Last(x.list) in x.list;
    StillCovered(x.armed, x.Timed(), n, t, Last(x.list));
  }

  lemma {:induction false} EarlyInserted(x: Index, n: Ref, t: nat)
    requires x.Valid() && !x.Has(n) && n != NIL && n !in x.inTree && t > 0 && x.list != []
    ensures x.InsertEarly(n, t).Valid() && x.InsertEarly(n, t).Timed() == x.Timed()[n := t]
    ensures x.Covered() ==> x.InsertEarly(n, t).Covered()
  {
    var k, e := Front(x.ord, x.d, t), x.d[n := t];
    FrontDue(x.ord, x.d, t);
    assert x.list[0] in x.list;
    assert k > 0 ==> x.ord[k - 1] in x.ord;
    assert k < |x.ord| ==> x.ord[k] in x.ord;
    TimeoutSet(x.ord, x.list, x.none, x.d, x.inTree, n, t);
    TreeInserted(x.ord, x.list, x.none, e, x.inTree, k, n);
    EarlyCovers(x.ord, x.list, x.d, n, t, k, x.armed, x.InsertEarly(n, t).armed);
  }

  /** Insertion adds exactly this deadline, and a timer that covered the earliest deadline still does. */
  lemma {:induction false} Inserted(x: Index, n: Ref, t: nat)
    requires x.Valid() && !x.Has(n) && n != NIL && n !in x.inTree && t > 0
    ensures x.Insert(n, t).Valid() && x.Insert(n, t).Timed() == x.Timed()[n := t] && x.Insert(n, t).none == x.none
    ensures x.Covered() ==> x.Insert(n, t).Covered()
  {
    if x.list == [] {
      FirstInserted(x, n, t);
    } else {
      assert Last(x.list) in x.list;
      if t >= x.d[Last(x.list)] {
        LastInserted(x, n, t);
      } else {
        EarlyInserted(x, n, t);
      }
    }
  }

  lemma {:induction false} AppendedUntimed(x: Index, n: Ref)
    requires x.Valid() && !x.Has(n) && n != NIL && n !in x.inTree
    ensures x.Append(n).Valid() && x.Append(n).Timed() == x.Timed()
    ensures forall m :: m in x.Append(n).none <==> m in x.none || m == n
  {
    AppendNoDup(x.none, n);
  }

  // ----- removal -----

  /** Removal takes out exactly this node, and the timer still covers the earliest deadline. */
  lemma {:induction false} Removed(x: Index, n: Ref)
    requires x.Valid() && x.Has(n)
    ensures x.Remove(n).Valid() && !x.Remove(n).Has(n) && n !in x.Remove(n).inTree
    ensures x.Remove(n).Timed() == x.Timed() - {n} && x.Remove(n).armed == x.armed
    ensures forall m :: m in x.Remove(n).none <==> m in x.none && m != n
    ensures x.Covered() ==> x.Remove(n).Covered()
  {
    if n in x.inTree {
      var k := UnlinkIs(x.ord, n);
      TreeErased(x.ord, x.list, x.none, x.d, x.inTree, k);
      TimedRem(x.ord, x.list, x.d, k);
      RemMembers(x.ord, k);
    } else {
      Unlinked(x.ord, x.list, x.none, x.d, x.inTree, n);
      TimedUnlink(x.ord, x.list, x.none, x.d, n);
    }
    if x.Covered() {
      CoveredWithout(x.armed, x.Timed(), x.Remove(n).Timed(), n);
    }
  }

  // ----- the sweep -----

  lemma {:induction false} SuffixSorted(s: seq<Ref>, d: map<Ref, nat>, k: nat)
    requires Sorted(s, d) && NoDup(s) && k <= |s|
    ensures Sorted(s[k..], d) && NoDup(s[k..]) && forall n :: n in s[k..] ==> n in s
  {
    forall i, j | 0 <= i < j < |s[k..]|
      ensures s[k..][i] != s[k..][j] && s[k..][i] in d && s[k..][j] in d && d[s[k..][i]] <= d[s[k..][j]]
    {
      assert s[k..][i] == s[k + i] && s[k..][j] == s[k + j] && s[k + i] in s && s[k + j] in s;
    }
  }

  lemma {:induction false} SuffixIndexed(x: Index, i: nat, j: nat)
    requires x.Valid() && i <= |x.list| && j <= |x.ord|
    ensures x.(list := x.list[i..], ord := x.ord[j..]).Valid()
  {
    SuffixSorted(x.list, x.d, i);
    SuffixSorted(x.ord, x.d, j);
    hide Sorted;
    hide NoDup;
  }

  lemma {:induction false} PrefixDue(s: seq<Ref>, d: map<Ref, nat>, now: nat, k: nat)
    requires Sorted(s, d) && k <= |s| && (k > 0 ==> d[s[k - 1]] <= now)
    ensures AllDue(s[..k], d, now)
  {
    forall n | n in s[..k]
      ensures n in d && d[n] <= now
    {
      var i :| 0 <= i < k && s[i] == n;
      assert s[i] in s && s[k - 1] in s;
      assert i < k - 1 ==> d[s[i]] <= d[s[k - 1]];
    }
  }

  lemma {:induction false} FrontCut(s: seq<Ref>, d: map<Ref, nat>, now: nat)
    requires Sorted(s, d)
    ensures var k := Front(s, d, now);
            && Cut(s, s[..k], s[k..], d, now)
            && (s[k..] != [] ==> s[k..][0] in d && d[s[k..][0]] > now)
  {
    FrontDue(s, d, now);
    var k := Front(s, d, now);
    hide Front;
    assert k < |s| ==> s[k] in s;
    PrefixDue(s, d, now, k);
    hide Sorted;
    hide AllDue;
    assert s == s[..k] + s[k..];
    assert k < |s| ==> s[k..][0] == s[k];
  }

  lemma {:induction false} SweptParts(x: Index, some: seq<Ref>, list: seq<Ref>, others: seq<Ref>, ord: seq<Ref>,
                                      now: nat)
    requires x.Valid() && Cut(x.list, some, list, x.d, now) && Cut(x.ord, others, ord, x.d, now)
    requires (list != [] ==> list[0] in x.d && x.d[list[0]] > now) && (ord != [] ==> ord[0] in x.d && x.d[ord[0]] > now)
    ensures x.(list := list, ord := ord).Valid() && NoDup(some + others)
    ensures x.(list := list, ord := ord).Timed() == DueAfter(x.Timed(), now)
    ensures forall n :: n in some + others <==> n in x.Timed() && x.Timed()[n] <= now
  {
    assert list == x.list[|some|..] && ord == x.ord[|others|..];
    SuffixIndexed(x, |some|, |others|);
    SweptMembers(x.ord, x.list, ord, list, some, others, x.d, now);
  }

  /** The sweep takes out exactly the nodes due by then, each once. */
  lemma {:induction false} Swept(x: Index, now: nat)
    requires x.Valid()
    ensures x.Sweep(now).Valid() && NoDup(x.Due(now)) && x.Sweep(now).Timed() == DueAfter(x.Timed(), now)
    ensures forall n :: n in x.Due(now) <==> n in x.Timed() && x.Timed()[n] <= now
  {
    FrontCut(x.list, x.d, now);
    FrontCut(x.ord, x.d, now);
    hide Index.Valid;
    hide Index.Timed;
    hide Front;
    hide NoDup;
    hide DueAfter;
    hide Cut;
    var i, j := Front(x.list, x.d, now), Front(x.ord, x.d, now);
    SweptParts(x, x.list[..i], x.list[i..], x.ord[..j], x.ord[j..], now);
  }

  // ----- the timer -----

  /** __poller_set_timer arms the timer for the earliest deadline, or disarms it. */
  lemma {:induction false} Rearmed(x: Index)
    requires x.Valid()
    ensures x.Rearm().Valid() && x.Rearm().Timed() == x.Timed() && x.Rearm().Covered()
    ensures if x.Timed() == map[] then x.Rearm().armed == 0
            else exists n :: n in x.Timed() && x.Rearm().armed == x.Timed()[n]
  {
    var a, b := First(x.list), First(x.ord);
    assert x.list != [] ==> a in x.list;
    assert x.ord != [] ==> b in x.ord;
    var n := if b != NIL && (a == NIL || (a in x.d && b in x.d && x.d[b] < x.d[a])) then b else a;
    Earliest(x.ord, x.list, x.d, n);
    assert n != NIL ==> x.Rearm().armed == x.Timed()[n];
  }

  lemma {:induction false} StartsEmpty()
    ensures NoIndex().Valid() && NoIndex().Timed() == map[] && NoIndex().Covered()
  {
  }
}
