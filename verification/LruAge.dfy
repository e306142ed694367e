/**
 How long the handles of the LRU cache have been unused, and how many keys it holds.

 `at` is the time of the last release of each handle, on a clock that every release moves on.
 */
module LruAge {
  import opened RbTree
  import opened Lists
  import opened LruShelf
  import opened LruTree
  import opened LruFacts

  /** The unused handles are listed in the order of their last release. */
  ghost predicate Aged(s: Shelf, at: map<Ref, int>, now: int) {
    Ascending(s.notUse, at) && forall e :: e in s.notUse ==> e in at && at[e] < now
  }

  lemma {:induction false} UnlinkAscending(s: seq<Ref>, at: map<Ref, int>, e: Ref)
    requires Ascending(s, at)
    ensures Ascending(Unlink(s, e), at)
  {
    if e in s {
      var n := UnlinkIs(s, e);
      AscendingRem(s, at, n);
    } else {
      UnlinkNone(s, e);
    }
  }

  lemma {:induction false} UnlinkAged(s: Shelf, t: Shelf, at: map<Ref, int>, now: int, e: Ref)
    requires Aged(s, at, now) && t.notUse == Unlink(s.notUse, e)
    ensures Aged(t, at, now)
  {
    AscendingNoDup(s.notUse, at);
    UnlinkAscending(s.notUse, at, e);
    UnlinkMembers(s.notUse, e);
  }

  lemma {:induction false} RefUpAged(s: Shelf, at: map<Ref, int>, now: int, e: Ref)
    requires Aged(s, at, now) && e in s.handles
    ensures Aged(RefUp(s, e), at, now)
  {
    UnlinkAged(s, s.(notUse := Unlink(s.notUse, e)), at, now, e);
  }

  lemma {:induction false} ReleaseAppends(l: seq<Ref>, at: map<Ref, int>, now: int, e: Ref)
    requires Ascending(l, at) && e !in l && forall x :: x in l ==> x in at && at[x] < now
    ensures Ascending(l + [e], at[e := now])
  {
    var r, a := l + [e], at[e := now];
    forall i, j | 0 <= i < j < |r|
      ensures r[i] in a && r[j] in a && a[r[i]] < a[r[j]]
    {
      assert r[i] == l[i] && l[i] in l;
      assert j < |l| ==> r[j] == l[j] && l[j] in l;
    }
    forall i | 0 <= i < |r|
      ensures r[i] in a
    {
      assert i < |l| ==> r[i] == l[i];
    }
  }

  /** A release at time `now`: a handle that becomes unused is the youngest. */
  lemma {:induction false} UnrefAged(s: Shelf, users: map<Ref, nat>, at: map<Ref, int>, now: int, e: Ref)
    requires Good(s, users) && Aged(s, at, now) && e in s.handles && users[e] > 0
    ensures Aged(Unref(s, e), at[e := now], now + 1)
  {
    assert e !in s.notUse;
    UnlinkNone(s.notUse, e);
    ReleaseAppends(s.notUse, at, now, e);
    AscendingSame(s.notUse, at, at[e := now]);
  }

  lemma {:induction false} EraseAged(s: Shelf, at: map<Ref, int>, now: int, e: Ref)
    requires Aged(s, at, now) && e in s.handles && s.handles[e].refs > 0
    ensures Aged(EraseNode(s, e), at, now)
  {
    UnlinkAged(s, EraseNode(s, e), at, now, e);
  }

  lemma {:induction false} SwapAged(s: Shelf, at: map<Ref, int>, now: int, e: Ref, key: int, value: int, b: Ref)
    requires Aged(s, at, now) && b in s.handles && s.handles[b].refs > 0 && b != e
    ensures var a := Added(s, e, key, value); b in a.handles && a.handles[b].refs > 0 && Aged(EraseNode(a, b), at, now)
  {
    EraseAged(Added(s, e, key, value), at, now, b);
  }

  // ----- which handles an eviction takes -----

  /** The handles that went had been unused for longer than every unused handle that stayed, and went in that order. */
  ghost predicate OldestGone(s0: Shelf, s: Shelf, at: map<Ref, int>) {
    && |s0.deleted| <= |s.deleted| && s.deleted[..|s0.deleted|] == s0.deleted
    && Ascending(s.deleted[|s0.deleted|..], at)
    && forall e, x :: e in s.deleted[|s0.deleted|..] && x in s.notUse ==> e in at && x in at && at[e] < at[x]
  }

  lemma {:induction false} DroppedOldest(s0: Shelf, s: Shelf, n: nat, at: map<Ref, int>, now: int)
    requires Dropped(s0, s, n) && Aged(s0, at, now)
    ensures OldestGone(s0, s, at)
  {
    var l := s0.notUse;
    assert s.deleted[|s0.deleted|..] == l[..n];
    forall e, x | e in l[..n] && x in l[n..]
      ensures e in at && x in at && at[e] < at[x]
    {
      var i :| 0 <= i < n && l[i] == e;
      var j :| n <= j < |l| && l[j] == x;
    }
  }

  /** A key that is gone led to a handle that had been unused for longer than any unused handle a key still leads to. */
  ghost predicate OldestKeysGone(t0: map<int, Ref>, t: map<int, Ref>, s: Shelf, at: map<Ref, int>) {
    forall k, j :: k in t0 && k !in t && j in t && Cached(s, t[j]) && s.handles[t[j]].refs == 1 ==>
      t0[k] in at && t[j] in at && at[t0[k]] < at[t[j]]
  }

  lemma {:induction false} KeptKeys(t0: map<int, Ref>, s0: Shelf, t: map<int, Ref>, s: Shelf, n: nat)
    requires Agrees(t0, s0) && Agrees(t, s) && Dropped(s0, s, n)
    ensures forall k :: k in t0 && t0[k] in s.handles ==> k in t
  {
    forall k | k in t0 && t0[k] in s.handles
      ensures k in t
    {
      assert Cached(s0, t0[k]) && s0.handles[t0[k]].key == k;
      assert Cached(s, t0[k]);
    }
  }

  lemma {:induction false} WasDropped(t0: map<int, Ref>, s0: Shelf, t: map<int, Ref>, s: Shelf, n: nat, k: int)
    requires Agrees(t0, s0) && Agrees(t, s) && Dropped(s0, s, n) && k in t0 && k !in t
    ensures t0[k] in s0.notUse[..n]
  {
    KeptKeys(t0, s0, t, s, n);
    assert Cached(s0, t0[k]);
  }

  lemma {:induction false} OldestKeys(t0: map<int, Ref>, s0: Shelf, t: map<int, Ref>, s: Shelf, users: map<Ref, nat>,
                                      n: nat,
                                      at: map<Ref, int>, now: int)
    requires Agrees(t0, s0) && Agrees(t, s) && Good(s, users) && Dropped(s0, s, n) && Aged(s0, at, now)
    ensures OldestKeysGone(t0, t, s, at)
    ensures n == 0 ==> forall k :: k in t0 ==> k in t
  {
    DroppedOldest(s0, s, n, at, now);
    assert s.deleted[|s0.deleted|..] == s0.notUse[..n];
    forall k | k in t0 && k !in t
      ensures t0[k] in s0.notUse[..n] && n > 0
    {
      WasDropped(t0, s0, t, s, n, k);
    }
    forall k, j | k in t0 && k !in t && j in t && Cached(s, t[j]) && s.handles[t[j]].refs == 1
      ensures t0[k] in at && t[j] in at && at[t0[k]] < at[t[j]]
    {
      assert t[j] in s.notUse;
    }
  }

  lemma {:induction false} OldestOver(t0: map<int, Ref>, key: int, e: Ref, t: map<int, Ref>, s: Shelf,
                                      at: map<Ref, int>)
    requires OldestKeysGone(t0[key := e], t, s, at) && key in t
    ensures OldestKeysGone(t0, t, s, at)
  {
    forall k, j | k in t0 && k !in t && j in t && Cached(s, t[j]) && s.handles[t[j]].refs == 1
      ensures t0[k] in at && t[j] in at && at[t0[k]] < at[t[j]]
    {
      assert k in t0[key := e] && t0[key := e][k] == t0[k];
    }
  }

  // ----- how many keys -----

  function KeySet(ord: seq<Ref>, k: map<Ref, int>): set<int> {
    set i | 0 <= i < |ord| && ord[i] in k :: k[ord[i]]
  }

  lemma {:induction false} KeyCount(ord: seq<Ref>, k: map<Ref, int>)
    requires Ascending(ord, k)
    ensures |KeySet(ord, k)| == |ord|
    decreases |ord|
  {
    if ord != [] {
      var n := |ord| - 1;
      var front, last := ord[..n], k[ord[n]];
      KeyCount(front, k);
      assert last !in KeySet(front, k);
      KeyLast(ord, k);
    }
  }

  lemma {:induction false} KeyLast(ord: seq<Ref>, k: map<Ref, int>)
    requires Ascending(ord, k) && ord != []
    ensures KeySet(ord, k) == KeySet(ord[..|ord| - 1], k) + {k[ord[|ord| - 1]]}
  {
    var n := |ord| - 1;
    forall x | x in KeySet(ord[..n], k) + {k[ord[n]]}
      ensures x in KeySet(ord, k)
    {
      if x in KeySet(ord[..n], k) {
        var i :| 0 <= i < n && ord[..n][i] in k && x == k[ord[..n][i]];
        assert ord[i] == ord[..n][i];
      }
    }
    forall x | x in KeySet(ord, k)
      ensures x in KeySet(ord[..n], k) + {k[ord[n]]}
    {
      var i :| 0 <= i < |ord| && ord[i] in k && x == k[ord[i]];
      if i < n {
        assert ord[..n][i] == ord[i];
      }
    }
  }

  /** The size of the cache is the number of its keys. */
  lemma {:induction false} SizeIsKeys(ord: seq<Ref>, s: Shelf, table: map<int, Ref>)
    requires Treed(ord, s) && Agrees(table, s)
    ensures |table| == s.size
  {
    var k := KeysOf(s.handles);
    KeyCount(ord, k);
    forall x | x in KeySet(ord, k)
      ensures x in table.Keys
    {
      var i :| 0 <= i < |ord| && ord[i] in k && x == k[ord[i]];
      assert Cached(s, ord[i]);
    }
    forall x | x in table.Keys
      ensures x in KeySet(ord, k)
    {
      assert Cached(s, table[x]);
      var i :| 0 <= i < |ord| && ord[i] == table[x];
      assert ord[i] in k && k[ord[i]] == x;
    }
    assert table.Keys == KeySet(ord, k);
  }
}
