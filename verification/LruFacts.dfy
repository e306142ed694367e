/**
 The whole LRU cache as values: handles, lists, tree order, users and the map of keys it stands for.
 */
module LruFacts {
  import opened RbTree
  import opened Lists
  import opened LruShelf
  import opened LruTree

  function KeysOf(handles: map<Ref, Handle>): map<Ref, int> {
    map e | e in handles :: handles[e].key
  }

  /** The tree holds exactly the cached handles, in ascending order of key. */
  ghost predicate Treed(ord: seq<Ref>, s: Shelf) {
    Ascending(ord, KeysOf(s.handles)) && (forall e :: e in ord <==> Cached(s, e)) && s.size == |ord|
  }

  /** The cache as a plain map from keys to handles. */
  ghost predicate Agrees(table: map<int, Ref>, s: Shelf) {
    && (forall k :: k in table ==> Cached(s, table[k]) && s.handles[table[k]].key == k)
    && (forall e :: Cached(s, e) ==> s.handles[e].key in table && table[s.handles[e].key] == e)
  }

  ghost predicate Named(users: map<Ref, nat>, next: Ref) {
    next > 0 && forall e :: e in users ==> 0 < e < next
  }

  ghost predicate Cache(ord: seq<Ref>, s: Shelf, users: map<Ref, nat>, next: Ref, table: map<int, Ref>) {
    Good(s, users) && Treed(ord, s) && Agrees(table, s) && Named(users, next)
  }

  /** Same keys and flags; only references and lists differ. */
  ghost predicate SameEntries(s: Shelf, t: Shelf) {
    t.size == s.size && forall e :: (Cached(t, e) <==> Cached(s, e))
                                    && (Cached(s, e) ==> t.handles[e].key == s.handles[e].key)
  }

  lemma {:induction false} SameTreed(ord: seq<Ref>, s: Shelf, t: Shelf, table: map<int, Ref>)
    requires Treed(ord, s) && Agrees(table, s) && SameEntries(s, t)
    ensures Treed(ord, t) && Agrees(table, t)
  {
    AscendingSame(ord, KeysOf(s.handles), KeysOf(t.handles));
  }

  lemma {:induction false} RefKeeps(ord: seq<Ref>, s: Shelf, users: map<Ref, nat>, next: Ref, table: map<int, Ref>,
                                    e: Ref)
    requires Cache(ord, s, users, next, table) && e in s.handles
    ensures Cache(ord, RefUp(s, e), users[e := users[e] + 1], next, table)
  {
    RefUpGood(s, users, e);
    SameTreed(ord, s, RefUp(s, e), table);
  }

  lemma {:induction false} UnrefKeeps(ord: seq<Ref>, s: Shelf, users: map<Ref, nat>, next: Ref, table: map<int, Ref>,
                                      e: Ref)
    requires Cache(ord, s, users, next, table) && e in s.handles && users[e] > 0
    ensures Cache(ord, Unref(s, e), users[e := users[e] - 1], next, table)
  {
    UnrefGood(s, users, e);
    SameTreed(ord, s, Unref(s, e), table);
  }

  lemma {:induction false} EraseTreed(ord: seq<Ref>, s: Shelf, n: nat, t: Shelf)
    requires Treed(ord, s) && n < |ord| && t.size == s.size - 1
    requires forall e :: Cached(t, e) <==> Cached(s, e) && e != ord[n]
    requires forall e :: Cached(t, e) ==> t.handles[e].key == s.handles[e].key
    ensures Treed(Rem(ord, n), t)
  {
    AscendingNoDup(ord, KeysOf(s.handles));
    RemMembers(ord, n);
    AscendingRem(ord, KeysOf(s.handles), n);
    AscendingSame(Rem(ord, n), KeysOf(s.handles), KeysOf(t.handles));
  }

  lemma {:induction false} EraseKeys(s: Shelf, e: Ref)
    requires Cached(s, e) && s.handles[e].refs > 0
    ensures EraseNode(s, e).size == s.size - 1
    ensures forall x :: x in EraseNode(s, e).handles ==> x in s.handles
                                                         && EraseNode(s, e).handles[x].key == s.handles[x].key
  {
  }

  lemma {:induction false} EraseKeeps(ord: seq<Ref>, s: Shelf, users: map<Ref, nat>, next: Ref, table: map<int, Ref>,
                                      n: nat)
    requires Cache(ord, s, users, next, table) && n < |ord| && Cached(s, ord[n])
    ensures Cache(Rem(ord, n), EraseNode(s, ord[n]), users, next, table - {s.handles[ord[n]].key})
  {
    EraseGood(s, users, ord[n]);
    EraseKeys(s, ord[n]);
    EraseTreed(ord, s, n, EraseNode(s, ord[n]));
  }

  lemma {:induction false} AddKeys(s: Shelf, e: Ref, key: int, value: int)
    ensures KeysOf(Added(s, e, key, value).handles) == KeysOf(s.handles)[e := key]
  {
  }

  lemma {:induction false} AddKeeps(ord: seq<Ref>, s: Shelf, users: map<Ref, nat>, next: Ref, table: map<int, Ref>,
                                    n: nat, key: int, value: int)
    requires Cache(ord, s, users, next, table) && key !in table && Parted(ord, key, KeysOf(s.handles), n)
    ensures Cache(Ins(ord, n, next), Added(s, next, key, value), users[next := 1], next + 1, table[key := next])
  {
    AddedGood(s, users, next, key, value);
    assert next !in users && next !in ord;
    AddTreed(ord, s, table, n, next, key, value);
    AddAgrees(s, table, next, key, value);
  }

  lemma {:induction false} AddTreed(ord: seq<Ref>, s: Shelf, table: map<int, Ref>, n: nat, e: Ref, key: int, value: int)
    requires Treed(ord, s) && Agrees(table, s) && key !in table && Parted(ord, key, KeysOf(s.handles), n) && e !in ord
    requires e !in s.handles
    ensures Treed(Ins(ord, n, e), Added(s, e, key, value))
  {
    AddKeys(s, e, key, value);
    NotThere(ord, s, table, n, key);
    AscendingIns(ord, KeysOf(s.handles), n, e, key);
    InsMembers(ord, n, e);
  }

  lemma {:induction false} AddAgrees(s: Shelf, table: map<int, Ref>, e: Ref, key: int, value: int)
    requires Agrees(table, s) && key !in table && e !in s.handles
    ensures Agrees(table[key := e], Added(s, e, key, value))
  {
  }

  lemma {:induction false} NotThere(ord: seq<Ref>, s: Shelf, table: map<int, Ref>, n: nat, key: int)
    requires Treed(ord, s) && Agrees(table, s) && key !in table
    ensures n < |ord| ==> ord[n] in s.handles && s.handles[ord[n]].key != key
  {
    if n < |ord| {
      assert Cached(s, ord[n]);
    }
  }

  /** put of a key that is there: the new handle takes the tree node of the old one, which is erased. */
  lemma {:induction false} ReplaceKeeps(ord: seq<Ref>, s: Shelf, users: map<Ref, nat>, next: Ref, table: map<int, Ref>,
                                        n: nat, key: int, value: int)
    requires Cache(ord, s, users, next, table) && n < |ord| && Cached(s, ord[n]) && s.handles[ord[n]].key == key
    ensures var a := Added(s, next, key, value);
            ord[n] in a.handles && a.handles[ord[n]].refs > 0
            && Cache(ord[n := next], EraseNode(a, ord[n]), users[next := 1], next + 1, table[key := next])
  {
    var a, b := Added(s, next, key, value), ord[n];
    NewBeside(s, users, next, key, value, b);
    ReplaceGood(s, users, next, key, value, b);
    hide EraseNode;
    hide Treed;
    hide Agrees;
    hide Good;
    ReplacedEntries(s, next, key, value, b, EraseNode(a, b));
    ReplaceTreed(ord, s, n, next, key, EraseNode(a, b));
    ReplaceAgrees(s, table, b, next, key, EraseNode(a, b));
  }

  lemma {:induction false} NewBeside(s: Shelf, users: map<Ref, nat>, next: Ref, key: int, value: int, b: Ref)
    requires Good(s, users) && Named(users, next) && Cached(s, b)
    ensures next !in users && next !in s.handles && next != b && s.handles[b].refs > 0
    ensures var a := Added(s, next, key, value); b in a.handles && a.handles[b] == s.handles[b] && Cached(a, b)
  {
  }

  lemma {:induction false} ReplaceGood(s: Shelf, users: map<Ref, nat>, next: Ref, key: int, value: int, b: Ref)
    requires Good(s, users) && next !in users && Cached(s, b) && s.handles[b].refs > 0 && next != b
    ensures var a := Added(s, next, key, value);
            b in a.handles && a.handles[b].refs > 0 && Good(EraseNode(a, b), users[next := 1])
  {
    AddedGood(s, users, next, key, value);
    EraseGood(Added(s, next, key, value), users[next := 1], b);
  }

  lemma {:induction false} ReplacedEntries(s: Shelf, e: Ref, key: int, value: int, b: Ref, t: Shelf)
    requires Cached(s, b) && s.handles[b].refs > 0 && e !in s.handles && t == EraseNode(Added(s, e, key, value), b)
    ensures t.size == s.size
    ensures forall x :: Cached(t, x) <==> (Cached(s, x) && x != b) || x == e
    ensures forall x :: Cached(t, x) ==> t.handles[x].key == if x == e then key else s.handles[x].key
  {
  }

  lemma {:induction false} ReplaceAgrees(s: Shelf, table: map<int, Ref>, b: Ref, e: Ref, key: int, t: Shelf)
    requires Agrees(table, s) && Cached(s, b) && s.handles[b].key == key && e !in s.handles
    requires forall x :: Cached(t, x) <==> (Cached(s, x) && x != b) || x == e
    requires forall x :: Cached(t, x) ==> t.handles[x].key == if x == e then key else s.handles[x].key
    ensures Agrees(table[key := e], t)
  {
  }

  lemma {:induction false} ReplaceTreed(ord: seq<Ref>, s: Shelf, n: nat, e: Ref, key: int, t: Shelf)
    requires Treed(ord, s) && n < |ord| && Cached(s, ord[n]) && s.handles[ord[n]].key == key && e !in s.handles
    requires t.size == s.size
    requires forall x :: Cached(t, x) <==> (Cached(s, x) && x != ord[n]) || x == e
    requires forall x :: Cached(t, x) ==> t.handles[x].key == if x == e then key else s.handles[x].key
    ensures Treed(ord[n := e], t)
  {
    var r := ord[n := e];
    AscendingNoDup(ord, KeysOf(s.handles));
    AscendingReplace(ord, KeysOf(s.handles), n, e, key);
    ReplaceMembers(ord, n, e);
    forall x | x in r
      ensures x in KeysOf(t.handles) && x in KeysOf(s.handles)[e := key]
      ensures KeysOf(t.handles)[x] == KeysOf(s.handles)[e := key][x]
    {
      assert Cached(t, x);
      assert x != e ==> Cached(s, x);
    }
    AscendingSame(r, KeysOf(s.handles)[e := key], KeysOf(t.handles));
  }

  lemma {:induction false} ReplaceMembers(ord: seq<Ref>, n: nat, e: Ref)
    requires NoDup(ord) && n < |ord| && e !in ord
    ensures forall x :: x in ord[n := e] <==> (x in ord && x != ord[n]) || x == e
  {
    var r := ord[n := e];
    forall x | (x in ord && x != ord[n]) || x == e
      ensures x in r
    {
      if x == e {
        assert r[n] == e;
      } else {
        var i :| 0 <= i < |ord| && ord[i] == x;
        assert r[i] == x;
      }
    }
  }

  /** A search for the key of a cached handle ends at that handle. */
  lemma {:induction false} AtKey(ord: seq<Ref>, s: Shelf, key: int, n: nat, e: Ref)
    requires Treed(ord, s) && Cached(s, e) && s.handles[e].key == key && Parted(ord, key, KeysOf(s.handles), n)
    ensures n < |ord| && ord[n] == e
  {
    assert e in ord;
    var i :| 0 <= i < |ord| && ord[i] == e;
    assert i >= n;
  }

  lemma {:induction false} FreshName(ord: seq<Ref>, s: Shelf, users: map<Ref, nat>, next: Ref, table: map<int, Ref>)
    requires Cache(ord, s, users, next, table)
    ensures next != NIL && next !in users && next !in ord
  {
    assert !Cached(s, next);
  }

  lemma {:induction false} InOrder(ord: seq<Ref>, s: Shelf, e: Ref)
    requires Treed(ord, s) && Cached(s, e)
    ensures e in ord
  {
  }

  /** A key is in the cache exactly when the search ends at a handle with that key. */
  lemma {:induction false} FoundIff(ord: seq<Ref>, s: Shelf, table: map<int, Ref>, key: int, n: nat)
    requires Treed(ord, s) && Agrees(table, s) && Parted(ord, key, KeysOf(s.handles), n)
    ensures n < |ord| ==> Cached(s, ord[n])
    ensures key in table <==> n < |ord| && s.handles[ord[n]].key == key
    ensures key in table ==> table[key] == ord[n]
  {
    if key in table {
      AtKey(ord, s, key, n, table[key]);
    }
    assert n < |ord| ==> Cached(s, ord[n]);
  }

  lemma {:induction false} BackAgain(users: map<Ref, nat>, e: Ref)
    ensures e in users ==> users[e := users[e] + 1][e := users[e := users[e] + 1][e] - 1] == users
  {
  }

  lemma {:induction false} InTable(t: map<int, Ref>, s: Shelf, key: int)
    requires Agrees(t, s) && key in t
    ensures Cached(s, t[key]) && s.handles[t[key]].key == key
  {
  }

  /** Some handles that nobody used are gone; the others are as before. */
  ghost predicate Thinned(t0: map<int, Ref>, s0: Shelf, t: map<int, Ref>, s: Shelf) {
    && (forall k :: k in t0 ==> Cached(s0, t0[k]))
    && (forall k :: k in t ==> k in t0 && t[k] == t0[k] && Cached(s, t[k]) && s.handles[t[k]] == s0.handles[t0[k]])
    && (forall k :: k in t0 && k !in t ==> s0.handles[t0[k]].refs == 1)
  }

  /** The first n unused handles are deleted, in that order; no other handle is touched. */
  ghost predicate Dropped(s0: Shelf, s: Shelf, n: nat) {
    && n <= |s0.notUse| && s.notUse == s0.notUse[n..] && s.inUse == s0.inUse && s.size == s0.size - n
    && s.deleted == s0.deleted + s0.notUse[..n]
    && (forall e :: e in s.handles <==> e in s0.handles && e !in s0.notUse[..n])
    && (forall e :: e in s.handles ==> s.handles[e] == s0.handles[e])
  }

  /** The other keys: what is still there is untouched, what is gone was unused. */
  ghost predicate OthersKept(t0: map<int, Ref>, s0: Shelf, t: map<int, Ref>, s: Shelf, key: int) {
    forall k :: k in t0 && k != key ==>
      t0[k] in s0.handles
      && if k in t then t[k] == t0[k] && t0[k] in s.handles && s.handles[t0[k]] == s0.handles[t0[k]]
         else s0.handles[t0[k]].refs == 1
  }

  /** put of a key and then thinning */
  lemma {:induction false} PutOthers(t0: map<int, Ref>, s0: Shelf, users: map<Ref, nat>, m: Shelf, t: map<int, Ref>,
                                     s: Shelf,
                                     key: int, value: int, e: Ref)
    requires Agrees(t0, s0) && Good(s0, users) && e !in users && Thinned(t0[key := e], m, t, s)
    requires var a := Added(s0, e, key, value);
             if key in t0 then t0[key] in a.handles && a.handles[t0[key]].refs > 0 && m == EraseNode(a, t0[key])
             else m == a
    ensures OthersKept(t0, s0, t, s, key) && forall k :: k in t ==> k == key || k in t0
    ensures key in t && t[key] == e && Cached(s, e) && s.handles[e] == Handle(key, value, 2, true)
  {
    assert e !in s0.handles;
    assert e in m.handles && m.handles[e] == Handle(key, value, 2, true);
    assert key in t0[key := e] && t0[key := e][key] == e;
    forall k | k in t0 && k != key
      ensures t0[k] in s0.handles && t0[k] in m.handles && m.handles[t0[k]] == s0.handles[t0[k]]
    {
      assert Cached(s0, t0[k]) && t0[k] != e;
      if key in t0 {
        assert t0[key] != t0[k];
      }
    }
  }

  /** Erasing the first unused handle */
  lemma {:induction false} EraseFirst(s: Shelf, users: map<Ref, nat>, e: Ref)
    requires Good(s, users) && s.notUse != [] && e == s.notUse[0] && Cached(s, e) && s.handles[e].refs == 1
    ensures var t := EraseNode(s, e);
            t.handles == s.handles - {e} && t.notUse == s.notUse[1..] && t.inUse == s.inUse && t.size == s.size - 1
            && t.deleted == s.deleted + [e]
  {
    UnlinkNone(s.inUse, e);
  }

  lemma {:induction false} OneGone(l: seq<Ref>, n: nat)
    requires n < |l|
    ensures l[..n + 1] == l[..n] + [l[n]] && l[n..][1..] == l[n + 1..] && l[n..][0] == l[n]
  {
  }

  lemma {:induction false} DropMore(s0: Shelf, s: Shelf, users: map<Ref, nat>, n: nat, e: Ref)
    requires Dropped(s0, s, n) && Good(s, users) && s.notUse != [] && e == s.notUse[0] && Cached(s, e)
    requires s.handles[e].refs == 1
    ensures Dropped(s0, EraseNode(s, e), n + 1)
  {
    EraseFirst(s, users, e);
    OneGone(s0.notUse, n);
    hide EraseNode;
    hide Good;
    assert s0.deleted + s0.notUse[..n] + [e] == s0.deleted + (s0.notUse[..n] + [e]);
  }

  lemma {:induction false} DropNone(s: Shelf)
    ensures Dropped(s, s, 0)
  {
    assert s.deleted + s.notUse[..0] == s.deleted;
  }

  lemma {:induction false} UnlinkTwice(s: seq<Ref>, e: Ref)
    requires NoDup(s)
    ensures Unlink(Unlink(s, e), e) == Unlink(s, e) && Unlink(Unlink(s, e) + [e], e) == Unlink(s, e)
  {
    UnlinkMembers(s, e);
    UnlinkNone(Unlink(s, e), e);
    UnlinkLast(Unlink(s, e), e);
  }

  lemma {:induction false} UnlinkLast(s: seq<Ref>, e: Ref)
    requires e !in s
    ensures Unlink(s + [e], e) == s
    decreases |s|
  {
    if s != [] {
      UnlinkLast(s[1..], e);
      assert (s + [e])[1..] == s[1..] + [e];
    }
  }

  /** A reference taken and given back makes no difference to an entry that is then erased. */
  lemma {:induction false} TakenAndErased(s: Shelf, users: map<Ref, nat>, e: Ref)
    requires Good(s, users) && Cached(s, e)
    ensures EraseNode(Unref(RefUp(s, e), e), e) == EraseNode(s, e)
  {
    UnlinkTwice(s.notUse, e);
    UnlinkTwice(s.inUse, e);
    var a, t := RefUp(s, e), Unref(RefUp(s, e), e);
    assert t.handles == s.handles;
    assert ListDel(t, e) == ListDel(s, e);
  }

  /** Erasing an entry deletes its handle at once if no user holds it, and leaves it to the users otherwise. */
  lemma {:induction false} EraseMeans(s: Shelf, users: map<Ref, nat>, e: Ref)
    requires Good(s, users) && Cached(s, e)
    ensures EraseNode(s, e).deleted == s.deleted + (if users[e] == 0 then [e] else [])
    ensures EraseNode(s, e).handles == if users[e] == 0 then s.handles - {e}
                                       else s.handles[e := s.handles[e].(refs := users[e], inCache := false)]
  {
  }

  lemma {:induction false} ThinMore(t0: map<int, Ref>, s0: Shelf, t: map<int, Ref>, s: Shelf, users: map<Ref, nat>,
                                    e: Ref)
    requires Thinned(t0, s0, t, s) && Agrees(t, s) && Good(s, users) && s.notUse != [] && e == s.notUse[0]
    ensures Cached(s, e) && s.handles[e].refs == 1 && EraseNode(s, e).notUse == s.notUse[1..]
    ensures EraseNode(s, e).size == s.size - 1
    ensures Thinned(t0, s0, t - {s.handles[e].key}, EraseNode(s, e))
  {
    assert e in s.notUse;
  }

  lemma {:induction false} ThinAll(t0: map<int, Ref>, s0: Shelf, t: map<int, Ref>, s: Shelf, users: map<Ref, nat>)
    requires Thinned(t0, s0, t, s) && Good(s, users) && s.notUse == []
    ensures forall k :: k in t <==> k in t0 && s0.handles[t0[k]].refs > 1
  {
    forall k | k in t
      ensures s0.handles[t0[k]].refs > 1
    {
      assert t[k] !in s.notUse;
    }
  }

  lemma {:induction false} ThinNone(t: map<int, Ref>, s: Shelf)
    requires Agrees(t, s)
    ensures Thinned(t, s, t, s)
  {
  }
}
