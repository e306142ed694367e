/**
 The LRU cache as one value, what each operation makes of it, and what a caller can rely on.
 */
module LruState {
  import opened RbTree
  import opened Lists
  import opened LruShelf
  import opened LruTree
  import opened LruFacts
  import opened LruAge

  /**
   The handles and lists; the references that get and put gave out and release has not taken back; the next
   address; the map the cache stands for; the time of the last release of each handle and of the next release.
   */
  datatype State = State(
    shelf: Shelf, users: map<Ref, nat>, next: Ref, table: map<int, Ref>, at: map<Ref, int>, now: int)

  ghost predicate Whole(ord: seq<Ref>, st: State) {
    Cache(ord, st.shelf, st.users, st.next, st.table) && Aged(st.shelf, st.at, st.now)
  }

  const EMPTY: State := State(Shelf(map[], [], [], 0, []), map[], 1, map[], map[], 0)

  lemma {:induction false} EmptyWhole()
    ensures Whole([], EMPTY)
  {
  }

  /** The cache stands for a map of `size` keys. */
  lemma {:induction false} SizeOfTable(ord: seq<Ref>, st: State)
    requires Whole(ord, st)
    ensures |st.table| == st.shelf.size
  {
    SizeIsKeys(ord, st.shelf, st.table);
  }

  // ----- get and release -----

  ghost predicate Held(st: State, e: Ref) {
    e in st.shelf.handles && st.shelf.handles[e].refs > 0 && e in st.users
  }

  /** A reference is given out. */
  ghost function Took(st: State, e: Ref): State
    requires Held(st, e)
  {
    st.(shelf := RefUp(st.shelf, e), users := st.users[e := st.users[e] + 1])
  }

  /** A reference is taken back. */
  ghost function Released(st: State, e: Ref): State
    requires Held(st, e) && st.users[e] > 0
  {
    st.(shelf := Unref(st.shelf, e), users := st.users[e := st.users[e] - 1],
        at := st.at[e := st.now], now := st.now + 1)
  }

  lemma {:induction false} CachedHeld(ord: seq<Ref>, st: State, e: Ref)
    requires Whole(ord, st) && Cached(st.shelf, e)
    ensures Held(st, e)
  {
  }

  lemma {:induction false} UsedHeld(ord: seq<Ref>, st: State, e: Ref)
    requires Whole(ord, st) && e in st.users && st.users[e] > 0
    ensures Held(st, e)
  {
  }

  lemma {:induction false} TookWhole(ord: seq<Ref>, st: State, e: Ref)
    requires Whole(ord, st) && Held(st, e)
    ensures Whole(ord, Took(st, e))
  {
    hide RefUp;
    hide Cache;
    hide Aged;
    RefKeeps(ord, st.shelf, st.users, st.next, st.table, e);
    RefUpAged(st.shelf, st.at, st.now, e);
  }

  lemma {:induction false} ReleasedWhole(ord: seq<Ref>, st: State, e: Ref)
    requires Whole(ord, st) && Held(st, e) && st.users[e] > 0
    ensures Whole(ord, Released(st, e))
  {
    assert Good(st.shelf, st.users);
    hide Unref;
    hide Aged;
    hide Cache;
    hide Good;
    UnrefKeeps(ord, st.shelf, st.users, st.next, st.table, e);
    UnrefAged(st.shelf, st.users, st.at, st.now, e);
  }

  /** The value lives on exactly while the cache or a user refers to it. */
  lemma {:induction false} LivesWhileUsed(ord: seq<Ref>, st: State, e: Ref)
    requires Whole(ord, st) && e in st.users
    ensures e in st.shelf.handles <==> st.users[e] > 0 || Cached(st.shelf, e)
    ensures e !in st.shelf.handles <==> e in st.shelf.deleted
    ensures NoDup(st.shelf.deleted)
  {
  }

  // ----- erasing -----

  /** A handle leaves the cache. */
  ghost function Erased(st: State, e: Ref): State
    requires Held(st, e)
  {
    st.(shelf := EraseNode(st.shelf, e), table := st.table - {st.shelf.handles[e].key})
  }

  lemma {:induction false} ErasedWhole(ord: seq<Ref>, st: State, n: nat)
    requires Whole(ord, st) && n < |ord| && Cached(st.shelf, ord[n]) && Held(st, ord[n])
    ensures Whole(Rem(ord, n), Erased(st, ord[n]))
  {
    hide EraseNode;
    hide Cache;
    hide Aged;
    EraseKeeps(ord, st.shelf, st.users, st.next, st.table, n);
    EraseAged(st.shelf, st.at, st.now, ord[n]);
  }

  /** del: the reference taken and given back on the way leaves no trace but the time. */
  lemma {:induction false} Forgotten(ord: seq<Ref>, st: State, e: Ref)
    requires Whole(ord, st) && Held(st, e) && Cached(st.shelf, e)
    ensures Held(Took(st, e), e) && Took(st, e).users[e] > 0 && Cached(Took(st, e).shelf, e)
    ensures Held(Released(Took(st, e), e), e) && Cached(Released(Took(st, e), e).shelf, e)
    ensures Erased(Released(Took(st, e), e), e) == Erased(st, e).(at := st.at[e := st.now], now := st.now + 1)
  {
    TookWhole(ord, st, e);
    TakenAndErased(st.shelf, st.users, e);
    BackAgain(st.users, e);
    KeyKept(st.shelf, e);
  }

  /** del of a key, if it is there */
  lemma {:induction false} DelIs(ord: seq<Ref>, st: State, key: int)
    requires Whole(ord, st)
    ensures key in st.table ==>
              var e := st.table[key];
              && e != NIL && Held(st, e) && Held(Took(st, e), e) && Took(st, e).users[e] > 0
              && Held(Released(Took(st, e), e), e) && Cached(Released(Took(st, e), e).shelf, e)
              && Erased(Released(Took(st, e), e), e) == Erased(st, e).(at := st.at[e := st.now], now := st.now + 1)
  {
    if key in st.table {
      InTable(st.table, st.shelf, key);
      CachedHeld(ord, st, st.table[key]);
      Forgotten(ord, st, st.table[key]);
    }
  }

  lemma {:induction false} KeyKept(s: Shelf, e: Ref)
    requires e in s.handles && s.handles[e].refs > 0
    ensures var t := RefUp(s, e);
            && e in t.handles && t.handles[e] == s.handles[e].(refs := s.handles[e].refs + 1)
            && e in Unref(t, e).handles && Unref(t, e).handles[e] == s.handles[e]
  {
  }

  // ----- evicting the handles unused for longest -----

  /** The first n unused handles are gone, and nothing else has changed. */
  ghost predicate Thin(a: State, b: State, n: nat) {
    Thinned(a.table, a.shelf, b.table, b.shelf) && Dropped(a.shelf, b.shelf, n)
    && b.users == a.users && b.next == a.next && b.at == a.at && b.now == a.now
  }

  lemma {:induction false} ThinStart(ord: seq<Ref>, st: State)
    requires Whole(ord, st)
    ensures Thin(st, st, 0)
  {
    ThinNone(st.table, st.shelf);
    DropNone(st.shelf);
  }

  lemma {:induction false} FirstUnused(ord: seq<Ref>, st: State)
    requires Whole(ord, st) && st.shelf.notUse != []
    ensures var e := st.shelf.notUse[0]; Cached(st.shelf, e) && Held(st, e) && e in ord
  {
    assert st.shelf.notUse[0] in st.shelf.notUse;
  }

  lemma {:induction false} ThinStep(a: State, st: State, n: nat, ord: seq<Ref>)
    requires Thin(a, st, n) && Whole(ord, st) && st.shelf.notUse != [] && Held(st, st.shelf.notUse[0])
    ensures Thin(a, Erased(st, st.shelf.notUse[0]), n + 1)
  {
    ThinMore(a.table, a.shelf, st.table, st.shelf, st.users, st.shelf.notUse[0]);
    DropMore(a.shelf, st.shelf, st.users, n, st.shelf.notUse[0]);
  }

  /** prune: exactly the handles that only the cache refers to are deleted, those unused for longest first. */
  ghost predicate Pruned(a: State, b: State) {
    Thin(a, b, |a.shelf.notUse|) && OldestGone(a.shelf, b.shelf, a.at)
    && forall k :: k in b.table <==> k in a.table && a.table[k] in a.shelf.handles
                                     && a.shelf.handles[a.table[k]].refs > 1
  }

  lemma {:induction false} PruneDone(ord: seq<Ref>, a: State, ord': seq<Ref>, b: State, n: nat)
    requires Whole(ord, a) && Whole(ord', b) && Thin(a, b, n) && b.shelf.notUse == []
    ensures Pruned(a, b)
  {
    ThinAll(a.table, a.shelf, b.table, b.shelf, b.users);
    DroppedOldest(a.shelf, b.shelf, n, a.at, a.now);
  }

  /** The handles unused for longest go, one by one, while there are more than max; max == 0 means no limit. */
  ghost predicate Shrunk(a: State, b: State, max: nat) {
    && (exists n :: Thin(a, b, n)) && OldestGone(a.shelf, b.shelf, a.at)
    && OldestKeysGone(a.table, b.table, b.shelf, a.at)
    && (max > 0 ==> b.shelf.size <= max || b.shelf.notUse == [])
    && (forall k :: k in a.table && k !in b.table ==> b.shelf.size >= max > 0)
  }

  lemma {:induction false} ShrinkDone(ord: seq<Ref>, a: State, ord': seq<Ref>, b: State, n: nat, max: nat)
    requires Whole(ord, a) && Whole(ord', b) && Thin(a, b, n) && (n > 0 ==> b.shelf.size >= max > 0)
    requires max > 0 ==> b.shelf.size <= max || b.shelf.notUse == []
    ensures Shrunk(a, b, max)
  {
    DroppedOldest(a.shelf, b.shelf, n, a.at, a.now);
    OldestKeys(a.table, a.shelf, b.table, b.shelf, b.users, n, a.at, a.now);
  }

  // ----- put -----

  /** The handle that put makes, and the end of the one it replaces. */
  ghost function Stored(st: State, key: int, value: int): State
    requires key in st.table ==> Held(st, st.table[key]) && st.table[key] != st.next
  {
    var a := Added(st.shelf, st.next, key, value);
    st.(shelf := if key in st.table then EraseNode(a, st.table[key]) else a,
        users := st.users[st.next := 1], next := st.next + 1, table := st.table[key := st.next])
  }

  lemma {:induction false} CanStore(ord: seq<Ref>, st: State, key: int)
    requires Whole(ord, st)
    ensures key in st.table ==> Cached(st.shelf, st.table[key]) && Held(st, st.table[key]) && st.table[key] != st.next
    ensures st.next != NIL && st.next !in st.users && st.next !in ord
  {
    FreshName(ord, st.shelf, st.users, st.next, st.table);
  }

  lemma {:induction false} StoredNew(ord: seq<Ref>, st: State, n: nat, key: int, value: int)
    requires Whole(ord, st) && key !in st.table && Parted(ord, key, KeysOf(st.shelf.handles), n)
    ensures Whole(Ins(ord, n, st.next), Stored(st, key, value))
  {
    AddKeeps(ord, st.shelf, st.users, st.next, st.table, n, key, value);
  }

  lemma {:induction false} StoredOver(ord: seq<Ref>, st: State, n: nat, key: int, value: int)
    requires Whole(ord, st) && n < |ord| && key in st.table && ord[n] == st.table[key]
    requires Held(st, ord[n]) && ord[n] != st.next
    ensures Whole(ord[n := st.next], Stored(st, key, value))
  {
    assert Cached(st.shelf, ord[n]);
    ReplaceKeeps(ord, st.shelf, st.users, st.next, st.table, n, key, value);
    SwapAged(st.shelf, st.at, st.now, st.next, key, value, ord[n]);
  }

  /** Whoever has a reference keeps key and value, also of a handle that is no longer cached. */
  ghost predicate UsersKeep(a: State, b: State) {
    forall x :: x in a.users && a.users[x] > 0 ==>
      && x in a.shelf.handles && x in b.shelf.handles
      && b.shelf.handles[x].key == a.shelf.handles[x].key && b.shelf.handles[x].value == a.shelf.handles[x].value
  }

  lemma {:induction false} StoredSame(st: State, key: int, value: int, x: Ref)
    requires key in st.table ==> Held(st, st.table[key]) && st.table[key] != st.next
    requires x != st.next && x in Stored(st, key, value).shelf.handles
    ensures x in st.shelf.handles
    ensures Stored(st, key, value).shelf.handles[x].key == st.shelf.handles[x].key
    ensures Stored(st, key, value).shelf.handles[x].value == st.shelf.handles[x].value
  {
  }

  lemma {:induction false} PutKeepsUsers(ord: seq<Ref>, a: State, ord': seq<Ref>, b: State, n: nat, key: int,
                                         value: int)
    requires Whole(ord, a) && (key in a.table ==> Held(a, a.table[key]) && a.table[key] != a.next)
    requires Whole(ord', b) && Thin(Stored(a, key, value), b, n)
    ensures UsersKeep(a, b)
  {
    CanStore(ord, a, key);
    forall x | x in a.users && a.users[x] > 0
      ensures x in a.shelf.handles && x in b.shelf.handles
      ensures b.shelf.handles[x].key == a.shelf.handles[x].key && b.shelf.handles[x].value == a.shelf.handles[x].value
    {
      hide Thinned;
      LivesWhileUsed(ord', b, x);
      hide Whole;
      hide Stored;
      StoredSame(a, key, value, x);
    }
  }

  /** What a caller of put can rely on. */
  ghost predicate PutDone(a: State, b: State, key: int, value: int, e: Ref, max: nat) {
    && e !in a.users && b.users == a.users[e := 1] && b.at == a.at && b.now == a.now
    && key in b.table && b.table[key] == e && Cached(b.shelf, e) && b.shelf.handles[e] == Handle(key, value, 2, true)
    && OthersKept(a.table, a.shelf, b.table, b.shelf, key) && (forall k :: k in b.table ==> k == key || k in a.table)
    && OldestKeysGone(a.table, b.table, b.shelf, a.at) && UsersKeep(a, b)
    && (forall k :: k in a.table && k !in b.table ==> |b.table| >= max > 0)
    && (max > 0 ==> |b.table| <= max || b.shelf.notUse == [])
  }

  lemma {:induction false} PutMeans(ord: seq<Ref>, a: State, ord': seq<Ref>, b: State, key: int, value: int, max: nat)
    requires Whole(ord, a) && (key in a.table ==> Held(a, a.table[key]) && a.table[key] != a.next)
    requires Whole(ord', b) && Shrunk(Stored(a, key, value), b, max)
    ensures PutDone(a, b, key, value, a.next, max)
  {
    var m := Stored(a, key, value);
    var n :| Thin(m, b, n);
    CanStore(ord, a, key);
    PutOthers(a.table, a.shelf, a.users, m.shelf, b.table, b.shelf, key, value, a.next);
    OldestOver(a.table, key, a.next, b.table, b.shelf, a.at);
    PutKeepsUsers(ord, a, ord', b, n, key, value);
    SizeOfTable(ord', b);
    forall k | k in a.table && k !in b.table
      ensures |b.table| >= max > 0
    {
      assert k in m.table;
    }
  }
}
