/**
 The handles of the LRU cache and its two lists, as values.  Used by module LruCache.
 */
module LruShelf {
  import opened Basics
  import opened RbTree
  import opened Lists

  datatype Handle = Handle(key: int, value: int, refs: nat, inCache: bool)

  /** The handles, the two lists, the size, and the handles deleted so far. */
  datatype Shelf = Shelf(handles: map<Ref, Handle>, notUse: seq<Ref>, inUse: seq<Ref>, size: int, deleted: seq<Ref>)

  /** list_del on a handle of either list */
  function ListDel(s: Shelf, e: Ref): Shelf {
    s.(notUse := Unlink(s.notUse, e), inUse := Unlink(s.inUse, e))
  }

  function SetRefs(s: Shelf, e: Ref, n: nat): Shelf
    requires e in s.handles
  {
    s.(handles := s.handles[e := s.handles[e].(refs := n)])
  }

  /** ref */
  function RefUp(s: Shelf, e: Ref): Shelf
    requires e in s.handles
  {
    var h := s.handles[e];
    var t := SetRefs(s, e, h.refs + 1);
    if h.inCache && h.refs == 1 then var u := ListDel(t, e); u.(inUse := u.inUse + [e]) else t
  }

  /** unref: the last reference deletes the handle, the last but one of a cached handle makes it unused. */
  function Unref(s: Shelf, e: Ref): Shelf
    requires e in s.handles && s.handles[e].refs > 0
  {
    var h := s.handles[e];
    if h.refs == 1 then s.(handles := s.handles - {e}, deleted := s.deleted + [e])
    else
      var t := SetRefs(s, e, h.refs - 1);
      if h.inCache && h.refs == 2 then var u := ListDel(t, e); u.(notUse := u.notUse + [e]) else t
  }

  /** erase_node */
  function EraseNode(s: Shelf, e: Ref): Shelf
    requires e in s.handles && s.handles[e].refs > 0
  {
    var t := ListDel(s, e);
    Unref(t.(handles := t.handles[e := t.handles[e].(inCache := false)], size := t.size - 1), e)
  }

  /** The new handle of put */
  function Added(s: Shelf, e: Ref, key: int, value: int): Shelf {
    s.(handles := s.handles[e := Handle(key, value, 2, true)], inUse := s.inUse + [e], size := s.size + 1)
  }

  // ----- what they keep -----

  predicate Cached(s: Shelf, e: Ref) {
    e in s.handles && s.handles[e].inCache
  }

  /** not_use holds exactly the cached handles with one reference, in_use those with more. */
  ghost predicate Shelved(s: Shelf) {
    && NoDup(s.notUse) && NoDup(s.inUse) && s.size == |s.notUse| + |s.inUse|
    && (forall e :: e in s.notUse <==> Cached(s, e) && s.handles[e].refs == 1)
    && (forall e :: e in s.inUse <==> Cached(s, e) && s.handles[e].refs > 1)
  }

  /** A handle lives as long as the cache or a user refers to it, and is deleted once. */
  ghost predicate Counted(s: Shelf, users: map<Ref, nat>) {
    && (forall e :: e in s.handles ==> e in users && s.handles[e].refs == users[e] + One(s.handles[e].inCache)
                                       && s.handles[e].refs > 0)
    && (forall e :: e in users ==> e in s.handles || (e in s.deleted && users[e] == 0))
    && NoDup(s.deleted) && (forall e :: e in s.deleted ==> e !in s.handles && e in users)
  }

  ghost predicate Good(s: Shelf, users: map<Ref, nat>) {
    Shelved(s) && Counted(s, users)
  }

  /** The lists after one handle is taken out. */
  lemma {:induction false} DelLists(s: Shelf, e: Ref)
    requires NoDup(s.notUse) && NoDup(s.inUse)
    ensures var t := ListDel(s, e);
            && NoDup(t.notUse) && NoDup(t.inUse) && |t.notUse| == |s.notUse| - One(e in s.notUse)
            && |t.inUse| == |s.inUse| - One(e in s.inUse)
            && (forall x :: x in t.notUse <==> x in s.notUse && x != e)
            && (forall x :: x in t.inUse <==> x in s.inUse && x != e)
  {
    UnlinkMembers(s.notUse, e);
    UnlinkMembers(s.inUse, e);
    UnlinkLength(s.notUse, e);
    UnlinkLength(s.inUse, e);
  }

  lemma {:induction false} RefUpShelved(s: Shelf, e: Ref)
    requires Shelved(s) && e in s.handles && s.handles[e].refs > 0
    ensures Shelved(RefUp(s, e)) && forall x :: Cached(RefUp(s, e), x) <==> Cached(s, x)
  {
    DelLists(s, e);
    hide NoDup;
    hide Unlink;
    var h := s.handles[e];
    if h.inCache && h.refs == 1 {
      assert e in s.notUse && e !in s.inUse;
      AppendNoDup(Unlink(s.inUse, e), e);
    }
  }

  lemma {:induction false} RefUpCounted(s: Shelf, users: map<Ref, nat>, e: Ref)
    requires Counted(s, users) && e in s.handles
    ensures Counted(RefUp(s, e), users[e := users[e] + 1])
  {
    hide NoDup;
    hide Unlink;
  }

  lemma {:induction false} RefUpGood(s: Shelf, users: map<Ref, nat>, e: Ref)
    requires Good(s, users) && e in s.handles
    ensures Good(RefUp(s, e), users[e := users[e] + 1])
    ensures forall x :: Cached(RefUp(s, e), x) <==> Cached(s, x)
  {
    assert s.handles[e].refs > 0;
    hide Shelved;
    hide Counted;
    hide RefUp;
    RefUpShelved(s, e);
    RefUpCounted(s, users, e);
  }

  lemma {:induction false} UnrefShelved(s: Shelf, e: Ref)
    requires Shelved(s) && e in s.handles && s.handles[e].refs > One(s.handles[e].inCache)
    ensures Shelved(Unref(s, e)) && forall x :: Cached(Unref(s, e), x) <==> Cached(s, x)
  {
    DelLists(s, e);
    hide NoDup;
    hide Unlink;
    var h := s.handles[e];
    if h.inCache && h.refs == 2 {
      assert e in s.inUse && e !in s.notUse;
      AppendNoDup(Unlink(s.notUse, e), e);
    }
  }

  lemma {:induction false} UnrefCounted(s: Shelf, users: map<Ref, nat>, e: Ref)
    requires Counted(s, users) && e in s.handles && users[e] > 0
    ensures Counted(Unref(s, e), users[e := users[e] - 1])
  {
    AppendNew(s.deleted, e);
    hide NoDup;
    hide Unlink;
  }

  lemma {:induction false} AppendNew(s: seq<Ref>, e: Ref)
    requires NoDup(s)
    ensures e !in s ==> NoDup(s + [e]) && forall y :: y in s + [e] <==> y in s || y == e
  {
    if e !in s {
      AppendNoDup(s, e);
    }
  }

  lemma {:induction false} UnrefGood(s: Shelf, users: map<Ref, nat>, e: Ref)
    requires Good(s, users) && e in s.handles && users[e] > 0
    ensures Good(Unref(s, e), users[e := users[e] - 1])
    ensures forall x :: Cached(Unref(s, e), x) <==> Cached(s, x)
  {
    assert s.handles[e].refs > One(s.handles[e].inCache);
    hide Shelved;
    hide Counted;
    hide Unref;
    UnrefShelved(s, e);
    UnrefCounted(s, users, e);
  }

  lemma {:induction false} EraseShelved(s: Shelf, e: Ref)
    requires Shelved(s) && Cached(s, e) && s.handles[e].refs > 0
    ensures Shelved(EraseNode(s, e)) && forall x :: Cached(EraseNode(s, e), x) <==> Cached(s, x) && x != e
  {
    DelLists(s, e);
    hide NoDup;
    hide Unlink;
  }

  lemma {:induction false} EraseCounted(s: Shelf, users: map<Ref, nat>, e: Ref)
    requires Counted(s, users) && Cached(s, e)
    ensures Counted(EraseNode(s, e), users)
  {
    AppendNew(s.deleted, e);
    hide NoDup;
    hide Unlink;
  }

  lemma {:induction false} EraseGood(s: Shelf, users: map<Ref, nat>, e: Ref)
    requires Good(s, users) && Cached(s, e)
    ensures Good(EraseNode(s, e), users)
    ensures forall x :: Cached(EraseNode(s, e), x) <==> Cached(s, x) && x != e
  {
    assert s.handles[e].refs > 0;
    hide Shelved;
    hide Counted;
    hide EraseNode;
    EraseShelved(s, e);
    EraseCounted(s, users, e);
  }

  lemma {:induction false} AddedGood(s: Shelf, users: map<Ref, nat>, e: Ref, key: int, value: int)
    requires Good(s, users) && e !in users
    ensures Good(Added(s, e, key, value), users[e := 1])
    ensures forall x :: Cached(Added(s, e, key, value), x) <==> Cached(s, x) || x == e
  {
    AppendNoDup(s.inUse, e);
  }
}
