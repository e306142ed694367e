/**
 The scheduling group of src/kernel/CommScheduler.cc: a binary heap of targets ordered by load ratio,
 kept with a moving hole, back-indices and load sums.

 Targets are identifiers; their fields are maps.  An acquire that finds no room and may wait ends with Waits, and
 ResumeAcquire or ResumeTarget is what it does when it wakes up.  Loads are unbounded, so the products of
 target_cmp do not wrap.  That these operations on a target exclude each other is shown in module TargetLocks.
 */
module LoadHeap {
  import Lists
  import opened HeapOrder
  import opened GroupFacts

  class Group {
    var heap: seq<Id>
    var index: map<Id, nat>
    var loads: map<Id, Load>
    var owner: map<Id, Owner>
    var waiting: map<Id, nat>
    var curLoad: nat
    var maxLoad: nat
    var waitCnt: nat

    ghost function Keys(): map<Id, real>
      reads this
    {
      KeysOf(loads)
    }

    method Compare(a: Id, b: Id) returns (r: int)
      requires a in loads && b in loads && loads[a].max > 0 && loads[b].max > 0
      ensures r < 0 <==> Keys()[a] < Keys()[b]
      ensures r <= 0 <==> Keys()[a] <= Keys()[b]
    {
      CmpIsRatio(loads[a], loads[b]);
      r := TargetCmp(loads[a], loads[b]);
    }

    /** What both repair loops keep: the heap with its hole filled is a permutation of h. */
    ghost predicate Moving(v: seq<Id>, h: seq<Id>, j: nat)
      reads this
    {
      Hole(heap, v, j) && Lists.NoDup(v) && Perm(v, h) && Indexed(v, index, j) && Loaded(v, loads) && Keyed(v, Keys())
    }

    ghost predicate Settled(v: seq<Id>, h: seq<Id>)
      reads this
    {
      heap == v && Lists.NoDup(v) && Perm(v, h) && Indexed(v, index, |v|) && Loaded(v, loads) && Keyed(v, Keys())
    }

    method MoveHole(j: nat, c: nat, ghost v: seq<Id>, ghost h: seq<Id>)
      requires Moving(v, h, j) && c < |v| && c != j
      modifies `heap, `index
      ensures Moving(Swap(v, j, c), h, c)
    {
      HoleMoves(heap, v, index, j, c);
      SwapNoDup(v, j, c);
      SwapPermutes(v, j, c);
      LoadedPermutes(v, Swap(v, j, c), loads);
      var moved := heap[c];
      heap := heap[j := moved];
      index := index[moved := j];
    }

    method FillHole(j: nat, x: Id, ghost v: seq<Id>, ghost h: seq<Id>)
      requires Moving(v, h, j) && v[j] == x
      modifies `heap, `index
      ensures Settled(v, h) && x in index && index[x] == j
    {
      HoleFilled(heap, v, index, j, x);
      heap := heap[j := x];
      index := index[x := j];
    }

    /** heap_adjust: the target at start moves towards the root. */
    method HeapAdjust(start: nat, swapOnEqual: int) returns (ghost v: seq<Id>)
      requires Moving(heap, heap, start) && Loose(heap, Keys(), start) && 0 <= swapOnEqual <= 1
      modifies `heap, `index
      ensures Settled(v, old(heap)) && old(heap[start]) in index
      ensures var j := index[old(heap[start])];
              j < |v| && v[j] == old(heap[start]) && Loose(v, Keys(), j) && Above(v, Keys(), j)
              && (Below(old(heap), Keys(), start) ==> Below(v, Keys(), j))
    {
      var target := heap[start];
      var i: nat := start;
      v := heap;
      while i > 0
        invariant i < |v| && Moving(v, old(heap), i) && v[i] == target && Loose(v, Keys(), i)
        invariant Below(old(heap), Keys(), start) ==> Below(v, Keys(), i)
      {
        var parent := heap[Parent(i)];
        var r := Compare(target, parent);
        if r >= swapOnEqual {
          break;
        }
        SwapUp(v, Keys(), i);
        MoveHole(i, Parent(i), v, old(heap));
        v := Swap(v, i, Parent(i));
        i := Parent(i);
      }
      FillHole(i, target, v, old(heap));
    }

    /** The child that moves up, if the target at `top` has to move down: the lighter of two, or the only one. */
    method LighterChild(target: Id, top: nat, ghost v: seq<Id>, ghost h: seq<Id>) returns (down: bool, c: nat)
      requires Moving(v, h, top) && v[top] == target && 2 * top + 1 < |v|
      ensures down ==> 0 < c < |v| && c != top && Parent(c) == top && Keys()[v[c]] < Keys()[target]
                       && forall i :: 0 < i < |v| && Parent(i) == top ==> Keys()[v[c]] <= Keys()[v[i]]
      ensures !down ==> Below(v, Keys(), top)
    {
      c := 2 * top + 1;
      ChildrenOf(top);
      var r := Compare(heap[c], target);
      if c == |heap| - 1 {
        down := r < 0;
      } else if r < 0 {
        var q := Compare(heap[c + 1], heap[c]);
        down := true;
        c := if q < 0 then c + 1 else c;
      } else {
        var q := Compare(heap[c + 1], target);
        down := q < 0;
        c := c + 1;
      }
    }

    /** heapify: the target at start moves towards the leaves. */
    method Heapify(start: nat) returns (ghost v: seq<Id>)
      requires Moving(heap, heap, start) && Loose(heap, Keys(), start) && Above(heap, Keys(), start)
      modifies `heap, `index
      ensures Settled(v, old(heap)) && Ordered(v, Keys())
    {
      var target := heap[start];
      var top: nat := start;
      v := heap;
      while 2 * top + 1 < |heap|
        invariant top < |v| && Moving(v, old(heap), top) && v[top] == target && Loose(v, Keys(), top)
        invariant Above(v, Keys(), top)
        decreases |heap| - top
      {
        var down, c := LighterChild(target, top, v, old(heap));
        if !down {
          break;
        }
        SwapDown(v, Keys(), top, c);
        MoveHole(top, c, v, old(heap));
        v := Swap(v, top, c);
        top := c;
      }
      assert Below(v, Keys(), top);
      OrderedIff(v, Keys(), top);
      FillHole(top, target, v, old(heap));
    }

    ghost predicate Valid()
      reads this
    {
      && Lists.NoDup(heap) && Indexed(heap, index, |heap|) && Loaded(heap, loads)
      && Keyed(heap, Keys()) && Ordered(heap, Keys())
      && Load(curLoad, maxLoad) == Total(heap, loads)
      && Known(heap, loads, owner, waiting)
    }

    /** CommSchedGroup::init */
    constructor ()
      ensures Valid() && heap == [] && loads == map[]
    {
      heap, index, loads, owner, waiting, curLoad, maxLoad, waitCnt := [], map[], map[], map[], map[], 0, 0, 0;
    }

    /** A change of one target's load that keeps the sums. */
    method SetLoad(x: Id, l: Load) returns (j: nat)
      requires Valid() && x in heap && l.max == loads[x].max && l.cur <= l.max && curLoad + l.cur >= loads[x].cur
      modifies `loads, `curLoad
      ensures loads == old(loads)[x := l] && Load(curLoad, maxLoad) == Total(heap, loads)
      ensures Known(heap, loads, owner, waiting) && Moving(heap, heap, j) && Loose(heap, Keys(), j)
      ensures l.cur >= old(loads[x].cur) ==> Above(heap, Keys(), j)
      ensures l.cur <= old(loads[x].cur) ==> Below(heap, Keys(), j)
    {
      hide Total;
      hide Ordered;
      hide Lists.NoDup;
      hide Above;
      hide Below;
      hide Loose;
      LoadSet(heap, index, loads, x, l);
      KnownSet(heap, loads, owner, waiting, x, l);
      j := index[x];
      curLoad := curLoad + l.cur - loads[x].cur;
      loads := loads[x := l];
    }

    /** One more load on a member with room. */
    method Take(x: Id)
      requires Valid() && x in heap && loads[x].cur < loads[x].max
      modifies `heap, `index, `loads, `curLoad
      ensures Valid() && Perm(heap, old(heap)) && loads == OneMoreLoad(old(loads), x)
    {
      var j := SetLoad(x, Load(loads[x].cur + 1, loads[x].max));
      Repair(j);
    }

    /** CommSchedGroup::acquire behind the wait: the root, a target with the least load ratio, takes the load. */
    method TakeRoot() returns (o: Outcome, target: Id)
      requires Valid()
      modifies `heap, `index, `loads, `curLoad
      ensures Valid() && Perm(heap, old(heap))
      ensures o == (if old(curLoad < maxLoad) then Done else Again)
      ensures o.Again? ==> loads == old(loads)
      ensures o.Done? ==> Lightest(old(heap), old(loads), target) && loads == OneMoreLoad(old(loads), target)
    {
      target := 0;
      if curLoad >= maxLoad {
        return Again, target;
      }
      RootSpare(heap, loads);
      LeastOfAll(heap, Keys());
      target := heap[0];
      Take(target);
      o := Done;
    }

    /** CommSchedGroup::acquire up to the wait, or all of it without one */
    method Acquire(wait: bool) returns (o: Outcome, target: Id)
      requires Valid()
      modifies `heap, `index, `loads, `curLoad, `waitCnt
      ensures Valid() && Perm(heap, old(heap))
      ensures o == (if old(curLoad < maxLoad) then Done else if wait then Waits else Again)
      ensures waitCnt == (if o.Waits? then old(waitCnt) + 1 else old(waitCnt))
      ensures !o.Done? ==> loads == old(loads)
      ensures o.Done? ==> Lightest(old(heap), old(loads), target) && loads == OneMoreLoad(old(loads), target)
    {
      o, target := TakeRoot();
      if o.Again? && wait {
        waitCnt := waitCnt + 1;
        o := Waits;
      }
    }

    /** CommSchedGroup::acquire when the wait ends; without room it waits again unless the time is over. */
    method ResumeAcquire(timedOut: bool) returns (o: Outcome, target: Id)
      requires Valid() && waitCnt > 0
      modifies `heap, `index, `loads, `curLoad, `waitCnt
      ensures Valid() && Perm(heap, old(heap))
      ensures o == (if old(curLoad < maxLoad) then Done else if timedOut then Again else Waits)
      ensures waitCnt == (if o.Waits? then old(waitCnt) else old(waitCnt) - 1)
      ensures !o.Done? ==> loads == old(loads)
      ensures o.Done? ==> Lightest(old(heap), old(loads), target) && loads == OneMoreLoad(old(loads), target)
    {
      waitCnt := waitCnt - 1;
      o, target := Acquire(!timedOut);
    }

    /** CommSchedTarget::acquire behind the wait */
    method TakeTarget(x: Id) returns (o: Outcome)
      requires Valid() && x in loads
      modifies `heap, `index, `loads, `curLoad
      ensures Valid() && Perm(heap, old(heap))
      ensures o == (if old(loads[x].cur < loads[x].max) then Done else Again)
      ensures loads == (if o.Done? then OneMoreLoad(old(loads), x) else old(loads))
    {
      if loads[x].cur >= loads[x].max {
        return Again;
      }
      if owner[x] == This {
        Take(x);
      } else {
        SetOutside(x, Load(loads[x].cur + 1, loads[x].max));
      }
      o := Done;
    }

    /** CommSchedTarget::acquire up to the wait, or all of it without one */
    method AcquireTarget(x: Id, wait: bool) returns (o: Outcome)
      requires Valid() && x in loads
      modifies `heap, `index, `loads, `curLoad, `waiting
      ensures Valid() && Perm(heap, old(heap))
      ensures o == (if old(loads[x].cur < loads[x].max) then Done else if wait then Waits else Again)
      ensures loads == (if o.Done? then OneMoreLoad(old(loads), x) else old(loads))
      ensures x in old(waiting)
      ensures waiting == (if o.Waits? then old(waiting)[x := old(waiting)[x] + 1] else old(waiting))
    {
      hide Total;
      hide Ordered;
      hide Keyed;
      hide Loaded;
      hide Indexed;
      hide KeysOf;
      hide Perm;
      hide Lists.NoDup;
      o := TakeTarget(x);
      if o.Again? && wait {
        SetWaiting(x, waiting[x] + 1);
        o := Waits;
      }
    }

    /** CommSchedTarget::acquire when the wait ends; without room it waits again unless the time is over. */
    method ResumeTarget(x: Id, timedOut: bool) returns (o: Outcome)
      requires Valid() && x in loads && waiting[x] > 0
      modifies `heap, `index, `loads, `curLoad, `waiting
      ensures Valid() && Perm(heap, old(heap))
      ensures o == (if old(loads[x].cur < loads[x].max) then Done else if timedOut then Again else Waits)
      ensures loads == (if o.Done? then OneMoreLoad(old(loads), x) else old(loads))
      ensures waiting == (if o.Waits? then old(waiting) else old(waiting)[x := old(waiting)[x] - 1])
    {
      hide Total;
      hide Ordered;
      hide Keyed;
      hide Loaded;
      hide Indexed;
      hide KeysOf;
      hide Perm;
      hide Lists.NoDup;
      ghost var w := waiting;
      SetWaiting(x, waiting[x] - 1);
      o := AcquireTarget(x, !timedOut);
      assert w[x := w[x] - 1][x := w[x]] == w;
    }

    method SetWaiting(x: Id, n: nat)
      requires Valid() && x in loads
      modifies `waiting
      ensures Valid() && waiting == old(waiting)[x := n]
    {
      waiting := waiting[x := n];
    }

    /** CommSchedTarget::release */
    method Release(x: Id, hasIdleConn: bool)
      requires Valid() && x in loads && loads[x].cur > 0
      modifies `heap, `index, `loads, `curLoad
      ensures Valid() && Perm(heap, old(heap))
      ensures loads == old(loads)[x := Load(old(loads)[x].cur - 1, old(loads)[x].max)]
    {
      var l := Load(loads[x].cur - 1, loads[x].max);
      if owner[x] == This {
        TotalAtLeast(heap, loads, x);
        var j := SetLoad(x, l);
        RepairUp(j, if hasIdleConn then 1 else 0);
      } else {
        SetOutside(x, l);
      }
    }

    /** The load of a target of no group or of another one */
    method SetOutside(x: Id, l: Load)
      requires Valid() && x in loads && owner[x] != This && l.max == loads[x].max && l.cur <= l.max
      modifies `loads
      ensures Valid() && loads == old(loads)[x := l]
    {
      hide Total;
      hide Ordered;
      hide KeysOf;
      hide Lists.NoDup;
      TotalOther(heap, loads, x, l);
      KeysChange(loads, x, l);
      OtherKey(heap, Keys(), x, Ratio(l));
      loads := loads[x := l];
    }

    /** heap_adjust on a target that only may have to move up */
    method RepairUp(j: nat, swapOnEqual: int)
      requires Moving(heap, heap, j) && Loose(heap, Keys(), j) && Below(heap, Keys(), j) && 0 <= swapOnEqual <= 1
      requires Load(curLoad, maxLoad) == Total(heap, loads) && Known(heap, loads, owner, waiting)
      modifies `heap, `index
      ensures Valid() && Perm(heap, old(heap))
    {
      ghost var h := heap;
      ghost var v := HeapAdjust(j, swapOnEqual);
      OrderedIff(v, Keys(), index[h[j]]);
      TotalPermutes(h, v, loads);
      KnownPermutes(h, v, loads, owner, waiting);
    }

    /** CommSchedTarget::init */
    method NewTarget(x: Id, maxConnections: nat) returns (o: Outcome)
      requires Valid() && x !in loads
      modifies `loads, `owner, `waiting
      ensures Valid() && o == (if maxConnections == 0 then Invalid else Done)
      ensures loads == (if o.Done? then old(loads)[x := Load(0, maxConnections)] else old(loads))
    {
      if maxConnections == 0 {
        return Invalid;
      }
      hide Total;
      hide Ordered;
      hide Keyed;
      hide Known;
      hide KeysOf;
      hide Lists.NoDup;
      var l := Load(0, maxConnections);
      NewcomerHarmless(heap, loads, owner, waiting, x, l);
      loads, owner, waiting := loads[x := l], owner[x := NoGroup], waiting[x := 0];
      o := Done;
    }

    /** heap_insert */
    method HeapInsert(x: Id)
      requires Valid() && x in loads && x !in heap
      modifies `heap, `index
      ensures Settled(heap, old(heap) + [x]) && Ordered(heap, Keys())
    {
      ghost var h := heap + [x];
      Inserted(heap, index, loads, x);
      heap := heap + [x];
      index := index[x := |heap| - 1];
      ghost var v := HeapAdjust(|heap| - 1, 0);
      OrderedIff(v, Keys(), index[x]);
    }

    /** heap_remove of a target that is not the last one */
    method HeapReplace(j: nat)
      requires Valid() && j < |heap| - 1
      modifies `heap, `index
      ensures Settled(heap, old(heap[..j] + heap[j + 1..])) && Ordered(heap, Keys())
    {
      var n := |heap| - 1;
      var target := heap[n];
      ghost var rest, g := heap[..j] + heap[j + 1..], heap[..n][j := target];
      Moved(heap, index, loads, j, target, g, rest);
      heap := heap[..n][j := target];
      index := index[target := j];
      UpAndDown(j);
      PermTrans(heap, g, rest);
    }

    /** A target that may have to move either way. */
    method UpAndDown(j: nat)
      requires Moving(heap, heap, j) && Loose(heap, Keys(), j)
      modifies `heap, `index
      ensures Settled(heap, old(heap)) && Ordered(heap, Keys())
    {
      var target := heap[j];
      ghost var g := heap;
      ghost var u := HeapAdjust(j, 0);
      Reopen(u, g, index[target]);
      ghost var v := Heapify(index[target]);
      PermTrans(v, u, g);
    }

    lemma {:induction false} Reopen(v: seq<Id>, h: seq<Id>, j: nat)
      requires Settled(v, h) && j < |v|
      ensures Moving(heap, heap, j)
    {
    }

    /** heap_remove */
    method HeapRemove(j: nat)
      requires Valid() && j < |heap|
      modifies `heap, `index
      ensures Settled(heap, old(heap[..j] + heap[j + 1..])) && Ordered(heap, Keys())
    {
      if j != |heap| - 1 {
        HeapReplace(j);
      } else {
        Cut(heap, index, loads, j);
        assert heap[..j] + heap[j + 1..] == heap[..j];
        heap := heap[..j];
      }
    }

    method Join(x: Id)
      requires Valid() && x in loads && owner[x] == NoGroup
      modifies `heap, `index, `maxLoad, `curLoad, `owner
      ensures Valid() && Perm(heap, old(heap) + [x]) && owner == old(owner)[x := This]
    {
      ghost var h := heap;
      HeapInsert(x);
      Enroll(x, h);
    }

    method Enroll(x: Id, ghost h: seq<Id>)
      requires Settled(heap, h + [x]) && Ordered(heap, Keys()) && x in loads
      requires Loaded(h, loads) && Load(curLoad, maxLoad) == Total(h, loads) && Known(h, loads, owner, waiting)
      modifies `maxLoad, `curLoad, `owner
      ensures Valid() && owner == old(owner)[x := This]
    {
      hide Total;
      hide Ordered;
      hide Keyed;
      hide Lists.NoDup;
      Joined(h, heap, loads, owner, waiting, x);
      owner := owner[x := This];
      maxLoad := maxLoad + loads[x].max;
      curLoad := curLoad + loads[x].cur;
    }

    /** add */
    method Add(x: Id) returns (o: Outcome)
      requires Valid() && x in loads
      modifies this
      ensures Valid() && loads == old(loads) && waiting == old(waiting)
      ensures o == (if old(owner[x]) == NoGroup && old(waiting[x]) == 0 then Done
                    else if old(owner[x]) == This then Exists else if old(owner[x]) == Other then Invalid else Busy)
      ensures if o.Done? then Perm(heap, old(heap) + [x]) && owner == old(owner)[x := This]
              else Perm(heap, old(heap)) && owner == old(owner)
      ensures Staying(old(owner), old(waiting), owner)
    {
      if owner[x] == NoGroup && waiting[x] == 0 {
        Join(x);
        o := Done;
      } else if owner[x] == This {
        o := Exists;
      } else if owner[x] == Other {
        o := Invalid;
      } else {
        o := Busy;
      }
    }

    method Leave(x: Id)
      requires Valid() && x in loads && owner[x] == This
      modifies `heap, `index, `maxLoad, `curLoad, `owner
      ensures Valid() && multiset(heap) == multiset(old(heap)) - multiset{x} && owner == old(owner)[x := NoGroup]
    {
      ghost var h := heap;
      var j := index[x];
      AtIndex(heap, index, x);
      HeapRemove(j);
      Left(h, j, heap, loads, owner, waiting);
      Without(Total(h, loads), loads[x], Total(heap, loads));
      maxLoad := maxLoad - loads[x].max;
      curLoad := curLoad - loads[x].cur;
      owner := owner[x := NoGroup];
    }

    /** remove */
    method Remove(x: Id) returns (o: Outcome)
      requires Valid() && x in loads
      modifies this
      ensures Valid() && loads == old(loads) && waiting == old(waiting)
      ensures o == (if old(owner[x]) == This && old(waiting[x]) == 0 then Done
                    else if old(owner[x]) != This then NoEntry else Busy)
      ensures if o.Done? then multiset(heap) == multiset(old(heap)) - multiset{x} && owner == old(owner)[x := NoGroup]
              else Perm(heap, old(heap)) && owner == old(owner)
      ensures Staying(old(owner), old(waiting), owner)
    {
      if owner[x] == This && waiting[x] == 0 {
        Leave(x);
        o := Done;
      } else if owner[x] != This {
        o := NoEntry;
      } else {
        o := Busy;
      }
    }

    /** add and remove of another group */
    method MoveElsewhere(x: Id, join: bool) returns (o: Outcome)
      requires Valid() && x in loads
      modifies `owner
      ensures Valid() && Staying(old(owner), waiting, owner)
      ensures o == (if waiting[x] == 0 && old(owner[x]) == (if join then NoGroup else Other) then Done else Busy)
      ensures owner == if o.Done? then old(owner)[x := if join then Other else NoGroup] else old(owner)
    {
      o := Busy;
      if waiting[x] == 0 && owner[x] == (if join then NoGroup else Other) {
        owner := owner[x := if join then Other else NoGroup];
        o := Done;
      }
    }

    /** heapify(target->index) after an increase */
    method Repair(j: nat)
      requires Moving(heap, heap, j) && Loose(heap, Keys(), j) && Above(heap, Keys(), j)
      requires Load(curLoad, maxLoad) == Total(heap, loads) && Known(heap, loads, owner, waiting)
      modifies `heap, `index
      ensures Valid() && Perm(heap, old(heap))
    {
      ghost var h := heap;
      ghost var v := Heapify(j);
      TotalPermutes(h, v, loads);
      KnownPermutes(h, v, loads, owner, waiting);
    }
  }
}
