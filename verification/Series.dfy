/**
 The queue of a series (SeriesWork in src/factory/Workflow.cc): a ring buffer that doubles when it
 is full, in front of one last task.  Tasks are identifiers; a null pointer is None.
 */
module Series {
  import opened Basics

  type Task = nat

  /** What is queued from front to back, around the end of the buffer. */
  function Ring(q: seq<Task>, front: nat, back: nat): seq<Task>
    requires front <= |q| && back <= |q|
  {
    if front <= back then q[front..back] else q[front..] + q[..back]
  }

  /** The whole buffer, from front on. */
  function Whole(q: seq<Task>, front: nat): seq<Task>
    requires front <= |q|
  {
    q[front..] + q[..front]
  }

  function Next(i: nat, n: nat): nat {
    if i + 1 == n then 0 else i + 1
  }

  function Prev(i: nat, n: nat): nat
    requires n > 0
  {
    if i == 0 then n - 1 else i - 1
  }

  lemma {:induction false} PushedBack(q: seq<Task>, front: nat, back: nat, t: Task)
    requires front < |q| && back < |q|
    ensures var q', b := q[back := t], Next(back, |q|);
            if b == front then Whole(q', front) == Ring(q, front, back) + [t]
            else Ring(q', front, b) == Ring(q, front, back) + [t]
  {
  }

  lemma {:induction false} FrontWraps(q: seq<Task>, back: nat, t: Task)
    requires back < |q|
    ensures var f := |q| - 1;
            var q' := q[f := t];
            if f == back then Whole(q', f) == [t] + Ring(q, 0, back) else Ring(q', f, back) == [t] + Ring(q, 0, back)
  {
    var f := |q| - 1;
    assert q[f := t][f..] == [t];
    assert q[f := t][..f] == q[..f];
    assert back <= f ==> q[f := t][..back] == q[..back];
  }

  lemma {:induction false} FrontMoves(q: seq<Task>, front: nat, back: nat, t: Task)
    requires 0 < front < |q| && back < |q|
    ensures var f := front - 1;
            var q' := q[f := t];
            if f == back then Whole(q', f) == [t] + Ring(q, front, back)
            else Ring(q', f, back) == [t] + Ring(q, front, back)
  {
    var f := front - 1;
    var q' := q[f := t];
    assert q'[f..] == [t] + q[front..] by {
      assert q'[f..] == [q'[f]] + q'[front..];
      assert q'[front..] == q[front..];
    }
    if back <= f {
      assert q'[..back] == q[..back];
      Shift(t, q[front..], q[..back]);
    } else {
      assert q'[f..back] == [q'[f]] + q'[front..back];
      assert q'[front..back] == q[front..back];
    }
  }

  lemma {:induction false} Shift(t: Task, x: seq<Task>, y: seq<Task>)
    ensures ([t] + x) + y == [t] + (x + y)
  {
  }

  lemma {:induction false} PushedFront(q: seq<Task>, front: nat, back: nat, t: Task)
    requires front < |q| && back < |q|
    ensures var f := Prev(front, |q|);
            var q' := q[f := t];
            if f == back then Whole(q', f) == [t] + Ring(q, front, back)
            else Ring(q', f, back) == [t] + Ring(q, front, back)
  {
    if front == 0 {
      FrontWraps(q, back, t);
    } else {
      FrontMoves(q, front, back, t);
    }
  }

  lemma {:induction false} Popped(q: seq<Task>, front: nat, back: nat)
    requires front < |q| && back < |q| && front != back
    ensures Ring(q, front, back) == [q[front]] + Ring(q, Next(front, |q|), back)
  {
    if front < back {
      assert q[front..back] == [q[front]] + q[front + 1..back];
    } else {
      assert q[front..] == [q[front]] + q[front + 1..];
      Shift(q[front], q[front + 1..], q[..back]);
      if front + 1 == |q| {
        assert q[front + 1..] == [] && [] + q[..back] == q[..back] == q[0..back];
      }
    }
  }

  class SeriesWork {
    var queue: array<Task>
    var front: nat
    var back: nat
    var last: Option<Task>
    var canceled: bool
    var finished: bool
    /** Calls of the callback, and tasks deleted because of a cancel. */
    var callbacks: nat
    var deleted: seq<Task>

    ghost predicate Valid()
      reads this
    {
      queue.Length >= 4 && front < queue.Length && back < queue.Length && callbacks == if finished then 1 else 0
    }

    ghost function Contents(): seq<Task>
      requires Valid()
      reads this, queue
    {
      Ring(queue[..], front, back)
    }

    constructor ()
      ensures Valid() && Contents() == [] && last == None && !canceled && !finished && fresh(queue) && deleted == []
    {
      queue := new Task[4];
      front, back, last, canceled, finished, callbacks, deleted := 0, 0, None, false, false, 0, [];
    }

    /** expand_queue on a full buffer */
    method ExpandQueue()
      requires queue.Length >= 4 && front < queue.Length && front == back && callbacks == (if finished then 1 else 0)
      modifies `queue, `front, `back
      ensures Valid() && fresh(queue) && Contents() == old(Whole(queue[..], front))
    {
      var n := queue.Length;
      var bigger := new Task[2 * n];
      ghost var all := Whole(queue[..], front);
      bigger[0] := queue[front];
      var i, j := 1, Next(front, n);
      while j != back
        invariant 1 <= i <= n && j < n && j == (if front + i < n then front + i else front + i - n)
        invariant bigger[..i] == all[..i]
        modifies bigger
        decreases n - i
      {
        bigger[i] := queue[j];
        assert all[i] == queue[j];
        assert bigger[..i + 1] == bigger[..i] + [bigger[i]];
        i, j := i + 1, Next(j, n);
      }
      assert i == n && all[..n] == all;
      queue, front, back := bigger, 0, i;
    }

    /** push_back */
    method PushBack(task: Task)
      requires Valid()
      modifies `queue, `front, `back, queue
      ensures Valid() && Contents() == old(Contents()) + [task] && (queue == old(queue) || fresh(queue))
    {
      PushedBack(queue[..], front, back, task);
      ghost var q := queue[..];
      queue[back] := task;
      assert queue[..] == q[back := task];
      back := Next(back, queue.Length);
      if front == back {
        ExpandQueue();
      }
    }

    /** push_front */
    method PushFront(task: Task)
      requires Valid()
      modifies `queue, `front, `back, queue
      ensures Valid() && Contents() == [task] + old(Contents()) && (queue == old(queue) || fresh(queue))
    {
      PushedFront(queue[..], front, back, task);
      ghost var q := queue[..];
      front := Prev(front, queue.Length);
      queue[front] := task;
      assert queue[..] == q[front := task];
      if front == back {
        ExpandQueue();
      }
    }

    /** What is still to run, in order. */
    ghost function Rest(): seq<Task>
      requires Valid()
      reads this, queue
    {
      Contents() + (if last.Some? then [last.value] else [])
    }

    /** pop_task: the queue from the front, then the last task, then the end of the series. */
    method PopTask() returns (task: Option<Task>)
      requires Valid() && !finished
      modifies `front, `last, `finished, `callbacks
      ensures Valid() && task == (if old(Rest()) == [] then None else Some(old(Rest())[0]))
      ensures Rest() == (if old(Rest()) == [] then [] else old(Rest())[1..]) && finished == task.None?
    {
      if front != back {
        Popped(queue[..], front, back);
        task := Some(queue[front]);
        front := Next(front, queue.Length);
      } else {
        assert Contents() == [];
        task := last;
        last := None;
      }
      if task.None? {
        finished := true;
        callbacks := callbacks + 1;
      }
    }

    /** The loop of pop for a canceled series */
    method DeleteAll(first: Option<Task>)
      requires Valid() && finished == first.None? && (first.None? ==> Rest() == [])
      modifies `front, `last, `finished, `callbacks, `deleted
      ensures Valid() && finished && Rest() == [] && deleted == old(deleted) + With(first, old(Rest()))
    {
      var task := first;
      ghost var all := deleted + With(first, Rest());
      while task.Some?
        invariant Valid() && finished == task.None? && (task.None? ==> Rest() == [])
        invariant deleted + With(task, Rest()) == all
        decreases task.Some?, |Rest()|
      {
        OneMore(deleted, task.value, Rest());
        task := DeleteOne(task.value);
      }
      NoMore(deleted);
    }

    /** delete of a task, and the next one */
    method DeleteOne(task: Task) returns (next: Option<Task>)
      requires Valid() && !finished
      modifies `front, `last, `finished, `callbacks, `deleted
      ensures Valid() && finished == next.None? && deleted == old(deleted) + [task]
      ensures With(next, Rest()) == old(Rest()) && |Rest()| <= |old(Rest())|
      ensures (next.Some? ==> |Rest()| < |old(Rest())|)
      ensures next.None? ==> Rest() == []
    {
      deleted := deleted + [task];
      ghost var rest := Rest();
      next := PopTask();
      assert rest != [] ==> rest == [rest[0]] + rest[1..];
    }

    /** pop: a canceled series deletes all its tasks and ends. */
    method Pop() returns (task: Option<Task>)
      requires Valid() && !finished
      modifies `front, `last, `finished, `callbacks, `deleted
      ensures Valid() && finished == task.None?
      ensures !canceled ==> deleted == old(deleted)
                            && task == (if old(Rest()) == [] then None else Some(old(Rest())[0]))
                            && Rest() == (if old(Rest()) == [] then [] else old(Rest())[1..])
      ensures canceled ==> task.None? && Rest() == [] && deleted == old(deleted) + old(Rest())
    {
      var stop := canceled;
      ghost var all := Rest();
      task := PopTask();
      if stop {
        assert all == With(task, Rest());
        DeleteAll(task);
        task := None;
      }
    }
  }

  lemma {:induction false} NoMore(x: seq<Task>)
    ensures x + [] == x
  {
  }

  lemma {:induction false} OneMore(x: seq<Task>, t: Task, y: seq<Task>)
    ensures x + ([t] + y) == (x + [t]) + y
  {
  }

  function With(task: Option<Task>, rest: seq<Task>): seq<Task> {
    if task.Some? then [task.value] + rest else []
  }
}
