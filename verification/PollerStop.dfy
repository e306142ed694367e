/**
 poller_stop comes to its end: the mark it writes into the pipe stops the poller thread (module PollerHandover), and
 from every state after the request there is a run to the end.
 */
module PollerStop {
  import opened Basics
  import opened PollerHandover

  /** The mark is on its way to the thread, or the thread has seen it. */
  predicate OnItsWay(p: Poller) {
    p.stopper.Requested? ==> StopMark in p.pipe || Seen(p.thread)
  }

  predicate Seen(t: Thread) {
    t.Exited? || (t.Piping? && (t.stop || StopMark in t.items))
  }

  /** Before the request there is no mark; there is never more than one. */
  predicate OneMark(p: Poller) {
    && (p.stopper.NotStopping? ==> StopMark !in p.pipe && !Seen(p.thread))
    && (StopMark in p.pipe ==> !Seen(p.thread) && p.stopper.Requested?)
    && (!p.stopper.NotStopping? && !p.stopper.Requested? ==> p.thread.Exited?)
    && (forall i, j :: 0 <= i < j < |p.pipe| && p.pipe[i].StopMark? ==> p.pipe[j].Sent?)
  }

  ghost predicate Marked(p: Poller) {
    OnItsWay(p) && OneMark(p)
  }

  lemma {:induction false} PipedMarked(p: Poller)
    requires Marked(p) && Enabled(p, CallPiped)
    ensures Marked(Apply(p, CallPiped))
  {
    var items := p.thread.items;
    assert items == [items[0]] + items[1..];
    assert StopMark in items <==> items[0] == StopMark || StopMark in items[1..];
  }

  lemma {:induction false} ReadMarked(p: Poller, count: nat)
    requires Marked(p) && Enabled(p, ReadPipe(count))
    ensures Marked(Apply(p, ReadPipe(count)))
  {
    var x, y := p.pipe[..count], p.pipe[count..];
    assert p.pipe == x + y;
  }

  lemma {:induction false} TakenMarked(p: Poller, q: Poller, item: Item)
    requires Marked(p) && item.Sent? && (q.pipe == p.pipe || q.pipe == p.pipe + [item])
    requires q.thread == p.thread && q.stopper == p.stopper
    ensures Marked(q)
  {
  }

  lemma {:induction false} StepMarked(p: Poller, s: Step)
    requires Marked(p) && Enabled(p, s)
    ensures Marked(Apply(p, s))
  {
    match s
    case Del(fd) => if fd in p.table { TakenMarked(p, Apply(p, s), Sent(p.table[fd])); }
    case Mod(id) => if id.fd in p.table { TakenMarked(p, Apply(p, s), Sent(p.table[id.fd])); }
    case CallPiped => PipedMarked(p);
    case ReadPipe(count) => ReadMarked(p, count);
    case _ =>
  }

  lemma {:induction false} RunMarked(p: Poller, steps: seq<Step>, q: Poller)
    requires Marked(p) && Runs(p, steps, q)
    ensures Marked(q)
    decreases |steps|
  {
    if steps != [] {
      StepMarked(p, steps[0]);
      RunMarked(Apply(p, steps[0]), steps[1..], q);
    }
  }

  lemma {:induction false} ReachableMarked(p: Poller)
    requires Reachable(p)
    ensures Marked(p)
  {
    var steps :| Runs(Start(), steps, p);
    RunMarked(Start(), steps, p);
  }

  /**
   In every run, once poller_stop is called its mark is in the pipe or the thread has it; and once the mark is off the
   pipe the thread neither sweeps nor waits again.
   */
  lemma {:induction false} MarkStopsThread(p: Poller)
    requires Reachable(p) && p.stopper.Requested?
    ensures StopMark in p.pipe || Seen(p.thread)
    ensures StopMark !in p.pipe ==> p.thread.Piping? || p.thread.Exited?
    ensures StopMark !in p.pipe && p.thread.Piping? ==> !Enabled(p, Sweep({}))
  {
    ReachableMarked(p);
  }

  // ----- a run to the end -----

  ghost predicate Leads(p: Poller, q: Poller) {
    exists steps :: Runs(p, steps, q)
  }

  lemma {:induction false} Stays(p: Poller)
    ensures Leads(p, p)
  {
    assert Runs(p, [], p);
  }

  lemma {:induction false} StepThen(p: Poller, s: Step, q: Poller)
    requires Enabled(p, s) && Leads(Apply(p, s), q)
    ensures Leads(p, q)
  {
    var steps :| Runs(Apply(p, s), steps, q);
    assert ([s] + steps)[1..] == steps;
    assert Runs(p, [s] + steps, q);
  }

  /** Calling back what poller_stop collected */
  lemma {:induction false} CallAll(p: Poller) returns (q: Poller)
    requires p.stopper.Collected?
    ensures Leads(p, q) && q.stopper == Collected({})
    decreases p.stopper.ids
  {
    if p.stopper.ids == {} {
      Stays(p);
      q := p;
    } else {
      var id :| id in p.stopper.ids;
      q := CallAll(Apply(p, CallCollected(id)));
      StepThen(p, CallCollected(id), q);
    }
  }

  lemma {:induction false} FromExited(p: Poller) returns (q: Poller)
    requires p.stopper.Requested? && p.thread.Exited?
    ensures Leads(p, q) && q.stopper == Collected({})
  {
    var p1 := Apply(p, Join);
    var p2 := Apply(p1, Collect);
    q := CallAll(p2);
    StepThen(p1, Collect, q);
    StepThen(p, Join, q);
  }

  /** The thread calls back what it read from the pipe, and leaves when the mark was among it. */
  lemma {:induction false} FromSeen(p: Poller) returns (q: Poller)
    requires p.stopper.Requested? && Seen(p.thread)
    ensures Leads(p, q) && q.stopper == Collected({})
    decreases if p.thread.Piping? then |p.thread.items| else 0
  {
    if p.thread.Exited? {
      q := FromExited(p);
    } else if p.thread.items == [] {
      q := FromExited(Apply(p, Exit));
      StepThen(p, Exit, q);
    } else {
      var items := p.thread.items;
      assert items == [items[0]] + items[1..];
      q := FromSeen(Apply(p, CallPiped));
      StepThen(p, CallPiped, q);
    }
  }

  lemma {:induction false} FromWaiting(p: Poller) returns (q: Poller)
    requires p.stopper.Requested? && StopMark in p.pipe && p.thread.Waiting?
    ensures Leads(p, q) && q.stopper == Collected({})
  {
    var p1 := Apply(p, Wake([], true));
    q := FromHandled(p1);
    StepThen(p, Wake([], true), q);
  }

  lemma {:induction false} FromHandled(p: Poller) returns (q: Poller)
    requires p.stopper.Requested? && StopMark in p.pipe && p.thread == Handling([], true)
    ensures Leads(p, q) && q.stopper == Collected({})
  {
    assert p.pipe[..|p.pipe|] == p.pipe;
    q := FromSeen(Apply(p, ReadPipe(|p.pipe|)));
    StepThen(p, ReadPipe(|p.pipe|), q);
  }

  lemma {:induction false} FromSweeping(p: Poller) returns (q: Poller)
    requires p.stopper.Requested? && StopMark in p.pipe && p.thread.Sweeping?
    ensures Leads(p, q) && q.stopper == Collected({})
    decreases p.thread.ids
  {
    if p.thread.ids == {} {
      q := FromWaiting(Apply(p, Sleep));
      StepThen(p, Sleep, q);
    } else {
      var id :| id in p.thread.ids;
      q := FromSweeping(Apply(p, CallSwept(id)));
      StepThen(p, CallSwept(id), q);
    }
  }

  lemma {:induction false} FromIdle(p: Poller) returns (q: Poller)
    requires p.stopper.Requested? && StopMark in p.pipe && Idle(p.thread)
    ensures Leads(p, q) && q.stopper == Collected({})
  {
    q := FromSweeping(Apply(p, Sweep({})));
    StepThen(p, Sweep({}), q);
  }

  lemma {:induction false} FromHandling(p: Poller) returns (q: Poller)
    requires p.stopper.Requested? && StopMark in p.pipe && p.thread.Handling?
    ensures Leads(p, q) && q.stopper == Collected({})
    decreases |p.thread.events|
  {
    if p.thread.events != [] {
      q := FromHandling(Apply(p, EventStays));
      StepThen(p, EventStays, q);
    } else if p.thread.pipeEvent {
      q := FromHandled(p);
    } else {
      q := FromIdle(p);
    }
  }

  lemma {:induction false} FromPiping(p: Poller) returns (q: Poller)
    requires p.stopper.Requested? && StopMark in p.pipe && p.thread.Piping? && !Seen(p.thread)
    ensures Leads(p, q) && q.stopper == Collected({})
    decreases |p.thread.items|
  {
    if p.thread.items == [] {
      q := FromIdle(p);
    } else {
      var items := p.thread.items;
      assert items == [items[0]] + items[1..];
      q := FromPiping(Apply(p, CallPiped));
      StepThen(p, CallPiped, q);
    }
  }

  lemma {:induction false} RunsJoin(p: Poller, x: seq<Step>, q: Poller, y: seq<Step>, r: Poller)
    requires Runs(p, x, q) && Runs(q, y, r)
    ensures Runs(p, x + y, r)
    decreases |x|
  {
    if x == [] {
      assert x + y == y;
    } else {
      assert (x + y)[1..] == x[1..] + y;
      RunsJoin(Apply(p, x[0]), x[1..], q, y, r);
    }
  }

  lemma {:induction false} LeadsReachable(p: Poller, q: Poller)
    requires Reachable(p) && Leads(p, q)
    ensures Reachable(q)
  {
    var x :| Runs(Start(), x, p);
    var y :| Runs(p, y, q);
    RunsJoin(Start(), x, p, y, q);
  }

  /**
   From every state after the call of poller_stop there is a run to its end, where, as StopHandsOverAll says, every
   node registered before is handed over.
   */
  lemma {:induction false} StopCanEnd(p: Poller) returns (q: Poller)
    requires Reachable(p) && p.stopper.Requested?
    ensures Leads(p, q) && Reachable(q) && q.stopper == Collected({})
    ensures forall id :: id in q.before ==> q.delivered[id] + q.direct[id] == 1
  {
    q := RunToEnd(p);
    LeadsReachable(p, q);
    forall id | id in q.before
      ensures q.delivered[id] + q.direct[id] == 1
    {
      StopHandsOverAll(q, id);
    }
  }

  lemma {:induction false} RunToEnd(p: Poller) returns (q: Poller)
    requires Reachable(p) && p.stopper.Requested?
    ensures Leads(p, q) && q.stopper == Collected({})
  {
    ReachableMarked(p);
    if Seen(p.thread) {
      q := FromSeen(p);
    } else if p.thread.Waiting? {
      q := FromWaiting(p);
    } else if p.thread.Handling? {
      q := FromHandling(p);
    } else if p.thread.Removed? {
      q := FromHandling(Apply(p, CallRemoved));
      StepThen(p, CallRemoved, q);
    } else if p.thread.Sweeping? {
      q := FromSweeping(p);
    } else {
      q := FromPiping(p);
    }
  }

  /**
   In every run handling an event to its end takes the thread on to the rest of its batch, and leaves the node out of
   the table, whoever took it out.
   */
  lemma {:induction false} BatchGoesOn(p: Poller)
    requires Reachable(p) && Enabled(p, RemoveNode)
    ensures var q := Apply(p, RemoveNode);
            var r := if q.thread.Removed? then Apply(q, CallRemoved) else q;
            r.thread == Handling(p.thread.events[1..], p.thread.pipeEvent) && !InTable(r, p.thread.events[0])
  {
    ReachableInv(p);
  }
}
