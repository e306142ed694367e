/**
 How the nodes of src/kernel/poller.c reach the callback.

 A node is handed over by the poller thread (event, pipe, timeout sweep), by the caller of
 poller_del_timer, or, once the poller is stopped, by poller_stop and by the callers of poller_del and
 poller_mod.  A step is one critical section, one callback or one move of the poller thread.
 Node addresses are identifiers; file descriptors, readiness and deadlines are parameters.
 */
module PollerHandover {
  import opened Basics

  /** A node for a file descriptor, or a timer (data.fd == -1). */
  datatype Id = FdNode(fd: nat, serial: nat) | TimerNode(serial: nat)

  datatype Item = Sent(id: Id) | StopMark

  /** The poller thread; `events` are the nodes of the current epoll_wait batch not yet handled. */
  datatype Thread =
    | Waiting
    | Handling(events: seq<Id>, pipeEvent: bool)
    | Removed(id: Id, events: seq<Id>, pipeEvent: bool)
    | Piping(items: seq<Item>, stop: bool)
    | Sweeping(ids: set<Id>)
    | Exited

  /** The caller of poller_stop. */
  datatype Stopper = NotStopping | Requested | Joined | Collected(ids: set<Id>)

  datatype Poller = Poller(
    table: map<nat, Id>, timers: set<Id>, removed: set<Id>, pipe: seq<Item>, stopped: bool,
    thread: Thread, stopper: Stopper,
    direct: multiset<Id>,      // taken out by del, mod or del_timer, callback not yet called
    delivered: multiset<Id>,   // handed to the callback as a terminal result
    known: set<Id>,            // every node ever registered
    before: set<Id>)           // those registered before the critical section of poller_stop

  datatype Step =
    | Add(id: Id) | Del(fd: nat) | Mod(id: Id) | AddTimer(id: Id) | DelTimer(id: Id) | CallDirect(id: Id)
    | Wake(events: seq<Id>, pipeEvent: bool) | EventStays | RemoveNode | CallRemoved
    | ReadPipe(count: nat) | CallPiped | Sweep(expired: set<Id>) | CallSwept(id: Id) | Sleep | Exit
    | RequestStop | Join | Collect | CallCollected(id: Id)

  /** poller_create and poller_start */
  function Start(): Poller {
    Poller(map[], {}, {}, [], false, Waiting, NotStopping, multiset{}, multiset{}, {}, {})
  }

  predicate InTable(p: Poller, id: Id) {
    id.FdNode? && id.fd in p.table && p.table[id.fd] == id
  }

  predicate Registered(p: Poller, id: Id) {
    InTable(p, id) || id in p.timers
  }

  predicate Distinct(ids: seq<Id>) {
    forall i, j :: 0 <= i < j < |ids| ==> ids[i] != ids[j]
  }

  predicate Enabled(p: Poller, s: Step) {
    match s
    case Add(id) => id.FdNode? && id !in p.known
    case Del(_) => true
    case Mod(id) => id.FdNode? && id !in p.known
    case AddTimer(id) => id.TimerNode? && id !in p.known
    case DelTimer(id) => id.TimerNode? && id in p.known
    case CallDirect(id) => id in p.direct
    case Wake(events, _) => p.thread.Waiting? && Distinct(events) && forall id :: id in events ==> InTable(p, id)
    case EventStays => p.thread.Handling? && p.thread.events != []
    case RemoveNode => p.thread.Handling? && p.thread.events != []
    case CallRemoved => p.thread.Removed?
    case ReadPipe(count) => p.thread.Handling? && p.thread.events == [] && p.thread.pipeEvent && count <= |p.pipe|
    case CallPiped => p.thread.Piping? && p.thread.items != []
    case Sweep(expired) => Idle(p.thread) && forall id :: id in expired ==> Registered(p, id)
    case CallSwept(id) => p.thread.Sweeping? && id in p.thread.ids
    case Sleep => p.thread == Sweeping({})
    case Exit => p.thread == Piping([], true)
    case RequestStop => p.stopper.NotStopping?
    case Join => p.stopper.Requested? && p.thread.Exited?
    case Collect => p.stopper.Joined?
    case CallCollected(id) => p.stopper.Collected? && id in p.stopper.ids
  }

  /** The events of the batch and the pipe are done. */
  predicate Idle(t: Thread) {
    (t.Handling? && t.events == [] && !t.pipeEvent) || (t.Piping? && t.items == [] && !t.stop)
  }

  function Drop(table: map<nat, Id>, ids: set<Id>): map<nat, Id> {
    map fd | fd in table && table[fd] !in ids :: table[fd]
  }

  /** The tail of poller_del and poller_mod: the node goes into the pipe, or to the caller's own callback. */
  function TakeOut(p: Poller, id: Id): Poller {
    if p.stopped then p.(direct := p.direct + multiset{id})
    else p.(removed := p.removed + {id}, pipe := p.pipe + [Sent(id)])
  }

  function Deleted(p: Poller, fd: nat): Poller {
    if fd !in p.table then p else TakeOut(p.(table := p.table - {fd}), p.table[fd])
  }

  function Modified(p: Poller, id: Id): Poller
    requires id.FdNode?
  {
    if id.fd !in p.table then p
    else TakeOut(p.(table := p.table[id.fd := id], known := p.known + {id}), p.table[id.fd])
  }

  function TimerDeleted(p: Poller, id: Id): Poller {
    if id in p.removed then p
    else p.(removed := p.removed + {id}, timers := p.timers - {id}, direct := p.direct + multiset{id})
  }

  /** __poller_remove_node on the first node of the batch */
  function Removing(p: Poller): Poller
    requires p.thread.Handling? && p.thread.events != []
  {
    var id, rest := p.thread.events[0], p.thread.events[1..];
    if id in p.removed || !id.FdNode? then p.(thread := Handling(rest, p.thread.pipeEvent))
    else p.(table := p.table - {id.fd}, thread := Removed(id, rest, p.thread.pipeEvent))
  }

  function PipedCalled(p: Poller): Poller
    requires p.thread.Piping? && p.thread.items != []
  {
    var item, rest := p.thread.items[0], p.thread.items[1..];
    if item.StopMark? then p.(thread := Piping(rest, true))
    else p.(thread := Piping(rest, p.thread.stop), delivered := p.delivered + multiset{item.id})
  }

  function Swept(p: Poller, expired: set<Id>): Poller {
    p.(table := Drop(p.table, expired), timers := p.timers - expired,
       removed := p.removed + (set id | id in expired && id.TimerNode?), thread := Sweeping(expired))
  }

  /** The nodes that the items hold, with multiplicity. */
  function SentIds(items: seq<Item>): multiset<Id> {
    if items == [] then multiset{}
    else (if items[0].Sent? then multiset{items[0].id} else multiset{}) + SentIds(items[1..])
  }

  /** The critical section of poller_stop */
  function Collecting(p: Poller): Poller {
    p.(pipe := [], delivered := p.delivered + SentIds(p.pipe),
       stopper := Collected(p.table.Values + p.timers), table := map[], timers := {},
       removed := p.removed + p.timers, before := p.known)
  }

  function Apply(p: Poller, s: Step): Poller
    requires Enabled(p, s)
  {
    match s
    case Add(id) => if id.fd in p.table then p else p.(table := p.table[id.fd := id], known := p.known + {id})
    case Del(fd) => Deleted(p, fd)
    case Mod(id) => Modified(p, id)
    case AddTimer(id) => p.(timers := p.timers + {id}, known := p.known + {id})
    case DelTimer(id) => TimerDeleted(p, id)
    case CallDirect(id) => p.(direct := p.direct - multiset{id}, delivered := p.delivered + multiset{id})
    case Wake(events, pipeEvent) => p.(thread := Handling(events, pipeEvent))
    case EventStays => p.(thread := Handling(p.thread.events[1..], p.thread.pipeEvent))
    case RemoveNode => Removing(p)
    case CallRemoved =>
      p.(thread := Handling(p.thread.events, p.thread.pipeEvent), delivered := p.delivered + multiset{p.thread.id})
    case ReadPipe(count) => p.(thread := Piping(p.pipe[..count], false), pipe := p.pipe[count..])
    case CallPiped => PipedCalled(p)
    case Sweep(expired) => Swept(p, expired)
    case CallSwept(id) => p.(thread := Sweeping(p.thread.ids - {id}), delivered := p.delivered + multiset{id})
    case Sleep => p.(thread := Waiting)
    case Exit => p.(thread := Exited)
    case RequestStop => p.(stopper := Requested, pipe := p.pipe + [StopMark])
    case Join => p.(stopper := Joined, stopped := true)
    case Collect => Collecting(p)
    case CallCollected(id) => p.(stopper := Collected(p.stopper.ids - {id}), delivered := p.delivered + multiset{id})
  }

  // ----- every node is in exactly one place -----

  /** How often the poller thread or the caller of poller_stop holds the node. */
  function HeldByThread(t: Thread, id: Id): nat {
    match t
    case Removed(taken, _, _) => One(id == taken)
    case Piping(items, _) => SentIds(items)[id]
    case Sweeping(ids) => One(id in ids)
    case _ => 0
  }

  function HeldByStopper(t: Stopper, id: Id): nat {
    if t.Collected? then One(id in t.ids) else 0
  }

  /** In how many places the node is. */
  function Places(p: Poller, id: Id): nat {
    One(Registered(p, id)) + SentIds(p.pipe)[id] + HeldByThread(p.thread, id) + HeldByStopper(p.stopper, id)
    + p.direct[id] + p.delivered[id]
  }

  ghost predicate Conserved(p: Poller) {
    forall id :: Places(p, id) == One(id in p.known)
  }

  predicate Keyed(p: Poller) {
    && (forall fd :: fd in p.table ==> p.table[fd].FdNode? && p.table[fd].fd == fd)
    && (forall id :: id in p.timers ==> id.TimerNode?)
  }

  /** The flag `removed` says where a node is. */
  ghost predicate Flagged(p: Poller) {
    && (forall id :: id in p.removed ==> !Registered(p, id) && id in p.known)
    && (forall id :: id in p.known && id.TimerNode? && id !in p.removed ==> id in p.timers)
  }

  function Batch(t: Thread): seq<Id> {
    if t.Handling? || t.Removed? then t.events else []
  }

  /** A node of the batch is still in the table, or it waits in the pipe with its flag set. */
  predicate BatchNode(p: Poller, id: Id) {
    id.FdNode? && (if id in p.removed then SentIds(p.pipe)[id] == 1 else InTable(p, id))
  }

  ghost predicate BatchLive(p: Poller) {
    Distinct(Batch(p.thread)) && forall id :: id in Batch(p.thread) ==> BatchNode(p, id)
  }

  ghost predicate Stopping(p: Poller) {
    && (p.stopped <==> p.stopper.Joined? || p.stopper.Collected?)
    && (p.stopped ==> p.thread.Exited?)
    && (p.stopper.Collected? ==> forall id :: id in p.before ==>
          p.delivered[id] + p.direct[id] + One(id in p.stopper.ids) == 1)
  }

  ghost predicate Inv(p: Poller) {
    Conserved(p) && Keyed(p) && Flagged(p) && BatchLive(p) && Stopping(p)
  }

  lemma {:induction false} SentAppend(x: seq<Item>, y: seq<Item>)
    ensures SentIds(x + y) == SentIds(x) + SentIds(y)
    decreases |x|
  {
    if x == [] {
      assert x + y == y;
    } else {
      assert (x + y)[1..] == x[1..] + y;
      SentAppend(x[1..], y);
    }
  }

  lemma {:induction false} SentSplit(x: seq<Item>, k: nat)
    requires k <= |x|
    ensures SentIds(x) == SentIds(x[..k]) + SentIds(x[k..])
  {
    assert x == x[..k] + x[k..];
    SentAppend(x[..k], x[k..]);
  }

  lemma {:induction false} SentOne(x: seq<Item>, item: Item)
    ensures SentIds(x + [item]) == SentIds(x) + (if item.Sent? then multiset{item.id} else multiset{})
  {
    SentAppend(x, [item]);
    assert [item][1..] == [];
    assert SentIds([item]) == (if item.Sent? then multiset{item.id} else multiset{}) + SentIds([]);
  }

  lemma {:induction false} AddedKeeps(p: Poller, id: Id)
    requires Inv(p) && id.FdNode? && id !in p.known && id.fd !in p.table
    ensures Inv(p.(table := p.table[id.fd := id], known := p.known + {id}))
  {
    var q := p.(table := p.table[id.fd := id], known := p.known + {id});
    assert Places(p, id) == 0;
    forall id
      ensures Places(q, id) == One(id in q.known)
    {
      assert Places(p, id) == One(id in p.known);
    }
  }

  /** Taking out a node keeps the nodes of the batch. */
  lemma {:induction false} BatchKept(p: Poller, q: Poller)
    requires BatchLive(p) && q.thread == p.thread && (q.stopped ==> Batch(p.thread) == [])
    requires forall id :: id in Batch(p.thread) && BatchNode(p, id) ==> BatchNode(q, id)
    ensures BatchLive(q)
  {
  }

  lemma {:induction false} DeletedConserves(p: Poller, fd: nat)
    requires Inv(p) && fd in p.table
    ensures Conserved(Deleted(p, fd)) && Places(p, p.table[fd]) == 1
  {
    hide SentIds;
    var q := Deleted(p, fd);
    SentOne(p.pipe, Sent(p.table[fd]));
    assert Places(p, p.table[fd]) == 1;
    forall id
      ensures Places(q, id) == One(id in q.known)
    {
      assert Places(p, id) == One(id in p.known);
    }
  }

  /** A node in the table is nowhere else. */
  lemma {:induction false} OnlyInTable(p: Poller, fd: nat)
    requires Inv(p) && fd in p.table
    ensures var id := p.table[fd];
            && id in p.known && id !in p.removed && p.direct[id] == 0 && p.delivered[id] == 0
            && SentIds(p.pipe)[id] == 0
            && (p.stopper.Collected? ==> id !in p.stopper.ids && id !in p.before)
  {
    hide SentIds;
    var id := p.table[fd];
    assert Registered(p, id);
    assert Places(p, id) == One(id in p.known);
  }

  lemma {:induction false} DeletedFlags(p: Poller, fd: nat)
    requires Keyed(p) && Flagged(p) && fd in p.table && p.table[fd] in p.known
    ensures Keyed(Deleted(p, fd)) && Flagged(Deleted(p, fd))
  {
  }

  lemma {:induction false} DeletedStops(p: Poller, fd: nat)
    requires Stopping(p) && fd in p.table && (p.stopper.Collected? ==> p.table[fd] !in p.before)
    ensures Stopping(Deleted(p, fd))
  {
  }

  lemma {:induction false} DeletedKeeps(p: Poller, fd: nat)
    requires Inv(p)
    ensures Inv(Deleted(p, fd))
  {
    hide SentIds;
    hide Conserved;
    hide Keyed;
    hide Flagged;
    hide Stopping;
    if fd in p.table {
      DeletedConserves(p, fd);
      OnlyInTable(p, fd);
      DeletedFlags(p, fd);
      DeletedStops(p, fd);
      DeletedBatch(p, fd);
    }
  }

  lemma {:induction false} DeletedBatch(p: Poller, fd: nat)
    requires Inv(p) && fd in p.table
    ensures BatchLive(Deleted(p, fd))
  {
    hide SentIds;
    OnlyInTable(p, fd);
    SentOne(p.pipe, Sent(p.table[fd]));
    BatchKept(p, Deleted(p, fd));
  }

  lemma {:induction false} ModifiedConserves(p: Poller, id: Id)
    requires Inv(p) && id.FdNode? && id !in p.known && id.fd in p.table
    ensures Conserved(Modified(p, id))
  {
    hide SentIds;
    var q := Modified(p, id);
    SentOne(p.pipe, Sent(p.table[id.fd]));
    assert Places(p, p.table[id.fd]) == 1 && Places(p, id) == 0;
    forall other
      ensures Places(q, other) == One(other in q.known)
    {
      assert Places(p, other) == One(other in p.known);
    }
  }

  lemma {:induction false} ModifiedFlags(p: Poller, id: Id)
    requires Keyed(p) && Flagged(p) && id.FdNode? && id !in p.known && id.fd in p.table && p.table[id.fd] in p.known
    ensures Keyed(Modified(p, id)) && Flagged(Modified(p, id))
  {
  }

  lemma {:induction false} ModifiedStops(p: Poller, id: Id)
    requires Stopping(p) && id.FdNode? && id.fd in p.table && (p.stopper.Collected? ==> p.table[id.fd] !in p.before)
    ensures Stopping(Modified(p, id))
  {
  }

  lemma {:induction false} ModifiedBatch(p: Poller, id: Id)
    requires Inv(p) && id.FdNode? && id !in p.known && id.fd in p.table
    ensures BatchLive(Modified(p, id))
  {
    hide SentIds;
    OnlyInTable(p, id.fd);
    SentOne(p.pipe, Sent(p.table[id.fd]));
    assert Places(p, id) == One(id in p.known);
    forall x | x in Batch(p.thread)
      ensures BatchNode(Modified(p, id), x)
    {
      assert BatchNode(p, x);
    }
  }

  lemma {:induction false} ModifiedKeeps(p: Poller, id: Id)
    requires Inv(p) && id.FdNode? && id !in p.known
    ensures Inv(Modified(p, id))
  {
    hide SentIds;
    hide Conserved;
    hide Keyed;
    hide Flagged;
    hide Stopping;
    if id.fd in p.table {
      ModifiedConserves(p, id);
      OnlyInTable(p, id.fd);
      ModifiedFlags(p, id);
      ModifiedStops(p, id);
      ModifiedBatch(p, id);
    }
  }

  lemma {:induction false} TimerAddedKeeps(p: Poller, id: Id)
    requires Inv(p) && id.TimerNode? && id !in p.known
    ensures Inv(p.(timers := p.timers + {id}, known := p.known + {id}))
  {
    var q := p.(timers := p.timers + {id}, known := p.known + {id});
    assert Places(p, id) == 0;
    forall id
      ensures Places(q, id) == One(id in q.known)
    {
      assert Places(p, id) == One(id in p.known);
    }
  }

  lemma {:induction false} TimerDeletedKeeps(p: Poller, id: Id)
    requires Inv(p) && id.TimerNode? && id in p.known
    ensures Inv(TimerDeleted(p, id))
  {
    var q := TimerDeleted(p, id);
    forall id
      ensures Places(q, id) == One(id in q.known)
    {
      assert Places(p, id) == One(id in p.known);
    }
  }

  lemma {:induction false} DirectCalledKeeps(p: Poller, id: Id)
    requires Inv(p) && id in p.direct
    ensures Inv(p.(direct := p.direct - multiset{id}, delivered := p.delivered + multiset{id}))
  {
    var q := p.(direct := p.direct - multiset{id}, delivered := p.delivered + multiset{id});
    forall id
      ensures Places(q, id) == One(id in q.known)
    {
      assert Places(p, id) == One(id in p.known);
    }
  }

  lemma {:induction false} ThreadKeeps(p: Poller, t: Thread)
    requires Inv(p) && t.Handling? && BatchLive(p.(thread := t)) && (p.thread.Waiting? || p.thread.Handling?)
    ensures Inv(p.(thread := t))
  {
    var q := p.(thread := t);
    forall id
      ensures Places(q, id) == One(id in q.known)
    {
      assert Places(p, id) == One(id in p.known);
    }
  }

  lemma {:induction false} RestLive(p: Poller, rest: seq<Id>, pipeEvent: bool)
    requires BatchLive(p) && Batch(p.thread) != [] && rest == Batch(p.thread)[1..]
    ensures BatchLive(p.(thread := Handling(rest, pipeEvent)))
  {
    var q := p.(thread := Handling(rest, pipeEvent));
    forall id | id in rest
      ensures BatchNode(q, id)
    {
      assert id in Batch(p.thread);
    }
  }

  lemma {:induction false} RemovingKeeps(p: Poller)
    requires Inv(p) && p.thread.Handling? && p.thread.events != []
    ensures Inv(Removing(p))
  {
    var id, rest := p.thread.events[0], p.thread.events[1..];
    assert id in Batch(p.thread);
    RestLive(p, rest, p.thread.pipeEvent);
    if id in p.removed {
      ThreadKeeps(p, Handling(rest, p.thread.pipeEvent));
    } else {
      var q := Removing(p);
      assert Places(p, id) == 1;
      forall id
        ensures Places(q, id) == One(id in q.known)
      {
        assert Places(p, id) == One(id in p.known);
      }
      forall other | other in rest
        ensures BatchNode(q, other)
      {
        assert other in Batch(p.thread) && other != id;
      }
    }
  }

  lemma {:induction false} RemovedCalledKeeps(p: Poller)
    requires Inv(p) && p.thread.Removed?
    ensures Inv(Apply(p, CallRemoved))
  {
    var q := Apply(p, CallRemoved);
    forall id
      ensures Places(q, id) == One(id in q.known)
    {
      assert Places(p, id) == One(id in p.known);
    }
  }

  lemma {:induction false} ReadKeeps(p: Poller, count: nat)
    requires Inv(p) && p.thread.Handling? && p.thread.events == [] && count <= |p.pipe|
    ensures Inv(p.(thread := Piping(p.pipe[..count], false), pipe := p.pipe[count..]))
  {
    var q := p.(thread := Piping(p.pipe[..count], false), pipe := p.pipe[count..]);
    SentSplit(p.pipe, count);
    forall id
      ensures Places(q, id) == One(id in q.known)
    {
      assert Places(p, id) == One(id in p.known);
    }
  }

  lemma {:induction false} PipedCalledKeeps(p: Poller)
    requires Inv(p) && p.thread.Piping? && p.thread.items != []
    ensures Inv(PipedCalled(p))
  {
    var q := PipedCalled(p);
    var items := p.thread.items;
    assert SentIds(items) == (if items[0].Sent? then multiset{items[0].id} else multiset{}) + SentIds(items[1..]);
    forall id
      ensures Places(q, id) == One(id in q.known)
    {
      assert Places(p, id) == One(id in p.known);
    }
  }

  lemma {:induction false} SweptKeeps(p: Poller, expired: set<Id>)
    requires Inv(p) && Idle(p.thread) && forall id :: id in expired ==> Registered(p, id)
    ensures Inv(Swept(p, expired))
  {
    var q := Swept(p, expired);
    forall id
      ensures Places(q, id) == One(id in q.known)
    {
      assert Places(p, id) == One(id in p.known);
    }
  }

  lemma {:induction false} SweptCalledKeeps(p: Poller, id: Id)
    requires Inv(p) && p.thread.Sweeping? && id in p.thread.ids
    ensures Inv(Apply(p, CallSwept(id)))
  {
    var q := Apply(p, CallSwept(id));
    forall id
      ensures Places(q, id) == One(id in q.known)
    {
      assert Places(p, id) == One(id in p.known);
    }
  }

  lemma {:induction false} RestedKeeps(p: Poller, t: Thread)
    requires Inv(p) && ((p.thread == Sweeping({}) && t.Waiting?) || (p.thread == Piping([], true) && t.Exited?))
    ensures Inv(p.(thread := t))
  {
    var q := p.(thread := t);
    forall id
      ensures Places(q, id) == One(id in q.known)
    {
      assert Places(p, id) == One(id in p.known);
    }
  }

  lemma {:induction false} RequestedKeeps(p: Poller)
    requires Inv(p) && p.stopper.NotStopping?
    ensures Inv(Apply(p, RequestStop))
  {
    hide SentIds;
    var q := Apply(p, RequestStop);
    SentOne(p.pipe, StopMark);
    forall id
      ensures Places(q, id) == One(id in q.known)
    {
      assert Places(p, id) == One(id in p.known);
    }
  }

  lemma {:induction false} JoinedKeeps(p: Poller)
    requires Inv(p) && p.stopper.Requested? && p.thread.Exited?
    ensures Inv(Apply(p, Join))
  {
    var q := Apply(p, Join);
    forall id
      ensures Places(q, id) == One(id in q.known)
    {
      assert Places(p, id) == One(id in p.known);
    }
  }

  lemma {:induction false} CollectingKeeps(p: Poller)
    requires Inv(p) && p.stopper.Joined?
    ensures Inv(Collecting(p))
  {
    var q := Collecting(p);
    forall id
      ensures Places(q, id) == One(id in q.known)
    {
      assert Places(p, id) == One(id in p.known);
    }
    forall id | id in q.before
      ensures q.delivered[id] + q.direct[id] + One(id in q.stopper.ids) == 1
    {
      assert Places(q, id) == 1;
    }
  }

  lemma {:induction false} CollectedCalledKeeps(p: Poller, id: Id)
    requires Inv(p) && p.stopper.Collected? && id in p.stopper.ids
    ensures Inv(Apply(p, CallCollected(id)))
  {
    var q := Apply(p, CallCollected(id));
    forall id
      ensures Places(q, id) == One(id in q.known)
    {
      assert Places(p, id) == One(id in p.known);
    }
  }

  lemma {:induction false} CallerKeeps(p: Poller, s: Step)
    requires Inv(p) && Enabled(p, s)
    requires s.Add? || s.Del? || s.Mod? || s.AddTimer? || s.DelTimer? || s.CallDirect?
    ensures Inv(Apply(p, s))
  {
    match s
    case Add(id) => if id.fd !in p.table { AddedKeeps(p, id); }
    case Del(fd) => DeletedKeeps(p, fd);
    case Mod(id) => ModifiedKeeps(p, id);
    case AddTimer(id) => TimerAddedKeeps(p, id);
    case DelTimer(id) => TimerDeletedKeeps(p, id);
    case CallDirect(id) => DirectCalledKeeps(p, id);
  }

  lemma {:induction false} ThreadStepKeeps(p: Poller, s: Step)
    requires Inv(p) && Enabled(p, s)
    requires s.Wake? || s.EventStays? || s.RemoveNode? || s.CallRemoved? || s.ReadPipe? || s.CallPiped?
             || s.Sweep? || s.CallSwept? || s.Sleep? || s.Exit?
    ensures Inv(Apply(p, s))
  {
    match s
    case Wake(events, pipeEvent) =>
      forall id | id in events
        ensures BatchNode(p, id)
      {
        assert InTable(p, id);
      }
      ThreadKeeps(p, Handling(events, pipeEvent));
    case EventStays =>
      RestLive(p, p.thread.events[1..], p.thread.pipeEvent);
      ThreadKeeps(p, Handling(p.thread.events[1..], p.thread.pipeEvent));
    case RemoveNode => RemovingKeeps(p);
    case CallRemoved => RemovedCalledKeeps(p);
    case ReadPipe(count) => ReadKeeps(p, count);
    case CallPiped => PipedCalledKeeps(p);
    case Sweep(expired) => SweptKeeps(p, expired);
    case CallSwept(id) => SweptCalledKeeps(p, id);
    case Sleep => RestedKeeps(p, Waiting);
    case Exit => RestedKeeps(p, Exited);
  }

  lemma {:induction false} StepKeeps(p: Poller, s: Step)
    requires Inv(p) && Enabled(p, s)
    ensures Inv(Apply(p, s))
  {
    match s
    case RequestStop => RequestedKeeps(p);
    case Join => JoinedKeeps(p);
    case Collect => CollectingKeeps(p);
    case CallCollected(id) => CollectedCalledKeeps(p, id);
    case _ =>
      if s.Add? || s.Del? || s.Mod? || s.AddTimer? || s.DelTimer? || s.CallDirect? {
        CallerKeeps(p, s);
      } else {
        ThreadStepKeeps(p, s);
      }
  }

  // ----- whole runs -----

  ghost predicate Runs(p: Poller, steps: seq<Step>, q: Poller)
    decreases |steps|
  {
    if steps == [] then p == q else Enabled(p, steps[0]) && Runs(Apply(p, steps[0]), steps[1..], q)
  }

  ghost predicate Reachable(p: Poller) {
    exists steps :: Runs(Start(), steps, p)
  }

  lemma {:induction false} RunKeeps(p: Poller, steps: seq<Step>, q: Poller)
    requires Inv(p) && Runs(p, steps, q)
    ensures Inv(q)
    decreases |steps|
  {
    if steps != [] {
      StepKeeps(p, steps[0]);
      RunKeeps(Apply(p, steps[0]), steps[1..], q);
    }
  }

  lemma {:induction false} ReachableInv(p: Poller)
    requires Reachable(p)
    ensures Inv(p)
  {
    var steps :| Runs(Start(), steps, p);
    assert Inv(Start());
    RunKeeps(Start(), steps, p);
  }

  /** Over all interleavings a registered node is in exactly one place, so it is handed over at most once. */
  lemma {:induction false} HandedOverAtMostOnce(p: Poller, id: Id)
    requires Reachable(p)
    ensures Places(p, id) == One(id in p.known)
    ensures p.delivered[id] <= 1 && (id in p.delivered ==> id in p.known && !Registered(p, id))
  {
    ReachableInv(p);
    assert Places(p, id) == One(id in p.known);
  }

  /**
   When poller_stop has called back all it collected, every node registered before its critical
   section was handed over exactly once, or is in the hands of a caller of del, mod or del_timer
   that took it out and is about to call back.
   */
  lemma {:induction false} StopHandsOverAll(p: Poller, id: Id)
    requires Reachable(p) && p.stopper == Collected({}) && id in p.before
    ensures p.delivered[id] + p.direct[id] == 1
  {
    ReachableInv(p);
  }

  /** The poller thread never looks at a node after its hand-over: no node of the current batch was delivered. */
  lemma {:induction false} BatchNotDelivered(p: Poller, id: Id)
    requires Reachable(p) && id in Batch(p.thread)
    ensures id !in p.delivered && id !in p.direct && id in p.known
  {
    ReachableInv(p);
    assert BatchNode(p, id);
    assert Places(p, id) == One(id in p.known);
  }

  /** Unless its flag is set, a node that an event handler removes is the one the table holds for its descriptor. */
  lemma {:induction false} RemovesItself(p: Poller)
    requires Reachable(p) && Enabled(p, RemoveNode)
    ensures var id := p.thread.events[0]; id.FdNode? && (id !in p.removed <==> id.fd in p.table && p.table[id.fd] == id)
  {
    ReachableInv(p);
    var id := p.thread.events[0];
    assert id in Batch(p.thread);
    assert BatchNode(p, id);
  }

  /** poller_del_timer succeeds exactly on timers that nobody took out before. */
  lemma {:induction false} TimerTakenOnce(p: Poller, id: Id)
    requires Reachable(p) && id.TimerNode? && id in p.known
    ensures id !in p.removed <==> id in p.timers
  {
    ReachableInv(p);
  }
}
