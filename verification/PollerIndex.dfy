/**
 The poller of src/kernel/poller.c with its deadline index and timer: module PollerHandover says where the nodes
 are, and the index is the value that the operations of class DeadlineIndex (module Deadlines) compute: two lists,
 a tree, flags, and the time for which the timer is armed.
 */
module PollerIndex {
  import opened Basics
  import opened Lists
  import opened PollerHandover
  import DeadlineOrder
  import DeadlineState

  type Index = DeadlineState.Index
  type Address = nat
  const NULL: Address := 0

  /**
   `addr` and `node` are the addresses of the registered nodes and the nodes at these addresses; `due` is what the
   callers asked for: the deadline last set for each registered node, or none.
   */
  datatype Poll = Poll(p: Poller, x: Index, addr: map<Id, Address>, node: map<Address, Id>, due: map<Id, Option<nat>>)

  /** Steps with an address, a deadline or the time, or any other step of module PollerHandover */
  datatype Move =
    | Enter(s: Step, at: Address, deadline: Option<nat>)
    | SetTimeout(fd: nat, deadline: Option<nat>)
    | SweepAt(now: nat)
    | GoToSleep
    | Other(s: Step)

  function Put(x: Index, n: Address, deadline: Option<nat>): Index {
    if deadline.Some? then x.Insert(n, deadline.value) else x.Append(n)
  }

  /** A new node is put into the index. */
  function Enrolled(q: Poll, id: Id, at: Address, deadline: Option<nat>): Poll {
    q.(x := Put(q.x.Fresh(at), at, deadline),
       addr := q.addr[id := at], node := q.node[at := id], due := q.due[id := deadline])
  }

  /** A node is taken out of the index. */
  function Struck(q: Poll, id: Id): Poll {
    if id !in q.addr then q
    else q.(x := q.x.Remove(q.addr[id]), addr := q.addr - {id}, node := q.node - {q.addr[id]}, due := q.due - {id})
  }

  /** poller_add, poller_mod and poller_add_timer register a node, unless the descriptor does not fit. */
  predicate Registers(p: Poller, s: Step) {
    match s
    case Add(id) => id.FdNode? && id.fd !in p.table
    case Mod(id) => id.FdNode? && id.fd in p.table
    case AddTimer(_) => true
    case _ => false
  }

  /** The node that a step takes out of the index, if any */
  function TakenOut(p: Poller, s: Step): Option<Id> {
    match s
    case Del(fd) => if fd in p.table then Some(p.table[fd]) else None
    case Mod(id) => if id.FdNode? && id.fd in p.table then Some(p.table[id.fd]) else None
    case DelTimer(id) => if id in p.removed then None else Some(id)
    case RemoveNode =>
      if p.thread.Handling? && p.thread.events != [] && p.thread.events[0] !in p.removed && p.thread.events[0].FdNode?
      then Some(p.thread.events[0]) else None
    case _ => None
  }

  function Without(q: Poll, s: Step): Poll {
    var id := TakenOut(q.p, s);
    if id.None? then q else Struck(q, id.value)
  }

  /** The nodes that a sweep finds in list and tree */
  function DueIds(q: Poll, now: nat): set<Id> {
    set n | n in q.x.Due(now) && n in q.node :: q.node[n]
  }

  /** Absolute times are positive, and a new node has an address that no registered node has. */
  predicate Can(q: Poll, m: Move) {
    match m
    case Enter(s, at, deadline) =>
      && (s.Add? || s.Mod? || s.AddTimer?) && Enabled(q.p, s) && (s.AddTimer? ==> deadline.Some?)
      && (deadline.Some? ==> deadline.value > 0) && at != NULL && at !in q.node
    case SetTimeout(fd, deadline) => deadline.Some? ==> deadline.value > 0
    case SweepAt(now) => Idle(q.p.thread)
    case GoToSleep => Enabled(q.p, Sleep)
    case Other(s) => Enabled(q.p, s) && !s.Add? && !s.Mod? && !s.AddTimer? && !s.Sweep? && !s.Sleep?
  }

  function Do(q: Poll, m: Move): Poll
    requires Can(q, m)
  {
    match m
    case Enter(s, at, deadline) =>
      var r := Without(q, s);
      (if Registers(q.p, s) then Enrolled(r, s.id, at, deadline) else r).(p := Apply(q.p, s))
    case SetTimeout(fd, deadline) =>
      if fd in q.p.table then Moved(q, q.p.table[fd], deadline) else q
    case SweepAt(now) => SweptAway(q, now)
    case GoToSleep => q.(p := Apply(q.p, Sleep), x := q.x.Rearm())
    case Other(s) =>
      if s.Collect? then Poll(Apply(q.p, s), q.x.Clear(), map[], map[], map[])
      else Without(q, s).(p := Apply(q.p, s))
  }

  /** poller_set_timeout takes the node out and puts it back. */
  function Moved(q: Poll, id: Id, deadline: Option<nat>): Poll {
    if id !in q.addr then q
    else q.(x := Put(q.x.Remove(q.addr[id]), q.addr[id], deadline), due := q.due[id := deadline])
  }

  function SweptAway(q: Poll, now: nat): Poll {
    var ids := DueIds(q, now);
    Poll(Swept(q.p, ids), q.x.Sweep(now), q.addr - ids, q.node - (set n | n in q.x.Due(now)), q.due - ids)
  }

  // ----- the index is the map of the deadlines asked for -----

  /** A node without deadline is in the third list; one with a deadline is in the list or in the tree. */
  predicate Filed(x: Index, n: Address, deadline: Option<nat>) {
    if deadline.Some? then n in x.Timed() && x.Timed()[n] == deadline.value else n in x.none
  }

  ghost predicate Inverse(addr: map<Id, Address>, node: map<Address, Id>) {
    && (forall id :: id in addr ==> addr[id] in node && node[addr[id]] == id)
    && (forall n :: n in node ==> node[n] in addr && addr[node[n]] == n)
  }

  ghost predicate Tied(x: Index, addr: map<Id, Address>, node: map<Address, Id>, due: map<Id, Option<nat>>) {
    && x.Valid() && Inverse(addr, node)
    && (forall id :: id in due <==> id in addr)
    && (forall n :: n in node <==> n in x.Timed() || n in x.none)
    && (forall id :: id in addr ==> Filed(x, addr[id], due[id]))
  }

  /** A member of list or tree is timed, and no timed node is in the third list. */
  lemma {:induction false} HasTimed(x: Index, n: Address)
    requires x.Valid()
    ensures n in x.Timed() <==> n in x.list || n in x.ord
    ensures x.Has(n) <==> n in x.Timed() || n in x.none
    ensures !(n in x.Timed() && n in x.none)
  {
  }

  lemma {:induction false} Separate(x: Index)
    requires x.Valid()
    ensures forall n :: !(n in x.Timed() && n in x.none)
  {
    forall n
      ensures !(n in x.Timed() && n in x.none)
    {
      HasTimed(x, n);
    }
  }

  /** What a change of the timed nodes and of the others by one node means for the maps */
  lemma {:induction false} TiedWith(x: Index, y: Index, q: Poll, id: Id, n: Address, deadline: Option<nat>)
    requires Tied(x, q.addr, q.node, q.due) && y.Valid() && n !in q.node && id !in q.addr
    requires y.Timed() == if deadline.Some? then x.Timed()[n := deadline.value] else x.Timed()
    requires forall m :: m in y.none <==> m in x.none || (m == n && deadline.None?)
    ensures Tied(y, q.addr[id := n], q.node[n := id], q.due[id := deadline])
  {
  }

  lemma {:induction false} TiedWithout(x: Index, y: Index, q: Poll, id: Id)
    requires Tied(x, q.addr, q.node, q.due) && y.Valid() && id in q.addr && y.Timed() == x.Timed() - {q.addr[id]}
    requires forall m :: m in y.none <==> m in x.none && m != q.addr[id]
    ensures Tied(y, q.addr - {id}, q.node - {q.addr[id]}, q.due - {id})
  {
  }

  lemma {:induction false} PutTied(x: Index, q: Poll, id: Id, n: Address, deadline: Option<nat>)
    requires Tied(x, q.addr, q.node, q.due) && n !in q.node && n != NULL && n !in x.inTree && id !in q.addr
    requires deadline.Some? ==> deadline.value > 0
    ensures Tied(Put(x, n, deadline), q.addr[id := n], q.node[n := id], q.due[id := deadline])
    ensures x.Covered() ==> Put(x, n, deadline).Covered()
  {
    HasTimed(x, n);
    if deadline.Some? {
      DeadlineState.Inserted(x, n, deadline.value);
    } else {
      DeadlineState.AppendedUntimed(x, n);
    }
    hide DeadlineState.Index.Insert;
    hide DeadlineState.Index.Append;
    hide DeadlineState.Index.Valid;
    hide Inverse;
    TiedWith(x, Put(x, n, deadline), q, id, n, deadline);
  }

  lemma {:induction false} EnrolledTied(q: Poll, id: Id, at: Address, deadline: Option<nat>)
    requires Tied(q.x, q.addr, q.node, q.due) && at !in q.node && at != NULL && id !in q.addr
    requires deadline.Some? ==> deadline.value > 0
    ensures var r := Enrolled(q, id, at, deadline);
            Tied(r.x, r.addr, r.node, r.due) && (q.x.Covered() ==> r.x.Covered())
  {
    HasTimed(q.x, at);
    DeadlineState.FreshValid(q.x, at);
    assert q.x.Fresh(at).Timed() == q.x.Timed();
    assert Tied(q.x.Fresh(at), q.addr, q.node, q.due);
    PutTied(q.x.Fresh(at), q, id, at, deadline);
  }

  lemma {:induction false} StruckTied(q: Poll, id: Id)
    requires Tied(q.x, q.addr, q.node, q.due) && id in q.addr
    ensures var r := Struck(q, id); Tied(r.x, r.addr, r.node, r.due) && (q.x.Covered() ==> r.x.Covered())
    ensures q.addr[id] !in Struck(q, id).x.inTree && q.addr[id] != NULL
  {
    var n := q.addr[id];
    HasTimed(q.x, n);
    DeadlineState.Removed(q.x, n);
    TiedWithout(q.x, q.x.Remove(n), q, id);
  }

  lemma {:induction false} BackAgain<K, V>(m: map<K, V>, k: K, v: V)
    ensures (m - {k})[k := v] == m[k := v] && (k in m && m[k] == v ==> m[k := v] == m)
  {
  }

  lemma {:induction false} MovedTied(q: Poll, id: Id, deadline: Option<nat>)
    requires Tied(q.x, q.addr, q.node, q.due) && id in q.addr && (deadline.Some? ==> deadline.value > 0)
    ensures var r := Moved(q, id, deadline); Tied(r.x, r.addr, r.node, r.due) && (q.x.Covered() ==> r.x.Covered())
  {
    var r, n := Struck(q, id), q.addr[id];
    StruckTied(q, id);
    assert n in q.node && q.node[n] == id && n !in r.node && id !in r.addr;
    BackAgain(q.addr, id, n);
    BackAgain(q.node, n, id);
    BackAgain(q.due, id, deadline);
    hide Tied;
    hide Put;
    hide DeadlineState.Index.Covered;
    hide DeadlineState.Index.Remove;
    PutTied(r.x, r, id, n, deadline);
  }

  /** The ids of the nodes that a sweep finds are those with a deadline that has passed. */
  lemma {:induction false} DueIdsAre(q: Poll, now: nat, id: Id)
    requires Tied(q.x, q.addr, q.node, q.due)
    ensures id in DueIds(q, now) <==> id in q.due && q.due[id].Some? && q.due[id].value <= now
    ensures id in DueIds(q, now) <==> id in q.addr && q.addr[id] in q.x.Due(now)
  {
    DeadlineState.Swept(q.x, now);
    Separate(q.x);
    if id in q.addr && q.addr[id] in q.x.Due(now) {
      assert q.node[q.addr[id]] in DueIds(q, now);
    }
  }

  /** Taking out some of the nodes, with their ids */
  lemma {:induction false} InverseWithout(addr: map<Id, Address>, node: map<Address, Id>, ids: set<Id>,
                                          gone: set<Address>)
    requires Inverse(addr, node) && forall id :: id in ids <==> id in addr && addr[id] in gone
    ensures Inverse(addr - ids, node - gone)
  {
  }

  lemma {:induction false} TiedWithoutAll(x: Index, y: Index, q: Poll, ids: set<Id>, gone: set<Address>)
    requires Tied(x, q.addr, q.node, q.due) && y.Valid() && y.none == x.none
    requires forall id :: id in ids <==> id in q.addr && q.addr[id] in gone
    requires y.Timed() == x.Timed() - gone && forall n :: n in gone ==> n !in x.none
    ensures Tied(y, q.addr - ids, q.node - gone, q.due - ids)
  {
    InverseWithout(q.addr, q.node, ids, gone);
    var addr, due := q.addr - ids, q.due - ids;
    hide Inverse;
    forall id | id in addr
      ensures Filed(y, addr[id], due[id])
    {
      assert Filed(x, q.addr[id], q.due[id]);
    }
  }

  lemma {:induction false} SweptTied(q: Poll, now: nat)
    requires Tied(q.x, q.addr, q.node, q.due)
    ensures var r := SweptAway(q, now); Tied(r.x, r.addr, r.node, r.due)
  {
    var gone := set n | n in q.x.Due(now);
    DeadlineState.Swept(q.x, now);
    Separate(q.x);
    forall id
      ensures id in DueIds(q, now) <==> id in q.addr && q.addr[id] in gone
    {
      DueIdsAre(q, now, id);
    }
    LaterIsWithout(q.x.Timed(), gone, now);
    hide Tied;
    hide DueIds;
    hide DeadlineState.Index.Valid;
    hide DeadlineState.Index.Timed;
    hide DeadlineState.Index.Due;
    hide DeadlineOrder.DueAfter;
    TiedWithoutAll(q.x, q.x.Sweep(now), q, DueIds(q, now), gone);
  }

  lemma {:induction false} LaterIsWithout(m: map<Address, nat>, gone: set<Address>, now: nat)
    requires forall n :: n in gone <==> n in m && m[n] <= now
    ensures DeadlineOrder.DueAfter(m, now) == m - gone
  {
  }

  // ----- the index holds exactly the registered nodes -----

  /** Timers always have a deadline. */
  ghost predicate Registry(p: Poller, due: map<Id, Option<nat>>) {
    && (forall id :: Registered(p, id) <==> id in due)
    && (forall id :: id in p.timers ==> id in due && due[id].Some?)
  }

  ghost predicate Good(q: Poll) {
    && Inv(q.p) && Registry(q.p, q.due) && Tied(q.x, q.addr, q.node, q.due)
    && (q.p.thread.Waiting? ==> q.x.Covered())
  }

  /** The registry after a descriptor's entry is gone */
  lemma {:induction false} TableWithout(p: Poller, fd: nat, p': Poller, due: map<Id, Option<nat>>)
    requires Keyed(p) && fd in p.table && p'.table == p.table - {fd} && p'.timers == p.timers && Registry(p, due)
    ensures Registry(p', due - {p.table[fd]})
  {
  }

  lemma {:induction false} TableWith(p: Poller, id: Id, p': Poller, due: map<Id, Option<nat>>, deadline: Option<nat>)
    requires Keyed(p) && id.FdNode? && id.fd !in p.table && p'.table == p.table[id.fd := id] && p'.timers == p.timers
    requires Registry(p, due)
    ensures id !in due && Registry(p', due[id := deadline])
  {
    assert !Registered(p, id);
  }

  lemma {:induction false} TimerWith(p: Poller, id: Id, p': Poller, due: map<Id, Option<nat>>, deadline: Option<nat>)
    requires p'.table == p.table && p'.timers == p.timers + {id} && Registry(p, due) && deadline.Some?
    ensures Registry(p', due[id := deadline])
  {
  }

  lemma {:induction false} TimerWithout(p: Poller, id: Id, p': Poller, due: map<Id, Option<nat>>)
    requires Keyed(p) && id.TimerNode? && p'.table == p.table && p'.timers == p.timers - {id} && Registry(p, due)
    ensures Registry(p', due - {id})
  {
  }

  lemma {:induction false} SameRegistry(p: Poller, p': Poller, due: map<Id, Option<nat>>)
    requires p'.table == p.table && p'.timers == p.timers && Registry(p, due)
    ensures Registry(p', due)
  {
  }

  // ----- every step keeps it -----

  lemma {:induction false} AddGood(q: Poll, id: Id, at: Address, deadline: Option<nat>)
    requires Good(q) && Can(q, Enter(Add(id), at, deadline))
    ensures Good(Do(q, Enter(Add(id), at, deadline)))
  {
    StepKeeps(q.p, Add(id));
    hide Inv;
    hide Tied;
    hide Registry;
    if id.fd !in q.p.table {
      TableAdded(q, id, at, deadline);
      EnrolledTied(q, id, at, deadline);
    }
  }

  lemma {:induction false} TableAdded(q: Poll, id: Id, at: Address, deadline: Option<nat>)
    requires Good(q) && Can(q, Enter(Add(id), at, deadline)) && id.fd !in q.p.table
    ensures id !in q.addr && Registry(Apply(q.p, Add(id)), q.due[id := deadline])
  {
    TableWith(q.p, id, Apply(q.p, Add(id)), q.due, deadline);
  }

  lemma {:induction false} AddTimerGood(q: Poll, id: Id, at: Address, deadline: Option<nat>)
    requires Good(q) && Can(q, Enter(AddTimer(id), at, deadline))
    ensures Good(Do(q, Enter(AddTimer(id), at, deadline)))
  {
    var p' := Apply(q.p, AddTimer(id));
    StepKeeps(q.p, AddTimer(id));
    assert !Registered(q.p, id);
    assert id !in q.addr;
    TimerWith(q.p, id, p', q.due, deadline);
    hide Inv;
    hide Tied;
    hide Registry;
    EnrolledTied(q, id, at, deadline);
  }

  /** poller_mod: the old node out, the new one in */
  lemma {:induction false} TableModified(q: Poll, id: Id, deadline: Option<nat>)
    requires Good(q) && Enabled(q.p, Mod(id)) && id.fd in q.p.table
    ensures q.p.table[id.fd] in q.addr && id !in Struck(q, q.p.table[id.fd]).addr
    ensures Registry(Apply(q.p, Mod(id)), Struck(q, q.p.table[id.fd]).due[id := deadline])
  {
    var out := q.p.table[id.fd];
    assert Registered(q.p, out);
    var mid := q.p.(table := q.p.table - {id.fd});
    TableWithout(q.p, id.fd, mid, q.due);
    assert Apply(q.p, Mod(id)).table == mid.table[id.fd := id];
    TableWith(mid, id, Apply(q.p, Mod(id)), q.due - {out}, deadline);
  }

  lemma {:induction false} ModGood(q: Poll, id: Id, at: Address, deadline: Option<nat>)
    requires Good(q) && Can(q, Enter(Mod(id), at, deadline))
    ensures Good(Do(q, Enter(Mod(id), at, deadline)))
  {
    StepKeeps(q.p, Mod(id));
    if id.fd in q.p.table {
      ModEnrolled(q, id, at, deadline);
    }
  }

  lemma {:induction false} ModEnrolled(q: Poll, id: Id, at: Address, deadline: Option<nat>)
    requires Good(q) && Can(q, Enter(Mod(id), at, deadline)) && id.fd in q.p.table
    ensures var r := Do(q, Enter(Mod(id), at, deadline));
            && Registry(r.p, r.due) && Tied(r.x, r.addr, r.node, r.due) && (q.x.Covered() ==> r.x.Covered())
  {
    var out := q.p.table[id.fd];
    TableModified(q, id, deadline);
    assert Do(q, Enter(Mod(id), at, deadline)) == Enrolled(Struck(q, out), id, at, deadline).(p := Apply(q.p, Mod(id)));
    assert at !in Struck(q, out).node;
    hide Do;
    hide Apply;
    hide Enabled;
    hide Struck;
    hide Inv;
    hide Tied;
    hide Registry;
    hide DeadlineState.Index.Covered;
    hide DeadlineState.Index.Remove;
    hide Put;
    StruckTied(q, out);
    EnrolledTied(Struck(q, out), id, at, deadline);
  }

  lemma {:induction false} TimeoutGood(q: Poll, fd: nat, deadline: Option<nat>)
    requires Good(q) && Can(q, SetTimeout(fd, deadline)) && fd in q.p.table
    ensures Good(Do(q, SetTimeout(fd, deadline)))
  {
    var id := q.p.table[fd];
    assert Registered(q.p, id) && id.FdNode?;
    assert id !in q.p.timers;
    assert Registry(q.p, q.due[id := deadline]);
    assert id in q.addr;
    hide Inv;
    hide Tied;
    hide Registry;
    MovedTied(q, id, deadline);
  }

  lemma {:induction false} SweepRegistry(q: Poll, now: nat)
    requires Good(q)
    ensures Registry(SweptAway(q, now).p, SweptAway(q, now).due)
    ensures forall id :: id in DueIds(q, now) ==> Registered(q.p, id)
  {
    var ids := DueIds(q, now);
    forall id | id in ids
      ensures Registered(q.p, id)
    {
      DueIdsAre(q, now, id);
    }
    SweptRegistry(q.p, q.due, ids);
  }

  lemma {:induction false} SweptRegistry(p: Poller, due: map<Id, Option<nat>>, ids: set<Id>)
    requires Keyed(p) && Registry(p, due)
    ensures Registry(Swept(p, ids), due - ids)
  {
    var p' := Swept(p, ids);
    forall id
      ensures Registered(p', id) <==> Registered(p, id) && id !in ids
    {
      if id.FdNode? && id.fd in p.table {
        assert id.fd in p'.table <==> p.table[id.fd] !in ids;
      }
    }
  }

  lemma {:induction false} SweepGood(q: Poll, now: nat)
    requires Good(q) && Can(q, SweepAt(now))
    ensures Good(Do(q, SweepAt(now)))
  {
    SweepRegistry(q, now);
    StepKeeps(q.p, Sweep(DueIds(q, now)));
    hide Inv;
    hide Tied;
    hide Registry;
    SweptTied(q, now);
  }

  lemma {:induction false} RearmTied(q: Poll)
    requires Tied(q.x, q.addr, q.node, q.due)
    ensures Tied(q.x.Rearm(), q.addr, q.node, q.due) && q.x.Rearm().Covered()
  {
    DeadlineState.Rearmed(q.x);
    assert q.x.Rearm().none == q.x.none;
    hide DeadlineState.Index.Rearm;
    hide DeadlineState.Index.Valid;
    hide DeadlineState.Index.Timed;
    hide Inverse;
  }

  lemma {:induction false} SleepGood(q: Poll)
    requires Good(q) && Can(q, GoToSleep)
    ensures Good(Do(q, GoToSleep))
  {
    StepKeeps(q.p, Sleep);
    SameRegistry(q.p, Apply(q.p, Sleep), q.due);
    RearmTied(q);
    hide Inv;
    hide Tied;
    hide Registry;
  }

  lemma {:induction false} DelRegistry(q: Poll, fd: nat)
    requires Good(q) && fd in q.p.table
    ensures q.p.table[fd] in q.addr && Registry(Deleted(q.p, fd), q.due - {q.p.table[fd]})
  {
    assert Registered(q.p, q.p.table[fd]);
    TableWithout(q.p, fd, Deleted(q.p, fd), q.due);
  }

  lemma {:induction false} DelTimerRegistry(q: Poll, id: Id)
    requires Good(q) && Enabled(q.p, DelTimer(id)) && id !in q.p.removed
    ensures id in q.addr && Registry(TimerDeleted(q.p, id), q.due - {id})
  {
    assert Registered(q.p, id);
    TimerWithout(q.p, id, TimerDeleted(q.p, id), q.due);
  }

  lemma {:induction false} RemoveNodeRegistry(q: Poll)
    requires Good(q) && Enabled(q.p, RemoveNode) && q.p.thread.events[0] !in q.p.removed
    ensures var id := q.p.thread.events[0]; id.FdNode? && id in q.addr && Registry(Removing(q.p), q.due - {id})
  {
    var id := q.p.thread.events[0];
    assert id in Batch(q.p.thread);
    assert BatchNode(q.p, id);
    assert Registered(q.p, id);
    TableWithout(q.p, id.fd, Removing(q.p), q.due);
  }

  predicate ThreadStep(s: Step) {
    s.Wake? || s.EventStays? || s.CallRemoved? || s.ReadPipe?
  }

  predicate CallStep(s: Step) {
    s.CallPiped? || s.CallSwept? || s.Exit?
  }

  lemma {:induction false} ThreadRegistry(p: Poller, s: Step)
    requires Enabled(p, s) && ThreadStep(s)
    ensures Apply(p, s).table == p.table && Apply(p, s).timers == p.timers && !Apply(p, s).thread.Waiting?
  {
    hide Deleted;
    hide Modified;
    hide TimerDeleted;
    hide Removing;
    hide Swept;
    hide Collecting;
    hide PipedCalled;
  }

  lemma {:induction false} PipedRegistry(p: Poller)
    requires p.thread.Piping? && p.thread.items != []
    ensures var q := PipedCalled(p); q.table == p.table && q.timers == p.timers && !q.thread.Waiting?
  {
    if p.thread.items[0].StopMark? {
    } else {
    }
  }

  lemma {:induction false} CallRegistry(p: Poller, s: Step)
    requires Enabled(p, s) && CallStep(s)
    ensures Apply(p, s).table == p.table && Apply(p, s).timers == p.timers && !Apply(p, s).thread.Waiting?
  {
    hide Deleted;
    hide Modified;
    hide TimerDeleted;
    hide Removing;
    hide Swept;
    hide Collecting;
    hide PipedCalled;
    if s.CallPiped? {
      PipedRegistry(p);
    } else if s.CallSwept? {
    } else {
    }
  }

  lemma {:induction false} CallerRegistry(p: Poller, s: Step)
    requires Enabled(p, s) && (s.CallDirect? || s.RequestStop? || s.Join? || s.CallCollected?)
    ensures Apply(p, s).table == p.table && Apply(p, s).timers == p.timers && Apply(p, s).thread == p.thread
  {
    hide Deleted;
    hide Modified;
    hide TimerDeleted;
    hide Removing;
    hide Swept;
    hide Collecting;
    hide PipedCalled;
    if s.CallDirect? {
    } else if s.RequestStop? {
    } else if s.Join? {
    } else {
    }
  }

  /** Steps that would take a node out but find none */
  lemma {:induction false} NothingTaken(p: Poller, s: Step)
    requires Inv(p) && Enabled(p, s) && (s.Del? || s.DelTimer? || s.RemoveNode?) && TakenOut(p, s).None?
    ensures Apply(p, s).table == p.table && Apply(p, s).timers == p.timers
    ensures Apply(p, s).thread.Waiting? ==> p.thread.Waiting?
  {
    if s.RemoveNode? {
      assert p.thread.events[0] in Batch(p.thread);
    }
  }

  lemma {:induction false} QuietRegistry(p: Poller, s: Step)
    requires Inv(p) && Enabled(p, s) && TakenOut(p, s).None?
    requires !s.Add? && !s.Mod? && !s.AddTimer? && !s.Sweep? && !s.Sleep? && !s.Collect?
    ensures Apply(p, s).table == p.table && Apply(p, s).timers == p.timers
    ensures Apply(p, s).thread.Waiting? ==> p.thread.Waiting?
  {
    hide Inv;
    hide Enabled;
    hide Apply;
    hide TakenOut;
    if ThreadStep(s) {
      ThreadRegistry(p, s);
    } else if CallStep(s) {
      CallRegistry(p, s);
    } else if s.Del? || s.DelTimer? || s.RemoveNode? {
      NothingTaken(p, s);
    } else {
      CallerRegistry(p, s);
    }
  }

  /** Del, DelTimer and RemoveNode take one node out. */
  lemma {:induction false} TakesOne(q: Poll, s: Step)
    requires Good(q) && Can(q, Other(s)) && TakenOut(q.p, s).Some?
    ensures var id := TakenOut(q.p, s).value;
            && id in q.addr && Registry(Apply(q.p, s), q.due - {id})
            && (Apply(q.p, s).thread.Waiting? ==> q.p.thread.Waiting?)
  {
    if s.Del? {
      DelRegistry(q, s.fd);
    } else if s.DelTimer? {
      DelTimerRegistry(q, s.id);
    } else {
      RemoveNodeRegistry(q);
    }
  }

  lemma {:induction false} OtherGood(q: Poll, s: Step)
    requires Good(q) && Can(q, Other(s))
    ensures Good(Do(q, Other(s)))
  {
    StepKeeps(q.p, s);
    if s.Collect? {
      CollectGood(q);
    } else if TakenOut(q.p, s).Some? {
      TakenGood(q, s);
    } else {
      QuietRegistry(q.p, s);
      SameRegistry(q.p, Apply(q.p, s), q.due);
    }
  }

  lemma {:induction false} StruckGood(q: Poll, id: Id, p': Poller)
    requires id in q.addr && Inv(p') && Registry(p', q.due - {id}) && (p'.thread.Waiting? ==> q.x.Covered())
    requires var r := Struck(q, id); Tied(r.x, r.addr, r.node, r.due) && (q.x.Covered() ==> r.x.Covered())
    ensures Good(Struck(q, id).(p := p'))
  {
  }

  lemma {:induction false} TakenGood(q: Poll, s: Step)
    requires Good(q) && Can(q, Other(s)) && TakenOut(q.p, s).Some? && Inv(Apply(q.p, s))
    ensures Good(Do(q, Other(s)))
  {
    TakesOne(q, s);
    assert Do(q, Other(s)) == Struck(q, TakenOut(q.p, s).value).(p := Apply(q.p, s));
    hide Do;
    hide Good;
    hide Inv;
    hide Tied;
    hide Registry;
    hide Enabled;
    hide Apply;
    hide TakenOut;
    hide Struck;
    hide DeadlineState.Index.Covered;
    var id := TakenOut(q.p, s).value;
    StruckTied(q, id);
    StruckGood(q, id, Apply(q.p, s));
  }

  lemma {:induction false} CollectGood(q: Poll)
    requires Good(q) && Can(q, Other(Collect)) && Inv(Apply(q.p, Collect))
    ensures Good(Do(q, Other(Collect)))
  {
    hide Inv;
    assert q.x.Clear().Timed() == map[];
    assert Registry(Apply(q.p, Collect), map[]);
    assert Tied(q.x.Clear(), map[], map[], map[]);
    hide Tied;
    hide Registry;
    hide DeadlineState.Index.Timed;
  }

  lemma {:induction false} MoveKeeps(q: Poll, m: Move)
    requires Good(q) && Can(q, m)
    ensures Good(Do(q, m))
  {
    hide Good;
    match m
    case Enter(s, at, deadline) =>
      if s.Add? {
        AddGood(q, s.id, at, deadline);
      } else if s.Mod? {
        ModGood(q, s.id, at, deadline);
      } else {
        AddTimerGood(q, s.id, at, deadline);
      }
    case SetTimeout(fd, deadline) =>
      if fd in q.p.table {
        TimeoutGood(q, fd, deadline);
      }
    case SweepAt(now) => SweepGood(q, now);
    case GoToSleep => SleepGood(q);
    case Other(s) => OtherGood(q, s);
  }

  // ----- whole runs -----

  function Begin(): Poll {
    Poll(Start(), DeadlineState.NoIndex(), map[], map[], map[])
  }

  ghost predicate Goes(q: Poll, moves: seq<Move>, r: Poll)
    decreases |moves|
  {
    if moves == [] then q == r else Can(q, moves[0]) && Goes(Do(q, moves[0]), moves[1..], r)
  }

  ghost predicate Reached(q: Poll) {
    exists moves :: Goes(Begin(), moves, q)
  }

  lemma {:induction false} MovesKeep(q: Poll, moves: seq<Move>, r: Poll)
    requires Good(q) && Goes(q, moves, r)
    ensures Good(r)
    decreases |moves|
  {
    hide Good;
    if moves != [] {
      MoveKeeps(q, moves[0]);
      MovesKeep(Do(q, moves[0]), moves[1..], r);
    }
  }

  lemma {:induction false} StartGood()
    ensures Good(Begin())
  {
    assert Inv(Start());
    DeadlineState.StartsEmpty();
  }

  lemma {:induction false} ReachedGood(q: Poll)
    requires Reached(q)
    ensures Good(q)
  {
    var moves :| Goes(Begin(), moves, q);
    StartGood();
    hide Good;
    MovesKeep(Begin(), moves, q);
  }

  /**
   In every run timeo_list, the tree and no_timeo_list together hold exactly the registered nodes, each once, and
   timers only with a deadline.
   */
  lemma {:induction false} IndexIsRegistry(q: Poll, id: Id, n: Address)
    requires Reached(q)
    ensures NoDup(q.x.list + q.x.ord + q.x.none)
    ensures (Registered(q.p, id) <==> id in q.due) && (Registered(q.p, id) ==> id in q.addr && q.x.Has(q.addr[id]))
    ensures q.x.Has(n) ==> n in q.node && q.node[n] in q.addr && q.addr[q.node[n]] == n && Registered(q.p, q.node[n])
    ensures id in q.p.timers ==> id in q.addr && q.addr[id] !in q.x.none
  {
    ReachedGood(q);
    HasTimed(q.x, n);
    NoDupJoin(q.x.list, q.x.ord);
    NoDupJoin(q.x.list + q.x.ord, q.x.none);
    if Registered(q.p, id) {
      HasTimed(q.x, q.addr[id]);
    }
  }

  /** In every run list and tree are sorted by the deadlines last asked for, and the third list has the others. */
  lemma {:induction false} DeadlinesAsAsked(q: Poll, id: Id)
    requires Reached(q) && Registered(q.p, id)
    ensures Sorted(q.x.list, q.x.d) && Sorted(q.x.ord, q.x.d) && id in q.addr && id in q.due
    ensures q.due[id].None? <==> q.addr[id] in q.x.none
    ensures var n := q.addr[id];
            q.due[id].Some? ==> (n in q.x.list || n in q.x.ord) && n in q.x.d && q.x.d[n] == q.due[id].value
  {
    ReachedGood(q);
    HasTimed(q.x, q.addr[id]);
  }

  /** In every run, while the poller thread sleeps the timer is armed no later than any deadline asked for. */
  lemma {:induction false} AsleepCovered(q: Poll, id: Id)
    requires Reached(q) && q.p.thread.Waiting? && id in q.due && q.due[id].Some?
    ensures 0 < q.x.armed <= q.due[id].value
  {
    ReachedGood(q);
    assert Filed(q.x, q.addr[id], q.due[id]);
  }

  /** In every run a sweep takes exactly the registered nodes due by then out of the registry, to be handed over. */
  lemma {:induction false} SweepTakesDue(q: Poll, now: nat, id: Id)
    requires Reached(q) && Can(q, SweepAt(now))
    ensures var r, late := Do(q, SweepAt(now)), id in q.due && q.due[id].Some? && q.due[id].value <= now;
            && (id in r.p.thread.ids <==> late) && (Registered(r.p, id) <==> Registered(q.p, id) && !late)
  {
    ReachedGood(q);
    DueIdsAre(q, now, id);
    SweepRegistry(q, now);
  }

  /** The step of the poller that a move is */
  function StepOf(q: Poll, m: Move): Step
    requires !m.SetTimeout?
  {
    match m
    case Enter(s, _, _) => s
    case SweepAt(now) => Sweep(DueIds(q, now))
    case GoToSleep => Sleep
    case Other(s) => s
  }

  /**
   In every run each move with lists, tree and timer is the step of PollerHandover that it stands for, and setting a
   timeout is none: what is proved of the poller holds of it together with its index.
   */
  lemma {:induction false} MovesAreSteps(q: Poll, m: Move)
    requires Reached(q) && Can(q, m)
    ensures m.SetTimeout? ==> Do(q, m).p == q.p
    ensures !m.SetTimeout? ==> Enabled(q.p, StepOf(q, m)) && Do(q, m).p == Apply(q.p, StepOf(q, m))
  {
    if m.SweepAt? {
      forall id | id in DueIds(q, m.now)
        ensures Registered(q.p, id)
      {
        SweepTakesDue(q, m.now, id);
        IndexIsRegistry(q, id, 0);
      }
    }
  }
}
