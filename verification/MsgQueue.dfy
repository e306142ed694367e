/**
 The two-list message queue of src/kernel/msgqueue.c: producers fill one list under the put mutex,
 the consumer that holds the get mutex empties the other one and swaps them when it is done.

 A step is a critical section, a signal, or a change of the nonblock flag.  Condition variables may
 also wake up without a signal.  Messages are identifiers; the lists are sequences from the front.
 */
module MsgQueue {
  import opened Basics

  type Msg = nat

  /** A message and whether it came by msgqueue_put_head; also stands for the producer that brings it. */
  datatype Item = Item(msg: Msg, head: bool)

  /**
   Who holds the get mutex: a consumer that is about to swap, waits for messages, was woken up, or is done with
   the swap; or msgqueue_put_head, about to push.
   */
  datatype Holder = Nobody | WantSwap | Sleeping | Awake | Swapped(any: bool) | Pushing(msg: Msg)

  datatype Queue = Queue(
    max: nat, cnt: nat, nonblock: bool, get: seq<Item>, put: seq<Item>, holder: Holder,
    spinner: Option<Msg>,                       // in the first loop of msgqueue_put_head, with the put mutex
    pending: set<Item>, asleep: set<Item>,      // producers that waited, and those still waiting
    signals: nat, wakers: nat,                  // puts before their signal, set_nonblock calls before their wake-up
    // history
    everNonblock: bool, entered: multiset<Item>, puts: seq<Msg>, taken: seq<Item>)

  datatype Step =
    | Put(msg: Msg) | PutHead(msg: Msg) | TryLock | Push | LeaveLoop | Retry(w: Item) | SpuriousPut(w: Item) | Signal
    | Get | TrySwap | Finish | SpuriousGet
    | SetNonblock | WakeAll | SetBlock

  function Create(max: nat): Queue {
    Queue(max, 0, false, [], [], Nobody, None, {}, {}, 0, 0, false, multiset{}, [], [])
  }

  /** msg_cnt > msg_max - 1 for size_t: with a maximum of zero the right side is the largest number. */
  predicate Full(q: Queue) {
    q.max >= 1 && q.cnt > q.max - 1
  }

  predicate Enabled(q: Queue, s: Step) {
    match s
    case Put(msg) => q.spinner.None? && Item(msg, false) !in q.pending
    case PutHead(msg) => q.spinner.None? && Item(msg, true) !in q.pending
    case TryLock => q.spinner.Some? && q.holder.Nobody?
    case Push => q.holder.Pushing?
    case LeaveLoop => q.spinner.Some? && q.get == []
    case Retry(w) => q.spinner.None? && w in q.pending && w !in q.asleep
    case SpuriousPut(w) => w in q.asleep
    case Signal => q.signals > 0
    case Get => q.holder.Nobody?
    case TrySwap => q.spinner.None? && (q.holder.WantSwap? || q.holder.Awake?)
    case Finish => q.holder.Swapped?
    case SpuriousGet => q.holder.Sleeping?
    case SetNonblock => true
    case WakeAll => q.spinner.None? && q.wakers > 0
    case SetBlock => true
  }

  /** The end of msgqueue_put and msgqueue_put_head, for a producer that need not wait */
  function Insert(q: Queue, w: Item): Queue {
    q.(put := if w.head then [w] + q.put else q.put + [w], cnt := q.cnt + 1, signals := q.signals + 1,
       pending := q.pending - {w}, asleep := q.asleep - {w},
       entered := q.entered + multiset{w}, puts := if w.head then q.puts else q.puts + [w.msg])
  }

  /** The wait loop of both: wait while the queue is full and blocking. */
  function Produce(q: Queue, w: Item): Queue {
    if Full(q) && !q.nonblock then q.(pending := q.pending + {w}, asleep := q.asleep + {w}) else Insert(q, w)
  }

  /** msgqueue_put_head with the get mutex; the get list may have become empty since the test of the loop. */
  function PushFront(q: Queue, msg: Msg): Queue {
    q.(get := [Item(msg, true)] + q.get, entered := q.entered + multiset{Item(msg, true)})
  }

  function TakeFront(q: Queue): Queue
    requires q.get != []
  {
    q.(taken := q.taken + [q.get[0]], get := q.get[1..], holder := Nobody)
  }

  /** __msgqueue_swap behind its wait loop */
  function Swap(q: Queue): Queue {
    q.(get := q.put, put := q.get, cnt := 0, holder := Swapped(q.cnt > 0), asleep := if Full(q) then {} else q.asleep)
  }

  function Woken(h: Holder): Holder {
    if h.Sleeping? then Awake else h
  }

  function Apply(q: Queue, s: Step): Queue
    requires Enabled(q, s)
  {
    match s
    case Put(msg) => Produce(q, Item(msg, false))
    case PutHead(msg) => if q.get != [] then q.(spinner := Some(msg)) else Produce(q, Item(msg, true))
    case TryLock => q.(spinner := None, holder := Pushing(q.spinner.value))
    case Push => PushFront(q, q.holder.msg).(holder := Nobody)
    case LeaveLoop => Produce(q.(spinner := None), Item(q.spinner.value, true))
    case Retry(w) => Produce(q, w)
    case SpuriousPut(w) => q.(asleep := q.asleep - {w})
    case Signal => q.(signals := q.signals - 1, holder := Woken(q.holder))
    case Get => if q.get != [] then TakeFront(q) else q.(holder := WantSwap)
    case TrySwap => if q.cnt == 0 && !q.nonblock then q.(holder := Sleeping) else Swap(q)
    case Finish => if q.holder.any && q.get != [] then TakeFront(q) else q.(holder := Nobody)
    case SpuriousGet => q.(holder := Awake)
    case SetNonblock => q.(nonblock := true, everNonblock := true, wakers := q.wakers + 1)
    case WakeAll => q.(wakers := q.wakers - 1, holder := Woken(q.holder), asleep := {})
    case SetBlock => q.(nonblock := false)
  }

  // ----- what every step keeps -----

  /** The messages of msgqueue_put, in the order of the line. */
  function Tail(s: seq<Item>): seq<Msg> {
    if s == [] then [] else (if s[0].head then [] else [s[0].msg]) + Tail(s[1..])
  }

  /** What left the queue and what is in it, in order. */
  function Line(q: Queue): seq<Item> {
    q.taken + (q.get + q.put)
  }

  predicate Counted(q: Queue) {
    q.cnt == |q.put| && (q.max >= 1 && !q.everNonblock ==> q.cnt <= q.max) && (q.nonblock ==> q.everNonblock)
  }

  /** The consumer goes to swap only with an empty list, and swaps a full one in. */
  predicate Held(q: Queue) {
    && (q.holder.WantSwap? || q.holder.Sleeping? || q.holder.Awake? ==> q.get == [])
    && (q.holder.Swapped? ==> (q.holder.any <==> q.get != []))
  }

  /** Whoever sleeps has no reason to go on, or somebody is about to wake them. */
  predicate Woke(q: Queue) {
    && (q.holder.Sleeping? ==> (q.cnt > 0 ==> q.signals > 0) && (q.nonblock ==> q.wakers > 0))
    && q.asleep <= q.pending && (q.spinner.Some? ==> Item(q.spinner.value, true) !in q.pending)
    && (q.asleep != {} ==> Full(q) && (q.nonblock ==> q.wakers > 0))
  }

  predicate Flags(q: Queue) {
    Counted(q) && Held(q) && Woke(q)
  }

  /** Nothing is lost or duplicated, and the messages of msgqueue_put keep their order. */
  predicate Lined(q: Queue) {
    multiset(Line(q)) == q.entered && Tail(Line(q)) == q.puts
  }

  predicate Inv(q: Queue) {
    Flags(q) && Lined(q)
  }

  lemma {:induction false} TailAppend(x: seq<Item>, y: seq<Item>)
    ensures Tail(x + y) == Tail(x) + Tail(y)
    decreases |x|
  {
    if x == [] {
      assert x + y == y;
    } else {
      assert (x + y)[1..] == x[1..] + y;
      TailAppend(x[1..], y);
    }
  }

  lemma {:induction false} TailOne(w: Item)
    ensures Tail([w]) == if w.head then [] else [w.msg]
  {
    assert [w][1..] == [];
  }

  lemma {:induction false} EntersOnce(x: seq<Item>, w: Item, y: seq<Item>)
    ensures multiset(x + ([w] + y)) == multiset(x + y) + multiset{w}
  {
  }

  lemma {:induction false} HeadEnters(x: seq<Item>, w: Item, y: seq<Item>)
    requires w.head
    ensures Tail(x + ([w] + y)) == Tail(x + y)
  {
    TailAppend(x, [w] + y);
    TailAppend([w], y);
    TailAppend(x, y);
    TailOne(w);
    assert [] + Tail(y) == Tail(y);
  }

  lemma {:induction false} PutEnters(x: seq<Item>, w: Item)
    requires !w.head
    ensures Tail(x + [w]) == Tail(x) + [w.msg]
  {
    TailAppend(x, [w]);
    TailOne(w);
  }

  /** A message of msgqueue_put_head in the middle of the line */
  lemma {:induction false} HeadLines(line: seq<Item>, x: seq<Item>, w: Item, y: seq<Item>, entered: multiset<Item>,
                                     puts: seq<Msg>)
    requires line == x + ([w] + y) && multiset(x + y) == entered && Tail(x + y) == puts && w.head
    ensures multiset(line) == entered + multiset{w} && Tail(line) == puts
  {
    EntersOnce(x, w, y);
    HeadEnters(x, w, y);
  }

  lemma {:induction false} Regroup(t: seq<Item>, g: seq<Item>, p: seq<Item>, w: Item)
    ensures t + (g + p) == (t + g) + p && t + (g + ([w] + p)) == (t + g) + ([w] + p)
    ensures t + (([w] + g) + p) == t + ([w] + (g + p)) && t + (g + (p + [w])) == (t + (g + p)) + [w]
  {
  }

  lemma {:induction false} InsertHead(q: Queue, w: Item)
    requires Lined(q) && w.head
    ensures Lined(Insert(q, w))
  {
    Regroup(q.taken, q.get, q.put, w);
    HeadLines(Line(Insert(q, w)), q.taken + q.get, w, q.put, q.entered, q.puts);
  }

  lemma {:induction false} InsertLast(q: Queue, w: Item)
    requires Lined(q) && !w.head
    ensures Lined(Insert(q, w))
  {
    Regroup(q.taken, q.get, q.put, w);
    PutEnters(Line(q), w);
  }

  lemma {:induction false} InsertLines(q: Queue, w: Item)
    requires Lined(q)
    ensures Lined(Insert(q, w))
  {
    if w.head {
      InsertHead(q, w);
    } else {
      InsertLast(q, w);
    }
  }

  lemma {:induction false} PushLines(q: Queue, msg: Msg)
    requires Lined(q)
    ensures Lined(PushFront(q, msg))
  {
    var w := Item(msg, true);
    Regroup(q.taken, q.get, q.put, w);
    HeadLines(Line(PushFront(q, msg)), q.taken, w, q.get + q.put, q.entered, q.puts);
  }

  lemma {:induction false} SameLine(q: Queue, r: Queue)
    requires Lined(q) && Line(r) == Line(q) && r.entered == q.entered && r.puts == q.puts
    ensures Lined(r)
  {
  }

  lemma {:induction false} TakeLines(q: Queue)
    requires Lined(q) && q.get != []
    ensures Lined(TakeFront(q))
  {
    assert Line(TakeFront(q)) == Line(q);
  }

  lemma {:induction false} SwapLines(q: Queue)
    requires Lined(q) && q.get == []
    ensures Lined(Swap(q))
  {
    assert Line(Swap(q)) == Line(q);
  }

  lemma {:induction false} ProduceKeeps(q: Queue, w: Item)
    requires Inv(q) && w !in q.asleep && q.spinner.None?
    ensures Inv(Produce(q, w))
  {
    if Full(q) && !q.nonblock {
      SameLine(q, Produce(q, w));
    } else {
      InsertLines(q, w);
    }
  }

  predicate Produces(s: Step) {
    s.Put? || s.PutHead? || s.TryLock? || s.Push? || s.LeaveLoop? || s.Retry? || s.SpuriousPut? || s.Signal?
  }

  lemma {:induction false} ProducerKeeps(q: Queue, s: Step)
    requires Inv(q) && Enabled(q, s) && Produces(s)
    ensures Inv(Apply(q, s))
  {
    match s
    case Put(msg) => ProduceKeeps(q, Item(msg, false));
    case PutHead(msg) =>
      if q.get != [] {
        SameLine(q, Apply(q, s));
      } else {
        ProduceKeeps(q, Item(msg, true));
      }
    case TryLock => SameLine(q, Apply(q, s));
    case Push =>
      PushLines(q, q.holder.msg);
      SameLine(PushFront(q, q.holder.msg), Apply(q, s));
    case LeaveLoop =>
      SameLine(q, q.(spinner := None));
      ProduceKeeps(q.(spinner := None), Item(q.spinner.value, true));
    case Retry(w) => ProduceKeeps(q, w);
    case SpuriousPut(w) => SameLine(q, Apply(q, s));
    case Signal => SameLine(q, Apply(q, s));
  }

  lemma {:induction false} ConsumerKeeps(q: Queue, s: Step)
    requires Inv(q) && Enabled(q, s) && (s.Get? || s.TrySwap? || s.Finish? || s.SpuriousGet?)
    ensures Inv(Apply(q, s))
  {
    match s
    case Get => if q.get != [] { TakeLines(q); }
    case TrySwap => if q.cnt != 0 || q.nonblock { SwapLines(q); }
    case Finish => if q.holder.any && q.get != [] { TakeLines(q); }
    case SpuriousGet =>
  }

  lemma {:induction false} StepKeeps(q: Queue, s: Step)
    requires Inv(q) && Enabled(q, s)
    ensures Inv(Apply(q, s))
  {
    if Produces(s) {
      ProducerKeeps(q, s);
    } else if s.Get? || s.TrySwap? || s.Finish? || s.SpuriousGet? {
      ConsumerKeeps(q, s);
    } else {
      SameLine(q, Apply(q, s));
    }
  }

  // ----- whole runs -----

  ghost predicate Runs(q: Queue, steps: seq<Step>, r: Queue)
    decreases |steps|
  {
    if steps == [] then q == r else Enabled(q, steps[0]) && Runs(Apply(q, steps[0]), steps[1..], r)
  }

  ghost predicate Reachable(q: Queue) {
    exists max, steps :: Runs(Create(max), steps, q)
  }

  lemma {:induction false} RunKeeps(q: Queue, steps: seq<Step>, r: Queue)
    requires Inv(q) && Runs(q, steps, r)
    ensures Inv(r)
    decreases |steps|
  {
    if steps != [] {
      StepKeeps(q, steps[0]);
      RunKeeps(Apply(q, steps[0]), steps[1..], r);
    }
  }

  lemma {:induction false} ReachableInv(q: Queue)
    requires Reachable(q)
    ensures Inv(q)
  {
    var max, steps :| Runs(Create(max), steps, q);
    assert Inv(Create(max));
    RunKeeps(Create(max), steps, q);
  }

  /** In every interleaving the messages taken and those still queued are exactly those that entered, each once. */
  lemma {:induction false} NothingLost(q: Queue)
    requires Reachable(q)
    ensures multiset(q.taken) + multiset(q.get) + multiset(q.put) == q.entered
  {
    ReachableInv(q);
  }

  /** Messages of msgqueue_put leave in the order in which they entered. */
  lemma {:induction false} PutOrder(q: Queue)
    requires Reachable(q)
    ensures Tail(q.taken) + Tail(q.get + q.put) == q.puts && Tail(q.taken) <= q.puts
  {
    ReachableInv(q);
    TailAppend(q.taken, q.get + q.put);
  }

  /** msg_cnt is the length of the put list, and is bounded as long as the queue has always been blocking. */
  lemma {:induction false} CountRight(q: Queue)
    requires Reachable(q)
    ensures q.cnt == |q.put| && (q.max >= 1 && !q.everNonblock ==> q.cnt <= q.max)
  {
    ReachableInv(q);
  }

  /** With a maximum of zero the bound never applies: no producer waits. */
  lemma {:induction false} ZeroMeansUnbounded(q: Queue)
    requires Reachable(q) && q.max == 0
    ensures q.asleep == {}
  {
    ReachableInv(q);
  }

  lemma {:induction false} RunsOn(q: Queue, steps: seq<Step>, r: Queue, s: Step)
    requires Runs(q, steps, r) && Enabled(r, s)
    ensures Runs(q, steps + [s], Apply(r, s))
    decreases |steps|
  {
    if steps == [] {
      assert [s][1..] == [];
      assert Runs(Apply(q, s), [], Apply(r, s));
    } else {
      RunsOn(Apply(q, steps[0]), steps[1..], r, s);
      assert (steps + [s])[1..] == steps[1..] + [s];
    }
  }

  lemma {:induction false} ReachesOn(q: Queue, s: Step)
    requires Reachable(q) && Enabled(q, s)
    ensures Reachable(Apply(q, s))
  {
    var max, steps :| Runs(Create(max), steps, q);
    RunsOn(Create(max), steps, q, s);
  }

  lemma {:induction false} Created(max: nat)
    ensures Reachable(Create(max))
  {
    assert Runs(Create(max), [], Create(max));
  }

  /** It does grow without bound: n calls of msgqueue_put. */
  lemma {:induction false} ZeroGrows(n: nat) returns (q: Queue)
    ensures Reachable(q) && q.max == 0 && q.cnt == n && !q.everNonblock && q.spinner.None? && q.pending == {}
  {
    if n == 0 {
      Created(0);
      q := Create(0);
    } else {
      var p := ZeroGrows(n - 1);
      ReachesOn(p, Put(n));
      q := Apply(p, Put(n));
    }
  }

  /** A queue that has always been blocking holds at most max messages in its put list exactly if max is not zero. */
  lemma {:induction false} BoundHoldsExactly(max: nat)
    ensures (forall q :: Reachable(q) && q.max == max && !q.everNonblock ==> q.cnt <= q.max) <==> max >= 1
  {
    if max >= 1 {
      forall q | Reachable(q) && q.max == max && !q.everNonblock
        ensures q.cnt <= q.max
      {
        CountRight(q);
      }
    } else {
      var q := ZeroGrows(1);
    }
  }

  /**
   The consumer sleeps only while nothing is queued or a signal is on its way, and a producer sleeps
   only while the queue is full or is about to be woken.
   */
  lemma {:induction false} NoLostWakeup(q: Queue, w: Item)
    requires Reachable(q)
    ensures q.holder.Sleeping? ==> q.get == [] && (q.put == [] || q.signals > 0) && (!q.nonblock || q.wakers > 0)
    ensures w in q.asleep ==> Full(q) && (!q.nonblock || q.wakers > 0)
  {
    ReachableInv(q);
  }

  /**
   A swap that reports messages leaves one to take; msgqueue_get returns no message only from an empty queue in
   nonblocking mode.
   */
  lemma {:induction false} GetReturns(q: Queue)
    requires Reachable(q)
    ensures q.holder.Swapped? ==> (q.holder.any <==> q.get != [])
    ensures Enabled(q, TrySwap) && Apply(q, TrySwap).holder == Swapped(false) ==> q.nonblock
                                                                                  && q.get == [] && q.put == []
  {
    ReachableInv(q);
  }

  /** What follows the messages already taken. */
  function Queued(q: Queue): seq<Item> {
    q.get + q.put
  }

  lemma {:induction false} FrontOf(g: seq<Item>, w: Item, p: seq<Item>)
    ensures ([w] + g) + p == [w] + (g + p) && (g == [] ==> g + ([w] + p) == [w] + (g + p))
  {
  }

  /** The message that a step of msgqueue_put_head is about */
  function Heading(q: Queue, s: Step): Item
    requires Enabled(q, s) && (s.PutHead? || s.Push? || s.LeaveLoop?)
  {
    Item(if s.PutHead? then s.msg else if s.Push? then q.holder.msg else q.spinner.value, true)
  }

  lemma {:induction false} ProduceFront(q: Queue, w: Item)
    requires q.get == [] && w.head
    ensures var r := Produce(q, w);
            if Full(q) && !q.nonblock then Queued(r) == Queued(q) && w in r.asleep else Queued(r) == [w] + Queued(q)
  {
    FrontOf(q.get, w, q.put);
  }

  /**
   msgqueue_put_head spins while it sees messages in the get list, waits while the queue is full, and otherwise
   puts its message in front of all others: when it comes, when it leaves the loop, or when it has the get mutex.
   */
  lemma {:induction false} PutHeadInFront(q: Queue, s: Step)
    requires Reachable(q) && Enabled(q, s) && (s.PutHead? || s.Push? || s.LeaveLoop?)
    ensures var r, w := Apply(q, s), Heading(q, s);
            if s.PutHead? && q.get != [] then Queued(r) == Queued(q) && r.spinner == Some(w.msg)
            else if !s.Push? && Full(q) && !q.nonblock then Queued(r) == Queued(q) && w in r.asleep
            else Queued(r) == [w] + Queued(q)
  {
    var w := Heading(q, s);
    match s
    case PutHead(_) => if q.get == [] { ProduceFront(q, w); }
    case Push => FrontOf(q.get, w, q.put);
    case LeaveLoop => ProduceFront(q.(spinner := None), w);
  }

  /** After waiting it gets in front of the put list, and so in front of all others exactly if the get list is empty. */
  lemma {:induction false} LateHeadBehind(q: Queue, w: Item)
    requires Reachable(q) && Enabled(q, Retry(w)) && w.head && !(Full(q) && !q.nonblock)
    ensures Queued(Apply(q, Retry(w))) == q.get + ([w] + q.put)
    ensures w !in q.get ==> (Queued(Apply(q, Retry(w))) == [w] + Queued(q) <==> q.get == [])
  {
    FrontOf(q.get, w, q.put);
    if q.get != [] && w !in q.get {
      assert (q.get + ([w] + q.put))[0] == q.get[0] != w;
      assert ([w] + Queued(q))[0] == w;
    }
  }

  /** It does happen: the queue is full, the message waits, and a consumer swaps before it is put. */
  lemma {:induction false} LateHeadHappens() returns (q: Queue)
    ensures Reachable(q) && Queued(q) == [Item(1, false), Item(2, true)]
    ensures q.entered == multiset{Item(1, false), Item(2, true)}
  {
    var q2 := FullAndWaiting();
    ReachesOn(q2, Get);
    var q3 := Apply(q2, Get);
    ReachesOn(q3, TrySwap);
    var q4 := Apply(q3, TrySwap);
    ReachesOn(q4, Retry(Item(2, true)));
    q := Apply(q4, Retry(Item(2, true)));
  }

  lemma {:induction false} FullAndWaiting() returns (q: Queue)
    ensures Reachable(q) && q.max == 1 && q.cnt == 1 && !q.nonblock && q.get == [] && q.put == [Item(1, false)]
    ensures q.holder.Nobody?
    ensures q.spinner.None? && q.pending == {Item(2, true)} && q.entered == multiset{Item(1, false)}
  {
    Created(1);
    ReachesOn(Create(1), Put(1));
    var q1 := Apply(Create(1), Put(1));
    ReachesOn(q1, PutHead(2));
    q := Apply(q1, PutHead(2));
  }

  // ----- signals and the nonblocking mode -----

  lemma {:induction false} StepCounts(q: Queue, s: Step)
    requires Enabled(q, s)
    ensures Apply(q, s).wakers + One(s.WakeAll?) == q.wakers + One(s.SetNonblock?)
    ensures |Apply(q, s).entered| - Apply(q, s).signals
            == |q.entered| - q.signals + One(s.Signal?) + One(s.Push?)
  {
    hide Insert;
    hide Swap;
    if s.Put? {
      InsertCounts(q, Item(s.msg, false));
    } else if s.PutHead? {
      InsertCounts(q, Item(s.msg, true));
    } else if s.LeaveLoop? {
      InsertCounts(q.(spinner := None), Item(q.spinner.value, true));
    } else if s.Retry? {
      InsertCounts(q, s.w);
    } else if s.TrySwap? {
      SwapCounts(q);
    } else if s.Get? || s.Finish? {
    } else {
    }
  }

  lemma {:induction false} InsertCounts(q: Queue, w: Item)
    ensures var r := Insert(q, w);
            r.wakers == q.wakers && r.signals == q.signals + 1 && |r.entered| == |q.entered| + 1
  {
  }

  lemma {:induction false} SwapCounts(q: Queue)
    ensures Swap(q).wakers == q.wakers && Swap(q).signals == q.signals && Swap(q).entered == q.entered
  {
  }

  lemma {:induction false} RunCounts(q: Queue, steps: seq<Step>, r: Queue)
    requires Runs(q, steps, r)
    ensures r.wakers + multiset(steps)[WakeAll] == q.wakers + multiset(steps)[SetNonblock]
    ensures |r.entered| - r.signals == |q.entered| - q.signals + multiset(steps)[Signal] + multiset(steps)[Push]
    decreases |steps|
  {
    if steps != [] {
      StepCounts(q, steps[0]);
      RunCounts(Apply(q, steps[0]), steps[1..], r);
      assert steps == [steps[0]] + steps[1..];
    }
  }

  /**
   In every run there is one signal for each message put into the put list and one wake-up for each set_nonblock,
   sent or about to be sent.
   */
  lemma {:induction false} WakeupsCounted(max: nat, steps: seq<Step>, q: Queue)
    requires Runs(Create(max), steps, q)
    ensures multiset(steps)[SetNonblock] == multiset(steps)[WakeAll] + q.wakers
    ensures |q.entered| == multiset(steps)[Push] + multiset(steps)[Signal] + q.signals
  {
    RunCounts(Create(max), steps, q);
  }

  /** Nonblocking, and nobody waits. */
  predicate Up(q: Queue) {
    q.nonblock && q.asleep == {} && !q.holder.Sleeping?
  }

  lemma {:induction false} StaysUp(q: Queue, steps: seq<Step>, r: Queue)
    requires Runs(q, steps, r) && q.nonblock && SetBlock !in steps
    ensures r.nonblock && (Up(q) ==> Up(r))
    decreases |steps|
  {
    if steps != [] {
      StaysUp(Apply(q, steps[0]), steps[1..], r);
    }
  }

  /**
   In every run, after set_nonblock and its wake-up and until set_block nobody waits: a put adds its message
   at once, and a get returns.
   */
  lemma {:induction false} NonblockFrees(q: Queue, before: seq<Step>, m: Queue, after: seq<Step>, r: Queue)
    requires Reachable(q) && Runs(Apply(q, SetNonblock), before, m) && Enabled(m, WakeAll)
    requires Runs(Apply(m, WakeAll), after, r) && SetBlock !in before && SetBlock !in after
    ensures r.asleep == {} && !r.holder.Sleeping?
    ensures forall msg :: Enabled(r, Put(msg)) ==> Queued(Apply(r, Put(msg))) == Queued(r) + [Item(msg, false)]
    ensures Enabled(r, TrySwap) ==> Apply(r, TrySwap).holder.Swapped?
  {
    StaysUp(Apply(q, SetNonblock), before, m);
    StaysUp(Apply(m, WakeAll), after, r);
    forall msg | Enabled(r, Put(msg))
      ensures Queued(Apply(r, Put(msg))) == Queued(r) + [Item(msg, false)]
    {
      assert r.get + (r.put + [Item(msg, false)]) == (r.get + r.put) + [Item(msg, false)];
    }
  }

  lemma {:induction false} LeftLoop(q: Queue)
    requires Enabled(q, LeaveLoop)
    ensures var r := Apply(q, LeaveLoop);
            && r.holder == q.holder && r.spinner.None? && r.nonblock == q.nonblock && r.wakers == q.wakers
            && r.signals >= q.signals && (q.put != [] ==> r.put != []) && r.taken == q.taken
  {
  }

  lemma {:induction false} LeaveFirst(q: Queue) returns (steps: seq<Step>, r: Queue)
    requires Inv(q) && q.holder.Sleeping?
    ensures Runs(q, steps, r) && Inv(r) && r.holder.Sleeping? && r.spinner.None?
    ensures r.nonblock == q.nonblock && r.wakers == q.wakers && r.signals >= q.signals
    ensures q.put != [] ==> r.put != []
    ensures r.taken == q.taken
  {
    if q.spinner.None? {
      steps, r := [], q;
    } else {
      StepKeeps(q, LeaveLoop);
      steps, r := [LeaveLoop], Apply(q, LeaveLoop);
      LeftLoop(q);
      hide Inv;
      hide Apply;
      assert Runs(r, [], r);
      assert [LeaveLoop][1..] == [];
    }
  }

  /** A consumer that waits although there is a message, or in nonblocking mode, has a run to its return. */
  lemma {:induction false} SleeperServed(q: Queue) returns (steps: seq<Step>, r: Queue)
    requires Reachable(q) && q.holder.Sleeping? && (q.put != [] || q.nonblock)
    ensures Runs(q, steps, r) && r.holder.Nobody?
    ensures q.put != [] ==> |r.taken| == |q.taken| + 1
  {
    ReachableInv(q);
    var first, p := LeaveFirst(q);
    var wake := if p.put != [] then Signal else WakeAll;
    var a := Apply(p, wake);
    var b := Apply(a, TrySwap);
    r := Apply(b, Finish);
    RunsOn(q, first, p, wake);
    RunsOn(q, first + [wake], a, TrySwap);
    RunsOn(q, first + [wake] + [TrySwap], b, Finish);
    steps := first + [wake] + [TrySwap] + [Finish];
  }

  /** A producer that waits in nonblocking mode has a run to the end of its put. */
  lemma {:induction false} ProducerServed(q: Queue, w: Item) returns (r: Queue)
    requires Reachable(q) && w in q.asleep && q.nonblock && q.spinner.None?
    ensures exists steps :: Runs(q, steps, r)
    ensures r.entered == q.entered + multiset{w} && w !in r.pending
  {
    ReachableInv(q);
    var a := Apply(q, WakeAll);
    r := Apply(a, Retry(w));
    assert Runs(q, [], q);
    RunsOn(q, [], q, WakeAll);
    RunsOn(q, [] + [WakeAll], a, Retry(w));
  }

  /** msgqueue_put_head in its loop, with nobody at the get list, has a run that puts its message in front of all. */
  lemma {:induction false} SpinnerServed(q: Queue) returns (r: Queue)
    requires Reachable(q) && q.spinner.Some? && q.holder.Nobody?
    ensures Runs(q, [TryLock, Push], r)
    ensures Queued(r) == [Item(q.spinner.value, true)] + Queued(q) && r.spinner.None? && r.holder.Nobody?
  {
    var a := Apply(q, TryLock);
    r := Apply(a, Push);
    assert Runs(r, [], r);
    assert [Push][1..] == [] && [TryLock, Push][1..] == [Push];
    assert Runs(a, [Push], r);
    FrontOf([], Item(q.spinner.value, true), Queued(q));
    assert ([Item(q.spinner.value, true)] + q.get) + q.put == [Item(q.spinner.value, true)] + (q.get + q.put);
  }

  lemma {:induction false} StaysBlocking(q: Queue, steps: seq<Step>, r: Queue)
    requires Runs(q, steps, r) && !q.nonblock && SetNonblock !in steps
    ensures !r.nonblock
    decreases |steps|
  {
    if steps != [] {
      StaysBlocking(Apply(q, steps[0]), steps[1..], r);
    }
  }

  /**
   In every run, after set_block and until set_nonblock, a put waits exactly if the queue is full, and a get that
   found its list empty waits exactly if nothing was put.
   */
  lemma {:induction false} BlockWaits(q: Queue, steps: seq<Step>, r: Queue, msg: Msg)
    requires Reachable(q) && Runs(Apply(q, SetBlock), steps, r) && SetNonblock !in steps
    ensures Enabled(r, Put(msg)) ==> (Item(msg, false) in Apply(r, Put(msg)).asleep <==> Full(r))
    ensures Enabled(r, TrySwap) ==> (Apply(r, TrySwap).holder.Sleeping? <==> r.put == [])
  {
    StaysBlocking(Apply(q, SetBlock), steps, r);
    ReachableInv(q);
    StepKeeps(q, SetBlock);
    RunKeeps(Apply(q, SetBlock), steps, r);
    WaitsNow(r, msg);
    hide Inv;
    hide Apply;
  }

  lemma {:induction false} WaitsNow(r: Queue, msg: Msg)
    requires Inv(r) && !r.nonblock
    ensures Enabled(r, Put(msg)) ==> (Item(msg, false) in Apply(r, Put(msg)).asleep <==> Full(r))
    ensures Enabled(r, TrySwap) ==> (Apply(r, TrySwap).holder.Sleeping? <==> r.put == [])
  {
  }

  lemma {:induction false} SpuriousGetHarmless(q: Queue)
    requires Inv(q) && q.holder.Sleeping? && q.put == [] && q.spinner.None? && !q.nonblock
    ensures Enabled(Apply(q, SpuriousGet), TrySwap) && Apply(Apply(q, SpuriousGet), TrySwap) == q
  {
    hide Insert;
    hide Swap;
  }

  lemma {:induction false} SpuriousPutHarmless(q: Queue, w: Item)
    requires Inv(q) && w in q.asleep && q.spinner.None? && !q.nonblock
    ensures Enabled(Apply(q, SpuriousPut(w)), Retry(w)) && Apply(Apply(q, SpuriousPut(w)), Retry(w)) == q
  {
    assert Full(q) && w in q.pending;
    hide Inv;
    hide Insert;
    assert q.asleep - {w} + {w} == q.asleep && q.pending + {w} == q.pending;
  }

  /** A wake-up without a signal changes nothing: who had to wait waits again. */
  lemma {:induction false} SpuriousHarmless(q: Queue, w: Item)
    requires Reachable(q) && q.spinner.None? && !q.nonblock
    ensures q.holder.Sleeping? && q.put == [] ==>
              Enabled(Apply(q, SpuriousGet), TrySwap) && Apply(Apply(q, SpuriousGet), TrySwap) == q
    ensures w in q.asleep ==>
              Enabled(Apply(q, SpuriousPut(w)), Retry(w)) && Apply(Apply(q, SpuriousPut(w)), Retry(w)) == q
  {
    ReachableInv(q);
    hide Inv;
    hide Apply;
    if q.holder.Sleeping? && q.put == [] {
      SpuriousGetHarmless(q);
    }
    if w in q.asleep {
      SpuriousPutHarmless(q, w);
    }
  }
}
