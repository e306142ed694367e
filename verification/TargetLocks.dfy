/**
 The mutexes of a target of src/kernel/CommScheduler.cc.  A target has a mutex of its own; while it is in a group its
 load belongs to the mutex of the group.  CommSchedTarget::acquire and release choose the mutex hand over hand,
 and an acquire may wait with the mutex it chose; add and remove of any group take both mutexes and move the
 target only if nobody waits on it.  One target, any number of groups and threads; each lock, unlock, wait and
 wake-up and each access under locks is a step.
 */
module TargetLocks {
  import opened Basics

  type Thread = nat
  type GroupId = nat

  datatype Mutex = Own | Of(g: GroupId)

  /** Where a thread is. */
  datatype Place =
    | Outside
    | Looking                              // in acquire or release, with the target's own mutex
    | Found(g: GroupId)                    // has read the group, wants its mutex
    | Passing(g: GroupId)                  // has both mutexes, about to unlock the target's own
    | Inside(m: Mutex)                     // in the section that uses the load and wait_cnt
    | Waiting(m: Mutex)                    // in the condition wait
    | Moving(g: GroupId, join: bool)       // in add or remove of g, with the target's own mutex
    | Deciding(g: GroupId, join: bool)     // has both mutexes
    | Decided(g: GroupId)
    | Ending                               // has unlocked the group's mutex
    | InGroup(g: GroupId)                  // in acquire of group g, with its mutex

  datatype State = State(group: Option<GroupId>, waitCnt: nat, held: map<Mutex, Thread>, places: map<Thread, Place>)

  datatype Step =
    | Lock(t: Thread) | Look(t: Thread) | LockGroup(t: Thread) | Pass(t: Thread)
    | Wait(t: Thread) | Wake(t: Thread) | Leave(t: Thread)
    | Start(t: Thread, g: GroupId, join: bool) | LockBoth(t: Thread) | Decide(t: Thread) | UnlockGroup(t: Thread)
    | End(t: Thread) | Enter(t: Thread, g: GroupId) | Exit(t: Thread)

  function At(s: State, t: Thread): Place {
    if t in s.places then s.places[t] else Outside
  }

  /** The mutex that the load of the target belongs to. */
  function Guard(group: Option<GroupId>): Mutex {
    if group.None? then Own else Of(group.value)
  }

  predicate Enabled(s: State, step: Step) {
    match step
    case Lock(t) => At(s, t).Outside? && Own !in s.held
    case Look(t) => At(s, t).Looking?
    case LockGroup(t) => At(s, t).Found? && Of(At(s, t).g) !in s.held
    case Pass(t) => At(s, t).Passing?
    case Wait(t) => At(s, t).Inside?
    case Wake(t) => At(s, t).Waiting? && At(s, t).m !in s.held
    case Leave(t) => At(s, t).Inside?
    case Start(t, _, _) => At(s, t).Outside? && Own !in s.held
    case LockBoth(t) => At(s, t).Moving? && Of(At(s, t).g) !in s.held
    case Decide(t) => At(s, t).Deciding?
    case UnlockGroup(t) => At(s, t).Decided?
    case End(t) => At(s, t).Ending?
    case Enter(t, g) => At(s, t).Outside? && Of(g) !in s.held
    case Exit(t) => At(s, t).InGroup?
  }

  function Go(s: State, t: Thread, p: Place): State {
    s.(places := s.places[t := p])
  }

  function Take(s: State, t: Thread, m: Mutex, p: Place): State {
    s.(held := s.held[m := t], places := s.places[t := p])
  }

  function Give(s: State, t: Thread, m: Mutex, p: Place): State {
    s.(held := s.held - {m}, places := s.places[t := p])
  }

  /** What add and remove do to the target; wait_cnt is looked at only if the group fits. */
  function NewGroup(group: Option<GroupId>, waitCnt: nat, g: GroupId, join: bool): Option<GroupId> {
    if join then (if group.None? && waitCnt == 0 then Some(g) else group)
    else if group == Some(g) && waitCnt == 0 then None else group
  }

  function Apply(s: State, step: Step): State
    requires Enabled(s, step)
  {
    var p := At(s, step.t);
    match step
    case Lock(t) => Take(s, t, Own, Looking)
    case Look(t) => Go(s, t, if s.group.None? then Inside(Own) else Found(s.group.value))
    case LockGroup(t) => Take(s, t, Of(p.g), Passing(p.g))
    case Pass(t) => Give(s, t, Own, Inside(Of(p.g)))
    case Wait(t) => Give(s.(waitCnt := s.waitCnt + 1), t, p.m, Waiting(p.m))
    case Wake(t) => Take(s.(waitCnt := if s.waitCnt == 0 then 0 else s.waitCnt - 1), t, p.m, Inside(p.m))
    case Leave(t) => Give(s, t, p.m, Outside)
    case Start(t, g, join) => Take(s, t, Own, Moving(g, join))
    case LockBoth(t) => Take(s, t, Of(p.g), Deciding(p.g, p.join))
    case Decide(t) => Go(s.(group := NewGroup(s.group, s.waitCnt, p.g, p.join)), t, Decided(p.g))
    case UnlockGroup(t) => Give(s, t, Of(p.g), Ending)
    case End(t) => Give(s, t, Own, Outside)
    case Enter(t, g) => Take(s, t, Of(g), InGroup(g))
    case Exit(t) => Give(s, t, Of(p.g), Outside)
  }

  /** CommSchedTarget::init */
  function Init(): State {
    State(None, 0, map[], map[])
  }

  // ----- the invariant -----

  predicate Holds(p: Place, m: Mutex) {
    match p
    case Looking => m == Own
    case Found(_) => m == Own
    case Passing(g) => m == Own || m == Of(g)
    case Inside(n) => m == n
    case Moving(_, _) => m == Own
    case Deciding(g, _) => m == Own || m == Of(g)
    case Decided(g) => m == Own || m == Of(g)
    case Ending => m == Own
    case InGroup(g) => m == Of(g)
    case _ => false
  }

  /** A mutex is held by the thread whose place says so, and by no other. */
  ghost predicate Held(s: State) {
    forall t, m :: HeldBy(s, t, m)
  }

  predicate HeldBy(s: State, t: Thread, m: Mutex) {
    Holds(At(s, t), m) <==> m in s.held && s.held[m] == t
  }

  /** What a thread knows about the group of the target. */
  predicate Right(p: Place, group: Option<GroupId>) {
    match p
    case Found(g) => group == Some(g)
    case Passing(g) => group == Some(g)
    case Inside(m) => m == Guard(group)
    case Waiting(m) => m == Guard(group)
    case _ => true
  }

  function Waiters(s: State): set<Thread> {
    set t | t in s.places && s.places[t].Waiting?
  }

  ghost predicate Inv(s: State) {
    Held(s) && (forall t :: Right(At(s, t), s.group)) && s.waitCnt == |Waiters(s)|
  }

  lemma {:induction false} OneHolder(s: State, t: Thread, u: Thread, m: Mutex)
    requires Held(s) && Holds(At(s, t), m) && Holds(At(s, u), m)
    ensures t == u && m in s.held && s.held[m] == t
  {
    assert HeldBy(s, t, m) && HeldBy(s, u, m);
  }

  lemma {:induction false} SameHeld(s: State, r: State)
    requires Held(s) && r.held == s.held && r.places == s.places
    ensures Held(r)
  {
    forall t, m
      ensures HeldBy(r, t, m)
    {
      assert At(r, t) == At(s, t);
      assert HeldBy(s, t, m);
    }
  }

  lemma {:induction false} TakeHeld(s: State, t: Thread, m: Mutex, p: Place)
    requires Held(s) && m !in s.held && forall n :: Holds(p, n) <==> Holds(At(s, t), n) || n == m
    ensures Held(Take(s, t, m, p))
  {
    var r := Take(s, t, m, p);
    forall u, n
      ensures HeldBy(r, u, n)
    {
      assert HeldBy(s, u, n);
    }
  }

  lemma {:induction false} GiveHeld(s: State, t: Thread, m: Mutex, p: Place)
    requires Held(s) && Holds(At(s, t), m) && forall n :: Holds(p, n) <==> Holds(At(s, t), n) && n != m
    ensures Held(Give(s, t, m, p))
  {
    var r := Give(s, t, m, p);
    assert HeldBy(s, t, m);
    forall u, n
      ensures HeldBy(r, u, n)
    {
      assert HeldBy(s, u, n);
    }
  }

  lemma {:induction false} GoHeld(s: State, t: Thread, p: Place)
    requires Held(s) && forall n :: Holds(p, n) <==> Holds(At(s, t), n)
    ensures Held(Go(s, t, p))
  {
    var r := Go(s, t, p);
    forall u, n
      ensures HeldBy(r, u, n)
    {
      assert HeldBy(s, u, n);
    }
  }

  lemma {:induction false} StepHeld(s: State, step: Step)
    requires Inv(s) && Enabled(s, step)
    ensures Held(Apply(s, step))
  {
    var t := step.t;
    var p := At(s, t);
    match step
    case Lock(_) => TakeHeld(s, t, Own, Looking);
    case Look(_) => GoHeld(s, t, if s.group.None? then Inside(Own) else Found(s.group.value));
    case LockGroup(_) => TakeHeld(s, t, Of(p.g), Passing(p.g));
    case Pass(_) => GiveHeld(s, t, Own, Inside(Of(p.g)));
    case Wait(_) =>
      SameHeld(s, s.(waitCnt := s.waitCnt + 1));
      GiveHeld(s.(waitCnt := s.waitCnt + 1), t, p.m, Waiting(p.m));
    case Wake(_) =>
      var r := s.(waitCnt := if s.waitCnt == 0 then 0 else s.waitCnt - 1);
      SameHeld(s, r);
      TakeHeld(r, t, p.m, Inside(p.m));
    case Leave(_) => GiveHeld(s, t, p.m, Outside);
    case Start(_, g, join) => TakeHeld(s, t, Own, Moving(g, join));
    case LockBoth(_) => TakeHeld(s, t, Of(p.g), Deciding(p.g, p.join));
    case Decide(_) =>
      var r := s.(group := NewGroup(s.group, s.waitCnt, p.g, p.join));
      SameHeld(s, r);
      GoHeld(r, t, Decided(p.g));
    case UnlockGroup(_) => GiveHeld(s, t, Of(p.g), Ending);
    case End(_) => GiveHeld(s, t, Own, Outside);
    case Enter(_, g) => TakeHeld(s, t, Of(g), InGroup(g));
    case Exit(_) => GiveHeld(s, t, Of(p.g), Outside);
  }

  /** Whoever moves the target has the mutex that all others would need, and nobody waits. */
  lemma {:induction false} DecideRight(s: State, t: Thread, u: Thread)
    requires Inv(s) && At(s, t).Deciding? && u != t
    ensures Right(At(s, u), NewGroup(s.group, s.waitCnt, At(s, t).g, At(s, t).join))
  {
    var g := At(s, t).g;
    if Holds(At(s, u), Own) {
      OneHolder(s, t, u, Own);
    }
    if Holds(At(s, u), Of(g)) {
      OneHolder(s, t, u, Of(g));
    }
    assert Right(At(s, u), s.group);
    if At(s, u).Waiting? {
      assert u in Waiters(s);
    }
  }

  lemma {:induction false} StepRight(s: State, step: Step, u: Thread)
    requires Inv(s) && Enabled(s, step)
    ensures Right(At(Apply(s, step), u), Apply(s, step).group)
  {
    assert Right(At(s, u), s.group) && Right(At(s, step.t), s.group);
    if step.Decide? && u != step.t {
      DecideRight(s, step.t, u);
    }
  }

  lemma {:induction false} WaitersChange(s: State, t: Thread, p: Place, r: State)
    requires r.places == s.places[t := p]
    ensures |Waiters(r)| == |Waiters(s)| + One(p.Waiting?) - One(At(s, t).Waiting?)
  {
    if p.Waiting? {
      assert Waiters(r) == Waiters(s) + {t};
    } else {
      assert Waiters(r) == Waiters(s) - {t};
    }
  }

  lemma {:induction false} StepCounts(s: State, step: Step)
    requires Inv(s) && Enabled(s, step)
    ensures Apply(s, step).waitCnt == |Waiters(Apply(s, step))|
  {
    var r := Apply(s, step);
    WaitersChange(s, step.t, At(r, step.t), r);
  }

  lemma {:induction false} StepKeeps(s: State, step: Step)
    requires Inv(s) && Enabled(s, step)
    ensures Inv(Apply(s, step))
  {
    StepHeld(s, step);
    StepCounts(s, step);
    forall u
      ensures Right(At(Apply(s, step), u), Apply(s, step).group)
    {
      StepRight(s, step, u);
    }
  }

  // ----- whole runs -----

  ghost predicate Runs(s: State, steps: seq<Step>, r: State)
    decreases |steps|
  {
    if steps == [] then s == r else Enabled(s, steps[0]) && Runs(Apply(s, steps[0]), steps[1..], r)
  }

  ghost predicate Reachable(s: State) {
    exists steps :: Runs(Init(), steps, s)
  }

  lemma {:induction false} RunKeeps(s: State, steps: seq<Step>, r: State)
    requires Inv(s) && Runs(s, steps, r)
    ensures Inv(r)
    decreases |steps|
  {
    if steps != [] {
      StepKeeps(s, steps[0]);
      RunKeeps(Apply(s, steps[0]), steps[1..], r);
    }
  }

  lemma {:induction false} ReachableInv(s: State)
    requires Reachable(s)
    ensures Inv(s)
  {
    var steps :| Runs(Init(), steps, s);
    assert Waiters(Init()) == {};
    RunKeeps(Init(), steps, s);
  }

  /**
   In every run the mutex that an acquire chose is the one the target belongs to when it waits, and when it holds
   that mutex again after the wait; add and remove cannot have moved the target meanwhile.
   */
  lemma {:induction false} SameGroupAfterWait(s: State, t: Thread)
    requires Reachable(s) && (At(s, t).Inside? || At(s, t).Waiting?)
    ensures At(s, t).m == Guard(s.group)
    ensures At(s, t).Inside? ==> Guard(s.group) in s.held && s.held[Guard(s.group)] == t
    ensures At(s, t).Waiting? ==> s.waitCnt > 0
  {
    ReachableInv(s);
    assert Right(At(s, t), s.group);
    assert HeldBy(s, t, At(s, t).m);
    if At(s, t).Waiting? {
      assert t in Waiters(s);
    }
  }

  /** The thread uses the load, wait_cnt or the place of the target in a heap. */
  predicate Uses(p: Place, group: Option<GroupId>) {
    match p
    case Inside(_) => true
    case Deciding(g, _) => group.None? || group == Some(g)
    case InGroup(g) => group == Some(g)
    case _ => false
  }

  /** In every run at most one thread uses the target. */
  lemma {:induction false} OneUser(s: State, t: Thread, u: Thread)
    requires Reachable(s) && Uses(At(s, t), s.group) && Uses(At(s, u), s.group)
    ensures t == u
  {
    ReachableInv(s);
    assert Right(At(s, t), s.group) && Right(At(s, u), s.group);
    OneHolder(s, t, u, Guard(s.group));
  }

  /** The step of a thread that is on its way and needs no mutex */
  function Onward(p: Place, t: Thread): Step {
    match p
    case Looking => Look(t)
    case Passing(_) => Pass(t)
    case Inside(_) => Leave(t)
    case Deciding(_, _) => Decide(t)
    case Decided(_) => UnlockGroup(t)
    case Ending => End(t)
    case Found(_) => LockGroup(t)
    case Moving(_, _) => LockBoth(t)
    case InGroup(_) => Exit(t)
    case Waiting(_) => Wake(t)
    case Outside => Lock(t)
  }

  /** Whoever has a mutex can go on, or waits for one whose holder can: there is no deadlock. */
  lemma {:induction false} HolderMoves(s: State, m: Mutex) returns (u: Thread)
    requires Inv(s) && m in s.held
    ensures !At(s, u).Outside? && Enabled(s, Onward(At(s, u), u))
  {
    u := s.held[m];
    assert HeldBy(s, u, m);
    if At(s, u).Found? || At(s, u).Moving? {
      var n := Of(At(s, u).g);
      if n in s.held {
        u := s.held[n];
        assert HeldBy(s, u, n);
      }
    }
  }

  lemma {:induction false} SomeMoves(s: State, t: Thread) returns (u: Thread)
    requires Inv(s) && !At(s, t).Outside?
    ensures !At(s, u).Outside? && Enabled(s, Onward(At(s, u), u))
  {
    u := t;
    if !Enabled(s, Onward(At(s, t), t)) {
      u := HolderMoves(s, if At(s, t).Waiting? then At(s, t).m else Of(At(s, t).g));
    }
  }

  /** In every run, while a thread is in one of the operations, some thread can go on, without a new one. */
  lemma {:induction false} NeverStuck(s: State, t: Thread) returns (u: Thread)
    requires Reachable(s) && !At(s, t).Outside?
    ensures !At(s, u).Outside? && Enabled(s, Onward(At(s, u), u))
  {
    ReachableInv(s);
    u := SomeMoves(s, t);
  }

  /**
   In every run add and remove decide by the threads that wait: while one does the target stays where it is; otherwise
   add takes it into its group if it is in none, remove takes it out of its own group, and nothing else moves it.
   */
  lemma {:induction false} MoveMeans(s: State, t: Thread)
    requires Reachable(s) && Enabled(s, Decide(t))
    ensures var g, join, now := At(s, t).g, At(s, t).join, Apply(s, Decide(t)).group;
            && ((exists u :: At(s, u).Waiting?) ==> now == s.group)
            && ((forall u :: !At(s, u).Waiting?) && join ==> now == if s.group.None? then Some(g) else s.group)
            && ((forall u :: !At(s, u).Waiting?) && !join ==> now == if s.group == Some(g) then None else s.group)
  {
    ReachableInv(s);
    if u :| At(s, u).Waiting? {
      assert u in Waiters(s);
    } else {
      forall u
        ensures u !in Waiters(s)
      {
        assert !At(s, u).Waiting?;
      }
      assert Waiters(s) == {};
    }
  }

  // ----- everyone can leave -----

  /** How many steps of Onward a thread has left */
  function Rank(p: Place): nat {
    match p
    case Outside => 0
    case InGroup(_) => 1
    case Inside(_) => 1
    case Waiting(_) => 2
    case Passing(_) => 2
    case Found(_) => 3
    case Looking => 4
    case Ending => 1
    case Decided(_) => 2
    case Deciding(_, _) => 3
    case Moving(_, _) => 4
  }

  ghost function Total(places: map<Thread, Place>): nat
    decreases |places.Keys|
  {
    if places.Keys == {} then 0
    else
      var t :| t in places.Keys;
      assert (places - {t}).Keys == places.Keys - {t};
      Rank(places[t]) + Total(places - {t})
  }

  lemma {:induction false} TotalWithout(places: map<Thread, Place>, t: Thread)
    requires t in places
    ensures Total(places) == Rank(places[t]) + Total(places - {t})
    decreases |places.Keys|
  {
    var u :| u in places.Keys && Total(places) == Rank(places[u]) + Total(places - {u});
    if u != t {
      assert (places - {u}).Keys == places.Keys - {u} && (places - {t}).Keys == places.Keys - {t};
      TotalWithout(places - {u}, t);
      TotalWithout(places - {t}, u);
      assert (places - {u}) - {t} == (places - {t}) - {u};
    }
  }

  lemma {:induction false} TotalLess(places: map<Thread, Place>, t: Thread, p: Place)
    requires t in places && Rank(p) < Rank(places[t])
    ensures Total(places[t := p]) < Total(places)
  {
    TotalWithout(places, t);
    TotalWithout(places[t := p], t);
    assert places[t := p] - {t} == places - {t};
  }

  lemma {:induction false} OnwardLess(s: State, t: Thread)
    requires !At(s, t).Outside? && Enabled(s, Onward(At(s, t), t))
    ensures t in s.places && Rank(At(Apply(s, Onward(At(s, t), t)), t)) < Rank(At(s, t))
    ensures Total(Apply(s, Onward(At(s, t), t)).places) < Total(s.places)
  {
    var r := Apply(s, Onward(At(s, t), t));
    assert r.places == s.places[t := At(r, t)];
    TotalLess(s.places, t, At(r, t));
  }

  lemma {:induction false} RunOut(s: State) returns (steps: seq<Step>, r: State)
    requires Inv(s)
    ensures Runs(s, steps, r) && Inv(r) && forall t :: At(r, t).Outside?
    decreases Total(s.places)
  {
    if t :| !At(s, t).Outside? {
      var u := SomeMoves(s, t);
      var step := Onward(At(s, u), u);
      StepKeeps(s, step);
      OnwardLess(s, u);
      var rest;
      rest, r := RunOut(Apply(s, step));
      steps := [step] + rest;
      assert steps[1..] == rest;
    } else {
      steps, r := [], s;
    }
  }

  /** From every reachable state a run leads all threads out, with no mutex held and nobody waiting. */
  lemma {:induction false} EveryoneLeaves(s: State) returns (steps: seq<Step>, r: State)
    requires Reachable(s)
    ensures Runs(s, steps, r) && r.held == map[] && r.waitCnt == 0 && forall t :: At(r, t).Outside?
  {
    ReachableInv(s);
    steps, r := RunOut(s);
    forall m
      ensures m !in r.held
    {
      var t := if m in r.held then r.held[m] else 0;
      assert HeldBy(r, t, m) && At(r, t).Outside?;
    }
    forall t
      ensures t !in Waiters(r)
    {
      assert At(r, t).Outside?;
    }
    assert Waiters(r) == {};
  }
}
