/**
 The executor of src/kernel/Executor.cc, for one ExecQueue: sessions wait in a list, and a runner in the
 thread pool takes the first one, sends the next runner if there are more, and then executes it.

 A step is a critical section, the unlocked read of the first entry, a call into the thread pool or a
 call of the session.  Stopping the pool lets the runners at work finish and cancels what is left.
 */
module Executor {
  import opened Basics

  type Session = nat

  datatype Exec = Exec(
    list: seq<Session>,
    scheduled: nat,              // runners in the pool's queue
    picked: Option<Session>,     // a runner that has read the first entry
    passing: bool,               // a runner that is about to send the next one
    executing: multiset<Session>, stopped: bool,
    // history
    accepted: seq<Session>, started: seq<Session>, finished: multiset<Session>, canceled: seq<Session>)

  datatype Step = Request(s: Session, scheduleOk: bool) | Pick | TakeOut | PassOn
      | Finish(s: Session) | Stop | CancelAll

  function Init(): Exec {
    Exec([], 0, None, false, multiset{}, false, [], [], multiset{}, [])
  }

  predicate Enabled(e: Exec, s: Step) {
    match s
    case Request(_, _) => !e.stopped
    case Pick => !e.stopped && e.scheduled > 0
    case TakeOut => e.picked.Some?
    case PassOn => e.passing
    case Finish(s) => s in e.executing
    case Stop => true
    case CancelAll => e.stopped && e.scheduled > 0 && e.picked.None? && !e.passing && e.executing == multiset{}
  }

  /** request: only the first entry of an empty list schedules a runner; if that fails it is taken back. */
  function Requested(e: Exec, s: Session, scheduleOk: bool): Exec {
    if e.list != [] then e.(list := e.list + [s], accepted := e.accepted + [s])
    else if scheduleOk then e.(list := [s], scheduled := e.scheduled + 1, accepted := e.accepted + [s])
    else e
  }

  /** The critical section of executor_thread_routine */
  function TakenOut(e: Exec): Exec
    requires e.picked.Some?
  {
    var rest := if e.list == [] then [] else e.list[1..];
    e.(list := rest, picked := None, passing := rest != [],
       executing := e.executing + multiset{e.picked.value}, started := e.started + [e.picked.value])
  }

  function Apply(e: Exec, s: Step): Exec
    requires Enabled(e, s)
  {
    match s
    case Request(s, ok) => Requested(e, s, ok)
    case Pick => e.(scheduled := e.scheduled - 1, picked := if e.list == [] then None else Some(e.list[0]))
    case TakeOut => TakenOut(e)
    case PassOn => e.(passing := false, scheduled := e.scheduled + 1)
    case Finish(s) => e.(executing := e.executing - multiset{s}, finished := e.finished + multiset{s})
    case Stop => e.(stopped := true)
    case CancelAll => e.(scheduled := e.scheduled - 1, canceled := e.canceled + e.list, list := [])
  }

  /** The runners of this queue, wherever they are. */
  function Runners(e: Exec): nat {
    e.scheduled + One(e.picked.Some?) + One(e.passing)
  }

  predicate OneRunner(e: Exec) {
    Runners(e) == One(e.list != []) && (e.picked.Some? ==> e.list != [] && e.list[0] == e.picked.value)
  }

  /** Sessions start, or are canceled, in the order of their requests. */
  predicate InOrder(e: Exec) {
    e.started + (e.canceled + e.list) == e.accepted && (e.canceled != [] ==> e.stopped)
  }

  predicate Accounted(e: Exec) {
    multiset(e.started) == e.executing + e.finished
  }

  predicate Inv(e: Exec) {
    OneRunner(e) && InOrder(e) && Accounted(e)
  }

  lemma {:induction false} Reassociate(a: seq<Session>, b: seq<Session>, c: seq<Session>, s: Session)
    ensures a + (b + (c + [s])) == (a + (b + c)) + [s]
    ensures b == [] ==> (a + [s]) + (b + c) == a + (b + ([s] + c))
    ensures a + ((b + c) + []) == a + (b + c)
  {
  }

  lemma {:induction false} RequestKeeps(e: Exec, s: Session, ok: bool)
    requires Inv(e) && !e.stopped
    ensures Inv(Requested(e, s, ok))
  {
    Reassociate(e.started, e.canceled, e.list, s);
    if e.list == [] {
      assert e.list + [s] == [s];
    }
  }

  lemma {:induction false} TakeOutKeeps(e: Exec)
    requires Inv(e) && e.picked.Some? && e.canceled == []
    ensures Inv(TakenOut(e))
  {
    var s := e.picked.value;
    assert e.list == [s] + e.list[1..];
    Reassociate(e.started, e.canceled, e.list[1..], s);
    assert multiset(e.started + [s]) == multiset(e.started) + multiset{s};
  }

  lemma {:induction false} CancelKeeps(e: Exec)
    requires Inv(e) && Enabled(e, CancelAll)
    ensures Inv(Apply(e, CancelAll))
  {
    Reassociate(e.started, e.canceled, e.list, 0);
  }

  /** Canceling is the last thing that happens: no runner is left after it. */
  predicate Closed(e: Exec) {
    e.canceled != [] ==> e.list == []
  }

  lemma {:induction false} StepKeeps(e: Exec, s: Step)
    requires Inv(e) && Closed(e) && Enabled(e, s)
    ensures Inv(Apply(e, s)) && Closed(Apply(e, s))
  {
    match s
    case Request(s, ok) => RequestKeeps(e, s, ok);
    case Pick =>
    case TakeOut => TakeOutKeeps(e);
    case PassOn =>
    case Finish(s) =>
    case Stop =>
    case CancelAll => CancelKeeps(e);
  }

  ghost predicate Runs(e: Exec, steps: seq<Step>, f: Exec)
    decreases |steps|
  {
    if steps == [] then e == f else Enabled(e, steps[0]) && Runs(Apply(e, steps[0]), steps[1..], f)
  }

  ghost predicate Reachable(e: Exec) {
    exists steps :: Runs(Init(), steps, e)
  }

  lemma {:induction false} RunKeeps(e: Exec, steps: seq<Step>, f: Exec)
    requires Inv(e) && Closed(e) && Runs(e, steps, f)
    ensures Inv(f) && Closed(f)
    decreases |steps|
  {
    if steps != [] {
      StepKeeps(e, steps[0]);
      RunKeeps(Apply(e, steps[0]), steps[1..], f);
    }
  }

  lemma {:induction false} ReachableInv(e: Exec)
    requires Reachable(e)
    ensures Inv(e) && Closed(e)
  {
    var steps :| Runs(Init(), steps, e);
    RunKeeps(Init(), steps, e);
  }

  /**
   A queue has exactly one runner when its list is not empty and none otherwise; so the entry read without the lock is
   the one taken out.
   */
  lemma {:induction false} ExactlyOneRunner(e: Exec)
    requires Reachable(e)
    ensures Runners(e) == One(e.list != [])
    ensures Enabled(e, Pick) ==> e.list != []
    ensures Enabled(e, TakeOut) ==> e.list != [] && e.list[0] == e.picked.value
  {
    ReachableInv(e);
  }

  /** Sessions start in the order of their requests. */
  lemma {:induction false} StartOrder(e: Exec)
    requires Reachable(e)
    ensures e.started <= e.accepted && e.accepted == e.started + (e.canceled + e.list)
  {
    ReachableInv(e);
  }

  /** At any time each accepted session waits, executes, is finished or is canceled, exactly one of them. */
  lemma {:induction false} OneState(e: Exec)
    requires Reachable(e)
    ensures multiset(e.accepted) == e.finished + e.executing + multiset(e.canceled) + multiset(e.list)
  {
    ReachableInv(e);
  }

  /**
   When the pool is stopped and has nothing left to do, each accepted session got exactly one FINISHED or CANCELED.
   */
  lemma {:induction false} OneOutcome(e: Exec)
    requires Reachable(e) && e.stopped && e.executing == multiset{} && Runners(e) == 0
    ensures multiset(e.accepted) == e.finished + multiset(e.canceled)
  {
    ReachableInv(e);
    OneState(e);
    assert e.list == [];
  }

  // ----- what was asked for -----

  /** request succeeds exactly if a runner is there already or one can be scheduled. */
  function Answer(e: Exec, s: Step): seq<Session> {
    if s.Request? && (Runners(e) > 0 || s.scheduleOk) then [s.s] else []
  }

  function Answered(e: Exec, steps: seq<Step>): seq<Session>
    decreases |steps|
  {
    if steps == [] || !Enabled(e, steps[0]) then []
    else Answer(e, steps[0]) + Answered(Apply(e, steps[0]), steps[1..])
  }

  lemma {:induction false} StepAccepts(e: Exec, s: Step)
    requires Inv(e) && Enabled(e, s)
    ensures Apply(e, s).accepted == e.accepted + Answer(e, s)
  {
  }

  lemma {:induction false} RunAccepts(e: Exec, steps: seq<Step>, f: Exec)
    requires Inv(e) && Closed(e) && Runs(e, steps, f)
    ensures f.accepted == e.accepted + Answered(e, steps)
    decreases |steps|
  {
    hide Apply;
    hide Inv;
    hide Answer;
    if steps != [] {
      StepAccepts(e, steps[0]);
      StepKeeps(e, steps[0]);
      RunAccepts(Apply(e, steps[0]), steps[1..], f);
    }
  }

  /**
   In every run the sessions that wait, execute, are finished or canceled are exactly those whose request succeeded;
   a request that failed leaves nothing behind.
   */
  lemma {:induction false} OnlyAnswered(steps: seq<Step>, e: Exec)
    requires Runs(Init(), steps, e)
    ensures e.started + (e.canceled + e.list) == Answered(Init(), steps)
    ensures e.finished + e.executing + multiset(e.canceled) + multiset(e.list) == multiset(Answered(Init(), steps))
  {
    RunAccepts(Init(), steps, e);
    RunKeeps(Init(), steps, e);
    OneState(e);
    assert [] + Answered(Init(), steps) == Answered(Init(), steps);
  }

  // ----- progress -----

  ghost predicate Leads(e: Exec, f: Exec) {
    exists steps :: Runs(e, steps, f)
  }

  lemma {:induction false} LeadsOn(e: Exec, s: Step, f: Exec)
    requires Enabled(e, s) && Leads(Apply(e, s), f)
    ensures Leads(e, f)
  {
    var steps :| Runs(Apply(e, s), steps, f);
    assert ([s] + steps)[1..] == steps;
    assert Runs(e, [s] + steps, f);
  }

  predicate Idle(e: Exec) {
    e.executing == multiset{} && Runners(e) == 0 && e.list == []
  }

  /** The next step that brings the queue closer to idle */
  function Next(e: Exec, s: Session): Step {
    if e.picked.Some? then TakeOut
    else if e.passing then PassOn
    else if e.executing != multiset{} then Finish(s)
    else if e.stopped then CancelAll
    else Pick
  }

  /** What is still to be done: each step of Next makes it less. */
  function Left(e: Exec): nat {
    4 * |e.list| + |e.executing| + One(e.passing) + One(e.scheduled > 0 || e.passing)
  }

  /** From every reachable state a run leads to an idle queue, without any further request or stop. */
  lemma {:induction false} BecomesIdle(e: Exec) returns (f: Exec)
    requires Inv(e) && Closed(e)
    ensures Leads(e, f) && Inv(f) && Idle(f) && f.accepted == e.accepted && f.stopped == e.stopped
    ensures !e.stopped ==> f.canceled == e.canceled
    decreases Left(e)
  {
    if e.picked.None? && !e.passing && e.executing == multiset{} && e.scheduled == 0 {
      f := e;
      assert Runs(e, [], e);
    } else {
      var s := if e.executing == multiset{} then 0 else Running(e);
      var step := Next(e, s);
      StepKeeps(e, step);
      f := BecomesIdle(Apply(e, step));
      LeadsOn(e, step, f);
    }
  }

  ghost function Running(e: Exec): Session
    requires e.executing != multiset{}
  {
    var s :| s in e.executing; s
  }

  /** In every run all that was accepted can be finished if the pool is not stopped, and settled if it is. */
  lemma {:induction false} EveryoneServed(e: Exec) returns (f: Exec)
    requires Reachable(e)
    ensures Leads(e, f) && f.accepted == e.accepted && multiset(e.accepted) == f.finished + multiset(f.canceled)
    ensures !e.stopped ==> multiset(e.accepted) == f.finished
  {
    ReachableInv(e);
    f := BecomesIdle(e);
    assert f.started + (f.canceled + f.list) == f.accepted;
    assert multiset(f.accepted) == multiset(f.started) + multiset(f.canceled);
  }

  lemma {:induction false} StoppedRun(e: Exec, steps: seq<Step>, f: Exec)
    requires Runs(e, steps, f) && e.stopped
    ensures f.stopped && f.accepted == e.accepted
    ensures |f.started| + One(f.picked.Some?) == |e.started| + One(e.picked.Some?)
    decreases |steps|
  {
    if steps != [] {
      StoppedRun(Apply(e, steps[0]), steps[1..], f);
    }
  }

  /** In every run, once the pool is stopped nothing is accepted, and only a session already picked still starts. */
  lemma {:induction false} StopEnds(e: Exec, steps: seq<Step>, f: Exec)
    requires Runs(Apply(e, Stop), steps, f)
    ensures f.accepted == e.accepted && |f.started| <= |e.started| + One(e.picked.Some?)
  {
    StoppedRun(Apply(e, Stop), steps, f);
  }
}
