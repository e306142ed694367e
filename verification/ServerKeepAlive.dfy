/**
 When an accepted connection (module ServerSteps) takes a next request: exactly what ends it, and what keeps it alive.
 */
module ServerKeepAlive {
  import opened Basics
  import opened ServerSteps
  import opened ServerConnection
  import opened ServerAccounts

  predicate Watched(n: Node) {
    n.ReadNode? || n.WriteNode?
  }

  /**
   Steps that end the connection: a reply without keep-alive, or with one while the service no longer listens or
   stops; a reply that fails; a terminal result; a session dropped before its reply; drain.
   */
  predicate Ends(c: Conn, s: Step) {
    match s
    case Reply(ReplyAll(keepAlive)) => !keepAlive || !c.listening
    case Reply(ReplyFails) => true
    case Handler(TakeWrite(keepAlive, added)) => !keepAlive || !added
    case Handler(PublishAlive(stopFlag)) => stopFlag || !c.listening
    case Handler(TakeTerminal) => true
    case Owner(DropReplier) => c.idleLinked
    case Owner(StartDrain) => true
    case _ => false
  }

  /** Steps that keep it for a next request */
  predicate KeepsAlive(c: Conn, s: Step) {
    match s
    case Reply(ReplyAll(keepAlive)) => keepAlive && c.listening
    case Handler(PublishAlive(stopFlag)) => !stopFlag && c.listening
    case _ => false
  }

  /** No request will be taken any more, and the poller does not watch the socket. */
  predicate Sealed(c: Conn) {
    && !Watched(c.node) && !c.accepting && !c.phase.Accepted? && !c.held.ByWriter?
    && (c.state.CLOSING? || c.state.ERROR? || c.draining || c.node.NoNode?)
  }

  lemma {:induction false} AcceptorSeals(c: Conn, s: Accepting)
    requires Inv(c) && Sealed(c) && AcceptorEnabled(c, s)
    ensures Sealed(AcceptorApply(c, s))
  {
  }

  lemma {:induction false} PollerSeals(c: Conn, s: Polling)
    requires Inv(c) && Sealed(c) && PollerEnabled(c, s)
    ensures !s.NewSession? && Sealed(PollerApply(c, s))
  {
  }

  lemma {:induction false} DeliverySeals(c: Conn, s: Delivering)
    requires Inv(c) && Sealed(c) && DeliveryEnabled(c, s)
    ensures Sealed(DeliveryApply(c, s))
  {
  }

  lemma {:induction false} HandlerSeals(c: Conn, s: Handling)
    requires Inv(c) && Sealed(c) && HandlerEnabled(c, s)
    ensures Sealed(HandlerApply(c, s))
  {
  }

  lemma {:induction false} ReplySeals(c: Conn, s: Replying)
    requires Inv(c) && Sealed(c) && ReplyEnabled(c, s)
    ensures Sealed(ReplyApply(c, s))
  {
  }

  lemma {:induction false} OwnerSeals(c: Conn, s: Owning)
    requires Inv(c) && Sealed(c) && OwnerEnabled(c, s)
    ensures Sealed(OwnerApply(c, s))
  {
  }

  lemma {:induction false} StaysSealed(c: Conn, s: Step)
    requires Inv(c) && Sealed(c) && Enabled(c, s)
    ensures Sealed(Apply(c, s)) && !(s.Poller? && s.p.NewSession?)
  {
    match s
    case Acceptor(t) => AcceptorSeals(c, t);
    case Poller(t) => PollerSeals(c, t);
    case Delivery(t) => DeliverySeals(c, t);
    case Handler(t) => HandlerSeals(c, t);
    case Reply(t) => ReplySeals(c, t);
    case Owner(t) => OwnerSeals(c, t);
  }

  lemma {:induction false} EndsSeals(c: Conn, s: Step)
    requires Inv(c) && Enabled(c, s) && Ends(c, s)
    ensures Sealed(Apply(c, s))
  {
  }

  lemma {:induction false} SealedRuns(c: Conn, steps: seq<Step>)
    requires Inv(c) && Sealed(c) && Runs(c, steps)
    ensures Sealed(After(c, steps))
    ensures forall i :: 0 <= i < |steps| ==> !(steps[i].Poller? && steps[i].p.NewSession?)
    decreases |steps|
  {
    if steps != [] {
      StaysSealed(c, steps[0]);
      StepKeeps(c, steps[0]);
      SealedRuns(Apply(c, steps[0]), steps[1..]);
      forall i | 0 <= i < |steps|
        ensures !(steps[i].Poller? && steps[i].p.NewSession?)
      {
        if i > 0 {
          assert steps[i] == steps[1..][i - 1];
        }
      }
    }
  }

  /** In every run, after a step that ends the connection no session is made and the poller never watches it again. */
  lemma {:induction false} EndedForGood(c: Conn, s: Step, steps: seq<Step>)
    requires Reachable(c) && Enabled(c, s) && Ends(c, s) && Runs(Apply(c, s), steps)
    ensures !MakesSession(steps)
    ensures !Watched(After(Apply(c, s), steps).node) && !After(Apply(c, s), steps).phase.Accepted?
  {
    ReachableInv(c);
    EndsSeals(c, s);
    StepKeeps(c, s);
    SealedRuns(Apply(c, s), steps);
  }

  // ----- kept alive -----

  /** Kept alive, but the poller thread has given the connection up or does not have it any more. */
  predicate GivenUp(c: Conn) {
    c.phase.Failing? || (c.phase.Off? && !c.node.ReadNode?)
  }

  /** No request will be taken any more; the socket may still have to be closed. */
  predicate Shut(c: Conn) {
    && !c.accepting && !c.phase.Accepted? && !c.held.ByWriter?
    && (c.state.CLOSING? || c.state.ERROR? || c.draining || c.node.NoNode?
        || ((c.state.KEEPALIVE? || c.state.CONNECTED?) && GivenUp(c)))
  }

  lemma {:induction false} AcceptorShuts(c: Conn, s: Accepting)
    requires Inv(c) && Shut(c) && AcceptorEnabled(c, s)
    ensures Shut(AcceptorApply(c, s))
  {
  }

  lemma {:induction false} PollerShuts(c: Conn, s: Polling)
    requires Inv(c) && Shut(c) && PollerEnabled(c, s)
    ensures !s.NewSession? && Shut(PollerApply(c, s))
  {
  }

  lemma {:induction false} DeliveryShuts(c: Conn, s: Delivering)
    requires Inv(c) && Shut(c) && DeliveryEnabled(c, s)
    ensures Shut(DeliveryApply(c, s))
  {
  }

  lemma {:induction false} HandlerShuts(c: Conn, s: Handling)
    requires Inv(c) && Shut(c) && HandlerEnabled(c, s)
    ensures Shut(HandlerApply(c, s))
  {
  }

  lemma {:induction false} ReplyShuts(c: Conn, s: Replying)
    requires Inv(c) && Shut(c) && ReplyEnabled(c, s)
    ensures Shut(ReplyApply(c, s))
  {
  }

  lemma {:induction false} OwnerShuts(c: Conn, s: Owning)
    requires Inv(c) && Shut(c) && OwnerEnabled(c, s)
    ensures Shut(OwnerApply(c, s))
  {
  }

  lemma {:induction false} StaysShut(c: Conn, s: Step)
    requires Inv(c) && Shut(c) && Enabled(c, s)
    ensures Shut(Apply(c, s)) && !(s.Poller? && s.p.NewSession?)
  {
    match s
    case Acceptor(t) => AcceptorShuts(c, t);
    case Poller(t) => PollerShuts(c, t);
    case Delivery(t) => DeliveryShuts(c, t);
    case Handler(t) => HandlerShuts(c, t);
    case Reply(t) => ReplyShuts(c, t);
    case Owner(t) => OwnerShuts(c, t);
  }

  predicate MakesSession(steps: seq<Step>) {
    exists i :: 0 <= i < |steps| && steps[i].Poller? && steps[i].p.NewSession?
  }

  lemma {:induction false} ShutRuns(c: Conn, steps: seq<Step>)
    requires Inv(c) && Shut(c) && Runs(c, steps)
    ensures !MakesSession(steps)
    decreases |steps|
  {
    if steps != [] {
      StaysShut(c, steps[0]);
      StepKeeps(c, steps[0]);
      ShutRuns(Apply(c, steps[0]), steps[1..]);
    }
  }

  /** The steps of the poller thread up to the next session */
  function NextSteps(c: Conn): seq<Step> {
    var check := [Poller(CheckState), Poller(NewSession(true, true))];
    match c.phase
    case Off => [Poller(PollRead), Poller(StartCreate)] + check
    case Woken => [Poller(StartCreate)] + check
    case Creating(sawIdle) => (if sawIdle then [Poller(WaitForTarget)] else []) + check
    case _ => [Poller(NewSession(true, true))]
  }

  lemma {:induction false} OneStep(c: Conn, s: Step, steps: seq<Step>)
    requires Enabled(c, s) && Runs(Apply(c, s), steps)
    ensures Runs(c, [s] + steps) && After(c, [s] + steps) == After(Apply(c, s), steps)
  {
    assert ([s] + steps)[1..] == steps;
  }

  lemma {:induction false} CheckAndCreate(c: Conn)
    requires Inv(c) && c.phase == Creating(false) && (c.state.KEEPALIVE? || c.state.CONNECTED?) && !c.draining
    ensures var check := [Poller(CheckState), Poller(NewSession(true, true))];
            Runs(c, check) && After(c, check).sessions == c.sessions + 1
  {
    var d := Apply(c, Poller(CheckState));
    var e := Apply(d, Poller(NewSession(true, true)));
    assert Runs(e, []) && After(e, []) == e;
    OneStep(d, Poller(NewSession(true, true)), []);
    assert [Poller(NewSession(true, true))] + [] == [Poller(NewSession(true, true))];
    OneStep(c, Poller(CheckState), [Poller(NewSession(true, true))]);
    assert [Poller(CheckState)] + [Poller(NewSession(true, true))]
        == [Poller(CheckState), Poller(NewSession(true, true))];
  }

  lemma {:induction false} StartAndCreate(c: Conn)
    requires Inv(c) && c.phase.Woken? && (c.state.KEEPALIVE? || c.state.CONNECTED?) && !c.draining
    ensures Runs(c, NextSteps(c)) && After(c, NextSteps(c)).sessions == c.sessions + 1
  {
    var check := [Poller(CheckState), Poller(NewSession(true, true))];
    PhaseKeeps(c, Creating(false));
    CheckAndCreate(c.(phase := Creating(false)));
    OneStep(c, Poller(StartCreate), check);
  }

  /** Where the poller thread is with a connection that waits for a request */
  predicate Attended(c: Conn) {
    (c.phase.Off? && c.node.ReadNode?) || c.phase.Woken? || c.phase.Creating? || c.phase.Accepted?
  }

  /** A connection that waits for a request and was not given up takes it. */
  lemma {:induction false} AliveServes(c: Conn)
    requires Inv(c) && (c.state.KEEPALIVE? || c.state.CONNECTED?) && !c.draining
    requires c.held.Free? && Attended(c)
    ensures Runs(c, NextSteps(c)) && After(c, NextSteps(c)).sessions == c.sessions + 1
    ensures MakesSession(NextSteps(c))
  {
    var check := [Poller(CheckState), Poller(NewSession(true, true))];
    var steps := NextSteps(c);
    if c.phase.Off? {
      PhaseKeeps(c, Woken);
      var d := c.(phase := Woken);
      StartAndCreate(d);
      OneStep(c, Poller(PollRead), NextSteps(d));
      assert [Poller(PollRead)] + NextSteps(d) == steps;
    } else if c.phase.Woken? {
      StartAndCreate(c);
    } else if c.phase.Accepted? {
      var d := Apply(c, Poller(NewSession(true, true)));
      assert Runs(d, []) && After(d, []) == d;
      OneStep(c, Poller(NewSession(true, true)), []);
      assert [Poller(NewSession(true, true))] + [] == steps;
    } else if c.phase.sawIdle {
      PhaseKeeps(c, Creating(false));
      CheckAndCreate(c.(phase := Creating(false)));
      OneStep(c, Poller(WaitForTarget), check);
    } else {
      CheckAndCreate(c);
      assert [] + check == check;
    }
    assert steps[|steps| - 1] == Poller(NewSession(true, true));
  }

  lemma {:induction false} KeptAliveState(c: Conn, s: Step)
    requires Inv(c) && Enabled(c, s) && KeepsAlive(c, s)
    ensures var d := Apply(c, s);
            && d.state.KEEPALIVE? && !d.draining && !d.refusedAlive && d.aliveLinked && d.held.Free?
            && d.phase == c.phase && d.node == c.node
  {
  }

  /**
   In every run, a reply that keeps the connection alive is followed by a run with a next session exactly if the
   poller thread has not given the connection up; otherwise by none.
   */
  lemma {:induction false} NextRequestExactly(c: Conn, s: Step)
    requires Reachable(c) && Enabled(c, s) && KeepsAlive(c, s)
    ensures (exists steps :: Runs(Apply(c, s), steps) && MakesSession(steps)) <==> !GivenUp(c)
  {
    ReachableInv(c);
    var d := Apply(c, s);
    StepKeeps(c, s);
    KeptAliveState(c, s);
    if GivenUp(c) {
      forall steps | Runs(d, steps)
        ensures !MakesSession(steps)
      {
        ShutRuns(d, steps);
      }
    } else {
      AliveServes(d);
      assert Runs(d, NextSteps(d)) && MakesSession(NextSteps(d));
    }
  }

  /**
   The first request: when the acceptor looks at the stop flag, a run with a session follows exactly if the poller
   thread has not given the connection up and, with the flag set, has already noticed the request.
   */
  lemma {:induction false} FirstRequestExactly(c: Conn, stopFlag: bool)
    requires Reachable(c) && AcceptorEnabled(c, AcceptorDeletes(stopFlag)) && c.state.CONNECTED? && !c.accepting
    ensures (exists steps :: Runs(Apply(c, Acceptor(AcceptorDeletes(stopFlag))), steps) && MakesSession(steps))
            <==> !GivenUp(c) && !(stopFlag && c.phase.Off?)
  {
    ReachableInv(c);
    var s := Acceptor(AcceptorDeletes(stopFlag));
    var d := Apply(c, s);
    StepKeeps(c, s);
    if GivenUp(c) || (stopFlag && c.phase.Off?) {
      forall steps | Runs(d, steps)
        ensures !MakesSession(steps)
      {
        ShutRuns(d, steps);
      }
    } else {
      AliveServes(d);
      assert Runs(d, NextSteps(d)) && MakesSession(NextSteps(d));
    }
  }

  lemma {:induction false} StaysUnbound(c: Conn, steps: seq<Step>)
    requires Runs(c, steps) && !(c.accepting && c.deleter) && !c.listening
    ensures !After(c, steps).listening
    decreases |steps|
  {
    hide Apply;
    if steps != [] {
      StepAccounts(c, steps[0]);
      StaysUnbound(Apply(c, steps[0]), steps[1..]);
    }
  }

  lemma {:induction false} OnlyOne(c: Conn)
    requires Reachable(c)
    ensures !(c.accepting && c.deleter)
  {
    var listening, steps :| Runs(Accept(listening), steps) && After(Accept(listening), steps) == c;
    RunAccounts(Accept(listening), steps);
  }

  /** In every run, a reply after unbind is the last: keep-alive or not, no session is made behind it. */
  lemma {:induction false} UnboundForGood(c: Conn, between: seq<Step>, s: Step, steps: seq<Step>)
    requires Reachable(c) && Runs(Apply(c, Owner(Unbind)), between)
    requires (s.Reply? && s.r.ReplyAll?) || (s.Handler? && s.h.PublishAlive?)
    requires Enabled(After(Apply(c, Owner(Unbind)), between), s)
    requires Runs(Apply(After(Apply(c, Owner(Unbind)), between), s), steps)
    ensures !MakesSession(steps)
  {
    ReachableInv(c);
    var d := Apply(c, Owner(Unbind));
    StepKeeps(c, Owner(Unbind));
    OnlyOne(c);
    StaysUnbound(d, between);
    RunKeeps(d, between);
    var e := After(d, between);
    EndsSeals(e, s);
    StepKeeps(e, s);
    SealedRuns(Apply(e, s), steps);
  }

  /** After new_session refused a request no other session is made. */
  lemma {:induction false} RefusedForGood(c: Conn, message: bool, steps: seq<Step>)
    requires Reachable(c) && Enabled(c, Poller(NewSession(false, message)))
    requires Runs(Apply(c, Poller(NewSession(false, message))), steps)
    ensures !MakesSession(steps)
  {
    ReachableInv(c);
    StepKeeps(c, Poller(NewSession(false, message)));
    ShutRuns(Apply(c, Poller(NewSession(false, message))), steps);
  }

  /** With the stop flag set the acceptor leaves nothing for the poller to watch, reply under way or not. */
  lemma {:induction false} StopDeletes(c: Conn)
    requires AcceptorEnabled(c, AcceptorDeletes(true))
    ensures !Watched(AcceptorApply(c, AcceptorDeletes(true)).node)
  {
  }

  // ----- what a read event comes to -----

  /** The steps after which the poller thread gives up reading */
  predicate Fails(c: Conn, s: Step) {
    match s
    case Poller(HangUp) => true
    case Poller(CheckState) => !c.state.CONNECTED? && !c.state.KEEPALIVE?
    case Poller(NewSession(made, message)) => !made || !message
    case Delivery(AppendBad) => true
    case _ => false
  }

  lemma {:induction false} CheckFails(c: Conn)
    requires !c.state.CONNECTED? && !c.state.KEEPALIVE?
    ensures Checked(c).phase.Failing? && Checked(c).node == c.node
  {
  }

  lemma {:induction false} CreateFails(c: Conn, made: bool, message: bool)
    requires !made || !message
    ensures Create(c, made, message).phase.Failing? && Create(c, made, message).node == c.node
  {
    if made {
    } else {
    }
  }

  lemma {:induction false} GivesUp(c: Conn, s: Step)
    requires Enabled(c, s) && Fails(c, s)
    ensures Apply(c, s).phase.Failing? && Apply(c, s).node == c.node
  {
    hide Checked;
    hide Create;
    if s.Delivery? {
    } else if s.p.HangUp? {
    } else if s.p.CheckState? {
      CheckFails(c);
    } else {
      CreateFails(c, s.p.made, s.p.message);
    }
  }

  lemma {:induction false} ThenRemoves(d: Conn)
    requires d.phase.Failing?
    ensures Enabled(d, Delivery(RemoveNode)) && Apply(d, Delivery(RemoveNode)).phase.Off?
    ensures Apply(d, Delivery(RemoveNode)).node == if d.node.ReadNode? then ReadResult else d.node
  {
    if d.node.ReadNode? {
    } else {
    }
  }

  /**
   A hang-up, a request at the wrong time, a refused session and a bad message are reported: the node is removed
   next and becomes a terminal result, unless it was deleted or replaced before.
   */
  lemma {:induction false} FailureReported(c: Conn, s: Step)
    requires Enabled(c, s) && Fails(c, s)
    ensures var d := Apply(c, s);
            && Enabled(d, Delivery(RemoveNode)) && Apply(d, Delivery(RemoveNode)).phase.Off?
            && Apply(d, Delivery(RemoveNode)).node == if c.node.ReadNode? then ReadResult else c.node
  {
    GivesUp(c, s);
    ThenRemoves(Apply(c, s));
    hide Apply;
  }

  /** After a read event without data the poller thread waits for the next one. */
  lemma {:induction false} NoDataWaits(c: Conn)
    requires Enabled(c, Poller(NoData)) && c.node.ReadNode?
    ensures Enabled(Apply(c, Poller(NoData)), Poller(PollRead))
  {
  }

  // ----- a reply in several parts -----

  /** A reply whose rest is written by the poller, from the first part to keep-alive */
  function PartSteps(): seq<Step> {
    [Reply(ReplyPart(true)), Delivery(Expire), Handler(TakeWrite(true, true)), Handler(PublishAlive(false))]
  }

  lemma {:induction false} FirstPart(c: Conn)
    requires Inv(c) && Enabled(c, Reply(ReplyPart(true))) && c.node.ReadNode? && c.phase.Off? && c.listening
    ensures var d := Apply(c, Reply(ReplyPart(true)));
            Inv(d) && Enabled(d, Delivery(Expire)) && d.node.WriteNode? && d.phase.Off? && d.listening && d.held.Free?
  {
    StepKeeps(c, Reply(ReplyPart(true)));
  }

  lemma {:induction false} LastPart(d: Conn)
    requires Inv(d) && d.node.WriteNode? && d.phase.Off? && d.listening && d.held.Free?
    ensures var e := Apply(d, Delivery(Expire));
            && Inv(e) && Enabled(e, Handler(TakeWrite(true, true))) && e.node.WriteResult?
            && e.phase.Off? && e.listening && e.held.Free?
  {
    StepKeeps(d, Delivery(Expire));
  }

  lemma {:induction false} PartTaken(e: Conn)
    requires Inv(e) && Enabled(e, Handler(TakeWrite(true, true))) && e.phase.Off? && e.listening
    ensures var f := Apply(e, Handler(TakeWrite(true, true)));
            && Inv(f) && Enabled(f, Handler(PublishAlive(false))) && KeepsAlive(f, Handler(PublishAlive(false)))
            && f.node.ReadNode? && f.phase.Off?
  {
    StepKeeps(e, Handler(TakeWrite(true, true)));
  }

  /** A reply that takes several writes keeps the connection too: a run leads from it to a next session. */
  lemma {:induction false} PartsServe(c: Conn) returns (steps: seq<Step>)
    requires Reachable(c) && Enabled(c, Reply(ReplyPart(true))) && c.node.ReadNode? && c.phase.Off? && c.listening
    ensures Runs(c, PartSteps() + steps) && MakesSession(steps)
  {
    ReachableInv(c);
    hide Inv;
    FirstPart(c);
    var d := Apply(c, Reply(ReplyPart(true)));
    LastPart(d);
    var e := Apply(d, Delivery(Expire));
    PartTaken(e);
    var f := Apply(e, Handler(TakeWrite(true, true)));
    var g := Apply(f, Handler(PublishAlive(false)));
    StepKeeps(f, Handler(PublishAlive(false)));
    KeptAliveState(f, Handler(PublishAlive(false)));
    AliveServes(g);
    steps := NextSteps(g);
    hide *;
    var s4 := [Handler(PublishAlive(false))] + steps;
    var s3 := [Handler(TakeWrite(true, true))] + s4;
    var s2 := [Delivery(Expire)] + s3;
    OneStep(f, Handler(PublishAlive(false)), steps);
    OneStep(e, Handler(TakeWrite(true, true)), s4);
    OneStep(d, Delivery(Expire), s3);
    OneStep(c, Reply(ReplyPart(true)), s2);
    PartsJoin(steps);
  }

  lemma {:induction false} PartsJoin(steps: seq<Step>)
    ensures PartSteps() + steps
            == [Reply(ReplyPart(true))] + ([Delivery(Expire)] + ([Handler(TakeWrite(true, true))]
                                                                 + ([Handler(PublishAlive(false))] + steps)))
  {
  }
}
