/**
 Nothing of a connection leaks: whatever has happened, a run leads to the release of the entry and of all its sessions.
 */
module ServerRelease {
  import opened Basics
  import opened ServerSteps
  import opened ServerConnection

  function PhaseRank(p: Phase): nat {
    match p
    case Off => 0
    case Failing => 1
    case Woken => 2
    case Accepted => 2
    case Creating(sawIdle) => if sawIdle then 4 else 3
    case Announcing => 6
  }

  function NodeRank(n: Node): nat {
    match n
    case NoNode => 0
    case ReadResult => 4
    case WriteResult => 4
    case DeletedRead => 5
    case DeletedWrite => 5
    case ReadNode => 6
    case WriteNode => 6
  }

  /** Handlers, and the successes that they still have to take */
  function Work(c: Conn): nat {
    3 * c.successQueued + c.successRunning + c.terminalRunning + c.writeRunning + c.replyRunning
  }

  /** An upper bound of the steps of Next that are left */
  function Left(c: Conn): nat
    requires c.sessions >= 0
  {
    20 * One(c.accepting) + 2 * One(c.draining) + 2 * One(!c.held.Free?) + PhaseRank(c.phase) + NodeRank(c.node)
    + Work(c) + c.repliers + c.sessions + c.modified
  }

  predicate Done(c: Conn) {
    Freed(c) && c.sessions == 0 && c.modified == 0 && c.phase.Off? && !c.draining && c.successQueued == 0
  }

  /** Who holds a lock, then the poller thread, then the node, the handlers and the sessions */
  function Next(c: Conn): Step {
    if c.accepting then Acceptor(Register(false))
    else if c.draining then Owner(MarkDrained)
    else if c.held.ByTerminal? then Handler(UnlinkAlive)
    else if c.held.ByWriter? then Handler(PublishAlive(true))
    else if !c.phase.Off? then NextOfPoller(c.phase)
    else if !c.node.NoNode? then NextOfNode(c.node)
    else if c.successQueued > 0 then Handler(TakeSuccess)
    else if c.successRunning > 0 then Handler(SuccessDone)
    else if c.terminalRunning > 0 then Handler(TerminalDone)
    else if c.writeRunning > 0 then Handler(WriteDone)
    else if c.replyRunning > 0 then Reply(ReplyDone)
    else if c.repliers > 0 then Owner(DropReplier)
    else if c.sessions > 0 then Owner(DropSession)
    else Delivery(DrainModified)
  }

  function NextOfPoller(p: Phase): Step
    requires !p.Off?
  {
    match p
    case Failing => Delivery(RemoveNode)
    case Woken => Poller(HangUp)
    case Accepted => Poller(NewSession(false, false))
    case Creating(sawIdle) => if sawIdle then Poller(WaitForTarget) else Poller(CheckState)
    case Announcing => Delivery(Announce)
  }

  function NextOfNode(n: Node): Step
    requires !n.NoNode?
  {
    match n
    case ReadNode => Delivery(Expire)
    case WriteNode => Delivery(Expire)
    case DeletedRead => Delivery(DrainPipe)
    case DeletedWrite => Delivery(DrainPipe)
    case ReadResult => Handler(TakeTerminal)
    case WriteResult => Handler(TakeWrite(false, false))
  }

  /** s is possible and makes less of what is left. */
  predicate Progress(c: Conn, s: Step) {
    Enabled(c, s) && c.sessions >= 0 && Apply(c, s).sessions >= 0 && Left(Apply(c, s)) < Left(c)
  }

  lemma {:induction false} SessionsLeft(c: Conn)
    requires Inv(c)
    ensures c.engaged >= 0 && c.sessions >= c.repliers + c.engaged
  {
  }

  lemma {:induction false} LockProgress(c: Conn)
    requires Inv(c) && (c.accepting || c.draining || !c.held.Free?)
    ensures Progress(c, Next(c))
  {
    SessionsLeft(c);
    if c.accepting {
    } else if c.draining {
    } else if c.held.ByTerminal? {
    } else {
    }
  }

  lemma {:induction false} CheckProgress(c: Conn)
    requires Inv(c) && c.held.Free? && PollerEnabled(c, CheckState)
    ensures Progress(c, Poller(CheckState))
  {
    SessionsLeft(c);
    if c.state.KEEPALIVE? {
    } else {
    }
  }

  lemma {:induction false} RemovedLeft(c: Conn)
    requires c.sessions >= 0 && c.phase.Failing?
    ensures Removed(c).sessions == c.sessions && Left(Removed(c)) < Left(c)
  {
    if c.node.ReadNode? {
    } else {
    }
  }

  lemma {:induction false} DeliveryProgress(c: Conn)
    requires Inv(c) && (c.phase.Failing? || c.phase.Announcing?)
    ensures Progress(c, NextOfPoller(c.phase))
  {
    SessionsLeft(c);
    hide Inv;
    hide Removed;
    if c.phase.Announcing? {
    } else {
      RemovedLeft(c);
    }
  }

  lemma {:induction false} PollerProgress(c: Conn)
    requires Inv(c) && c.held.Free? && (c.phase.Woken? || c.phase.Accepted? || c.phase == Creating(true))
    ensures Progress(c, NextOfPoller(c.phase))
  {
    SessionsLeft(c);
    hide Inv;
    if c.phase.Woken? {
    } else if c.phase.Accepted? {
    } else {
    }
  }

  lemma {:induction false} TerminalProgress(c: Conn)
    requires Inv(c) && HandlerEnabled(c, TakeTerminal)
    ensures Progress(c, Handler(TakeTerminal))
  {
    SessionsLeft(c);
    if c.state.KEEPALIVE? {
    } else if c.state.IDLE? {
    } else if c.state.SUCCESS? {
    } else {
    }
  }

  lemma {:induction false} NodeProgress(c: Conn)
    requires Inv(c) && c.phase.Off? && !c.node.NoNode? && !c.node.ReadResult?
    ensures Progress(c, NextOfNode(c.node))
  {
    SessionsLeft(c);
    if c.node.ReadNode? || c.node.WriteNode? {
    } else if c.node.DeletedRead? || c.node.DeletedWrite? {
    } else {
    }
  }

  lemma {:induction false} SuccessProgress(c: Conn)
    requires Inv(c) && HandlerEnabled(c, TakeSuccess)
    ensures Progress(c, Handler(TakeSuccess))
  {
    SessionsLeft(c);
    if c.state.SUCCESS? {
    } else {
    }
  }

  lemma {:induction false} DecRefLeft(c: Conn)
    requires c.sessions >= 0
    ensures DecRef(c).sessions == c.sessions && Left(DecRef(c)) == Left(c)
  {
    if c.ref == 1 {
    } else {
    }
  }

  lemma {:induction false} HandlerProgress(c: Conn, s: Handling)
    requires Inv(c) && HandlerEnabled(c, s) && (s.SuccessDone? || s.TerminalDone? || s.WriteDone?)
    ensures Progress(c, Handler(s))
  {
    hide DecRef;
    SessionsLeft(c);
    if s.SuccessDone? {
      DecRefLeft(c.(successRunning := c.successRunning - 1));
    } else if s.TerminalDone? {
      DecRefLeft(c.(terminalRunning := c.terminalRunning - 1));
    } else {
      DecRefLeft(c.(writeRunning := c.writeRunning - 1, engaged := c.engaged - 1));
    }
  }

  lemma {:induction false} ReplyProgress(c: Conn)
    requires Inv(c) && ReplyEnabled(c, ReplyDone)
    ensures Progress(c, Reply(ReplyDone))
  {
    hide DecRef;
    SessionsLeft(c);
    DecRefLeft(c.(replyRunning := c.replyRunning - 1, engaged := c.engaged - 1));
  }

  lemma {:induction false} DropProgress(c: Conn)
    requires Inv(c) && OwnerEnabled(c, DropReplier) && c.node.NoNode?
    ensures Progress(c, Owner(DropReplier))
  {
    SessionsLeft(c);
    if c.idleLinked {
    } else {
    }
  }

  lemma {:induction false} SessionProgress(c: Conn)
    requires Inv(c) && OwnerEnabled(c, DropSession)
    ensures Progress(c, Owner(DropSession))
  {
    SessionsLeft(c);
  }

  lemma {:induction false} DrainProgress(c: Conn)
    requires Inv(c) && DeliveryEnabled(c, DrainModified)
    ensures Progress(c, Delivery(DrainModified))
  {
    SessionsLeft(c);
  }

  /** Nothing is left to be done with a node, a lock or a handler. */
  predicate Settled(c: Conn) {
    !c.accepting && !c.draining && c.held.Free? && c.phase.Off? && c.node.NoNode? && Work(c) == 0
  }

  lemma {:induction false} SettledIs(c: Conn)
    requires Inv(c) && Settled(c)
    ensures Freed(c) && c.engaged == 0
  {
  }

  /** Until the node is gone and no handler is at work */
  lemma {:induction false} BusyProgress(c: Conn)
    requires Inv(c) && !Settled(c)
    ensures Progress(c, Next(c))
  {
    hide Inv;
    hide Progress;
    if c.accepting || c.draining || !c.held.Free? {
      LockProgress(c);
    } else if c.phase == Creating(false) {
      CheckProgress(c);
    } else if c.phase.Failing? || c.phase.Announcing? {
      DeliveryProgress(c);
    } else if !c.phase.Off? {
      PollerProgress(c);
    } else if c.node.ReadResult? {
      TerminalProgress(c);
    } else if !c.node.NoNode? {
      NodeProgress(c);
    } else if c.successQueued > 0 {
      SuccessProgress(c);
    } else if c.successRunning > 0 {
      HandlerProgress(c, SuccessDone);
    } else if c.terminalRunning > 0 {
      HandlerProgress(c, TerminalDone);
    } else if c.writeRunning > 0 {
      HandlerProgress(c, WriteDone);
    } else {
      ReplyProgress(c);
    }
  }

  /** ... and then until the sessions are gone */
  lemma {:induction false} IdleProgress(c: Conn)
    requires Inv(c) && Settled(c) && !Done(c)
    ensures Progress(c, Next(c))
  {
    SettledIs(c);
    SessionsLeft(c);
    hide Inv;
    hide Progress;
    if c.repliers > 0 {
      DropProgress(c);
    } else if c.sessions > 0 {
      SessionProgress(c);
    } else {
      DrainProgress(c);
    }
  }

  lemma {:induction false} OneMore(c: Conn, s: Step, steps: seq<Step>)
    requires Enabled(c, s) && Runs(Apply(c, s), steps)
    ensures Runs(c, [s] + steps) && After(c, [s] + steps) == After(Apply(c, s), steps)
  {
    assert ([s] + steps)[1..] == steps;
  }

  lemma {:induction false} RunToRelease(c: Conn) returns (steps: seq<Step>)
    requires Inv(c) && c.sessions >= 0
    ensures Runs(c, steps) && Inv(After(c, steps)) && Done(After(c, steps))
    decreases Left(c)
  {
    hide Inv;
    hide Apply;
    if Done(c) && Settled(c) {
      steps := [];
    } else {
      var s := Next(c);
      if Settled(c) {
        IdleProgress(c);
      } else {
        BusyProgress(c);
      }
      StepKeeps(c, s);
      var rest := RunToRelease(Apply(c, s));
      OneMore(c, s, rest);
      steps := [s] + rest;
    }
  }

  /**
   From every reachable state a run leads to a state in which the entry is released, once, no session is left and
   the target has no reference from either.
   */
  lemma {:induction false} CanBeReleased(c: Conn) returns (steps: seq<Step>)
    requires Reachable(c)
    ensures Runs(c, steps)
    ensures var d := After(c, steps); d.releases == 1 && d.sessions == 0 && d.targetRef == 0 && d.engaged == 0
  {
    ReachableInv(c);
    SessionsLeft(c);
    steps := RunToRelease(c);
  }

  /**
   In every run a session with a request can reply as soon as no handler holds the target mutex: to the socket while
   the connection is idle, drained or not, and otherwise in vain.
   */
  lemma {:induction false} CanReply(c: Conn, keepAlive: bool, modified: bool)
    requires Reachable(c) && c.repliers > 0 && c.held.Free?
    ensures c.idleLinked ==> Enabled(c, Reply(ReplyAll(keepAlive))) && Enabled(c, Reply(ReplyPart(modified)))
    ensures !c.idleLinked ==> Enabled(c, Reply(ReplyUnlinked))
  {
    ReachableInv(c);
  }

  /** In every run a connection that waits for a next request can be drained, and a drain can end. */
  lemma {:induction false} CanDrain(c: Conn)
    requires Reachable(c) && (c.aliveLinked || c.draining)
    ensures Enabled(c, Owner(if c.draining then MarkDrained else StartDrain))
    ensures c.draining ==> !c.aliveLinked && !Apply(c, Owner(MarkDrained)).draining
  {
    ReachableInv(c);
  }
}
