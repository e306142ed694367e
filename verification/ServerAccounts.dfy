/**
 What enters a connection leaves it once: sums over whole runs of the steps in ServerSteps.
 */
module ServerAccounts {
  import opened Basics
  import opened ServerSteps
  import opened ServerBooks
  import opened ServerConnection

  /** The sum of a weight over a run */
  ghost function Sum(c: Conn, steps: seq<Step>, weight: (Conn, Step) -> nat): nat
    requires Runs(c, steps)
    decreases |steps|
  {
    if steps == [] then 0 else weight(c, steps[0]) + Sum(Apply(c, steps[0]), steps[1..], weight)
  }

  lemma {:induction false} UnlinkedAccounted(c: Conn)
    ensures Enters(c, UnlinkedAlive(c), 0, 0, 0)
  {
  }

  lemma {:induction false} CheckedAccounted(c: Conn)
    ensures Enters(c, Checked(c), 0, 0, 0)
  {
    hide UnlinkedAlive;
    if c.state.KEEPALIVE? {
      UnlinkedAccounted(c);
    } else {
    }
  }

  lemma {:induction false} CreateAccounted(c: Conn, made: bool, message: bool)
    ensures Enters(c, Create(c, made, message), 0, One(made), 0)
  {
  }

  lemma {:induction false} HandoverAccounted(c: Conn)
    ensures Enters(c, Handover(c), 0, 0, 0)
  {
  }

  lemma {:induction false} RemovedAccounted(c: Conn)
    ensures Enters(c, Removed(c), 0, 0, 0)
  {
    if c.node.ReadNode? {
    } else {
    }
  }

  lemma {:induction false} SuccessAccounted(c: Conn)
    requires c.successQueued > 0
    ensures Enters(c, SuccessTaken(c), 1, 0, 0)
  {
    if c.state.SUCCESS? {
    } else {
    }
  }

  lemma {:induction false} TerminalLinked(c: Conn)
    requires c.state.KEEPALIVE? || c.state.IDLE?
    ensures Enters(c, Terminal(c), 0, 0, 0)
  {
    if c.state.IDLE? {
    } else {
    }
  }

  lemma {:induction false} TerminalOwed(c: Conn)
    requires c.state.RECEIVING? || c.state.ERROR?
    ensures Enters(c, Terminal(c), 0, 0, 0)
  {
    if c.state.ERROR? {
    } else {
    }
  }

  lemma {:induction false} TerminalOther(c: Conn)
    requires c.state.SUCCESS? || c.state.CONNECTED? || c.state.CLOSING?
    ensures Enters(c, Terminal(c), 0, 0, 0)
  {
    if c.state.SUCCESS? {
    } else {
    }
  }

  lemma {:induction false} TerminalAccounted(c: Conn)
    ensures Enters(c, Terminal(c), 0, 0, 0)
  {
    hide Terminal;
    if c.state.KEEPALIVE? || c.state.IDLE? {
      TerminalLinked(c);
    } else if c.state.RECEIVING? || c.state.ERROR? {
      TerminalOwed(c);
    } else {
      TerminalOther(c);
    }
  }

  lemma {:induction false} RecheckedAccounted(c: Conn)
    ensures Enters(c, Rechecked(c), 0, 0, 0)
  {
    hide UnlinkedAlive;
    UnlinkedAccounted(c);
  }

  lemma {:induction false} WriteAccounted(c: Conn, keepAlive: bool, added: bool)
    ensures Enters(c, WriteResultTaken(c, keepAlive, added), 0, 0, 0)
  {
  }

  lemma {:induction false} PublishedAccounted(c: Conn, stopFlag: bool)
    ensures Enters(c, Published(c, stopFlag), 0, 0, 0)
  {
  }

  lemma {:induction false} ReleaseAccounted(c: Conn)
    ensures Enters(c, Release(c), 0, 0, 0)
  {
  }

  lemma {:induction false} DecRefAccounted(c: Conn)
    ensures Enters(c, DecRef(c), 0, 0, 0)
  {
    hide Release;
    ReleaseAccounted(c.(ref := c.ref - 1));
  }

  lemma {:induction false} RepliedAccounted(c: Conn)
    requires c.repliers > 0
    ensures Enters(c, Replied(c), -1, 0, 0)
  {
  }

  lemma {:induction false} SentAllAccounted(c: Conn, keepAlive: bool)
    requires c.repliers > 0
    ensures Enters(c, SentAll(c, keepAlive), -1, 0, 0)
  {
    hide Replied;
    RepliedAccounted(c);
  }

  lemma {:induction false} ErrorAccounted(c: Conn)
    requires c.repliers > 0
    ensures Enters(c, ReplyError(c), -1, 0, 0)
  {
    hide Replied;
    RepliedAccounted(c);
  }

  lemma {:induction false} OneLessAccounted(c: Conn)
    requires c.repliers > 0
    ensures Enters(c, c.(repliers := c.repliers - 1), -1, 0, 0)
  {
  }

  lemma {:induction false} SentPartAccounted(c: Conn, modified: bool)
    requires c.repliers > 0
    ensures Enters(c, SentPart(c, modified), -1, 0, Replaced(c, Reply(ReplyPart(modified))))
  {
    hide Replied;
    RepliedAccounted(c);
  }

  lemma {:induction false} DroppedAccounted(c: Conn)
    requires c.repliers > 0
    ensures Enters(c, Dropped(c), -1, -1, 0)
  {
    if c.idleLinked {
    } else {
    }
  }

  lemma {:induction false} AcceptorAccounts(c: Conn, s: Accepting)
    requires AcceptorEnabled(c, s)
    ensures var d := AcceptorApply(c, s);
            && d.repliers == c.repliers && d.sessions == c.sessions && d.modified == c.modified
            && d.listening == c.listening && d.accepting == (c.accepting && !s.Register?)
            && d.deleter == (s.Register? && (c.deleter || s.added))
  {
    if s.Register? {
    } else {
    }
  }

  lemma {:induction false} PollerAccounts(c: Conn, s: Polling)
    requires PollerEnabled(c, s)
    ensures Enters(c, PollerApply(c, s), 0, One(s.NewSession? && s.made), 0)
  {
    hide Checked;
    hide Create;
    match s
    case CheckState => CheckedAccounted(c);
    case NewSession(made, message) => CreateAccounted(c, made, message);
    case _ =>
  }

  lemma {:induction false} DeliveryAccounts(c: Conn, s: Delivering)
    requires DeliveryEnabled(c, s)
    ensures Enters(c, DeliveryApply(c, s), 0, 0, Less(s.DrainModified?))
  {
    hide Handover;
    hide Removed;
    HandoverAccounted(c);
    RemovedAccounted(c);
  }

  lemma {:induction false} HandlerAccounts(c: Conn, s: Handling)
    requires HandlerEnabled(c, s)
    ensures Enters(c, HandlerApply(c, s), One(s.TakeSuccess?), 0, 0)
  {
    hide SuccessTaken;
    hide DecRef;
    hide Terminal;
    hide Rechecked;
    hide WriteResultTaken;
    hide Published;
    match s
    case TakeSuccess => SuccessAccounted(c);
    case SuccessDone => DecRefAccounted(c.(successRunning := c.successRunning - 1));
    case TakeTerminal => TerminalAccounted(c);
    case UnlinkAlive => RecheckedAccounted(c);
    case TerminalDone => DecRefAccounted(c.(terminalRunning := c.terminalRunning - 1));
    case TakeWrite(keepAlive, added) => WriteAccounted(c, keepAlive, added);
    case PublishAlive(stopFlag) => PublishedAccounted(c, stopFlag);
    case WriteDone => DecRefAccounted(c.(writeRunning := c.writeRunning - 1, engaged := c.engaged - 1));
  }

  lemma {:induction false} ReplyAccounts(c: Conn, s: Replying)
    requires ReplyEnabled(c, s)
    ensures Enters(c, ReplyApply(c, s), Less(!s.ReplyDone?), 0, Replaced(c, Reply(s)))
  {
    hide SentAll;
    hide SentPart;
    hide ReplyError;
    hide DecRef;
    match s
    case ReplyAll(keepAlive) => SentAllAccounted(c, keepAlive);
    case ReplyPart(modified) => SentPartAccounted(c, modified);
    case ReplyFails => ErrorAccounted(c);
    case ReplyUnlinked => OneLessAccounted(c);
    case ReplyDone => DecRefAccounted(c.(replyRunning := c.replyRunning - 1, engaged := c.engaged - 1));
  }

  lemma {:induction false} OwnerAccounts(c: Conn, s: Owning)
    requires OwnerEnabled(c, s)
    ensures var d := OwnerApply(c, s);
            Enters(c, d.(listening := c.listening), Less(s.DropReplier?), Less(s.DropReplier? || s.DropSession?), 0)
            && (d.listening ==> c.listening)
  {
    hide Dropped;
    if s.DropReplier? {
      DroppedAccounted(c);
    } else if s.Unbind? {
    } else {
    }
  }

  lemma {:induction false} StepAccounts(c: Conn, s: Step)
    requires Enabled(c, s) && !(c.accepting && c.deleter)
    ensures Balanced(c, s, Apply(c, s))
  {
    hide AcceptorApply;
    hide PollerApply;
    hide DeliveryApply;
    hide HandlerApply;
    hide ReplyApply;
    hide OwnerApply;
    match s
    case Acceptor(t) => AcceptorAccounts(c, t);
    case Poller(t) => PollerAccounts(c, t);
    case Delivery(t) => DeliveryAccounts(c, t);
    case Handler(t) => HandlerAccounts(c, t);
    case Reply(t) => ReplyAccounts(c, t);
    case Owner(t) => OwnerAccounts(c, t);
  }

  lemma {:induction false} RunAccounts(c: Conn, steps: seq<Step>)
    requires Runs(c, steps) && !(c.accepting && c.deleter)
    ensures var d := After(c, steps);
            && d.repliers + Sum(c, steps, Answered) == c.repliers + Sum(c, steps, Asked)
            && d.sessions + Sum(c, steps, Deleted) == c.sessions + Sum(c, steps, Made)
            && One(d.deleter) + Sum(c, steps, Looked) == One(c.deleter) + Sum(c, steps, Added)
            && d.modified + Sum(c, steps, Drained) == c.modified + Sum(c, steps, Replaced)
            && !(d.accepting && d.deleter)
    decreases |steps|
  {
    if steps != [] {
      StepAccounts(c, steps[0]);
      RunAccounts(Apply(c, steps[0]), steps[1..]);
    }
  }

  /**
   In every run from accept_conn each session that got a request replies or is dropped at most once, and exactly once
   when none is left; each session made is deleted at most once; the acceptor looks at the stop flag once for
   a node that it registered; one result is handed over for each replaced node.
   */
  lemma {:induction false} EachOnce(listening: bool, steps: seq<Step>)
    requires Runs(Accept(listening), steps)
    ensures var c, d := Accept(listening), After(Accept(listening), steps);
            && Sum(c, steps, Asked) == Sum(c, steps, Answered) + d.repliers
            && Sum(c, steps, Made) == Sum(c, steps, Deleted) + d.sessions
            && Sum(c, steps, Added) == Sum(c, steps, Looked) + One(d.deleter)
            && Sum(c, steps, Replaced) == Sum(c, steps, Drained) + d.modified
  {
    RunAccounts(Accept(listening), steps);
  }
}
