/**
 Whole runs of one accepted TCP connection (module ServerSteps): what holds in every state of every run.
 */
module ServerConnection {
  import opened Basics
  import opened ServerSteps

  lemma {:induction false} AcceptorKeeps(c: Conn, s: Accepting)
    requires Inv(c) && AcceptorEnabled(c, s)
    ensures Inv(AcceptorApply(c, s))
  {
    match s
    case Register(added) => RegisteredKeeps(c, added);
    case AcceptorDeletes(stopFlag) => DeletedKeeps(c, if stopFlag then Del(c.node) else c.node);
  }

  lemma {:induction false} PollerKeeps(c: Conn, s: Polling)
    requires Inv(c) && PollerEnabled(c, s)
    ensures Inv(PollerApply(c, s))
  {
    match s
    case PollRead => PhaseKeeps(c, Woken);
    case NoData => PhaseKeeps(c, Off);
    case HangUp => PhaseKeeps(c, Failing);
    case StartCreate => PhaseKeeps(c, Creating(c.state.IDLE?));
    case WaitForTarget => PhaseKeeps(c, Creating(false));
    case CheckState => CheckedKeeps(c);
    case NewSession(made, message) => CreateKeeps(c, made, message);
  }

  lemma {:induction false} DeliveryKeeps(c: Conn, s: Delivering)
    requires Inv(c) && DeliveryEnabled(c, s)
    ensures Inv(DeliveryApply(c, s))
  {
    match s
    case AppendPart =>
    case AppendLast => AppendedKeeps(c);
    case AppendBad => AppendBadKeeps(c);
    case Announce => AnnouncedKeeps(c);
    case RemoveNode => RemovedKeeps(c);
    case Expire => ExpireKeeps(c);
    case DrainPipe => DrainPipeKeeps(c);
    case DrainModified => ModifiedKeeps(c);
  }

  lemma {:induction false} TerminalKeeps(c: Conn)
    requires Inv(c) && HandlerEnabled(c, TakeTerminal)
    ensures Inv(HandlerApply(c, TakeTerminal))
  {
    match c.state
    case KEEPALIVE => TerminalAlive(c);
    case IDLE => TerminalIdle(c);
    case SUCCESS => TerminalSuccess(c);
    case RECEIVING => TerminalOwed(c);
    case ERROR => TerminalOwed(c);
    case CONNECTED => TerminalOther(c);
    case CLOSING => TerminalOther(c);
  }

  lemma {:induction false} SuccessDoneKeeps(c: Conn)
    requires Inv(c) && HandlerEnabled(c, SuccessDone)
    ensures Inv(HandlerApply(c, SuccessDone))
  {
    SuccessDoneIs(c);
    SuccessDoneDecrements(c);
  }

  lemma {:induction false} TerminalDoneKeeps(c: Conn)
    requires Inv(c) && HandlerEnabled(c, TerminalDone)
    ensures Inv(HandlerApply(c, TerminalDone))
  {
    TerminalDoneIs(c);
    TerminalDoneDecrements(c);
  }

  lemma {:induction false} WriteDoneKeeps(c: Conn)
    requires Inv(c) && HandlerEnabled(c, WriteDone)
    ensures Inv(HandlerApply(c, WriteDone))
  {
    WriteDoneIs(c);
    WriteDoneDecrements(c);
  }

  lemma {:induction false} ReplyDoneKeeps(c: Conn)
    requires Inv(c) && ReplyEnabled(c, ReplyDone)
    ensures Inv(ReplyApply(c, ReplyDone))
  {
    ReplyDoneIs(c);
    ReplyDoneDecrements(c);
  }

  lemma {:induction false} DroppedKeeps(c: Conn)
    requires Inv(c) && OwnerEnabled(c, DropReplier)
    ensures Inv(OwnerApply(c, DropReplier))
  {
    if c.idleLinked {
      DroppedIdle(c);
    } else {
      DroppedBusy(c);
    }
  }

  lemma {:induction false} HandlerKeeps(c: Conn, s: Handling)
    requires Inv(c) && HandlerEnabled(c, s)
    ensures Inv(HandlerApply(c, s))
  {
    match s
    case TakeSuccess => SuccessTakenKeeps(c);
    case SuccessDone => SuccessDoneKeeps(c);
    case TakeTerminal => TerminalKeeps(c);
    case UnlinkAlive => RecheckedKeeps(c);
    case TerminalDone => TerminalDoneKeeps(c);
    case TakeWrite(keepAlive, added) => WriteTakenKeeps(c, keepAlive, added);
    case PublishAlive(stopFlag) => PublishedKeeps(c, stopFlag);
    case WriteDone => WriteDoneKeeps(c);
  }

  lemma {:induction false} ReplyKeeps(c: Conn, s: Replying)
    requires Inv(c) && ReplyEnabled(c, s)
    ensures Inv(ReplyApply(c, s))
  {
    match s
    case ReplyAll(keepAlive) => SentAllKeeps(c, keepAlive);
    case ReplyPart(modified) => SentPartKeeps(c, modified);
    case ReplyFails => ReplyErrorKeeps(c);
    case ReplyUnlinked => ReplyUnlinkedKeeps(c);
    case ReplyDone => ReplyDoneKeeps(c);
  }

  lemma {:induction false} OwnerKeeps(c: Conn, s: Owning)
    requires Inv(c) && OwnerEnabled(c, s)
    ensures Inv(OwnerApply(c, s))
  {
    match s
    case DropReplier => DroppedKeeps(c);
    case DropSession => DropSessionKeeps(c);
    case StartDrain => DrainKeeps(c);
    case MarkDrained => MarkedKeeps(c);
    case Unbind => UnbindKeeps(c);
  }

  lemma {:induction false} StepKeeps(c: Conn, s: Step)
    requires Inv(c) && Enabled(c, s)
    ensures Inv(Apply(c, s))
  {
    match s
    case Acceptor(t) => AcceptorKeeps(c, t);
    case Poller(t) => PollerKeeps(c, t);
    case Delivery(t) => DeliveryKeeps(c, t);
    case Handler(t) => HandlerKeeps(c, t);
    case Reply(t) => ReplyKeeps(c, t);
    case Owner(t) => OwnerKeeps(c, t);
  }

  // ----- whole runs -----

  ghost predicate Runs(c: Conn, steps: seq<Step>)
    decreases |steps|
  {
    steps == [] || (Enabled(c, steps[0]) && Runs(Apply(c, steps[0]), steps[1..]))
  }

  function After(c: Conn, steps: seq<Step>): Conn
    requires Runs(c, steps)
    decreases |steps|
  {
    if steps == [] then c else After(Apply(c, steps[0]), steps[1..])
  }

  lemma {:induction false} RunKeeps(c: Conn, steps: seq<Step>)
    requires Inv(c) && Runs(c, steps)
    ensures Inv(After(c, steps))
    decreases |steps|
  {
    if steps != [] {
      StepKeeps(c, steps[0]);
      RunKeeps(Apply(c, steps[0]), steps[1..]);
    }
  }

  /** The states of all runs that start with an accepted connection. */
  ghost predicate Reachable(c: Conn) {
    exists listening, steps :: Runs(Accept(listening), steps) && After(Accept(listening), steps) == c
  }

  lemma {:induction false} ReachableInv(c: Conn)
    requires Reachable(c)
    ensures Inv(c)
  {
    var listening, steps :| Runs(Accept(listening), steps) && After(Accept(listening), steps) == c;
    AcceptInv(listening);
    RunKeeps(Accept(listening), steps);
  }

  /** In every run ref is the number of live claims until the entry is released, and it is released at most once. */
  lemma {:induction false} RefCountsClaims(c: Conn)
    requires Reachable(c)
    ensures c.releases <= 1 && (Freed(c) <==> Claims(c) == 0) && (!Freed(c) ==> c.ref == Claims(c))
  {
    ReachableInv(c);
  }

  /** After the release no step that is still possible reads or writes the entry. */
  lemma {:induction false} NoUseAfterRelease(c: Conn, s: Step)
    requires Reachable(c) && Enabled(c, s) && Touches(c, s)
    ensures !Freed(c)
  {
    ReachableInv(c);
    TouchesLive(c, s);
  }

  lemma {:induction false} TouchesLive(c: Conn, s: Step)
    requires Inv(c) && Enabled(c, s) && Touches(c, s)
    ensures !Freed(c)
  {
    assert Claims(c) > 0;
  }

  /** The target outlives the connection and every session; it loses its last reference with the last of them. */
  lemma {:induction false} TargetCounts(c: Conn)
    requires Reachable(c)
    ensures c.sessions >= 0 && c.targetRef == One(!Freed(c)) + c.sessions
  {
    ReachableInv(c);
  }

  /** A session that the engine took over is called back: none is owed a call when the entry is released. */
  lemma {:induction false} NoSessionForgotten(c: Conn)
    requires Reachable(c)
    ensures c.engaged >= 0 && (Freed(c) ==> c.engaged == 0)
  {
    ReachableInv(c);
  }

  /**
   create_request looks at the state only when no handler that finished an asynchronous reply is
   between registering the read node and publishing KEEPALIVE; an IDLE state found there means
   that the reply to the previous request is not sent yet.
   */
  lemma {:induction false} CheckSeesSettledState(c: Conn)
    requires Reachable(c) && PollerEnabled(c, CheckState)
    ensures !c.held.ByWriter? && (c.state.IDLE? ==> c.idleLinked || c.node.WriteNode? || c.node.DeletedWrite?)
  {
    ReachableInv(c);
  }

  // ----- unlinking twice -----

  /**
   list_del is applied to an entry that is in no list exactly when the terminal result is handled of
   a connection that new_session refused while it was kept alive: then once, otherwise never.
   */
  lemma {:induction false} StrayUnlinkExactly(c: Conn)
    requires Reachable(c)
    ensures c.strayUnlinks == One(c.refusedAlive && c.node.NoNode? && c.held.Free?)
    ensures Freed(c) ==> c.strayUnlinks == One(c.refusedAlive)
  {
    ReachableInv(c);
  }

  lemma {:induction false} RunsMore(c: Conn, steps: seq<Step>, s: Step)
    requires Runs(c, steps) && Enabled(After(c, steps), s)
    ensures Runs(c, steps + [s]) && After(c, steps + [s]) == Apply(After(c, steps), s)
    decreases |steps|
  {
    if steps == [] {
      assert steps + [s] == [s] && [s][1..] == [];
    } else {
      assert (steps + [s])[1..] == steps[1..] + [s];
      RunsMore(Apply(c, steps[0]), steps[1..], s);
    }
  }

  lemma {:induction false} Go(c: Conn, s: Step) returns (d: Conn)
    requires Reachable(c) && Enabled(c, s)
    ensures d == Apply(c, s) && Reachable(d)
  {
    var listening, steps :| Runs(Accept(listening), steps) && After(Accept(listening), steps) == c;
    RunsMore(Accept(listening), steps, s);
    d := Apply(c, s);
  }

  lemma {:induction false} AcceptReachable()
    ensures Reachable(Accept(true))
  {
    assert Runs(Accept(true), []) && After(Accept(true), []) == Accept(true);
  }

  /** One request up to the call of its session. */
  lemma {:induction false} FirstRequest() returns (c: Conn)
    ensures Reachable(c) && c.repliers == 1 && c.idleLinked && c.held.Free? && !c.draining && c.listening
    ensures c.node.ReadNode? && c.phase.Woken? && !c.msgOpen && c.strayUnlinks == 0
  {
    AcceptReachable();
    c := Go(Accept(true), Acceptor(Register(true)));
    c := Go(c, Poller(PollRead));
    c := Go(c, Poller(StartCreate));
    c := Go(c, Poller(CheckState));
    c := Go(c, Poller(NewSession(true, true)));
    c := Go(c, Delivery(AppendLast));
    c := Go(c, Delivery(Announce));
    c := Go(c, Handler(TakeSuccess));
  }

  lemma {:induction false} KeptAlive() returns (c: Conn)
    ensures Reachable(c) && c.state.KEEPALIVE? && c.held.Free? && !c.draining && c.aliveLinked
    ensures c.node.ReadNode? && c.phase.Woken? && !c.msgOpen && c.strayUnlinks == 0
  {
    c := FirstRequest();
    c := Go(c, Reply(ReplyAll(true)));
  }

  /** It does happen: one request and its reply, then a second request that new_session refuses. */
  lemma {:induction false} StrayUnlinkHappens() returns (c: Conn)
    ensures Reachable(c) && c.strayUnlinks == 1
  {
    c := KeptAlive();
    c := Go(c, Poller(StartCreate));
    c := Go(c, Poller(CheckState));
    c := Go(c, Poller(NewSession(false, false)));
    c := Go(c, Delivery(RemoveNode));
    c := Go(c, Handler(TakeTerminal));
    c := Go(c, Handler(UnlinkAlive));
  }
}
