/**
 The life of one accepted TCP connection in src/kernel/Communicator.cc.

 A poller thread, several handler threads, repliers and a drainer share one CommConnEntry.
 The model is a step system: a step is a critical section, an atomic counter update or an
 unlocked write that other threads can observe.  Sockets, clocks, the user's sessions and the
 outcome of calls into the poller are parameters of the steps.
 */
module ServerSteps {
  import opened Basics

  datatype State = CONNECTED | RECEIVING | SUCCESS | IDLE | KEEPALIVE | CLOSING | ERROR

  /**
   Where the poller's node for this connection is: registered for reading or writing, deleted and
   on its way through the pipe, or handed over as a terminal result that no handler took yet.
   */
  datatype Node = NoNode | ReadNode | WriteNode | DeletedRead | DeletedWrite | ReadResult | WriteResult

  /** What the poller thread is doing with a read event of this connection. */
  datatype Phase = Off | Woken | Creating(sawIdle: bool) | Accepted | Announcing | Failing

  /** Who holds the target mutex across more than one step. */
  datatype Holder = Free | ByTerminal | ByWriter

  datatype Conn = Conn(
    // the entry
    ref: int, state: State, idleLinked: bool, aliveLinked: bool, releases: nat,
    // the poller
    node: Node, modified: nat, msgOpen: bool, phase: Phase,
    // results and handlers
    accepting: bool, deleter: bool, successQueued: nat, transferred: bool,
    successRunning: nat, terminalRunning: nat, writeRunning: nat, replyRunning: nat,
    // locks held, the listening socket
    held: Holder, draining: bool, listening: bool,
    // the target and its sessions: those with passive == 2, and those that are owed a call of handle()
    targetRef: int, sessions: int, repliers: nat, engaged: int,
    // history: new_session failed in state KEEPALIVE, and calls of list_del on an entry in no list
    refusedAlive: bool, strayUnlinks: nat)

  /** handle_listen_result, after accept_conn */
  datatype Accepting = Register(added: bool) | AcceptorDeletes(stopFlag: bool)

  /** The poller thread, from a read event to the end of create_request. */
  datatype Polling = PollRead | NoData | HangUp | StartCreate | WaitForTarget | CheckState
      | NewSession(made: bool, message: bool)

  /** append_message, and the hand-over of the poller's results. */
  datatype Delivering = AppendPart | AppendLast | AppendBad | Announce | RemoveNode | Expire | DrainPipe | DrainModified

  /** handle_incoming_request and handle_reply_result */
  datatype Handling = TakeSuccess | SuccessDone | TakeTerminal | UnlinkAlive | TerminalDone
      | TakeWrite(keepAlive: bool, added: bool) | PublishAlive(stopFlag: bool) | WriteDone

  /** reply */
  datatype Replying = ReplyAll(keepAlive: bool) | ReplyPart(modified: bool) | ReplyFails | ReplyUnlinked | ReplyDone

  /** ~CommSession, CommService::drain, and closing the listening socket */
  datatype Owning = DropReplier | DropSession | StartDrain | MarkDrained | Unbind

  datatype Step = Acceptor(a: Accepting) | Poller(p: Polling) | Delivery(d: Delivering)
      | Handler(h: Handling) | Reply(r: Replying) | Owner(o: Owning)

  /** accept_conn */
  function Accept(listening: bool): Conn {
    Conn(1, CONNECTED, false, false, 0, NoNode, 0, false, Off, true, false, 0, false, 0, 0, 0, 0,
         Free, false, listening, 1, 0, 0, 0, false, 0)
  }

  predicate Freed(c: Conn) {
    c.releases > 0
  }

  /** mpoller_del */
  function Del(n: Node): Node {
    match n
    case ReadNode => DeletedRead
    case WriteNode => DeletedWrite
    case _ => n
  }

  /** __release_conn, and the connection's reference to the target. */
  function Release(c: Conn): Conn {
    c.(releases := c.releases + 1, targetRef := c.targetRef - 1)
  }

  /** The atomic decrement at the end of a handler. */
  function DecRef(c: Conn): Conn {
    var d := c.(ref := c.ref - 1);
    if d.ref == 0 then Release(d) else d
  }

  predicate AcceptorEnabled(c: Conn, s: Accepting) {
    match s
    case Register(_) => c.accepting
    case AcceptorDeletes(_) => c.deleter
  }

  predicate PollerEnabled(c: Conn, s: Polling) {
    match s
    case PollRead => c.phase.Off? && c.node.ReadNode?
    case NoData => c.phase.Woken?
    case HangUp => c.phase.Woken?
    case StartCreate => c.phase.Woken? && !c.msgOpen
    case WaitForTarget => c.phase == Creating(true) && c.held.Free?
    case CheckState => c.phase == Creating(false) && !c.draining
    case NewSession(_, _) => c.phase.Accepted?
  }

  predicate DeliveryEnabled(c: Conn, s: Delivering) {
    match s
    case AppendPart => c.phase.Woken? && c.msgOpen
    case AppendLast => c.phase.Woken? && c.msgOpen
    case AppendBad => c.phase.Woken? && c.msgOpen
    case Announce => c.phase.Announcing?
    case RemoveNode => c.phase.Failing?
    case Expire => c.phase.Off? && (c.node.ReadNode? || c.node.WriteNode?)
    case DrainPipe => c.phase.Off? && (c.node.DeletedRead? || c.node.DeletedWrite?)
    case DrainModified => c.phase.Off? && c.modified > 0
  }

  predicate HandlerEnabled(c: Conn, s: Handling) {
    match s
    case TakeSuccess => c.successQueued > 0 && c.held.Free?
    case SuccessDone => c.successRunning > 0
    case TakeTerminal => c.node.ReadResult? && c.held.Free?
    case UnlinkAlive => c.held.ByTerminal? && !c.draining
    case TerminalDone => c.terminalRunning > 0
    case TakeWrite(keepAlive, _) => c.node.WriteResult? && (keepAlive ==> c.held.Free?)
    case PublishAlive(_) => c.held.ByWriter? && !c.draining
    case WriteDone => c.writeRunning > 0
  }

  predicate ReplyEnabled(c: Conn, s: Replying) {
    match s
    case ReplyAll(_) => c.repliers > 0 && c.held.Free? && c.idleLinked && !c.draining
    case ReplyPart(_) => c.repliers > 0 && c.held.Free? && c.idleLinked
    case ReplyFails => c.repliers > 0 && c.held.Free? && c.idleLinked
    case ReplyUnlinked => c.repliers > 0 && c.held.Free? && !c.idleLinked
    case ReplyDone => c.replyRunning > 0
  }

  predicate OwnerEnabled(c: Conn, s: Owning) {
    match s
    case DropReplier => c.repliers > 0 && c.held.Free?
    case DropSession => c.sessions > c.repliers + c.engaged
    case StartDrain => c.aliveLinked && !c.draining
    case MarkDrained => c.draining
    case Unbind => true
  }

  predicate Enabled(c: Conn, s: Step) {
    match s
    case Acceptor(t) => AcceptorEnabled(c, t)
    case Poller(t) => PollerEnabled(c, t)
    case Delivery(t) => DeliveryEnabled(c, t)
    case Handler(t) => HandlerEnabled(c, t)
    case Reply(t) => ReplyEnabled(c, t)
    case Owner(t) => OwnerEnabled(c, t)
  }

  /** The steps that read or write the entry. */
  predicate Touches(c: Conn, s: Step) {
    match s
    case Acceptor(t) => t.Register?
    case Poller(_) => true
    case Delivery(t) => t.AppendPart? || t.AppendLast? || t.AppendBad? || t.Announce?
    case Handler(_) => true
    case Reply(t) => !t.ReplyUnlinked?
    case Owner(t) => t.StartDrain? || t.MarkDrained? || (t.DropReplier? && c.idleLinked)
  }

  function Handover(c: Conn): Conn {
    c.(node := if c.node.ReadNode? || c.node.DeletedRead? then ReadResult else WriteResult, msgOpen := false)
  }

  function Terminal(c: Conn): Conn {
    var d := c.(node := NoNode);
    match c.state
    case KEEPALIVE => d.(held := ByTerminal)
    case IDLE => d.(idleLinked := false, strayUnlinks := if c.idleLinked then c.strayUnlinks else c.strayUnlinks + 1,
                    terminalRunning := c.terminalRunning + 1)
    case SUCCESS => d.(state := CLOSING, transferred := true)
    case RECEIVING => d.(terminalRunning := c.terminalRunning + 1, engaged := c.engaged - 1)
    case ERROR => d.(terminalRunning := c.terminalRunning + 1, engaged := c.engaged - 1)
    case _ => d.(terminalRunning := c.terminalRunning + 1)
  }

  function Create(c: Conn, made: bool, message: bool): Conn {
    if !made then c.(phase := Failing, refusedAlive := c.refusedAlive || c.state.KEEPALIVE?)
    else c.(state := RECEIVING, targetRef := c.targetRef + 1, sessions := c.sessions + 1,
            engaged := c.engaged + 1, msgOpen := message,
            phase := if message then Woken else Failing)
  }

  /** reply: passive becomes 3 and the entry leaves the idle list. */
  function Replied(c: Conn): Conn
    requires c.repliers > 0
  {
    c.(idleLinked := false, repliers := c.repliers - 1, engaged := c.engaged + 1)
  }

  /** reply_reliable after list_del, up to the return from send_message_sync with 0. */
  function SentAll(c: Conn, keepAlive: bool): Conn
    requires c.repliers > 0
  {
    var d := Replied(c).(ref := c.ref + 1, replyRunning := c.replyRunning + 1);
    if keepAlive && c.listening then d.(state := KEEPALIVE, aliveLinked := true)
    else d.(node := Del(c.node), state := CLOSING)
  }

  function ReplyError(c: Conn): Conn
    requires c.repliers > 0
  {
    Replied(c).(node := Del(c.node), state := ERROR)
  }

  /** send_message_async on an idle connection; without a registered node mpoller_mod fails with ENOENT. */
  function SentPart(c: Conn, modified: bool): Conn
    requires c.repliers > 0
  {
    if !(c.node.ReadNode? || c.node.WriteNode?) then
      Replied(c).(state := RECEIVING)
    else if modified then
      Replied(c).(node := WriteNode, msgOpen := false, modified := c.modified + 1)
    else
      ReplyError(c)
  }

  /** handle_reply_result up to the return of mpoller_add; when it succeeds the target mutex stays locked. */
  function WriteResultTaken(c: Conn, keepAlive: bool, added: bool): Conn {
    if keepAlive && added then c.(ref := c.ref + 1, node := ReadNode, msgOpen := false, held := ByWriter)
    else c.(node := NoNode, writeRunning := c.writeRunning + 1)
  }

  function Registered(c: Conn, added: bool): Conn {
    if added then c.(accepting := false, deleter := true, node := ReadNode) else Release(c.(accepting := false))
  }

  /** list_del of a kept-alive entry; a stray one when the entry is not in the list. */
  function UnlinkedAlive(c: Conn): Conn {
    c.(aliveLinked := false, strayUnlinks := if c.aliveLinked then c.strayUnlinks else c.strayUnlinks + 1)
  }

  function Checked(c: Conn): Conn {
    if c.state.KEEPALIVE? then UnlinkedAlive(c).(phase := Accepted)
    else c.(phase := if c.state.CONNECTED? then Accepted else Failing)
  }

  function Removed(c: Conn): Conn {
    if c.node.ReadNode? then c.(phase := Off, node := ReadResult, msgOpen := false) else c.(phase := Off)
  }

  function SuccessTaken(c: Conn): Conn
    requires c.successQueued > 0
  {
    var d := c.(successQueued := c.successQueued - 1, successRunning := c.successRunning + 1,
                repliers := c.repliers + 1, engaged := c.engaged - 1);
    if c.state.SUCCESS? then d.(ref := c.ref + 1, state := IDLE, idleLinked := true) else d.(transferred := false)
  }

  function Rechecked(c: Conn): Conn {
    var d := if c.state.KEEPALIVE? then UnlinkedAlive(c) else c;
    d.(held := Free, terminalRunning := c.terminalRunning + 1)
  }

  function Published(c: Conn, stopFlag: bool): Conn {
    var d := c.(held := Free, writeRunning := c.writeRunning + 1);
    if !stopFlag && c.listening then d.(state := KEEPALIVE, aliveLinked := true)
    else d.(node := Del(c.node), state := CLOSING)
  }

  /** ~CommSession of a session with passive == 2 */
  function Dropped(c: Conn): Conn
    requires c.repliers > 0
  {
    var d := c.(repliers := c.repliers - 1, sessions := c.sessions - 1, targetRef := c.targetRef - 1);
    if c.idleLinked then d.(idleLinked := false, node := Del(c.node), state := CLOSING) else d
  }

  function AcceptorApply(c: Conn, s: Accepting): Conn
    requires AcceptorEnabled(c, s)
  {
    match s
    case Register(added) => Registered(c, added)
    case AcceptorDeletes(stopFlag) => c.(deleter := false, node := if stopFlag then Del(c.node) else c.node)
  }

  function PollerApply(c: Conn, s: Polling): Conn
    requires PollerEnabled(c, s)
  {
    match s
    case PollRead => c.(phase := Woken)
    case NoData => c.(phase := Off)
    case HangUp => c.(phase := Failing)
    case StartCreate => c.(phase := Creating(c.state.IDLE?))
    case WaitForTarget => c.(phase := Creating(false))
    case CheckState => Checked(c)
    case NewSession(made, message) => Create(c, made, message)
  }

  function DeliveryApply(c: Conn, s: Delivering): Conn
    requires DeliveryEnabled(c, s)
  {
    match s
    case AppendPart => c
    case AppendLast => c.(state := SUCCESS, msgOpen := false, phase := Announcing)
    case AppendBad => c.(phase := Failing)
    case Announce => c.(phase := Woken, successQueued := c.successQueued + 1)
    case RemoveNode => Removed(c)
    case Expire => Handover(c)
    case DrainPipe => Handover(c)
    case DrainModified => c.(modified := c.modified - 1)
  }

  function HandlerApply(c: Conn, s: Handling): Conn
    requires HandlerEnabled(c, s)
  {
    match s
    case TakeSuccess => SuccessTaken(c)
    case SuccessDone => DecRef(c.(successRunning := c.successRunning - 1))
    case TakeTerminal => Terminal(c)
    case UnlinkAlive => Rechecked(c)
    case TerminalDone => DecRef(c.(terminalRunning := c.terminalRunning - 1))
    case TakeWrite(keepAlive, added) => WriteResultTaken(c, keepAlive, added)
    case PublishAlive(stopFlag) => Published(c, stopFlag)
    case WriteDone => DecRef(c.(writeRunning := c.writeRunning - 1, engaged := c.engaged - 1))
  }

  function ReplyApply(c: Conn, s: Replying): Conn
    requires ReplyEnabled(c, s)
  {
    match s
    case ReplyAll(keepAlive) => SentAll(c, keepAlive)
    case ReplyPart(modified) => SentPart(c, modified)
    case ReplyFails => ReplyError(c)
    case ReplyUnlinked => c.(repliers := c.repliers - 1)
    case ReplyDone => DecRef(c.(replyRunning := c.replyRunning - 1, engaged := c.engaged - 1))
  }

  function OwnerApply(c: Conn, s: Owning): Conn
    requires OwnerEnabled(c, s)
  {
    match s
    case DropReplier => Dropped(c)
    case DropSession => c.(sessions := c.sessions - 1, targetRef := c.targetRef - 1)
    case StartDrain => c.(aliveLinked := false, node := Del(c.node), draining := true)
    case MarkDrained => c.(draining := false, state := CLOSING)
    case Unbind => c.(listening := false)
  }

  function Apply(c: Conn, s: Step): Conn
    requires Enabled(c, s)
  {
    match s
    case Acceptor(t) => AcceptorApply(c, t)
    case Poller(t) => PollerApply(c, t)
    case Delivery(t) => DeliveryApply(c, t)
    case Handler(t) => HandlerApply(c, t)
    case Reply(t) => ReplyApply(c, t)
    case Owner(t) => OwnerApply(c, t)
  }

  // ----- the invariant -----

  predicate ReadKind(n: Node) {
    n.ReadNode? || n.DeletedRead? || n.ReadResult?
  }

  predicate WriteKind(n: Node) {
    n.WriteNode? || n.DeletedWrite? || n.WriteResult?
  }

  /**
   The live claims on the entry: the acceptor before registration, the poller's node or its
   pending terminal result, a success result that inherited the claim of a terminal one, and
   the handlers and repliers in progress.
   */
  function Claims(c: Conn): nat {
    One(c.accepting) + One(!c.node.NoNode?) + One(c.transferred) + One(!c.held.Free?)
    + c.successRunning + c.terminalRunning + c.writeRunning + c.replyRunning
  }

  predicate Counted(c: Conn) {
    && c.releases <= 1
    && (if Freed(c) then Claims(c) == 0 else Claims(c) > 0 && c.ref == Claims(c))
    && c.targetRef == One(!Freed(c)) + c.sessions
  }

  predicate Linked(c: Conn) {
    && (c.idleLinked ==> c.state.IDLE? && ReadKind(c.node) && c.held.Free?)
    && (c.aliveLinked ==> c.state.KEEPALIVE? && (ReadKind(c.node) || c.held.ByTerminal?) && !c.draining)
    && (c.draining ==> c.state.KEEPALIVE? && (ReadKind(c.node) || c.held.ByTerminal?))
    && (c.state.IDLE? && ReadKind(c.node) ==> c.idleLinked || c.held.ByWriter?)
    && (WriteKind(c.node) ==> c.state.IDLE? && !c.idleLinked && c.held.Free?)
    && (c.state.KEEPALIVE? && (ReadKind(c.node) || c.held.ByTerminal?) ==>
          c.aliveLinked || c.draining || c.phase.Accepted? || c.refusedAlive)
  }

  predicate Locked(c: Conn) {
    && (c.held.ByTerminal? ==> c.node.NoNode? && (c.state.KEEPALIVE? || c.state.CLOSING?) && !c.transferred)
    && (c.held.ByWriter? ==> ReadKind(c.node) && c.state.IDLE? && !c.transferred
                             && !c.phase.Accepted? && !c.phase.Announcing? && c.phase != Creating(false))
  }

  predicate Polled(c: Conn) {
    && (!c.phase.Off? ==> !c.node.NoNode? && !c.node.ReadResult? && !c.node.WriteResult?)
    && (c.phase.Accepted? ==> (c.state.CONNECTED? || c.state.KEEPALIVE?) && !c.aliveLinked
                              && !c.draining && ReadKind(c.node))
    && (c.msgOpen ==> c.state.RECEIVING? && (c.node.ReadNode? || c.node.DeletedRead?))
    && (c.accepting ==> Claims(c) == 1 && c.state.CONNECTED? && c.successQueued == 0)
  }

  predicate Succeeded(c: Conn) {
    && c.successQueued + One(c.phase.Announcing?) == One(c.state.SUCCESS? || c.transferred)
    && (c.state.SUCCESS? ==> ReadKind(c.node) && !c.transferred && c.held.Free?)
    && (c.transferred ==> c.state.CLOSING? && c.node.NoNode?)
    && (c.phase.Announcing? ==> c.state.SUCCESS?)
  }

  /** The sessions that the engine still has to call. */
  predicate Owed(c: Conn) {
    && c.engaged == One(c.state.SUCCESS? || c.transferred)
                    + One((c.state.RECEIVING? || c.state.ERROR?) && ReadKind(c.node))
                    + One(WriteKind(c.node)) + One(c.held.ByWriter?) + c.writeRunning + c.replyRunning
    && c.sessions >= c.repliers + c.engaged
  }

  predicate Unlinked(c: Conn) {
    if c.refusedAlive then
      && c.state.KEEPALIVE? && !c.aliveLinked && !c.draining && !WriteKind(c.node)
      && (c.phase.Failing? || (c.phase.Off? && !c.node.ReadNode?))
      && c.strayUnlinks == One(c.node.NoNode? && c.held.Free?)
    else
      c.strayUnlinks == 0
  }

  /** Everything but the counts. */
  predicate Shape(c: Conn) {
    Linked(c) && Locked(c) && Polled(c) && Succeeded(c) && Owed(c) && Unlinked(c)
  }

  predicate Inv(c: Conn) {
    Counted(c) && Shape(c)
  }

  // ----- every step keeps it -----

  lemma {:induction false} Aside(c: Conn, ref: int, releases: nat, targetRef: int)
    requires Shape(c)
    ensures Shape(c.(ref := ref, releases := releases, targetRef := targetRef))
    ensures Claims(c.(ref := ref, releases := releases, targetRef := targetRef)) == Claims(c)
  {
  }

  lemma {:induction false} Decrement(d: Conn)
    requires Shape(d) && !Freed(d) && d.ref == Claims(d) + 1 && d.targetRef == 1 + d.sessions
    ensures Inv(DecRef(d))
  {
    if d.ref == 1 {
      Aside(d, d.ref - 1, d.releases + 1, d.targetRef - 1);
      LastClaim(d);
    } else {
      Aside(d, d.ref - 1, d.releases, d.targetRef);
    }
  }

  lemma {:induction false} LastClaim(d: Conn)
    requires !Freed(d) && d.ref == 1 && Claims(d) == 0 && d.targetRef == 1 + d.sessions
    requires var e := d.(ref := d.ref - 1, releases := d.releases + 1, targetRef := d.targetRef - 1);
             Shape(e) && Claims(e) == Claims(d)
    ensures Inv(DecRef(d))
  {
  }

  lemma {:induction false} RegisteredKeeps(c: Conn, added: bool)
    requires Inv(c) && AcceptorEnabled(c, Register(added))
    ensures Inv(AcceptorApply(c, Register(added)))
  {
  }

  lemma {:induction false} DeletedKeeps(c: Conn, n: Node)
    requires Inv(c) && (n == c.node || n == Del(c.node))
    ensures Inv(c.(node := n, deleter := false))
  {
  }

  /** The moves of the poller thread that change nothing else. */
  predicate Moves(c: Conn, ph: Phase) {
    match ph
    case Woken => c.phase.Off? && c.node.ReadNode?
    case Off => c.phase.Woken?
    case Failing => c.phase.Woken?
    case Creating(sawIdle) =>
      if c.phase.Woken? then sawIdle == c.state.IDLE? else c.phase == Creating(true) && c.held.Free?
    case _ => false
  }

  lemma {:induction false} PhaseKeeps(c: Conn, ph: Phase)
    requires Inv(c) && Moves(c, ph)
    ensures Inv(c.(phase := ph))
  {
  }

  lemma {:induction false} CheckedKeeps(c: Conn)
    requires Inv(c) && PollerEnabled(c, CheckState)
    ensures Inv(PollerApply(c, CheckState))
  {
  }

  lemma {:induction false} CreateKeeps(c: Conn, made: bool, message: bool)
    requires Inv(c) && PollerEnabled(c, NewSession(made, message))
    ensures Inv(PollerApply(c, NewSession(made, message)))
  {
  }

  lemma {:induction false} AppendedKeeps(c: Conn)
    requires Inv(c) && DeliveryEnabled(c, AppendLast)
    ensures Inv(DeliveryApply(c, AppendLast))
  {
  }

  lemma {:induction false} AnnouncedKeeps(c: Conn)
    requires Inv(c) && DeliveryEnabled(c, Announce)
    ensures Inv(DeliveryApply(c, Announce))
  {
  }

  lemma {:induction false} ReportedKeeps(c: Conn)
    requires Inv(c) && c.phase.Failing? && c.node.ReadNode?
    ensures Inv(c.(phase := Off, node := ReadResult, msgOpen := false))
  {
  }

  lemma {:induction false} RemovedKeeps(c: Conn)
    requires Inv(c) && DeliveryEnabled(c, RemoveNode)
    ensures Inv(DeliveryApply(c, RemoveNode))
  {
    if c.node.ReadNode? {
      ReportedKeeps(c);
    }
  }

  lemma {:induction false} HandoverKeeps(c: Conn)
    requires Inv(c) && c.phase.Off? && !c.node.NoNode? && !c.node.ReadResult? && !c.node.WriteResult?
    ensures Inv(Handover(c))
  {
  }

  lemma {:induction false} ExpireKeeps(c: Conn)
    requires Inv(c) && DeliveryEnabled(c, Expire)
    ensures Inv(DeliveryApply(c, Expire))
  {
    HandoverKeeps(c);
  }

  lemma {:induction false} DrainPipeKeeps(c: Conn)
    requires Inv(c) && DeliveryEnabled(c, DrainPipe)
    ensures Inv(DeliveryApply(c, DrainPipe))
  {
    HandoverKeeps(c);
  }

  lemma {:induction false} AppendBadKeeps(c: Conn)
    requires Inv(c) && DeliveryEnabled(c, AppendBad)
    ensures Inv(DeliveryApply(c, AppendBad))
  {
    PhaseKeeps(c, Failing);
  }

  lemma {:induction false} SuccessTakenKeeps(c: Conn)
    requires Inv(c) && HandlerEnabled(c, TakeSuccess)
    ensures Inv(HandlerApply(c, TakeSuccess))
  {
  }

  lemma {:induction false} TerminalAlive(c: Conn)
    requires Inv(c) && HandlerEnabled(c, TakeTerminal) && c.state.KEEPALIVE?
    ensures Inv(HandlerApply(c, TakeTerminal))
  {
  }

  lemma {:induction false} TerminalIdle(c: Conn)
    requires Inv(c) && HandlerEnabled(c, TakeTerminal) && c.state.IDLE?
    ensures Inv(HandlerApply(c, TakeTerminal))
  {
  }

  lemma {:induction false} TerminalSuccess(c: Conn)
    requires Inv(c) && HandlerEnabled(c, TakeTerminal) && c.state.SUCCESS?
    ensures Inv(HandlerApply(c, TakeTerminal))
  {
  }

  lemma {:induction false} TerminalOwed(c: Conn)
    requires Inv(c) && HandlerEnabled(c, TakeTerminal) && (c.state.RECEIVING? || c.state.ERROR?)
    ensures Inv(HandlerApply(c, TakeTerminal))
  {
  }

  lemma {:induction false} TerminalOther(c: Conn)
    requires Inv(c) && HandlerEnabled(c, TakeTerminal) && (c.state.CONNECTED? || c.state.CLOSING?)
    ensures Inv(HandlerApply(c, TakeTerminal))
  {
  }

  lemma {:induction false} RecheckedKeeps(c: Conn)
    requires Inv(c) && HandlerEnabled(c, UnlinkAlive)
    ensures Inv(HandlerApply(c, UnlinkAlive))
  {
  }

  lemma {:induction false} WriteTakenKeeps(c: Conn, keepAlive: bool, added: bool)
    requires Inv(c) && HandlerEnabled(c, TakeWrite(keepAlive, added))
    ensures Inv(HandlerApply(c, TakeWrite(keepAlive, added)))
  {
  }

  lemma {:induction false} PublishedKeeps(c: Conn, stopFlag: bool)
    requires Inv(c) && HandlerEnabled(c, PublishAlive(stopFlag))
    ensures Inv(HandlerApply(c, PublishAlive(stopFlag)))
  {
  }

  lemma {:induction false} SentAllKeeps(c: Conn, keepAlive: bool)
    requires Inv(c) && ReplyEnabled(c, ReplyAll(keepAlive))
    ensures Inv(ReplyApply(c, ReplyAll(keepAlive)))
  {
  }

  lemma {:induction false} ReplyErrorKeeps(c: Conn)
    requires Inv(c) && ReplyEnabled(c, ReplyFails)
    ensures Inv(ReplyApply(c, ReplyFails))
  {
  }

  lemma {:induction false} SentPartKeeps(c: Conn, modified: bool)
    requires Inv(c) && ReplyEnabled(c, ReplyPart(modified))
    ensures Inv(ReplyApply(c, ReplyPart(modified)))
  {
    if (c.node.ReadNode? || c.node.WriteNode?) && !modified {
      ReplyErrorKeeps(c);
      assert ReplyApply(c, ReplyPart(modified)) == ReplyApply(c, ReplyFails);
    }
  }

  lemma {:induction false} DroppedIdle(c: Conn)
    requires Inv(c) && OwnerEnabled(c, DropReplier) && c.idleLinked
    ensures Inv(OwnerApply(c, DropReplier))
  {
  }

  lemma {:induction false} DroppedBusy(c: Conn)
    requires Inv(c) && OwnerEnabled(c, DropReplier) && !c.idleLinked
    ensures Inv(OwnerApply(c, DropReplier))
  {
  }

  lemma {:induction false} DrainKeeps(c: Conn)
    requires Inv(c) && OwnerEnabled(c, StartDrain)
    ensures Inv(OwnerApply(c, StartDrain))
  {
  }

  lemma {:induction false} MarkedKeeps(c: Conn)
    requires Inv(c) && OwnerEnabled(c, MarkDrained)
    ensures Inv(OwnerApply(c, MarkDrained))
  {
  }

  lemma {:induction false} OthersKeep(c: Conn, modified: nat, repliers: nat, sessions: int, listening: bool)
    requires Inv(c) && repliers <= c.repliers && sessions >= c.engaged + repliers
    ensures Inv(c.(modified := modified, repliers := repliers, sessions := sessions, listening := listening,
                   targetRef := c.targetRef + sessions - c.sessions))
  {
  }

  lemma {:induction false} ReplyUnlinkedKeeps(c: Conn)
    requires Inv(c) && ReplyEnabled(c, ReplyUnlinked)
    ensures Inv(ReplyApply(c, ReplyUnlinked))
  {
    OthersKeep(c, c.modified, c.repliers - 1, c.sessions, c.listening);
  }

  lemma {:induction false} DropSessionKeeps(c: Conn)
    requires Inv(c) && OwnerEnabled(c, DropSession)
    ensures Inv(OwnerApply(c, DropSession))
  {
    OthersKeep(c, c.modified, c.repliers, c.sessions - 1, c.listening);
  }

  lemma {:induction false} UnbindKeeps(c: Conn)
    requires Inv(c) && OwnerEnabled(c, Unbind)
    ensures Inv(OwnerApply(c, Unbind))
  {
    OthersKeep(c, c.modified, c.repliers, c.sessions, false);
  }

  lemma {:induction false} ModifiedKeeps(c: Conn)
    requires Inv(c) && DeliveryEnabled(c, DrainModified)
    ensures Inv(DeliveryApply(c, DrainModified))
  {
    OthersKeep(c, c.modified - 1, c.repliers, c.sessions, c.listening);
  }

  lemma {:induction false} SuccessDoneDecrements(c: Conn)
    requires Inv(c) && c.successRunning > 0
    ensures Inv(DecRef(c.(successRunning := c.successRunning - 1)))
  {
    var d := c.(successRunning := c.successRunning - 1);
    assert Claims(d) == Claims(c) - 1;
    Decrement(d);
  }

  lemma {:induction false} TerminalDoneDecrements(c: Conn)
    requires Inv(c) && c.terminalRunning > 0
    ensures Inv(DecRef(c.(terminalRunning := c.terminalRunning - 1)))
  {
    var d := c.(terminalRunning := c.terminalRunning - 1);
    assert Claims(d) == Claims(c) - 1;
    Decrement(d);
  }

  lemma {:induction false} WriteDoneDecrements(c: Conn)
    requires Inv(c) && c.writeRunning > 0
    ensures Inv(DecRef(c.(writeRunning := c.writeRunning - 1, engaged := c.engaged - 1)))
  {
    var d := c.(writeRunning := c.writeRunning - 1, engaged := c.engaged - 1);
    assert Claims(d) == Claims(c) - 1;
    Decrement(d);
  }

  lemma {:induction false} ReplyDoneDecrements(c: Conn)
    requires Inv(c) && c.replyRunning > 0
    ensures Inv(DecRef(c.(replyRunning := c.replyRunning - 1, engaged := c.engaged - 1)))
  {
    var d := c.(replyRunning := c.replyRunning - 1, engaged := c.engaged - 1);
    assert Claims(d) == Claims(c) - 1;
    Decrement(d);
  }

  lemma {:induction false} SuccessDoneIs(c: Conn)
    requires HandlerEnabled(c, SuccessDone)
    ensures HandlerApply(c, SuccessDone) == DecRef(c.(successRunning := c.successRunning - 1))
  {
  }

  lemma {:induction false} TerminalDoneIs(c: Conn)
    requires HandlerEnabled(c, TerminalDone)
    ensures HandlerApply(c, TerminalDone) == DecRef(c.(terminalRunning := c.terminalRunning - 1))
  {
  }

  lemma {:induction false} WriteDoneIs(c: Conn)
    requires HandlerEnabled(c, WriteDone)
    ensures HandlerApply(c, WriteDone) == DecRef(c.(writeRunning := c.writeRunning - 1, engaged := c.engaged - 1))
  {
  }

  lemma {:induction false} ReplyDoneIs(c: Conn)
    requires ReplyEnabled(c, ReplyDone)
    ensures ReplyApply(c, ReplyDone) == DecRef(c.(replyRunning := c.replyRunning - 1, engaged := c.engaged - 1))
  {
  }

  lemma {:induction false} AcceptInv(listening: bool)
    ensures Inv(Accept(listening))
  {
  }
}
