/**
 What the steps of ServerSteps enter into the accounts of a connection, for ServerAccounts.
 */
module ServerBooks {
  import opened Basics
  import opened ServerSteps

  /** A request is handed to its session, which then may reply. */
  function Asked(c: Conn, s: Step): nat {
    One(s.Handler? && s.h.TakeSuccess?)
  }

  /** A session replies or is dropped without a reply. */
  function Answered(c: Conn, s: Step): nat {
    One((s.Reply? && !s.r.ReplyDone?) || (s.Owner? && s.o.DropReplier?))
  }

  function Made(c: Conn, s: Step): nat {
    One(s.Poller? && s.p.NewSession? && s.p.made)
  }

  function Deleted(c: Conn, s: Step): nat {
    One(s.Owner? && (s.o.DropReplier? || s.o.DropSession?))
  }

  /** The acceptor's node is registered, and the acceptor looks at the stop flag. */
  function Added(c: Conn, s: Step): nat {
    One(s.Acceptor? && s.a.Register? && s.a.added)
  }

  function Looked(c: Conn, s: Step): nat {
    One(s.Acceptor? && s.a.AcceptorDeletes?)
  }

  /** A reply replaces the registered node, and the result for the replaced one is handed over. */
  function Replaced(c: Conn, s: Step): nat {
    One(s.Reply? && s.r.ReplyPart? && s.r.modified && (c.node.ReadNode? || c.node.WriteNode?))
  }

  function Drained(c: Conn, s: Step): nat {
    One(s.Delivery? && s.d.DrainModified?)
  }

  /** What step s, from c to d, does to the accounts; the listening socket, once closed, stays closed. */
  predicate Balanced(c: Conn, s: Step, d: Conn) {
    && d.repliers + Answered(c, s) == c.repliers + Asked(c, s)
    && d.sessions + Deleted(c, s) == c.sessions + Made(c, s)
    && One(d.deleter) + Looked(c, s) == One(c.deleter) + Added(c, s)
    && d.modified + Drained(c, s) == c.modified + Replaced(c, s)
    && !(d.accepting && d.deleter) && (d.listening ==> c.listening)
  }

  /** From c to d so many repliers, sessions and replaced nodes are added, and nothing else changes in the accounts. */
  predicate Enters(c: Conn, d: Conn, repliers: int, sessions: int, modified: int) {
    && d.repliers == c.repliers + repliers && d.sessions == c.sessions + sessions && d.modified == c.modified + modified
    && d.deleter == c.deleter && d.accepting == c.accepting && d.listening == c.listening
  }

  function Less(b: bool): int {
    if b then -1 else 0
  }
}
