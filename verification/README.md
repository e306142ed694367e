# Verified model of the network engine

A Dafny 4.11 model of the engine's data structures, codecs and mutex-stepped protocols, with proofs
about all inputs and all interleavings. `dafny verify dfyconfig.toml` checks everything.

Code that updates fields in place is a class whose methods are proved against functions of the old
state. A protocol between threads is a transition system: each section between lock and unlock is one
atomic step, each system call, clock reading or user callback a nondeterministic input, and a theorem
about every reachable state follows from an invariant that every step keeps.

| file | component | main results |
|---|---|---|
| `ServerConnection.dfy`, `ServerSteps.dfy`, `ServerKeepAlive.dfy`, `ServerAccounts.dfy`, `ServerBooks.dfy`, `ServerRelease.dfy` | life cycle of one server TCP connection: poller thread, handler threads, repliers, session destructors, drain | `ref` counts the live claims, one release, nothing touches the entry afterwards; the next request is served exactly on a connection kept alive; each request answered once; the release always within reach |
| `PollerHandover.dfy`, `PollerStop.dfy` | add, del, mod, timers, events, pipe, sweep and stop of a poller | every node handed over at most once, exactly once by the end of stop, which is always within reach |
| `PollerIndex.dfy`, `DeadlineState.dfy` | the poller run together with its lists, tree and timer | registry, lists, tree and the deadlines asked for agree in every run; a sleeping thread's timer covers the earliest |
| `RbTree.dfy` | red-black tree on parent-linked nodes | insertion, erasure, replacement, neighbours |
| `Deadlines.dfy`, `DeadlineOrder.dfy` | the sorted list and tree of deadlines, and the timer armed from them | one map of deadlines, sweeps exact, earliest deadline always covered |
| `HttpParser.dfy`, `HttpFields.dfy`, `HttpFolding.dfy`, `HttpMessage.dfy`, `HttpChunked.dfy` | incremental HTTP/1.1 parser and encoder | cutting the input does not matter; flags and framing by the fields of the message; round trips |
| `LoadHeap.dfy`, `GroupFacts.dfy`, `HeapOrder.dfy` | least-load target selection | heap by load ratio, spare room at the root whenever the group has any |
| `TargetLocks.dfy` | the mutexes of a target and its groups, step by step | the chosen mutex is right after a wait, one user at a time, no deadlock |
| `MsgQueue.dfy`, `Executor.dfy` | two-list message queue, one runner per queue | nothing lost, order, no lost wake-up, one outcome per session, always within reach |
| `TaskEngine.dfy`, `TaskProgress.dfy`, `TaskOrder.dfy`, `Series.dfy` | nested series and parallel tasks, the ring queue of a series | done after all series, once; always a step to take until a series is over; tasks begun in the order of the queue; queue order through growth |
| `LruCache.dfy`, `LruState.dfy`, `LruAge.dfy`, `LruFacts.dfy`, `LruTree.dfy`, `LruShelf.dfy` | reference-counted LRU cache on the red-black tree | lists, size, tree and counts agree; the handles unused for longest go first; each value deleted once |
| `EncodeStream.dfy`, `StreamMemory.dfy` | output vectors with merging and bump allocation | the vectors always stand for everything appended |
| `Crc32c.dfy`, `CrcPolynomial.dfy`, `Additive.dfy` | slicing-by-8 CRC-32C | equal to the bit-at-a-time CRC, which divides by the generator |
| `JsonNumber.dfy`, `JsonGrammar.dfy`, `JsonDecimal.dfy`, `JsonString.dfy`, `JsonEscapes.dfy`, `Utf8.dfy` | JSON numbers and strings | exactly the grammar of RFC 8259 accepted, decimal value faithful, table never left; a string read as given bytes exactly if it spells them |
| `Basics.dfy`, `Lists.dfy` | shared definitions, lists as sequences | |

Places where the code does something a reader may not expect; the model does what the code does:

- If `new_session` fails for a request on a kept-alive connection, the entry has been taken off the
  service's list but its state is still KEEPALIVE, so the terminal result takes it off a second time.
  `StrayUnlinkHappens` is such a run; `StrayUnlinkExactly` shows that it happens in exactly these runs.
- A message queue created with a maximum of 0 is unbounded, since `msg_max - 1` wraps: `ZeroGrows` has a run
  for every length, and `BoundHoldsExactly` says that the bound holds exactly for a maximum that is not 0.
- `msgqueue_put_head` puts a message in front of everything if it does not have to wait (`PutHeadInFront`).
  After waiting it does so exactly if the get list is empty (`LateHeadBehind`); `LateHeadHappens` is a run
  in which it is not.
- The two bytes after the data of a chunk are skipped without a look at them: in `ChunksParse` they may be any.
- A body longer than the length that the headers announce is cut there, and the rest is left for the
  next message; hence the if-and-only-if of `RoundTrip`.

## Model

| member | source | states |
|---|---|---|
| `RbTree.RbRoot.Rotate` | src/kernel/rbtree.c:25-63 | a rotation turns the subtree and keeps the in-order sequence, the parent links and the rest of the tree |
| `RbTree.RbRoot.InsertColor` | src/kernel/rbtree.c:65-128 | a red node hung on a leaf slot: afterwards the tree is a valid red-black tree with the same order |
| `RbTree.RbRoot.Insert` | src/kernel/rbtree.c:65-128 | link and insert: valid tree, in-order sequence changed only by the new node next to the slot's owner |
| `RbTree.RbRoot.EraseColor` | src/kernel/rbtree.c:130-220 | a subtree short of one black node: the fix-up terminates in a valid tree with the same order |
| `RbTree.RbRoot.Erase` | src/kernel/rbtree.c:222-294 | valid tree, in-order sequence changed only by the erased node |
| `RbTree.RbRoot.ReplaceNode` | src/kernel/rbtree.c:365-386 | the new node takes the victim's place in the order |
| `RbTree.RbRoot.Neighbor` | src/kernel/rbtree.c:323-363 | rb_next and rb_prev return what is beside the node in the in-order sequence, or null at its end |
| `RbTree.OrderDistinct` | src/kernel/rbtree.c:222-294 | the in-order sequence names no node twice |
| `RbTree.OrderIds` | src/kernel/rbtree.c:299-321 | the in-order sequence names exactly the nodes of the tree |
| `RbTree.RbRoot.constructor` | src/kernel/rbtree.h:109-114 | an empty tree |
| `DeadlineOrder.TimeoutCmp` | src/kernel/poller.c:140-148 | the comparison of timespecs is that of the instants, and adding a timeout stays normalised and adds exactly that time |
| `DeadlineOrder.CoveredWithout` | src/kernel/poller.c:999-1002 | taking a node out never requires re-arming the timer |
| `DeadlineOrder.EmptyListCovered` | src/kernel/poller.c:862-877 | with an empty list, arming for the new node only if the tree is empty or starts later keeps the earliest deadline covered |
| `DeadlineOrder.TreeCovered` | src/kernel/poller.c:868-877 | with a list, arming for a node put first in the tree only if the list starts later keeps the earliest deadline covered |
| `DeadlineOrder.SweptMembers` | src/kernel/poller.c:600-630 | cutting the due prefix off the list and the tree order removes exactly the nodes due |
| `DeadlineState.Inserted` | src/kernel/poller.c:858-878 | insertion computed as in the three branches of __poller_insert_node adds exactly this deadline; a timer that covered the earliest deadline still does, though it is set in some branches only |
| `DeadlineState.Removed` | src/kernel/poller.c:183-214 | removal takes out exactly this node; the timer, left alone, still covers the earliest deadline |
| `DeadlineState.Swept` | src/kernel/poller.c:593-632 | cutting off the nodes due from list and tree takes out exactly the nodes due by then, each once |
| `DeadlineState.Rearmed` | src/kernel/poller.c:648-672 | the smaller of the two first deadlines is the earliest of all |
| `DeadlineState.FrontIs` | src/kernel/poller.c:164-171 | in a sorted order there is one place behind the nodes due no later |
| `Deadlines.DeadlineIndex.Descend` | src/kernel/poller.c:164-171 | the search ends at a free slot between nodes due no later and nodes due later |
| `Deadlines.DeadlineIndex.TreeInsert` | src/kernel/poller.c:151-180 | the node enters the tree in deadline order; the cached first and last stay the true extremes |
| `Deadlines.DeadlineIndex.TreeErase` | src/kernel/poller.c:183-193 | the node leaves the tree and the cached extremes move to its neighbours |
| `Deadlines.DeadlineIndex.InsertNode` | src/kernel/poller.c:858-878 | the index becomes what DeadlineState computes for it: the timed nodes gain exactly this deadline, list and tree stay sorted, and a timer that covered the earliest deadline still does |
| `Deadlines.DeadlineIndex.AddUntimed` | src/kernel/poller.c:967-968 | a node without deadline goes to the third list and changes no deadline |
| `Deadlines.DeadlineIndex.Remove` | src/kernel/poller.c:999-1002 | exactly this node leaves the index; the timer is left alone and still covers the earliest deadline |
| `Deadlines.DeadlineIndex.SetTimeout` | src/kernel/poller.c:1077-1107 | the node's deadline is replaced, or dropped and the node put among the untimed ones; a timer that covered the earliest deadline still does |
| `Deadlines.DeadlineIndex.Sweep` | src/kernel/poller.c:593-632 | the sweep at a time removes exactly the nodes due by then, each once |
| `Deadlines.DeadlineIndex.SetTimer` | src/kernel/poller.c:648-672 | the timer is armed for the earliest deadline, or disarmed when there is none |
| `Deadlines.DeadlineIndex.constructor` | src/kernel/poller.c:771-808 | an empty index, with nothing for the timer to cover |
| `Deadlines.DeadlineIndex.NewNode` | src/kernel/poller.c:919-953 | the node at a reused address has its in_rbtree flag cleared |
| `Deadlines.DeadlineIndex.TakeAll` | src/kernel/poller.c:1183-1193 | poller_stop takes every node out of tree and lists |
| `PollerHandover.StepKeeps` | src/kernel/poller.c:196-1210 | every step keeps the conservation law: each registered node is in exactly one place |
| `PollerHandover.HandedOverAtMostOnce` | src/kernel/poller.c:196-1210 | over all interleavings of add, del, mod, timers, events, pipe, sweep and stop, a node is in exactly one place and is handed to the callback at most once |
| `PollerHandover.StopHandsOverAll` | src/kernel/poller.c:1168-1210 | when poller_stop has ended, every node registered before was handed over or given to a caller exactly once; that it can always end is StopCanEnd |
| `PollerHandover.BatchNotDelivered` | src/kernel/poller.c:674-727 | no node of the batch of events being handled was handed over or given to a caller, so the poller thread never looks at one that may be freed |
| `PollerHandover.RemovesItself` | src/kernel/poller.c:196-214 | unless flagged as removed, the node an event handler removes is the one the table holds for its descriptor |
| `PollerHandover.TimerTakenOnce` | src/kernel/poller.c:1141-1166 | poller_del_timer succeeds exactly on timers that nobody took out before |
| `PollerHandover.DeletedKeeps` | src/kernel/poller.c:985-1023 | keeps the poller invariant: poller_del moves the node to the pipe, or to its own callback once stopped |
| `PollerHandover.ModifiedKeeps` | src/kernel/poller.c:1025-1075 | keeps the poller invariant: poller_mod moves the old node out and registers the new one |
| `PollerHandover.SweptKeeps` | src/kernel/poller.c:593-632 | keeps the poller invariant: the sweep takes nodes out without setting the flag of descriptor nodes |
| `PollerHandover.CollectingKeeps` | src/kernel/poller.c:1178-1202 | keeps the poller invariant: the critical section of poller_stop hands over the pipe and collects what is registered |
| `PollerHandover.AddedKeeps` | src/kernel/poller.c:955-983 | keeps the poller invariant: poller_add registers a new node for a free descriptor |
| `PollerHandover.TimerAddedKeeps` | src/kernel/poller.c:1109-1139 | keeps the poller invariant: a timer is registered |
| `PollerHandover.TimerDeletedKeeps` | src/kernel/poller.c:1141-1166 | keeps the poller invariant: poller_del_timer takes a timer for its caller, unless it was taken |
| `PollerHandover.RemovingKeeps` | src/kernel/poller.c:196-214 | keeps the poller invariant: an event handler takes its node out unless the removed flag says somebody did |
| `PollerHandover.ReadKeeps` | src/kernel/poller.c:575-591 | keeps the poller invariant: nodes read from the pipe are handed over |
| `PollerStop.MarkStopsThread` | src/kernel/poller.c:575-591 | in every run after poller_stop began, the null pointer is in the pipe or the thread has seen it; once it is off the pipe the thread is in __poller_handle_pipe or has left its loop, and never sweeps or waits again |
| `PollerStop.StopCanEnd` | src/kernel/poller.c:1168-1210 | from every reachable state in which poller_stop began a run leads to its end, where every node registered before has been handed over exactly once |
| `PollerStop.BatchGoesOn` | src/kernel/poller.c:196-214 | in every run handling an event to its end leaves its node out of the table, whoever took it out, and goes on with the rest of the batch |
| `PollerIndex.MoveKeeps` | src/kernel/poller.c:858-1210 | every step, computed on list, tree, flags and timer, keeps them sorted and together with the registry and the deadlines asked for, and the timer early enough while the thread sleeps |
| `PollerIndex.IndexIsRegistry` | src/kernel/poller.c:955-1166 | in every run timeo_list, the tree and no_timeo_list together hold exactly the registered nodes, each once, timers never in the third list |
| `PollerIndex.AsleepCovered` | src/kernel/poller.c:648-685 | in every run, while the poller thread sleeps the timer, as the code set it, goes off no later than any deadline asked for |
| `PollerIndex.SweepTakesDue` | src/kernel/poller.c:593-632 | in every run the nodes that a sweep finds in list and tree are exactly the registered ones whose deadline has passed |
| `PollerIndex.DeadlinesAsAsked` | src/kernel/poller.c:955-1166 | in every run list and tree are sorted, each node stands there with the deadline its callers last asked for, and nodes without one are in the third list |
| `PollerIndex.MovesAreSteps` | src/kernel/poller.c:858-1210 | in every run each move with lists, tree and timer is exactly the step of PollerHandover it stands for, so its theorems hold of both together |
| `ServerSteps.CheckedKeeps` | src/kernel/Communicator.cc:1045-1061 | keeps the connection invariant: the service-mutex section of create_request lets only CONNECTED and KEEPALIVE through and unlinks the latter |
| `ServerSteps.CreateKeeps` | src/kernel/Communicator.cc:1063-1088 | keeps the connection invariant: new_session fails, or the session takes a reference on the target and the state becomes RECEIVING |
| `ServerSteps.SuccessTakenKeeps` | src/kernel/Communicator.cc:462-474 | keeps the connection invariant: a success result makes the entry IDLE with a new claim, unless a terminal result was handled first and left its claim behind |
| `ServerSteps.RecheckedKeeps` | src/kernel/Communicator.cc:488-493 | keeps the connection invariant: the second look at KEEPALIVE under the service mutex, since a drainer may have changed it |
| `ServerSteps.WriteTakenKeeps` | src/kernel/Communicator.cc:627-650 | keeps the connection invariant: a finished asynchronous reply registers a new read node with a new claim and holds the target mutex |
| `ServerSteps.PublishedKeeps` | src/kernel/Communicator.cc:636-645 | keeps the connection invariant: KEEPALIVE is published, or the new node is deleted because the service is closing |
| `ServerSteps.SentAllKeeps` | src/kernel/Communicator.cc:350-370 | keeps the connection invariant: a reply sent at once takes a claim for the replier; what it means for the connection is in EndedForGood and NextRequestExactly |
| `ServerSteps.SentPartKeeps` | src/kernel/Communicator.cc:391-431 | keeps the connection invariant: the rest of a reply replaces the read node by a write node, or is left to a terminal result on its way (RECEIVING) |
| `ServerSteps.DrainKeeps` | src/kernel/Communicator.cc:164-186 | keeps the connection invariant: drain unlinks an entry and deletes its node before it changes the state |
| `ServerSteps.RegisteredKeeps` | src/kernel/Communicator.cc:809-849 | keeps the connection invariant: an accepted connection is registered with the poller or released |
| `ServerSteps.AppendedKeeps` | src/kernel/Communicator.cc:996-1035 | keeps the connection invariant: a complete request makes the state SUCCESS before the result is queued |
| `ServerSteps.ReplyErrorKeeps` | src/kernel/Communicator.cc:1527-1553 | keeps the connection invariant: a failed reply deletes the node and leaves the error to the terminal result |
| `ServerConnection.StepKeeps` | src/kernel/Communicator.cc:164-1639 | every step of the acceptor, poller thread, handlers, repliers, session owners and drainer keeps the invariant: ref is the number of live claims, list membership follows the state, every session owed a callback is counted |
| `ServerConnection.ReachableInv` | src/kernel/Communicator.cc:730-756 | the invariant holds in every state of every run that starts with an accepted connection |
| `ServerConnection.RefCountsClaims` | src/kernel/Communicator.cc:80-87 | in every run `ref` equals the number of live claims until the entry is released; released exactly when no claim is left, and at most once |
| `ServerConnection.NoUseAfterRelease` | src/kernel/Communicator.cc:517-528 | no step that is still possible after the release reads or writes the entry |
| `ServerConnection.TargetCounts` | src/kernel/Communicator.cc:195-224 | the target's reference count is the live connection plus the live sessions, so it outlives both |
| `ServerConnection.NoSessionForgotten` | src/kernel/Communicator.cc:1607-1639 | the sessions the engine owes a callback are never fewer than none, and none is owed one when the entry is released |
| `ServerConnection.CheckSeesSettledState` | src/kernel/Communicator.cc:1045-1057 | create_request never looks at the state between the registration of the read node after an asynchronous reply and the publication of KEEPALIVE; an IDLE state there means the previous reply is not sent |
| `ServerConnection.StrayUnlinkExactly` | src/kernel/Communicator.cc:1051-1065 | the entry is unlinked from a list it is not in exactly if new_session failed on a kept-alive connection, then once |
| `ServerConnection.StrayUnlinkHappens` | src/kernel/Communicator.cc:1051-1065 | a run in which that happens: request, reply, second request refused by new_session |
| `ServerConnection.TerminalKeeps` | src/kernel/Communicator.cc:476-514 | keeps the connection invariant: a terminal result unlinks an idle entry, leaves its claim to a success result that is still queued, or notes which session to call back |
| `ServerConnection.DroppedKeeps` | src/kernel/Communicator.cc:226-264 | keeps the connection invariant: a session destroyed without a reply shuts an idle connection down |
| `ServerConnection.RunKeeps` | src/kernel/Communicator.cc:164-1639 | the invariant holds after every sequence of possible steps |
| `ServerKeepAlive.EndedForGood` | src/kernel/Communicator.cc:350-370 | from every reachable state a reply without keep-alive, or with one while the service no longer listens or stops, a failed reply, a terminal result, a session dropped before its reply and a drain are the end: no run behind it makes another session on the connection or watches its socket |
| `ServerKeepAlive.NextRequestExactly` | src/kernel/Communicator.cc:350-370 | from every reachable state, behind a reply that is kept alive a run exists in which a next request gets a session, if and only if the poller thread has not given the connection up before |
| `ServerKeepAlive.RefusedForGood` | src/kernel/Communicator.cc:1063-1065 | once new_session has refused a request no run makes another session on the connection |
| `ServerKeepAlive.FirstRequestExactly` | src/kernel/Communicator.cc:809-849 | when the acceptor looks at stop_flag, a run in which the first request gets a session exists if and only if the poller thread has not given the connection up and, with the flag set, had noticed the request already |
| `ServerKeepAlive.UnboundForGood` | src/kernel/Communicator.cc:308-313 | in every run a reply that is sent after the listening socket was closed is the last one, keep-alive or not |
| `ServerKeepAlive.StopDeletes` | src/kernel/Communicator.cc:823-827 | with stop_flag set the acceptor leaves no node registered for reading or writing |
| `ServerKeepAlive.FailureReported` | src/kernel/Communicator.cc:1037-1088 | a hang-up, a request at the wrong time, a refused session and a bad message make the node a terminal result next, unless it was deleted or replaced |
| `ServerKeepAlive.PartsServe` | src/kernel/Communicator.cc:391-433 | also behind a reply written in several parts a run leads to a next session |
| `ServerAccounts.EachOnce` | src/kernel/Communicator.cc:253-264 | over every run: requests handed to a session are its replies, drops without a reply and those that may still reply; sessions made are those deleted and those alive; one look at stop_flag for each node registered; one result for each node replaced |
| `ServerRelease.CanBeReleased` | src/kernel/Communicator.cc:455-528 | from every reachable state a run leads to the release of the entry, once, with no session left and no reference to the target: no claim is ever leaked and no handler waits for ever |
| `ServerRelease.CanReply` | src/kernel/Communicator.cc:1527-1553 | in every run a session with a request can reply: to the socket while the entry is idle, otherwise in vain; draining never prevents it |
| `ServerRelease.CanDrain` | src/kernel/Communicator.cc:164-187 | in every run a connection that waits for a request can be drained, and a drain can end |
| `HttpParser.SplitInvariance` | src/protocol/http_parser.c:571-644 | feeding any pieces one by one gives the same outcome, start line, headers, flags and body as feeding their concatenation, and the same total consumed unless the input is malformed |
| `HttpParser.NoUnderflow` | src/protocol/http_parser.c:571-644 | the count a call reports lies between zero and what it was given, after any pieces |
| `HttpParser.FeedConsumes` | src/protocol/http_parser.c:571-644 | an incomplete call consumes everything; a finished one consumes at least one byte and keeps exactly the message |
| `HttpParser.FeedTwo` | src/protocol/http_parser.c:571-644 | a call with two parts joined is two calls; bytes behind a finished message change nothing |
| `HttpParser.UnitExtend` | src/protocol/http_parser.c:244-412 | a unit parser that is done or fails gives the same result when more bytes follow |
| `HttpParser.ParseHeadExtend` | src/protocol/http_parser.c:414-438 | the message header parser is stable under more input |
| `HttpParser.ParseChunkExtend` | src/protocol/http_parser.c:442-544 | the chunk parser is stable under more input |
| `HttpParser.UnitLate` | src/protocol/http_parser.c:244-412 | a unit parser that wanted more does not finish within the bytes it had |
| `HttpParser.DriveLate` | src/protocol/http_parser.c:571-644 | a message that was incomplete ends behind the bytes already held |
| `HttpParser.ParserT.Match` | src/protocol/http_parser.c:114-185 | the start line is recorded and takes the effect on keep-alive and body that MessageMeans states |
| `HttpParser.ParserT.Cut` | src/protocol/http_parser.c:270-305 | the start line is split at its first two spaces or rejected |
| `HttpParser.ParserT.StartLineUnit` | src/protocol/http_parser.c:244-305 | with the result of the specification function that UnitExtend, UnitLate and LineParses are about: start line found, wanting or bad, limit of 8192 bytes |
| `HttpParser.ParserT.HeaderNameUnit` | src/protocol/http_parser.c:307-340 | the same for a header name or the empty line, limit of 64 bytes |
| `HttpParser.ParserT.HeaderValueUnit` | src/protocol/http_parser.c:342-412 | the same for a header value, limit of 8192 bytes; FoldedReads says what a folded value is |
| `HttpParser.ParserT.Add` | src/protocol/http_parser.c:187-242 | the field is appended and takes the effect of CheckHeader, whose meaning over all fields is FieldsMean |
| `HttpParser.ParserT.MessageHeader` | src/protocol/http_parser.c:414-438 | the loop over the units ends with the header parse that SplitInvariance and RoundTrip are about |
| `HttpParser.ParserT.ChunkDataUnit` | src/protocol/http_parser.c:442-490 | the same for a chunk: size line limited to 1024 bytes, its data and two bytes behind it |
| `HttpParser.ParserT.TrailerUnit` | src/protocol/http_parser.c:492-520 | the same for a trailer line, limit of 8192 bytes, an empty one ends the message |
| `HttpParser.ParserT.ChunkBody` | src/protocol/http_parser.c:522-544 | the loop over the chunks ends with the chunk parse that ChunksParse is about |
| `HttpParser.ParserT.Reserve` | src/protocol/http_parser.c:582-596 | the buffer grows by doubling to hold the message and a terminator |
| `HttpParser.ParserT.AppendMessage` | src/protocol/http_parser.c:571-644 | result, consumed count and parser state are those of the feed that SplitInvariance, RoundTrip and ChunkedFieldRoundTrip are about; buffer bounds kept |
| `HttpParser.ParserT.GetBody` | src/protocol/http_parser.c:651-663 | a body exactly for a complete message; header and body together are the message; its length is the one announced, or that of the chunks; the terminator behind it is within the buffer |
| `HttpParser.ParserT.constructor` | src/protocol/http_parser.c:546-569 | the initial parser state, from which SplitInvariance starts |
| `HttpParser.EndsBehind` | src/protocol/http_parser.c:615-643 | a finished message ends behind its header, exactly where its framing says |
| `HttpParser.ParseHeadLate` | src/protocol/http_parser.c:414-438 | a header that was incomplete does not end within the bytes already held |
| `HttpParser.FeedSound` | src/protocol/http_parser.c:571-644 | every call leaves a message that is complete exactly as its framing says, or parse positions within the bytes held |
| `HttpFields.FieldsMean` | src/protocol/http_parser.c:187-242 | after any fields in any order: chunked exactly if the last Transfer-Encoding is not identity, the length that of the last valid Content-Length, keep-alive by the last Connection, Expect if any asks for 100-continue; all other fields change nothing but the list |
| `HttpFields.MessageMeans` | src/protocol/http_parser.c:114-242 | flags and framing of a message are those of section 6.3 of RFC 9112 as the code reads it: no body for 1xx, 204, 304 or on request, chunks before length, length before the close of the connection; HTTP/1.0 and older not kept alive unless a Connection field says so |
| `HttpFields.SameLetters` | src/protocol/http_parser.c:187-242 | two names are the same exactly if they are equal letter by letter up to the case of the 26 letters |
| `HttpFolding.FoldedReads` | src/protocol/http_parser.c:342-412 | a value folded over any number of lines is read as its lines joined by one space each, without blanks at their ends, and the parser stands behind it |
| `HttpMessage.RoundTrip` | src/protocol/HttpMessage.cc:150-237 | for all well-formed start lines and fields that do not select chunked coding, parsing the encoded message gives back start line, headers and flags, and it gives back the body and consumes every byte if and only if the length that the fields announce is that of the body |
| `HttpMessage.DelimitedRoundTrip` | src/protocol/HttpMessage.cc:150-237 | with one Content-Length field that states the body's length the round trip is complete |
| `HttpMessage.AtolDecimal` | src/protocol/HttpMessage.cc:150-237 | the decimal length that is written is the length the parser reads |
| `HttpMessage.HeadersParse` | src/protocol/HttpMessage.cc:150-237 | a list of well-formed header lines is read back one by one |
| `HttpMessage.OutMessage.AppendOutputBody` | src/protocol/HttpMessage.cc:27-43 | the body grows by the appended block |
| `HttpMessage.OutMessage.CombineFrom` | src/protocol/HttpMessage.cc:120-148 | the blocks from a position on become one block with the same bytes, which fit its size exactly |
| `HttpMessage.OutMessage.EncodeHeaders` | src/protocol/HttpMessage.cc:194-206 | one vector per header line until the vectors run out |
| `HttpMessage.OutMessage.EncodeBody` | src/protocol/HttpMessage.cc:219-236 | the body blocks fill the vectors, the tail coalesced when one is left, never beyond max |
| `HttpMessage.OutMessage.Encode` | src/protocol/HttpMessage.cc:150-237 | -1 exactly if a part of the start line is missing or there is no room for the header; otherwise at most max vectors whose concatenation is the message of the object's own method, URI and version or version, code and phrase, and which give these back when fed to a parser one by one |
| `HttpMessage.OneContentLength` | src/protocol/http_parser.c:187-242 | among fields without framing meaning, one Content-Length field of up to 15 digits sets the body length and nothing else that frames |
| `HttpMessage.LineParses` | src/protocol/http_parser.c:244-305 | a start line of three well-formed parts is split into exactly these parts |
| `HttpMessage.ValueParses` | src/protocol/http_parser.c:342-412 | a header value without line ends and outer blanks is read back as it is |
| `HttpMessage.VectorsReadBack` | src/protocol/HttpMessage.cc:150-237 | any vectors with these bytes, fed one by one, give the message back as RoundTrip says |
| `HttpMessage.OutMessage.StartLine` | src/protocol/HttpMessage.cc:160-177 | method, URI and version of a request, version, code and phrase of a response, in this order; refused exactly if one of the three is missing |
| `HttpChunked.SizeReads` | src/protocol/http_parser.c:442-490 | strtol reads the size in front of any extension |
| `HttpChunked.ChunksParse` | src/protocol/http_parser.c:522-544 | for every division of a body into chunks, all chunk extensions and trailer lines and any two bytes behind the data, the chunk parser finishes exactly behind the body, whatever follows |
| `HttpChunked.ChunkedRoundTrip` | src/protocol/http_parser.c:571-644 | a message whose fields select chunked coding, coded as in section 7.1 of RFC 9112, extensions and trailers included, gives back start line, headers, flags and body and is consumed exactly, whatever bytes of the next message follow it |
| `HttpChunked.SizeWritten` | src/protocol/http_parser.c:442-490 | every chunk size has a hexadecimal form that strtol reads back |
| `HttpChunked.ChunkedFieldRoundTrip` | src/protocol/http_parser.c:571-644 | a message with the field Transfer-Encoding: chunked, in any case of letters and with other fields around it, gives back start line, headers, flags and body and is consumed exactly, whatever follows |
| `HttpChunked.StrtolReads` | src/protocol/http_parser.c:442-490 | strtol with base 16 skips blanks, takes a sign and a prefix, and reads as many digits as there are |
| `HttpChunked.StrtolRefuses` | src/protocol/http_parser.c:442-490 | strtol refuses a size line without a digit in this place |
| `MsgQueue.StepKeeps` | src/kernel/msgqueue.c:34-123 | every step keeps counts, list roles, wake-ups and contents |
| `MsgQueue.NothingLost` | src/kernel/msgqueue.c:34-123 | messages taken and queued are exactly those that entered, each once |
| `MsgQueue.PutOrder` | src/kernel/msgqueue.c:46-59 | messages of msgqueue_put leave in put order |
| `MsgQueue.CountRight` | src/kernel/msgqueue.c:46-59 | msg_cnt is the put list's length, and at most msg_max while always blocking and msg_max is at least 1 |
| `MsgQueue.ZeroMeansUnbounded` | src/kernel/msgqueue.c:51-52 | with msg_max 0 no producer ever waits |
| `MsgQueue.NoLostWakeup` | src/kernel/msgqueue.c:34-108 | a consumer sleeps only on empty lists or with a signal on its way, a producer only on a full list or with a wake-up on its way |
| `MsgQueue.GetReturns` | src/kernel/msgqueue.c:90-123 | a swap that reports messages leaves one; no message is returned only from empty lists in nonblocking mode |
| `MsgQueue.PutHeadInFront` | src/kernel/msgqueue.c:62-87 | put_head spins, waits, or puts its message in front of everything, also when the get list empties between its test and the lock |
| `MsgQueue.LateHeadBehind` | src/kernel/msgqueue.c:76-87 | after waiting the message goes in front of the put list only, and so in front of all others if and only if the get list is empty then |
| `MsgQueue.BoundHoldsExactly` | src/kernel/msgqueue.c:46-59 | an always blocking queue keeps at most msg_max messages in its put list if and only if msg_max is not 0 |
| `MsgQueue.ZeroGrows` | src/kernel/msgqueue.c:46-59 | with msg_max 0, a run for every n in which n messages are queued and nobody waited |
| `MsgQueue.LateHeadHappens` | src/kernel/msgqueue.c:62-108 | a run in which a message of put_head ends behind another one: full queue, wait, swap, put |
| `MsgQueue.WakeupsCounted` | src/kernel/msgqueue.c:34-59 | in every run there is one signal for each message put into the put list and one wake-up for each set_nonblock, sent or about to be sent |
| `MsgQueue.NonblockFrees` | src/kernel/msgqueue.c:34-43 | in every run, from the wake-up of set_nonblock until set_block nobody waits: a put adds its message at once and a get returns |
| `MsgQueue.SleeperServed` | src/kernel/msgqueue.c:90-108 | a consumer that waits although a message is there, or in nonblocking mode, has a run to its return |
| `MsgQueue.ProducerServed` | src/kernel/msgqueue.c:46-59 | a producer that waits in nonblocking mode has a run to the end of its put |
| `MsgQueue.SpinnerServed` | src/kernel/msgqueue.c:62-87 | put_head in its loop, with nobody at the get list, has a run that puts its message in front of all |
| `MsgQueue.BlockWaits` | src/kernel/msgqueue.c:42-59 | in every run, from set_block until set_nonblock a put waits exactly if the queue is full and a get exactly if nothing was put |
| `MsgQueue.SpuriousHarmless` | src/kernel/msgqueue.c:50-52 | a wake-up without a signal changes nothing: who had to wait waits again, in the same state |
| `Executor.StepKeeps` | src/kernel/Executor.cc:56-120 | every step keeps one runner per non-empty list, the order and the accounts |
| `Executor.ExactlyOneRunner` | src/kernel/Executor.cc:56-75 | a queue has exactly one runner when its list is not empty and none otherwise; the entry read without the lock is the one taken out |
| `Executor.StartOrder` | src/kernel/Executor.cc:96-120 | sessions start in request order |
| `Executor.OneState` | src/kernel/Executor.cc:56-94 | each accepted session is in exactly one of waiting, executing, finished, canceled |
| `Executor.OneOutcome` | src/kernel/Executor.cc:80-94 | after shutdown each accepted session got exactly one of FINISHED and CANCELED |
| `Executor.RequestKeeps` | src/kernel/Executor.cc:96-120 | a request is appended and starts a runner if the list was empty; a failed start is undone |
| `Executor.TakeOutKeeps` | src/kernel/Executor.cc:63-75 | the runner takes the first session out and hands on to a next runner if any are left |
| `Executor.CancelKeeps` | src/kernel/Executor.cc:80-94 | canceling empties the list, each session canceled once |
| `Executor.OnlyAnswered` | src/kernel/Executor.cc:96-120 | in every run the sessions that wait, execute, are finished or canceled are exactly those whose request succeeded, that is found a runner or could schedule one, in this order |
| `Executor.EveryoneServed` | src/kernel/Executor.cc:56-94 | from every reachable state a run finishes everything accepted, or with the pool stopped finishes or cancels it |
| `Executor.StopEnds` | src/kernel/Executor.cc:56-94 | in every run nothing is accepted once the pool is stopped, and only a session already picked still starts |
| `TaskEngine.StepKeeps` | src/kernel/SubTask.cc:21-64 | every step of nested series and parallel tasks keeps nleft equal to the series not over, and each series and parallel task in one phase |
| `TaskEngine.DoneAfterAllSeries` | src/kernel/SubTask.cc:35-42 | a parallel task's done runs at most once, and only after each of its series ended once |
| `TaskEngine.DoneNotForgotten` | src/kernel/SubTask.cc:35-42 | when all its series are over, done runs next or has run |
| `TaskEngine.CountdownExact` | src/kernel/SubTask.cc:48-64 | nleft is the number of its series that are not over |
| `TaskEngine.SeriesEndsOnce` | src/factory/Workflow.cc:105-145 | a series ends exactly once, also when canceled, and never while the parallel task it runs is not done |
| `TaskEngine.PopKeeps` | src/factory/Workflow.cc:105-145 | ending a task moves its series on: next task, or end, also when canceled |
| `TaskEngine.CountDownKeeps` | src/kernel/SubTask.cc:35-42 | the last series of a parallel task, and only the last, makes it done |
| `TaskEngine.AddSeriesKeeps` | src/factory/Workflow.cc:187-196 | a series joins one parallel task before it is dispatched |
| `TaskProgress.NeverStuck` | src/kernel/SubTask.cc:21-64 | in every run, while a series that was started is not over, it or a series nested in it can be started, end its task or be counted down |
| `TaskProgress.StepTimes` | src/kernel/SubTask.cc:48-64 | every step keeps that a nested series is started after the one it is nested in, so nesting is well-founded |
| `TaskOrder.RunsInOrder` | src/factory/Workflow.cc:105-145 | in every run a series begins its tasks in the order of its queue, each once: those begun and those left are those it had, as long as nobody pushes or cancels |
| `TaskOrder.PushedRuns` | src/factory/Workflow.cc:74-102 | a task pushed at a place is the one begun after as many others as stood in front of it |
| `TaskOrder.CanceledStops` | src/factory/Workflow.cc:105-145 | in every run a series that was started begins no task once it is canceled, whatever is pushed |
| `TaskOrder.PushedNext` | src/factory/Workflow.cc:74-88 | a running task that pushes another one in front is followed by it, with the rest of the queue as it was |
| `Series.SeriesWork.PushBack` | src/factory/Workflow.cc:91-102 | the queue gains a task at its back, through wrap-around and doubling |
| `Series.SeriesWork.PushFront` | src/factory/Workflow.cc:74-88 | the queue gains a task at its front, likewise |
| `Series.SeriesWork.ExpandQueue` | src/factory/Workflow.cc:52-71 | doubling keeps the queued tasks in order |
| `Series.SeriesWork.PopTask` | src/factory/Workflow.cc:120-145 | tasks leave from the front, then the last one, then the series finishes |
| `Series.SeriesWork.Pop` | src/factory/Workflow.cc:105-118 | a canceled series deletes all its tasks, in order, and finishes |
| `Series.SeriesWork.constructor` | src/factory/Workflow.cc:19-34 | an empty queue, not canceled, not finished |
| `HeapOrder.CmpIsRatio` | src/kernel/CommScheduler.cc:153-164 | the cross products compare the load ratios |
| `HeapOrder.SwapUp` | src/kernel/CommScheduler.cc:166-182 | moving the hole towards the root keeps the order loosened at one place |
| `HeapOrder.SwapDown` | src/kernel/CommScheduler.cc:185-227 | moving the hole towards the lighter child keeps it |
| `HeapOrder.TotalPermutes` | src/kernel/CommScheduler.cc:297-343 | the load sums do not depend on the heap's order |
| `GroupFacts.RootSpare` | src/kernel/CommScheduler.cc:365-371 | if the group's load is below its maximum, so is the root's |
| `LoadHeap.Group.HeapAdjust` | src/kernel/CommScheduler.cc:166-182 | the target moves up; heap order is restored above it, back-indices are right, members unchanged |
| `LoadHeap.Group.Heapify` | src/kernel/CommScheduler.cc:185-227 | the target moves down; heap order, back-indices and members as required |
| `LoadHeap.Group.HeapInsert` | src/kernel/CommScheduler.cc:229-246 | the new target is in the heap in order |
| `LoadHeap.Group.HeapRemove` | src/kernel/CommScheduler.cc:248-259 | exactly that target leaves the heap, which stays in order |
| `LoadHeap.Group.Add` | src/kernel/CommScheduler.cc:297-322 | the four outcomes of add; a member joins heap and load sums; targets that somebody waits on keep their group |
| `LoadHeap.Group.Remove` | src/kernel/CommScheduler.cc:324-343 | the three outcomes of remove; a member leaves heap and load sums; targets that somebody waits on keep their group |
| `LoadHeap.Group.Acquire` | src/kernel/CommScheduler.cc:345-380 | below the maximum, a target with the least load ratio and room takes the load; otherwise the caller waits, or gets EAGAIN if it may not |
| `LoadHeap.Group.AcquireTarget` | src/kernel/CommScheduler.cc:84-126 | a target takes a load exactly below its maximum; otherwise the caller waits, or gets EAGAIN if it may not |
| `LoadHeap.Group.Release` | src/kernel/CommScheduler.cc:128-151 | one load less, heap and sums kept |
| `LoadHeap.Group.NewTarget` | src/kernel/CommScheduler.cc:45-76 | a new target has room for at least one connection |
| `LoadHeap.Group.constructor` | src/kernel/CommScheduler.cc:263-289 | an empty group |
| `LoadHeap.Group.ResumeAcquire` | src/kernel/CommScheduler.cc:350-380 | a waiter of the group that wakes up takes a lightest target, waits again, or gives up when its time is over |
| `LoadHeap.Group.ResumeTarget` | src/kernel/CommScheduler.cc:88-126 | a waiter of a target that wakes up takes a load, waits again, or gives up when its time is over |
| `LoadHeap.Group.MoveElsewhere` | src/kernel/CommScheduler.cc:297-343 | add and remove of another group leave targets that somebody waits on where they are |
| `TargetLocks.StepKeeps` | src/kernel/CommScheduler.cc:84-343 | every lock, unlock, wait, wake-up and move keeps the mutexes exclusive, the chosen mutex right and wait_cnt the number of waiting threads |
| `TargetLocks.SameGroupAfterWait` | src/kernel/CommScheduler.cc:84-126 | in every run the mutex that an acquire chose is that of the target's group while it waits and when it has it again |
| `TargetLocks.OneUser` | src/kernel/CommScheduler.cc:84-380 | in every run at most one thread uses the load of a target, among its own acquire and release, acquire of its group, add and remove of any group |
| `TargetLocks.NeverStuck` | src/kernel/CommScheduler.cc:84-343 | in every run some thread of those inside can go on: the two mutexes are taken in an order that cannot deadlock |
| `TargetLocks.MoveMeans` | src/kernel/CommScheduler.cc:297-343 | in every run add and remove move the target exactly if no thread waits on it and it is in no group, or in this one |
| `TargetLocks.EveryoneLeaves` | src/kernel/CommScheduler.cc:84-343 | from every reachable state a run leads all threads out, with no mutex held and nobody waiting |
| `LruShelf.RefUpGood` | src/util/LRUCache.h:185-190 | a reference moves an unused handle to in_use, and counts stay exact |
| `LruShelf.UnrefGood` | src/util/LRUCache.h:192-200 | not_use stays exactly the cached handles with one reference; each value is deleted once, after its last reference |
| `LruShelf.EraseGood` | src/util/LRUCache.h:202-208 | erasing keeps lists, size and counts |
| `LruFacts.TakenAndErased` | src/util/LRUCache.h:174-182 | taking and giving back a reference makes no difference to an entry that is then erased |
| `LruFacts.EraseMeans` | src/util/LRUCache.h:202-208 | erasing deletes the handle at once if nobody holds it; otherwise the value lives on with exactly the users' references |
| `LruAge.UnrefAged` | src/util/LRUCache.h:192-200 | a release puts a handle that becomes unused behind all that were released before |
| `LruAge.DroppedOldest` | src/util/LRUCache.h:162-167 | deleting from the front of not_use deletes the handles unused for longest, in the order of their release |
| `LruAge.SizeIsKeys` | src/util/LRUCache.h:153-168 | the size field is the number of keys |
| `LruState.SizeOfTable` | src/util/LRUCache.h:131-171 | in every state of the cache its size is the number of keys it stands for |
| `LruState.LivesWhileUsed` | src/util/LRUCache.h:192-208 | a value lives exactly while the cache or a user refers to it, and is deleted once |
| `LruState.Forgotten` | src/util/LRUCache.h:174-182 | the reference that del takes and gives back leaves no trace but the time |
| `LruState.PutMeans` | src/util/LRUCache.h:131-171 | storing and then shrinking is what a caller of put can rely on |
| `LruState.PutKeepsUsers` | src/util/LRUCache.h:131-171 | whoever has a reference keeps key and value through a put, also of a handle it replaces or that is no longer cached |
| `LruCache.LruCacheT.Find` | src/util/LRUCache.h:132-145 | the search ends at the first handle not below the key and at the place for it |
| `LruCache.LruCacheT.Get` | src/util/LRUCache.h:107-127 | exactly the handle stored for the key, with one more reference, or nothing and no change |
| `LruCache.LruCacheT.Store` | src/util/LRUCache.h:131-159 | the key leads to a new handle with two references; the handle it replaces is erased; no other change |
| `LruCache.LruCacheT.Shrink` | src/util/LRUCache.h:161-168 | while there are more than max_size, the handles unused for longest are deleted, in the order of their last release; keys that stay lead to handles released later; no other handle is touched |
| `LruCache.LruCacheT.Put` | src/util/LRUCache.h:131-171 | the key leads to the new value; other keys are untouched, or went because they were unused for longer than every unused one that stayed; users keep their values; afterwards there are at most max_size keys or nothing unused is left |
| `LruCache.LruCacheT.Release` | src/util/LRUCache.h:101-103 | one reference less, at the time of now; the last deletes, the last but one makes the handle the youngest unused one |
| `LruCache.LruCacheT.Del` | src/util/LRUCache.h:174-182 | the key is gone and nothing else changes: the reference taken and given back on the way leaves no trace |
| `LruCache.LruCacheT.Prune` | src/util/LRUCache.h:88-98 | exactly the handles that only the cache refers to are deleted, those unused for longest first |
| `LruCache.LruCacheT.Evict` | src/util/LRUCache.h:202-208 | a handle leaves tree, list, size and table together |
| `LruCache.LruCacheT.constructor` | src/util/LRUCache.h:60-66 | an empty cache |
| `LruCache.LruCacheT.Take` | src/util/LRUCache.h:185-190 | one more reference for a cached handle, which is then in use |
| `LruCache.LruCacheT.SetMaxSize` | src/util/LRUCache.h:85-85 | the limit is set; nothing is evicted until the next put |
| `EncodeStream.Stream.constructor` | src/util/EncodeStream.h:44-48 | an empty stream stands for nothing |
| `EncodeStream.Stream.CopyVectors` | src/util/EncodeStream.cc:50-67 | the unmerged vectors are copied one after the other and fit |
| `EncodeStream.Stream.Merge` | src/util/EncodeStream.cc:48-77 | one vector takes the place of the unmerged ones; the stream stands for the same bytes |
| `EncodeStream.Stream.MakeRoom` | src/util/EncodeStream.cc:81-90 | a full stream merges or overflows for good |
| `EncodeStream.Stream.AppendNocopy` | src/util/EncodeStream.cc:79-96 | the stream stands for everything appended, within max vectors, or has overflowed |
| `EncodeStream.Stream.AppendCopy` | src/util/EncodeStream.cc:98-136 | the same for copied data |
| `EncodeStream.Stream.PickBuffer` | src/util/EncodeStream.cc:111-125 | the chosen buffer has room for the aligned data |
| `EncodeStream.Stream.Bump` | src/util/EncodeStream.cc:127-135 | the data is written behind all bytes that vectors refer to |
| `StreamMemory.ContentKept` | src/util/EncodeStream.cc:127-133 | bump allocation never changes what a live vector refers to |
| `Additive.FoldIsLookups` | src/util/crc32c.c:250-258 | for any linear step, feeding items one by one equals combining one look-up per item |
| `Crc32c.Tables.constructor` | src/util/crc32c.c:208-231 | table k holds every byte shifted by k + 1 bytes |
| `Crc32c.Tables.Update` | src/util/crc32c.c:236-267 | for every buffer, initial value and alignment the result is the bit-at-a-time CRC-32C |
| `Crc32c.Tables.ByteStep` | src/util/crc32c.c:242-245 | one table look-up feeds one byte |
| `Crc32c.Tables.EightStep` | src/util/crc32c.c:246-261 | eight look-ups feed eight bytes |
| `Crc32c.CrcAppend` | src/util/crc32c.c:236-267 | the CRC of a message in two parts, the second started from the result of the first |
| `Crc32c.SlicingByEight` | src/util/crc32c.c:250-258 | eight bytes with the state mixed in equal the exclusive or of eight table entries |
| `Crc32c.TableStep` | src/util/crc32c.c:224-230 | shifting a byte out is a look-up of the low byte and a move of the rest |
| `Crc32c.BitsAreBytes` | src/util/crc32c.c:242-245 | feeding bits and feeding bytes agree |
| `Crc32c.ShiftIsLinear` | src/util/crc32c.c:212-223 | the shift step is linear over exclusive or |
| `CrcPolynomial.PolyIsGenerator` | src/util/crc32c.c:201-202 | the constant holds exactly the exponents of the generator in section 12.1 of RFC 3720 |
| `CrcPolynomial.FeedDivides` | src/util/crc32c.c:208-231 | feeding a bit multiplies the register's polynomial by x, adds the bit and subtracts the generator: a step of the division by it |
| `CrcPolynomial.ZeroesExample` | src/util/crc32c.c:208-262 | 32 zero bytes have the CRC of appendix B.4 of RFC 3720 |
| `JsonNumber.Evaluate` | src/util/json_parser.c:311-397 | the number chosen is the value cut off behind eighteen significant figures, and the value itself if it has at most eighteen; infinity exactly from 10^309 on, zero for a number that is not zero exactly below 10^-324; the power table is never left |
| `JsonNumber.ReadMantissa` | src/util/json_parser.c:324-359 | eighteen figures or all; what is dropped counts in the exponent |
| `JsonNumber.ReadMeans` | src/util/json_parser.c:324-359 | mantissa and exponent are the value truncated, and exact when no digit was dropped |
| `JsonNumber.Scale` | src/util/json_parser.c:361-376 | scaling keeps the value and leaves a full mantissa or a non-positive exponent |
| `JsonNumber.ChooseRight` | src/util/json_parser.c:378-394 | infinity is chosen exactly from 10^309 on, zero for a value that is not zero exactly below 10^-324, and the power table is never left |
| `JsonNumber.ReadExponent` | src/util/json_parser.c:442-452 | the exponent is read up to the cap |
| `JsonNumber.CapHarmless` | src/util/json_parser.c:444-458 | a number chosen for the capped exponent is right for the exponent as written |
| `JsonNumber.ParseMain` | src/util/json_parser.c:407-430 | sign, integer and fraction as the specification splits them; Found and Spells say which texts these are |
| `JsonNumber.ReadCuts` | src/util/json_parser.c:324-359 | the mantissa read is off by less than one part in 10^17, whatever digits were dropped |
| `JsonGrammar.Found` | src/util/json_parser.c:399-464 | every number of the grammar of section 6 of RFC 8259 that stands in the text up to something that does not continue it is split into its sign, integer, fraction and exponent |
| `JsonGrammar.Spells` | src/util/json_parser.c:399-464 | whatever is split spells such a number: nothing else is accepted |
| `JsonGrammar.ParseNumber` | src/util/json_parser.c:399-464 | accepted exactly if a number of the grammar of section 6 of RFC 8259 of at most 1000000 bytes stands there; sign and end are its own, and the number chosen stands to its value as written in the relation of Evaluate, whatever the size of its exponent |
| `Utf8.EncodeReadsBack` | src/util/json_parser.c:157-182 | the bytes of a code point decode to it by the table of RFC 3629, section 4 |
| `Utf8.NoSurrogates` | src/util/json_parser.c:129-182 | the bytes that would be written for a surrogate are not a character |
| `Utf8.OnlyEncoded` | src/util/json_parser.c:157-182 | only bytes that would be written for a code point are read back as one |
| `JsonString.StringLength` | src/util/json_parser.c:73-93 | the count up to the closing quote, or -2 |
| `JsonString.ParseFits` | src/util/json_parser.c:185-244 | parsing stops at the same closing quote and writes no more bytes than counted |
| `JsonString.EscapeFits` | src/util/json_parser.c:122-183 | a unicode escape is counted as at least the bytes written for it |
| `JsonString.ParseHex4` | src/util/json_parser.c:95-120 | four hexadecimal digits |
| `JsonString.ParseCode` | src/util/json_parser.c:129-155 | an escape or surrogate pair gives its code point |
| `JsonString.Store` | src/util/json_parser.c:157-182 | the UTF-8 bytes are stored in place |
| `JsonString.ParseString` | src/util/json_parser.c:185-244 | -2 exactly for a bad escape; otherwise the bytes, a terminator and the place behind the closing quote; in both cases nothing behind the closing quote is looked at |
| `JsonString.ReadsWithin` | src/util/json_parser.c:122-155 | the escape parser looks at no byte behind the closing quote that the length scan found, also for a bad escape |
| `JsonEscapes.StringReads` | src/util/json_parser.c:73-244 | every string spelled with plain bytes, the eight letter escapes, four hexadecimal digits or surrogate pairs, in any mixture, is sized and read as the bytes it means |
| `JsonEscapes.OnlyPieces` | src/util/json_parser.c:73-244 | whatever is read was spelled so: lone surrogates, unknown escapes and control characters are refused |
| `JsonEscapes.ReadsExactly` | src/util/json_parser.c:73-244 | a text is read as given bytes up to a quote if and only if it spells them |

## Left out

- RoundTrip: messages in chunked coding, whose bodies carry their own lengths, are the subject of `ChunkedRoundTrip`.
- DelimitedRoundTrip: at most 15 digits of Content-Length, since the parser ignores longer values.
- ChunkedRoundTrip: each chunk below the parser's limit of 2^31 - 1028 bytes, which it rejects otherwise.
- AppendMessage: `atol` and `strtol` on unbounded integers; a Content-Length has at most 15 digits, and a chunk size that overflows a long would be rejected like any too large one.
- Encode: requires six vectors, as the code writes the first six without looking at `max`; failing allocation in combine_from is not modelled.
- CmpIsRatio: the cross products are not cut to 64 bits, so connection limits whose product overflows are outside the model.
- Acquire: that a waiter is woken in the end is not claimed, because release prefers the waiters of the target; signals are not modelled, a waiter may wake up at any time.
- SplitInvariance: for malformed input the pieces behind the bad one are not fed, so the total consumed and the bytes held may be fewer than for the whole input.
- Do: a move of PollerIndex is one critical section, computed by the functions that class DeadlineIndex is proved to compute; absolute times are taken to be positive, as a timer armed for 0 is disarmed.
- Update: the 64-bit state is held in two 32-bit halves; the hardware variant and its choice at start-up are not modelled.
- Evaluate: stops at the decision how the double is computed (mantissa, power of ten, infinity or zero); the rounding of the double operations is not modelled.
- StopHandsOverAll: a node that a caller of del, mod or del_timer took out while the poller stops is counted as that caller's; its call back is the caller's next step.
- NoUseAfterRelease: the entry of the connection; the lifetime of the session object is only the number of live sessions.
- StepKeeps: no fairness, so nothing is claimed about steps happening in the end; CanBeReleased, StopCanEnd, EveryoneServed, SleeperServed and NeverStuck say what a run can still reach.
- InsertColor: the mirrored branches of the code are one branch with a side as parameter, here and in Rotate, EraseColor and Neighbor.
- Insert: nodes are names, and link fields are maps from names; storage of nodes and node reuse are the caller's.
- Failure of allocation, of mutex and condition variable creation, and the errno values beyond the outcomes named.
- The client side of the communicator, UDP services, file I/O and sleep sessions.
- The socket reads of the poller, its event masks, and the mpoller that spreads descriptors over pollers.
- Replacing and searching header fields, the header cursor and the moving of messages: easy list operations.
- JSON values, objects and arrays, whitespace and copying: a tree of the numbers and strings modelled here.
- The destructor of the LRU cache.
- The thread pool, and the interplay of executor and pool beyond scheduling a runner.
- URI parsing, string utilities, the HTTP server, the global manager and the factory wrappers.
