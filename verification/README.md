# R2P2, verified in Dafny

R2P2 is an RPC transport over datagrams, with a router that schedules requests onto servers and an extension,
HovercRaft, that replicates a service through a Raft log. This project models the logic of its C sources and proves
what that logic promises over all inputs, runs and interleavings.

| file | subject |
|---|---|
| `Wire.dfy`, `Framing.dfy`, `Reader.dfy` | packet layout, cutting a message into packets, reading a chain of packets as a stream |
| `Transport.dfy`, `System.dfy` | what an endpoint does per event, and the joint system of clients, servers and a lossy, reordering network |
| `StepLaws.dfy`, `Progress.dfy` | what each step of that system brings about for requests and calls, and that calls which nothing disturbs succeed |
| `Probing.dfy`, `Mempool.dfy`, `PairTable.dfy`, `SocketPool.dfy` | masked circular probing, fixed pools, intrusive lists, pairs in a pool and on a list, the socket pool |
| `Buffers.dfy`, `Holdings.dfy`, `Conservation.dfy` | buffers of a pool linked into messages, what an endpoint holds, and what that adds up to |
| `Resources.dfy`, `Endpoint.dfy` | the same endpoint as in `Transport.dfy` on those pools, lists, sockets, timers and buffers |
| `PendingQueue.dfy`, `Buckets.dfy`, `Jbsq.dfy`, `Jsq.dfy` | the router's bounded-queue and shortest-queue policies |
| `AppendEntries.dfy` | serialising a batch of log entries and rebuilding it from packets |
| `Replier.dfy`, `Cluster.dfy`, `FailingRuns.dfy` | choosing who replies, who does reply in a whole cluster, and three runs that break a promise |
| `Unordered.dfy`, `RingLog.dfy` | the set of requests waiting to be ordered, the ring of recent requests and its flow control |
| `Collections.dfy` | numbers, finite sets and sequences |

How the pieces fit together:

- An endpoint exists twice. `Transport` gives, as functions on packets, what every event does; `Endpoint` does the
  same with two fixed pools of pairs, a fixed pool of buffers linked by their next pointers, two intrusive lists and the
  socket pool, along the source's own paths, and each of its methods is proved to have exactly the effect of the
  function while conserving every resource. `System` then reasons about runs of the functions.
- `System` says what never happens; `StepLaws` says what does. It fixes, without naming the functions of `Transport`, the
  packets, hand-overs, callbacks and counts that each kind of step leads to, and that nothing else changes. `Progress`
  reasons from those laws and the invariant.
- `Holdings` is the value that all those objects amount to (`Resources.Own`). `Conservation` counts it, and
  `Endpoint.NothingLeaks` says what that means for the objects of any valid endpoint.
- The router's two cores are interleaved at every step of the routing core: `Feedback` stands for any number of
  token updates and is called between any two of its accesses to shared counters, also between the moment a packet has
  left and the moment it is counted. The worker thread of the replicated log is treated the same way (`Worker`).
- Clocks, random numbers, the network's choices and the decisions of the Raft library are parameters or
  nondeterministic.

Where a promise does not hold of the code as it is, the code is kept and the exact condition is proved:

- A message has the advertised number of packets unless its bytes fill their packets exactly and its last iovec is
  empty: `Framing.PrepareMsg`, called on an instance by `Framing.ExtraPacket`.
- Masked probing reaches every slot if and only if the pool size is a power of two:
  `Probing.ReachesAllSlotsExactlyWhen`.
- The shortest-queue policy picks a worker with the least backlog in every run if and only if tokens start at zero or
  below, or there is at most one worker: `Jsq.MinimalExactlyWhen`. The repository's documentation asks for zero
  (README.md:109), but nothing enforces it.
- An append-entries message stays within the entries it is offered unless it is a heartbeat that precedes uncommitted
  entries while no node has a free slot: `Cluster.IndexInRange`. With more than three nodes a run gets there, and at a
  point where nothing can be committed: `FailingRuns.StrayHeartbeat`.
- Picking a replier at random finds a candidate unless a reply is to be assigned while every node has 64 requests open:
  `Replier.Leader.SendAppendEntries`. With more than three nodes a run gets there too: `FailingRuns.NoNodeLeft`.
- No node is known to have done more requests than it was given, so that the open counts do not wrap, exactly in
  clusters of more than one node: `Cluster.DoneBelowGiven`, and `FailingRuns.LoneLeader` for one node, where nobody reads
  the counts.

## Model

| member | source | states |
|---|---|---|
| Wire.HeaderRoundTrip | r2p2/inc/r2p2/api-internal.h:43-63 | every header survives its eight bytes on the wire, in front of any body |
| Framing.FitsOnePacket | r2p2/r2p2-common.c:269-278 | the test for a single packet holds exactly if all bytes together fit one payload |
| Framing.CopyRound | r2p2/r2p2-common.c:292-332 | one turn of the copy loop extends the chain by the next bytes of the iovecs and keeps its shape |
| Framing.Fill | r2p2/r2p2-common.c:285-333 | the copy loop puts the concatenated iovecs into full buffers with consecutive order numbers |
| Framing.PrepareMsg | r2p2/r2p2-common.c:255-345 | bodies concatenate to the iovecs, all packets but the last are full, F, L, count and order are in place; there are as many packets as advertised, one more exactly if an empty iovec trails an exactly filled message, and then the last body is empty |
| Framing.FramedCount | r2p2/inc/r2p2/api-internal.h:32-39 | a framed message has the advertised number of packets, one more if its last body is empty |
| Framing.ExtraPacket | r2p2/r2p2-common.c:291-333 | called on 1464 bytes and an empty iovec, PrepareMsg makes two packets where one is advertised |
| Reader.AdvancePosition | r2p2/r2p2-common.c:793-843 | consuming n bytes moves n on in the concatenated bodies or to their end, and leaves the chain only when fewer than n were left |
| Reader.GBufferReader.constructor | r2p2/r2p2-common.c:845-852 | a new reader stands at the beginning of the stream |
| Reader.GBufferReader.Read | r2p2/r2p2-common.c:793-819 | returns the next min(size, rest) bytes of the concatenated bodies, also across empty ones, and stops |
| Reader.GBufferReader.Skip | r2p2/r2p2-common.c:821-843 | reaches the state that a read of the same size reaches |
| System.NextKeeps | r2p2/r2p2-common.c:371-582 | every step of the joint system keeps the invariant: partial messages hold packets 0 to received of one message, and every datagram belongs to a known message |
| System.RunsKeepInv | r2p2/r2p2-common.c:371-761 | so does every run |
| System.EndToEnd | r2p2/r2p2-common.c:371-582 | in every run a request is handed over at most once, with its caller's bytes, and a success carries the bytes answered |
| System.HandshakeSafe | r2p2/r2p2-common.c:407-464 | no delivery in any run fails an assertion on the pair's state or the packet's kind |
| System.ExactlyOneCompletion | r2p2/r2p2-common.c:416-449 | a call has no callback while its pair waits and exactly one afterwards, over drop, error, no-socket and timer paths |
| System.AckFindsWAck | r2p2/r2p2-common.c:451-464 | an acknowledgement in flight finds its pair waiting for it |
| System.ReplyFindsWResponse | r2p2/r2p2-common.c:407-410 | a reply packet in flight finds its pair waiting for the reply |
| System.DeliverKeeps | r2p2/r2p2-common.c:371-582 | whatever is delivered wherever, the endpoint's assertions hold and the invariant is kept |
| System.TimerKeeps | r2p2/r2p2-common.c:646-657 | a timeout completes its call and keeps the invariant |
| System.AnswerKeeps | r2p2/r2p2-common.c:662-698 | an answer keeps the invariant |
| System.DoCallKeeps | r2p2/r2p2-common.c:720-761 | a call keeps the invariant, with or without a free socket |
| StepLaws.EveryStep | r2p2/r2p2-common.c:371-761 | in every run every step obeys its law: calls, answers, timers, and deliveries of each kind change exactly the records, datagrams, callbacks and pending counts stated |
| StepLaws.ReplyObeys | r2p2/r2p2-common.c:407-449 | the reply packet a call waits for is counted, the last of fewer than 255 gives exactly Success with the packets and bytes answered, any other exactly Failure(-1), and one for no pending call nothing |
| StepLaws.AckObeys | r2p2/r2p2-common.c:451-464 | an acknowledgement of a pending call puts every packet after the first in flight to the server that sent it |
| StepLaws.DropObeys | r2p2/r2p2-common.c:226-232 | a drop gives a pending call exactly Failure(-2) |
| StepLaws.FirstObeys | r2p2/r2p2-common.c:489-582 | a refused request leaves a drop in flight; an admitted one-packet request is handed over with exactly its bytes; an admitted first packet of several leaves its acknowledgement in flight and one packet gathered |
| StepLaws.RestObeys | r2p2/r2p2-common.c:528-582 | the packet a server waits for is counted, the last of fewer than 255 hands the request over with exactly its bytes, any other drops what was gathered |
| StepLaws.CallObeys | r2p2/r2p2-common.c:720-761 | a call puts exactly its first packet in flight and is pending, or without a socket gets exactly Failure(-1) |
| StepLaws.AnswerObeys | r2p2/r2p2-common.c:686-697 | an answer puts all its packets in flight to the caller and leaves the application |
| StepLaws.TimerObeys | r2p2/r2p2-common.c:646-657 | the call pending on a socket, if any, gets exactly TimedOut |
| Progress.DeliveryPossible | r2p2/r2p2-common.c:206-224 | in every run a datagram in flight can be delivered with the process going on if and only if it does not complete a message of 255 packets or more |
| Progress.CallOnTrack | r2p2/r2p2-common.c:720-761 | a call with a socket starts with everything it needs in flight |
| Progress.LosslessSucceeds | r2p2/r2p2-common.c:371-582 | a call of which nothing is lost, delivered in order, admitted and not timed out, amid any other steps, stays on track until it succeeds: once nothing of it is in flight the application has its bytes, or the caller has the answer |
| Progress.ReplySucceeds | r2p2/r2p2-common.c:407-449 | whatever went before an answer to a pending call, a reply delivered in order without loss ends in Success with exactly the bytes answered |
| Buffers.ChainStore.FreeChain | r2p2/r2p2-common.c:87-91 | freeing each buffer before its next pointer is read frees every buffer of the chain, each taken until then, and no other |
| Buffers.ChainStore.Walk | r2p2/linux-backend.c:462-472 | following the next pointers from the head meets the packets of the chain in order |
| Buffers.ChainStore.FirstPacket | r2p2/r2p2-common.c:751-757 | cut behind its head a chain is one packet, and afterwards memory is as it was |
| Buffers.ChainStore.Append | r2p2/linux-backend.c:241-254 | fails exactly when the buffer pool is full; otherwise a free buffer holds the packet at the end of one message and no other message changes |
| Buffers.ChainStore.Free | r2p2/r2p2-common.c:121-142 | as many buffers as the message has packets are free again and no other message changes |
| Buffers.ChainStore.Link | r2p2/r2p2-common.c:242-253 | the received buffer moves to the end of a message, and none is taken or freed |
| Conservation.TakenIsTotal | r2p2/linux-backend.c:241-293 | as many buffers are taken as all messages have packets |
| Conservation.TakenByPairs | r2p2/linux-backend.c:241-293 | between events these are the requests and replies of live pairs |
| Conservation.SocketsAreClients | r2p2/linux-backend.c:187-228 | as many sockets are taken as there are calls |
| Conservation.ServersWithinBuffers | r2p2/r2p2-common.c:109-142 | there are never more server pairs than taken buffers |
| PairTable.PairTable.Alloc | r2p2/r2p2-common.c:70-80 | null exactly when the pool is full; otherwise a pair in a free slot, on no list |
| PairTable.PairTable.Free | r2p2/r2p2-common.c:106 | the slot of exactly that pair is free again and the list is as it was |
| PairTable.PairTable.Append | r2p2/r2p2-common.c:144-154 | the pair joins the end of the list, a doubly linked chain of live pairs |
| PairTable.PairTable.Remove | r2p2/r2p2-common.c:156-166 | exactly that pair leaves the list |
| PairTable.PairTable.RemoveUnlisted | r2p2/r2p2-common.c:550-555 | removing a new pair that was never listed changes nothing |
| PairTable.PairTable.ListIsLive | r2p2/r2p2-common.c:144-166 | taken slots are the live pairs, and the list is a duplicate-free doubly linked chain of taken objects of this pool |
| Endpoint.R2p2Endpoint.FindClientPair | r2p2/r2p2-common.c:186-203 | walking the list finds the first pending call with this port and request id |
| Endpoint.R2p2Endpoint.FindServerPair | r2p2/r2p2-common.c:168-184 | walking the list finds the first pending request of this sender and id |
| Resources.Resources.FreeClientPair | r2p2/r2p2-common.c:82-107 | both messages, the pair, its socket and its timer, if it has them, are given back, nothing else |
| Resources.Resources.FreeServerPair | r2p2/r2p2-common.c:121-142 | both messages and the pair are given back, nothing else |
| Endpoint.R2p2Endpoint.RemoveClient | r2p2/r2p2-common.c:162-166 | a pending call leaves the list and all it held is given back; the packet-level state loses exactly that call |
| Endpoint.R2p2Endpoint.RoomForPairs | r2p2/r2p2-common.c:70-119 | neither pair pool is full whenever a pair is allocated, so those assertions hold |
| Endpoint.NothingLeaks | r2p2/r2p2-common.c:82-166 | in every valid endpoint the count of taken buffers is the sum of the requests and replies of live pairs, the count of taken sockets the number of calls, the taken pair objects are the live pairs, both lists are linked chains of them, and all calls are listed |
| Endpoint.R2p2Endpoint.HandleReplyPacket | r2p2/r2p2-common.c:407-449 | has the effect of the packet-level step and conserves buffers, pairs, sockets and timers |
| Endpoint.R2p2Endpoint.HandleAckPacket | r2p2/r2p2-common.c:451-464 | the same, for an acknowledgement: the rest of the request goes out |
| Endpoint.R2p2Endpoint.HandleResponsePacket | r2p2/r2p2-common.c:371-475 | the same, for any response-side packet, unknown calls and drops included |
| Endpoint.R2p2Endpoint.RefuseFirst | r2p2/r2p2-common.c:503-510 | flow control refuses: the packet joins the new pair, a drop message is framed, sent and freed, the pair is given back |
| Endpoint.R2p2Endpoint.WrongSizeFirst | r2p2/r2p2-common.c:550-555 | a single packet of a larger message: the new pair is removed from the list it is not on and given back |
| Endpoint.R2p2Endpoint.AdmitFirst | r2p2/r2p2-common.c:512-548 | the first of several packets: the pair is listed and holds the packet, an acknowledgement leaves |
| Endpoint.R2p2Endpoint.HandleFirstPacket | r2p2/r2p2-common.c:488-582 | for a first packet the effect is that of the packet-level step and all is conserved; fails exactly on a failed assertion or without a buffer for the control message it has to send |
| Endpoint.R2p2Endpoint.HandleRestPacket | r2p2/r2p2-common.c:528-582 | the same, for a later packet: unknown, out of order, counted, wrong size, or handed over |
| Endpoint.R2p2Endpoint.HandleIncomingPacket | r2p2/r2p2-common.c:584-627 | the same, for any datagram in any state; fails exactly on a failed assertion or for want of a buffer |
| Endpoint.R2p2Endpoint.TimerFired | r2p2/linux-backend.c:230-236 | the same, for the timer of any socket, in use or not |
| Endpoint.R2p2Endpoint.PrepareToSend | r2p2/linux-backend.c:411-440 | fails exactly when all sockets are taken; otherwise one that was free serves the pair, with its timer armed |
| Endpoint.R2p2Endpoint.SendReq | r2p2/r2p2-common.c:720-761 | the same, for a call: without a socket the pair goes straight back; otherwise fails exactly when buffers run out |
| Endpoint.R2p2Endpoint.SendResponse | r2p2/r2p2-common.c:662-698 | the same, for an answer; fails exactly when buffers run out |
| Holdings.WithoutClientStands | r2p2/r2p2-common.c:82-107 | freeing a pending pair keeps all resources accounted for and removes exactly that call from view |
| Holdings.WithClientStands | r2p2/r2p2-common.c:720-761 | so does opening one, adding exactly that call |
| Probing.MaskIsRemainder | r2p2/mempool.c:48-72 | on a power of two, masking is taking the remainder |
| Probing.ReachesAllSlotsExactlyWhen | r2p2/mempool.c:33-35 | masking with size - 1 reaches every slot if and only if the size is a power of two |
| Probing.NextSlot | r2p2/mempool.c:58-64 | incrementing the 32-bit index moves to the next slot, also where it wraps |
| Mempool.FixedMempool.constructor | r2p2/mempool.c:31-46 | a new pool has all slots free |
| Mempool.FixedMempool.FindFree | r2p2/mempool.c:56-64 | when not full, probing ends within one turn on a free slot and every slot probed before was taken |
| Mempool.FixedMempool.Alloc | r2p2/mempool.c:48-72 | fails exactly when full; otherwise the object was free, is unlinked, and no other changed; count is the number of taken slots |
| Mempool.FixedMempool.Free | r2p2/mempool.c:74-84 | the slot is free again and the count positive before |
| Mempool.FixedLinkedList.Add | r2p2/mempool.c:86-99 | the list, a duplicate-free doubly linked chain, grows by the object |
| Mempool.FixedLinkedList.Remove | r2p2/mempool.c:101-117 | exactly the object leaves the chain; an object never linked changes nothing |
| SocketPool.SocketPool.FindFree | r2p2/linux-backend.c:195-197 | the probing loop stops within one turn on a socket that is free, also where the index wraps |
| SocketPool.SocketPool.GetSocket | r2p2/linux-backend.c:187-203 | fails exactly when all sockets are taken, otherwise takes one that was free |
| SocketPool.SocketPool.FreeSocket | r2p2/linux-backend.c:216-221 | exactly that socket is free again and serves nobody |
| PendingQueue.PendingQueue.Push | dpdk-apps/r2p2-router.c:263-278 | the linked queue grows by the packet at its end |
| PendingQueue.PendingQueue.Pop | dpdk-apps/r2p2-router.c:363-367 | the oldest packet leaves the queue |
| Buckets.RowFits | dpdk-apps/r2p2-router.c:409-412 | a row of the table never outgrows the number of workers |
| Buckets.OneLiveEntry | dpdk-apps/r2p2-router.c:417-474 | a worker has at most one live entry, in the row of what it has left |
| Buckets.LiveEntry | dpdk-apps/r2p2-router.c:417-474 | and it has one while anything is left |
| Buckets.TakeOk | dpdk-apps/r2p2-router.c:443-454 | moving a worker down keeps the table consistent and has room to do so |
| Buckets.AddOk | dpdk-apps/r2p2-router.c:423-432 | so does entering a worker |
| Buckets.SlotsTake | dpdk-apps/r2p2-router.c:443-454 | a dispatch costs one slot of the total |
| Buckets.NoSlotsLeft | dpdk-apps/r2p2-router.c:417-456 | the total is zero exactly when no worker has a slot left |
| Buckets.TopOfTable | dpdk-apps/r2p2-router.c:456-474 | with the rows above used up, a worker of this row has the most left |
| Jbsq.BucketTable.Clear | dpdk-apps/r2p2-router.c:421-422 | the arrays hold the empty table |
| Jbsq.BucketTable.Put | dpdk-apps/r2p2-router.c:427-428 | the arrays hold the table with one worker more |
| Jbsq.BucketTable.Next | dpdk-apps/r2p2-router.c:460-469 | the next live worker of a row comes out and moves to the row below |
| Jbsq.Router.constructor | dpdk-apps/r2p2-router.c:342-350 | every worker starts with n tokens and nothing sent |
| Jbsq.Router.UpdateTokens | dpdk-apps/r2p2-router.c:150-163 | the first target with the sender's address gets one token and all invariants hold, also while the request it answers has left and is not counted |
| Jbsq.Router.Feedback | dpdk-apps/r2p2-router.c:223-230 | any number of such updates keeps all invariants, between any two steps of the routing core |
| Jbsq.Router.Receive | dpdk-apps/r2p2-router.c:252-281 | the packet joins the queue of its policy, and any other policy stops the process |
| Jbsq.Router.Refresh | dpdk-apps/r2p2-router.c:417-433 | every worker's entry is what it had free at some time during the refresh, although tokens arrive meanwhile |
| Jbsq.Router.SendDirect | dpdk-apps/r2p2-router.c:435-438 | all direct packets leave in order, to the first target |
| Jbsq.Router.LeaveRouted | dpdk-apps/r2p2-router.c:443-445 | the oldest routed packet leaves to a worker with the most slots left; the packet is out and its count one behind |
| Jbsq.Router.CountSent | dpdk-apps/r2p2-router.c:446 | with the packet counted, the counts agree with what has left |
| Jbsq.Router.Dispatch | dpdk-apps/r2p2-router.c:443-454 | one packet leaves and is counted, with any answers arriving in between; the invariants hold, and every slot free when the snapshot was taken is used or still in the table |
| Jbsq.Router.IdlePass | dpdk-apps/r2p2-router.c:439-455 | ends with no packet or no idle worker left, each packet having cost one idle worker |
| Jbsq.Router.GreedyPass | dpdk-apps/r2p2-router.c:456-474 | ends with no packet or no slot left, each packet having cost one slot |
| Jbsq.Router.Route | dpdk-apps/r2p2-router.c:417-474 | with slots known, and an idle worker or two packets waiting, exactly as many packets leave as wait or as there are idle workers, or slots if none is idle; otherwise a new snapshot is taken, and packets left over mean that every worker idle at the start was served and, if none was idle, every slot used; whenever a packet waits and a worker has a slot free, one leaves |
| Jbsq.Router.NetPoll | dpdk-apps/r2p2-router.c:252-281 | the packets of a poll are queued by policy in order of arrival, up to the first with another policy |
| Jbsq.Router.Poll | dpdk-apps/r2p2-router.c:414-476 | the same, and if a packet then waits and a worker had a slot free, one leaves |
| Jbsq.Router.Run | dpdk-apps/r2p2-router.c:402-476 | for all arrivals and interleavings all invariants hold, all packets before the first with another policy, which alone stops it, are queued in order, and arrivals and dispatches are never revised |
| Jbsq.AtMostNOutstanding | dpdk-apps/r2p2-router.c:402-476 | at any moment left <= tokens <= left + n for every worker, up to direct packets for the first one, where left counts the requests that have left for it, so at most n are unanswered; sent <= left <= sent + 1, and they agree wherever free slots are read |
| Jbsq.DispatchedFairly | dpdk-apps/r2p2-router.c:356-377 | routed packets have left once each, in order of arrival, each to a worker with the most slots left |
| Jbsq.CountersMean | dpdk-apps/r2p2-router.c:417-456 | avail_slots is the sum of k + 1 over live entries of row k, idle_slots the live size of the top row, and rows fit |
| Jsq.PickMinimal | dpdk-apps/r2p2-router.c:165-198 | a consistent idle stack, or the scan, yields a worker with the least backlog |
| Jsq.PickFails | dpdk-apps/r2p2-router.c:165-198 | no target is found exactly when every backlog has reached 0xFFFFFF |
| Jsq.RunStackOk | dpdk-apps/r2p2-router.c:165-198 | in every run stacked workers are distinct and still idle, however long ago they were stacked |
| Jsq.Misroutes | dpdk-apps/r2p2-router.c:342-350 | with tokens to start with and two workers some run picks a worker that is not the least loaded |
| Jsq.MinimalExactlyWhen | dpdk-apps/r2p2-router.c:165-198 | the policy is right in every run if and only if tokens start at zero or below or there is at most one worker |
| Jsq.JsqRouter.GetTarget | dpdk-apps/r2p2-router.c:165-198 | the arrays and the stack move as the value-level selection does |
| Jsq.JsqRouter.Scan | dpdk-apps/r2p2-router.c:177-189 | one pass finds the first minimum and stacks the idle workers |
| AppendEntries.EntriesToIov | r2p2/hovercraft.c:696-735 | three vectors per entry that concatenate to the records |
| AppendEntries.SendAppendEntries | r2p2/hovercraft.c:604-623 | the header and the records are framed as one message |
| AppendEntries.ParseRecords | r2p2/hovercraft.c:737-776 | records of single-packet requests are read back wherever they stand |
| AppendEntries.RoundTrip | r2p2/hovercraft.c:696-776 | from packets cut at any byte the receiver rebuilds header, metadata, length, sender, request id and payload of every entry |
| AppendEntries.MsgToEntries | r2p2/hovercraft.c:737-776 | reading through the buffer chain yields what parsing the concatenated bytes yields |
| AppendEntries.ReceiveAppendEntries | r2p2/hovercraft.c:1282-1292 | so does the whole branch, header first |
| Replier.AssignAllOk | r2p2/hovercraft.c:391-403 | assigning leaves assigned entries alone, sets flags and counts right, and costs a node at most one request per entry |
| Replier.CandidateThroughout | r2p2/hovercraft.c:122-142 | with a slot free at the start, every entry of a message finds a candidate |
| Replier.Leader.constructor | r2p2/hovercraft.c:486-497 | a new leader starts with an empty log and nothing given or done |
| Replier.Leader.OrderOneReq | r2p2/hovercraft.c:269-297 | a new entry is the leader's own to answer until it is assigned, and the invariant holds |
| Replier.Leader.ReceiveReport | r2p2/hovercraft.c:1308-1316 | a reply changes what one other node is known to have done, the next append to that node is not skipped (as lines 315-316 see to), and the invariant holds |
| Replier.Leader.ApplyLog | r2p2/hovercraft.c:413-437 | the leader has done one request more, unless the entry has no side effects and another node replies to it |
| Replier.EveryCandidate | r2p2/hovercraft.c:122-142 | every node with fewer than 64 open requests is among those a random choice is made from |
| Replier.Leader.CheckAvailableSlots | r2p2/hovercraft.c:144-162 | true exactly if some node has fewer than 32 open requests |
| Replier.Leader.BoundedRand | r2p2/hovercraft.c:122-142 | the choice falls on place rand modulo their number among exactly the nodes with fewer than 64 open requests; the assertion fails exactly when there is none |
| Replier.Leader.SmartLb | r2p2/hovercraft.c:99-120 | the first least loaded node if it has fewer than 32 open requests, else the leader |
| Replier.Leader.Assign | r2p2/hovercraft.c:392-402 | the next entry gets its replier, the leader's flag and the counts follow |
| Replier.Leader.SendAppendEntries | r2p2/hovercraft.c:370-411 | skips exactly if an append is pending, goes out of range exactly in the heartbeat case, and lacks a candidate exactly if a reply is assigned at random with every node at 64 open; otherwise sends the entries offered, up to 30, or one if something is uncommitted and no node below 32, with exactly the missing repliers assigned; each pick is the first least loaded node, or the leader if none is below 32, or any node below 64, counting the picks before it |
| Cluster.NextKeeps | r2p2/hovercraft.c:370-471 | ordering, sending, receiving, committing, executing and reporting keep the cluster's invariant |
| Cluster.RunKeeps | r2p2/hovercraft.c:370-471 | so does every run |
| Cluster.AssignedOnce | r2p2/hovercraft.c:389-393 | a log position gets its replier once; later steps leave the entry as it is |
| Cluster.ExactlyOneReplier | r2p2/hovercraft.c:391-397 | all holders of an entry agree on its replier and exactly that node carries SHOULD_REPLY |
| Cluster.FlagIsReplier | r2p2/hovercraft.c:464-467 | a holder carries SHOULD_REPLY exactly if it is the replier recorded at the leader |
| Cluster.AtMostOneAnswer | r2p2/r2p2-common.c:673-681 | over all nodes a request is answered at most once, by its replier, exactly when that node has executed it |
| Cluster.DoneBelowGiven | r2p2/hovercraft.c:421-437 | with more than one node, what a node is known to have done, and has done, never exceeds what it was given |
| FailingRuns.LoneLeader | r2p2/hovercraft.c:421-437 | a run of one node that has done more than it was given |
| Cluster.IndexInRange | r2p2/hovercraft.c:383-393 | in every run a message that starts within the receiver's copy starts at or before the next entry to assign, and that entry lies within the message, exactly unless the heartbeat case applies |
| FailingRuns.StrayHeartbeat | r2p2/hovercraft.c:383-393 | for more than three nodes, a run in which another node holds all 32 entries, no commit is possible, and a heartbeat with no entries is made to carry one |
| FailingRuns.NoNodeLeft | r2p2/hovercraft.c:122-142 | for more than three nodes, a run in which the next message has one entry to assign, no commit is possible and no node is below 64 |
| Unordered.UnorderedSet.Add | r2p2/hovercraft.c:220-249 | kept exactly if its key is new and there is room, or the one there is older than a second and gives way |
| Unordered.UnorderedSet.Find | r2p2/hovercraft.c:251-266 | the request with this key, if any, leaves the set, and the count follows |
| Unordered.UnorderedSet.HandleReplicatedReq | r2p2/hovercraft.c:1395-1410 | a request is kept exactly below 3000 and if admitted, otherwise its pair is freed |
| Unordered.UnorderedSet.Lookup | r2p2/hovercraft.c:836-873 | every request named leaves the set once; a repeated or unknown name finds none |
| Unordered.UnorderedSet.ProcessAeReq | r2p2/hovercraft.c:1095-1146 | the set loses exactly the requests the library used, whose pairs are freed, and putting the others back never fails |
| RingLog.LastWindow | r2p2/hovercraft-log.c:42 | an addition is the last of its slot exactly while fewer than 2^15 follow it |
| RingLog.Ring.Add | r2p2/hovercraft-log.c:36-63 | the request moves into the ring and the displaced requests, in order, are the ones freed, also where the head wraps |
| RingLog.Ring.KeptExactly | r2p2/hovercraft-log.c:44-55 | an entry has its own request exactly if it is among the last 2^15 added |
| RingLog.OrderingLeader.HandleRequest | r2p2/hovercraft.c:181-184 | a request waits exactly if the worker lags by fewer than 16384 entries |
| RingLog.OrderingLeader.ApplyOne | r2p2/hovercraft.c:413-420 | the next entry to execute still has its request |
| RingLog.OrderingLeader.OrderRequests | r2p2/hovercraft.c:876-888 | waiting requests are ordered in order of arrival |
| RingLog.OrderingLeader.Poll | r2p2/hovercraft.c:1417-1418 | a burst of up to 128 never overfills the waiting table; each request is kept exactly if the lag it met, which only falls, was below 16384, so all are if it was to begin with; what is kept is ordered |
| RingLog.OrderingLeader.Run | r2p2/hovercraft.c:181-184 | over any number of polls with the worker at any pace, what was ordered are the kept requests of all bursts in order, and what is executed is the beginning of it |

## Left out

- The Raft library (elections, commitment, log matching) is not part of the repository; `Cluster` assumes prefix replication under one stable leader, that a message to a node starts no later than where the copy of that node ends, and that an entry is committed only once more than half of the nodes hold it.
- In-network aggregation (SWITCH_AGG), the P4 switch, and the draining of the unordered set on a change of leader: external code decides what they do.
- The multi-packet branch of `msg_to_entries`, which an assertion disables.
- `entries_to_iov_accel`: a shorter record of the same kind, it would add easy members only.
- AppendEntries.ParseOne: the layout of the library's entry is assumed to be 17 bytes of metadata, a pointer between padding, a length and padding; a stream that ends inside a payload is reported as a failure, where the source keeps undefined bytes.
- Random and round-robin target selection, statistics, timestamping, configuration, the network stack below UDP and the sample applications.
- Raft messages in the joint system: the Linux build does not carry them.
- System.EndToEnd: the network does not duplicate datagrams and no address and request id is used twice in a run, as the source's own remarks demand.
- System.HandshakeSafe: the limit of 254 packets that the application's table takes can still stop an endpoint; `Progress.DeliveryPossible` says exactly when.
- Router counters and request counts are unbounded numbers; the 64-bit wrap of the token counters and the 32-bit difference taken from them are not modelled.
- Jbsq.Router.UpdateTokens: feedback is assumed to come from a known target about a request that has left for it, and n to be at least one.
- Jsq.JsqRouter.GetTarget: tokens do not change while a target is selected, and only routed traffic counts.
- Buffers, pairs and sockets are named by their slots instead of addresses, and a socket's local port is its slot.
- Endpoint.R2p2Endpoint.HandleIncomingPacket: after a failed assertion, where the process ends, nothing is said of the state.
- Jbsq.BucketTable.Put: the flat array of the source is a two-dimensional one here.
- Mempool.FixedMempool.constructor: all slots are free at first, which the allocation in the source does not see to.
- Unordered.UnorderedSet.Add: the hash table takes any 4096 keys; a failure to place a key earlier is not modelled.
- RingLog.OrderingLeader.Run: requests are single packets, so that at most one poll's burst is admitted on the same lag.
