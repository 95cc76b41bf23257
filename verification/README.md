# TermChat in Dafny

TermChat is an instant-messaging server and client in C++. This project models its message path and proves
what that path promises: a lock-free queue that is a FIFO, timers that fire in order, framing that does not
depend on how TCP cuts the stream, and a send/persist/push/sync protocol that neither loses nor repeats a
message.

`dafny verify dfyconfig.toml` checks everything (Dafny 4.11).

| file | models |
|---|---|
| `mpsc_queue.dfy` | the lock-free queue as atomic steps on shared memory, refined to a sequence |
| `heap_timer.dfy` | the indexed timer heap, refined to a map from id to expiry |
| `buffer.dfy`, `framing.dfy`, `tcp_connection.dfy` | buffer, wire format, connection |
| `dedup_cache.dfy` | the sharded cache of client message ids, with lifetime and size limit |
| `send_protocol.dfy` | retransmitting clients against concurrent server calls |
| `send_cache.dfy` | these calls over the sharded cache, and the promise in time |
| `async_writer.dfy`, `tables.dfy` | the write-behind persister and the message tables |
| `writer_queue.dfy` | the persister over the lock-free queue |
| `client_store.dfy`, `client_session.dfy` | the client's histories and delivery facts; its sessions and sync |
| `server_run.dfy` | server calls and persister put together |
| `delivery.dfy` | sending, persisting and syncing, end to end |
| `push_service.dfy`, `conn_pool.dfy`, `id_generator.dfy` | push routing, the MySQL pool, ids |
| `messages.dfy`, `wrappers.dfy` | shared entities |

How to read it:

- Code that several threads run is a step system: a state, one action per atomic access or locked section,
  and theorems over every run, that is every interleaving. Logs that no step reads record what happened.
- Code that one thread runs, or that runs under one lock, is a class whose methods keep `Valid()` and are
  specified by functions on values. Runs of such methods are methods too: `Connections.ServeStream`,
  `Connections.ServeOps`, `ClientSession.Session`, `IdGenerator.GenerateRun`.
- Clocks, the kernel, the network and the database are parameters: a function from the number of a call to
  what it answers, or a choice made by the action.

Conventions and assumptions:

- Atomics are sequentially consistent and queue nodes are never reused.
- Protobuf is its parser, any function from bytes to envelopes or nothing; responses are any bytes.
- Tables are keyed as in `.devcontainer/init_scylla.sh:18-38`, inbox queries return ascending ids, and a
  logged batch applies wholly or not at all. Ids compare as unsigned; below 2^63, which
  `IdGenerator.MsgIdsOrdered` gives, the database's signed order is the same.
- A fresh message id is one no earlier call used; `IdGenerator.GenerateRun` says when the generator gives that.
- Message contents and timestamps are integers without a width; wrap-around is modelled where it matters
  (ids, header sizes, the timer's cast to int, the cache's target size).

Properties that are false of the code, each with the exact condition under which it holds and a case in which
it fails:

- `GetNextTick` never sleeps past a timer: `TimerHeap.WaitIsSafe`; it does in `TimerHeap.SleepPastTimer`,
  where the clock jumps by more than 2^31 ms between two readings of one call.
- A pass dispatches every complete, parseable frame: `Framing.PassIsCompleteIff`, `Framing.PassCanStall`.
- A client message id makes at most one message: `SendProtocol.AtMostOnceIff`,
  `SendProtocol.EvictionAllowsSecondMessage`.
- Every message enqueued is handled: `AsyncWriter.LateItemsAreLost`, `AsyncWriter.AnItemCanBeLost`.
- Every message stored is in all three places: `Tables.AllStoredIff`, `Tables.ClashLosesRow`.
- A sync that reports success is complete: the last clause of `ClientSession.SyncResult`,
  `ClientSession.SyncCanStopShort`.
- Every insertion path files under the same partner: `ClientSession.RightPartnersIff`,
  `ClientSession.StalePageMisfiles`, `ClientSession.LatePageMisfiles`. The shipped user interface runs sync and logout one after the other
  (`client/main.cpp:64`, `client/main.cpp:86`), so such a page needs another caller of the network manager.
- A new login starts with empty histories: `ClientSession.NextSessionStartsCleanIff`,
  `ClientSession.PushOutlivesLogout`. Here the listener thread is enough: logout clears before it disconnects.
- Every accepted push reaches a connection: `PushService.ReachesIffOnline`, `PushService.LeaverMissesPush`.

Where documents and code differ, the model follows the code: the size limit of `docs/network-protocol.md:16`
is the client's, the server's is 1 MiB (`server/src/handler/protobuf_handler.h:70`); retries are answered
from the in-memory cache in the mode modelled here, not from the dedup table that
`docs/message-reliability.md` describes.

## Model

| member | source | states |
|---|---|---|
| `MpscQueue.StepRefines` | server/src/core/mpsc_queue.h:21-71 | every load, store and compare-and-swap of every thread keeps the queue invariant and is a step, or no step, of an abstract sequence: link appends, head store removes the oldest, an empty answer is given only when the sequence is empty |
| `MpscQueue.QueueIsFifo` | server/src/core/mpsc_queue.h:21-53 | in every interleaving of any number of producers with the consumer, values linked = values returned + abstract contents, in order: nothing lost, invented, repeated or overtaken |
| `MpscQueue.ProducerOrderKept` | server/src/core/mpsc_queue.h:21-39 | each producer's calls are its linked values in call order, then at most the one still in flight |
| `MpscQueue.TailTrailsByAtMostOne` | server/src/core/mpsc_queue.h:23-37 | `tail_` is the last or second-to-last linked node, never moves back, advances by at most one per step, and is the last node whenever a link succeeds |
| `MpscQueue.NextOfHead` | server/src/core/mpsc_queue.h:41-53 | `next` of `head_` is null exactly when the queue is empty; else it names the node of the oldest value, which is there until the consumer takes it out |
| `MpscQueue.BulkTakesConsecutive` | server/src/core/mpsc_queue.h:55-65 | one call of dequeue_bulk takes the oldest values, in order, at most the limit; fewer only when nothing was left |
| `MpscQueue.BulkCounts` | server/src/core/mpsc_queue.h:55-65 | any call of dequeue_bulk, in any interleaving, takes at most its limit, and fewer only when every linked value has been taken |
| `MpscQueue.EventsAsTakes` | server/src/core/mpsc_queue.h:21-71 | each event of a run appends to the log of linked values, takes the next one not yet taken, or tells truly whether any is left |
| `MpscQueue.LogsOnlyGrow` | server/src/core/mpsc_queue.h:21-53 | an enqueue or a dequeue that took effect is never undone |
| `MpscQueue.RunInv` | server/src/core/mpsc_queue.h:21-71 | in every reachable state the invariant holds and every pointer a thread follows is to an existing node, so no step is ever blocked |
| `TimerHeap.HeapTimer.constructor` | server/src/timer/heaptimer.h:23-26 | no timers, both invariants hold |
| `TimerHeap.HeapTimer.SwapNode` | server/src/timer/heaptimer.cpp:3-9 | swaps two nodes and keeps `ref_` the exact inverse of `heap_` |
| `TimerHeap.HeapTimer.SiftUp` | server/src/timer/heaptimer.cpp:11-21 | from one possibly broken edge to the parent, restores heap order in the prefix and touches nothing behind it |
| `TimerHeap.HeapTimer.SiftDown` | server/src/timer/heaptimer.cpp:23-36 | swaps on ties; moved means the whole prefix is a heap, not moved means nothing changed and only the upward edge can be broken |
| `TimerHeap.HeapTimer.Repair` | server/src/timer/heaptimer.cpp:55-57 | sift down, else sift up, repairs any single changed entry |
| `TimerHeap.HeapTimer.MoveLast` | server/src/timer/heaptimer.cpp:42-47 | the node to delete is last and the others are a heap |
| `TimerHeap.HeapTimer.Del` | server/src/timer/heaptimer.cpp:38-50 | deleting at any index removes exactly that id from the abstract map and keeps both invariants |
| `TimerHeap.HeapTimer.Adjust` | server/src/timer/heaptimer.cpp:52-58 | the abstract map gets the new expiry for the id and nothing else changes |
| `TimerHeap.HeapTimer.Add` | server/src/timer/heaptimer.cpp:60-80 | put on the abstract map, for a new id, an existing one, and an id beyond `ref_` |
| `TimerHeap.HeapTimer.Remove` | server/src/timer/heaptimer.cpp:82-87 | remove on the abstract map; negative, out of range and absent ids are ignored |
| `TimerHeap.HeapTimer.Pop` | server/src/timer/heaptimer.cpp:110-113 | removes an id whose expiry is minimal |
| `TimerHeap.HeapTimer.Tick` | server/src/timer/heaptimer.cpp:99-108 | terminates although the callback removes timers; fires only timers with less than 1 ms left at their own clock reading, none twice, in nondecreasing expiry; exactly the fired ids and those their callbacks removed are gone; the rest had at least 1 ms left at the last reading |
| `TimerHeap.HeapTimer.RunCallback` | server/src/core/webserver.cpp:184-193 | the removals a connection-closing callback makes on the timer it was called from |
| `TimerHeap.HeapTimer.GetNextTick` | server/src/timer/heaptimer.cpp:120-128 | -1 exactly when no timer remains, else the clamped wait for the earliest one, which outlasts no live timer when the two last clock readings are at most 2^31 ms apart |
| `TimerHeap.WaitIsSafe` | server/src/timer/heaptimer.cpp:124-125 | the wait never outlasts any timer and is 0 when one is past, if and only if the earliest is not overdue by so much that the cast to int wraps to a positive number |
| `TimerHeap.PromptWaitIsSafe` | server/src/timer/heaptimer.cpp:120-128 | so it is safe for every live timer when the readings are at most 2^31 ms apart |
| `TimerHeap.SleepPastTimer` | server/src/timer/heaptimer.cpp:120-128 | a call that answers 2^31 - 1 ms with the only timer overdue: the clock jumps between its two readings |
| `TimerHeap.WaitWhenDue` | server/src/timer/heaptimer.cpp:124-125 | for a timer still to come the wait is never longer than the time left |
| `TimerHeap.WaitWhenPast` | server/src/timer/heaptimer.cpp:124-125 | for a past timer, when exactly the wait is 0 |
| `TimerHeap.FrontIsEarliest` | server/src/timer/heaptimer.cpp:101-102 | the front of the heap is a live timer that expires no later than any other |
| `Buffers.Buffer.constructor` | server/src/buffer/buffer.h:13-26 | an empty buffer of the given size |
| `Buffers.Buffer.MakeSpace` | server/src/buffer/buffer.cpp:95-104 | compacts when both free sides suffice, grows otherwise; the readable bytes are unchanged |
| `Buffers.Buffer.EnsureWritable` | server/src/buffer/buffer.cpp:4-9 | enough room afterwards, readable bytes unchanged |
| `Buffers.Buffer.Append` | server/src/buffer/buffer.cpp:36-41 | readable bytes followed by the new ones |
| `Buffers.Buffer.Retrieve` | server/src/buffer/buffer.cpp:11-14 | drops exactly the first bytes |
| `Buffers.Buffer.RetrieveAll` | server/src/buffer/buffer.cpp:21-24 | nothing readable |
| `Buffers.Buffer.ReadFd` | server/src/buffer/buffer.cpp:50-73 | however the kernel splits between the free space and the spill buffer, exactly the bytes read are appended; an error changes nothing |
| `Buffers.Buffer.WriteFd` | server/src/buffer/buffer.cpp:75-86 | drops exactly the bytes the kernel took; an error changes nothing |
| `Framing.HeaderRoundTrip` | server/src/handler/protobuf_handler.cpp:61-71 | the four header bytes decode to the size |
| `Framing.DecodeFrame` | server/src/handler/protobuf_handler.cpp:29-71 | decoding an encoded frame, whatever follows it, gives its envelope and consumes exactly the frame |
| `Framing.DecodePartial` | server/src/handler/protobuf_handler.cpp:29-49 | no proper prefix of a frame decodes to anything |
| `Framing.DecodeExtends` | server/src/handler/protobuf_handler.cpp:29-59 | bytes that arrive later cannot change what was decided |
| `Framing.DrainSplits` | server/src/handler/protobuf_handler.cpp:10-59 | for arbitrary bytes, one pass over the whole input against a pass over a first part: if that ended waiting, a pass over what it left and the rest continues it exactly; if a bad frame ended it, the one pass ends there too |
| `Framing.DrainStream` | server/src/handler/protobuf_handler.cpp:10-59 | a pass over any prefix of a stream of legal frames dispatches exactly the frames that arrived completely and leaves exactly the unfinished suffix |
| `Framing.ArrivedUnique` | server/src/handler/protobuf_handler.cpp:29-59 | the number of completely arrived frames is determined by the number of bytes |
| `Framing.PassIsCompleteIff` | server/src/handler/protobuf_handler.cpp:10-59 | one pass over complete frames dispatches every parseable one if and only if no parseable frame follows an unparseable one |
| `Framing.PassCanStall` | server/src/handler/protobuf_handler.cpp:10-59 | a pass that leaves a complete, parseable frame waiting |
| `Connections.FramesAreNotHttp` | server/src/core/tcp_connection.cpp:63-69 | no prefix of a stream of legal frames is taken for HTTP |
| `Connections.TcpConnection.constructor` | server/src/core/tcp_connection.cpp:23-40 | a new connection: empty buffers, nothing queued or dispatched, protocol undecided |
| `Connections.TcpConnection.Read` | server/src/core/tcp_connection.cpp:146-156 | appends exactly the bytes read; makes progress when the kernel does, and in edge-triggered mode reads everything a willing kernel has |
| `Connections.TcpConnection.ProcessOne` | server/src/handler/protobuf_handler.cpp:10-27 | one decode attempt, one dispatch, one response frame |
| `Connections.TcpConnection.EncodeMessage` | server/src/handler/protobuf_handler.cpp:61-71 | one more whole frame behind everything sent and buffered |
| `Connections.TcpConnection.DetermineProtocol` | server/src/core/tcp_connection.cpp:71-90 | the protocol is decided once, on the first non-empty buffer |
| `Connections.TcpConnection.Process` | server/src/core/tcp_connection.cpp:71-109 | the loop is one pass over the buffer: dispatched requests, responses in request order, bytes left |
| `Connections.TcpConnection.DrainRequests` | server/src/core/tcp_connection.cpp:104-109 | the same for the protobuf branch |
| `Connections.TcpConnection.EnqueueMessage` | server/src/core/tcp_connection.cpp:224-235 | a message that is not empty becomes one queued frame, linked last |
| `Connections.TcpConnection.EnqueueMessages` | server/src/core/tcp_connection.cpp:218-240 | the messages that are not empty become queued frames, in order |
| `Connections.TcpConnection.FlushPendingToBuffer` | server/src/core/tcp_connection.cpp:242-251 | queued pushes, and those other threads link between two of its dequeues, move behind the buffered frames in order until a dequeue finds none |
| `Connections.TcpConnection.FlushOne` | server/src/core/tcp_connection.cpp:246-248 | one dequeue moves the oldest push, if any |
| `Connections.TcpConnection.Write` | server/src/core/tcp_connection.cpp:158-210 | under arbitrary partial writes, bytes sent plus bytes buffered are whole frames in the order appended; pushes linked meanwhile are flushed or still queued, none lost; progress when the kernel makes some, everything in edge-triggered mode with a willing kernel |
| `Connections.ServeStream` | server/src/core/tcp_connection.cpp:71-156 | for every cut of a stream of legal frames into reads and any number of rounds, through all growths, compactions and spills: dispatched = the frames fully received, in order; buffered = the unfinished suffix |
| `Connections.ServeOps` | server/src/core/tcp_connection.cpp:71-251 | reads, processing, writes and pushes by other threads in any order: the requests dispatched are exactly the frames complete at the last processing, the rest of what was read is buffered; the frames appended are their responses, in request order, merged with pushes; pushes appended, then queued, are those handed over, in order |
| `IdGenerator.MsgIdsEqualIff` | server/src/utils/id_generator.h:30-43 | two ids are equal exactly when the clamped milliseconds agree mod 2^42 and the sequence numbers mod 2^22 |
| `IdGenerator.MsgIdsOrdered` | server/src/utils/id_generator.h:30-43 | a later millisecond gives a larger id, below 2^63 while the offset is below 2^41 |
| `IdGenerator.MsgIdIsBits` | server/src/utils/id_generator.h:42 | the shift, mask and or of the source, in 64 bits, give clock and counter side by side |
| `IdGenerator.ClientMsgIdIsBits` | client/network_manager.cpp:92 | the same for the client message id |
| `IdGenerator.Generator.GenerateMsgId` | server/src/utils/id_generator.h:30-43 | the new id equals that of an earlier call exactly when both read the same clamped millisecond and their numbers agree mod 2^22; the 32-bit counter is the number of calls, wrapped |
| `IdGenerator.GenerateRun` | server/src/utils/id_generator.h:30-43 | over any run, across counter wraps: ids equal iff same clamped millisecond and call numbers congruent mod 2^22; so distinct within 2^22 calls |
| `IdGenerator.ConvIdsEqualIff` | server/src/utils/id_generator.h:45-51 | two conversation ids are equal exactly when the unordered user pairs are |
| `IdGenerator.ToStringRoundTrip` | server/src/utils/id_generator.h:45-51 | decimal rendering loses nothing |
| `IdGenerator.ClientMsgIdsEqualIff` | client/network_manager.cpp:88-93 | when exactly two client message ids collide |
| `DedupCache.ShardIndex` | server/src/service/client_dedup_cache.cpp:58 | a key always names an existing shard |
| `DedupCache.ClientDedupCache.constructor` | server/src/service/client_dedup_cache.h:29-30 | empty shards, at least one, with the default limits |
| `DedupCache.ClientDedupCache.EvictExpiredLocked` | server/src/service/client_dedup_cache.cpp:60-89 | nothing before its time unless overfull; else exactly the expired entries, then the oldest down to nine tenths |
| `DedupCache.ClientDedupCache.Reserve` | server/src/service/client_dedup_cache.cpp:7-36 | zero arguments conflict without effect; else one cache access of the one shard |
| `DedupCache.ClientDedupCache.UpdateStatus` | server/src/service/client_dedup_cache.cpp:38-56 | only the entry held under that message id is changed, its lifetime restarted |
| `DedupCache.EraseExpired` | server/src/service/client_dedup_cache.cpp:65-71 | keeps exactly the entries that have not expired |
| `DedupCache.EraseOldest` | server/src/service/client_dedup_cache.cpp:73-86 | keeps exactly the asked number, none of which expires before a dropped one |
| `DedupCache.KeysByExpiry` | server/src/service/client_dedup_cache.cpp:75-82 | every key once, by nondecreasing expiry |
| `DedupCache.StepKeepsPlaces` | server/src/service/client_dedup_cache.cpp:7-58 | every key stays in the shard its hash names |
| `DedupCache.ShardedIsOneMap` | server/src/service/client_dedup_cache.cpp:7-89 | an access of the sharded cache is an eviction and the same access of one map, with the same answer; every key evicted had expired, or its shard had too many that had not |
| `DedupCache.ShardsAreBounded` | server/src/service/client_dedup_cache.cpp:60-89 | in every reachable state a shard has at most max + 1 entries, and at most max right after eviction |
| `DedupCache.SizeEvictionIsExact` | server/src/service/client_dedup_cache.cpp:73-86 | a size eviction leaves exactly the target number, and every survivor expires no earlier than every dropped entry |
| `DedupCache.ReservedKeyAnswersTheSame` | server/src/service/client_dedup_cache.cpp:7-36 | from its reservation, until an access finds it expired or a size eviction takes it, a key answers with the same message id and receiver: duplicate for that receiver, conflict for another |
| `DedupCache.RunEvictsInTime` | server/src/service/client_dedup_cache.cpp:60-89 | the next eviction of a shard is due at most 5 s, plus the clock skew between lock holders and the backdating of a negative time to live, after any of its entries expires |
| `DedupCache.ExpiredKeyIsForgotten` | server/src/service/client_dedup_cache.cpp:7-89 | an access that much later drops the entry first, and a reserve of it reserves anew |
| `SendProtocol.RunInv` | server/src/service/msg_service.cpp:68-151 | the invariant of server calls, queues, cache, sends and histories over every interleaving, loss, duplication and delay |
| `SendProtocol.OneMessagePerLifetime` | server/src/service/msg_service.cpp:108-146 | any lifetime of a cache entry: of the calls for its key that had not looked at the cache when it began, at most one makes a message, and every successful one carries that message's id |
| `SendProtocol.AnsweredInLifetime` | server/src/service/msg_service.cpp:108-123 | a successful answer decided during a lifetime names the call that reserved the key for it |
| `SendProtocol.MessagesPerKey` | server/src/service/msg_service.cpp:108-146 | reservations of a key = its evictions, plus one while it is cached; messages enqueued for persistence are never more, and as many when no call is between reserving and enqueueing; pushes are never more |
| `SendProtocol.AtMostOnceIff` | server/src/service/msg_service.cpp:108-146 | a client message id makes at most one message if and only if its entry was not evicted and then reserved again |
| `SendProtocol.AnswersAgree` | server/src/service/msg_service.cpp:108-123 | for a key never evicted, every successful answer of the whole run carries one id |
| `SendProtocol.SendIsExactlyOnce` | client/network_manager.cpp:508-581 | a send the client saw succeed, under the condition of AtMostOnceIff, made exactly one server message, the request with the acknowledged id, handed to the writer once or by the one call still on its way; the sender's history with the receiver has it exactly once, and no history of anybody holds anything else that this send made |
| `SendProtocol.HistoriesHoldMessages` | client/network_manager.cpp:222-236 | every entry of every history is a message of its user that the server handed to the writer or acknowledged, filed under the other party, once |
| `SendProtocol.EntryMatchesCall` | client/network_manager.cpp:222-236 | what any history holds under the id of a server call is the message that call made: a call without a message leaves no entry |
| `SendProtocol.EvictionAllowsSecondMessage` | server/src/service/msg_service.cpp:108-146 | a run in which a retransmission arriving after an eviction makes a second message, so the bound is tight |
| `SendProtocol.AnswerNamesWinner` | server/src/service/msg_service.cpp:19-25 | every successful answer, first or repeated, names the message of a call that reserved the key |
| `SendCache.RunIsProtocolRun` | server/src/service/msg_service.cpp:108-146 | server calls over the sharded cache itself, with its evictions and expiries: every joint run is a run of SendProtocol, and the cache is the map that protocol uses |
| `SendCache.AccessIsTwoSteps` | server/src/service/client_dedup_cache.cpp:7-89 | a cache access and the reaction of the call to its result are an eviction and then one step of the protocol |
| `SendCache.TimelyRetriesMakeOneMessage` | server/src/service/msg_service.cpp:108-146 | if the clock does not go back, every delivery of a request reaches the cache before its entry expires and its shard is never overfull, the client message id makes at most one message, however often the request is delivered |
| `AsyncWriter.RunInv` | server/src/dao/async_msg_writer.cpp:38-140 | the invariant of producers, worker, batches, callbacks and tables in every interleaving |
| `AsyncWriter.CounterNeverUnderstates` | server/src/dao/async_msg_writer.cpp:38-41 | in every interleaving `queued_items_` = queue length + counted but not linked + taken but not subtracted; so it never underflows or understates the backlog |
| `AsyncWriter.CounterKept` | server/src/dao/async_msg_writer.cpp:38-79 | every step keeps: counter = queue length + counted but unlinked + taken but unsubtracted |
| `AsyncWriter.BatchesKept` | server/src/dao/async_msg_writer.cpp:75-137 | every step keeps: finished batches are consecutive stretches of 1 to 100 items, tried 1 to 4 times while running, failed only after 4, tried once while draining |
| `AsyncWriter.EachItemServedOnce` | server/src/dao/async_msg_writer.cpp:52-140 | every item the worker is done with is in exactly one finished batch, and its callback, if any, was called exactly once, with that batch's outcome |
| `AsyncWriter.SuccessMeansStored` | server/src/dao/async_msg_writer.cpp:43-58 | if no two messages clash, every message reported successful is in the history and both inboxes, and no row comes from anything else |
| `AsyncWriter.StopsEmpty` | server/src/dao/async_msg_writer.cpp:126-139 | the worker stops only after Stop, with the queue empty and every callback made |
| `AsyncWriter.LateItemsAreLost` | server/src/dao/async_msg_writer.cpp:28-41 | after that, a callback is made if and only if the item was linked before the last look at the queue |
| `AsyncWriter.AnItemCanBeLost` | server/src/dao/async_msg_writer.cpp:28-41 | a run in which a producer racing with Stop loses its message |
| `WriterQueue.RunIsWriterRun` | server/src/dao/async_msg_writer.cpp:38-140 | producers and worker over the lock-free queue's own atomic steps: every joint run is a run of AsyncWriter, and the batch buffer holds exactly the items taken and not finished |
| `WriterQueue.EventIsAction` | server/src/dao/async_msg_writer.cpp:38-140 | what the queue returns to a thread is an enabled action of the writer, with the reaction the code has |
| `Tables.InsertBatch` | server/src/dao/msg_scylla_dao.cpp:137-219 | the statement loop stores every message of the batch, or nothing; success means all of it |
| `Tables.RetryChangesNothing` | server/src/dao/msg_scylla_dao.cpp:162-200 | applying a batch again changes no table |
| `Tables.AllStoredIff` | server/src/dao/msg_scylla_dao.cpp:162-200 | all three copies of every message are there if and only if no two messages with one id and a common user differ |
| `Tables.ClashLosesRow` | server/src/dao/msg_scylla_dao.cpp:162-200 | two messages of one sender under one id: the sender's inbox loses the earlier |
| `Tables.InsertsNothingElse` | server/src/dao/msg_scylla_dao.cpp:162-200 | every row of both tables is the row of one of the messages, under a key of that message |
| `Tables.InsertAllOverlays` | server/src/dao/msg_scylla_dao.cpp:162-200 | what a batch stores does not depend on what was there |
| `ClientStore.MergeDependsOnlyOnSet` | client/network_manager.cpp:95-121 | the merged delivery state is a function of the set of ACKs seen |
| `ClientStore.MergeNeverForgets` | client/network_manager.cpp:95-121 | later ACKs only add facts; persisted implies received, delivered implies enqueued implies received |
| `ClientSession.NetworkManager.constructor` | client/network_manager.cpp:395-413 | an empty session |
| `ClientSession.NetworkManager.MergeMessageAck` | client/network_manager.cpp:95-121 | merges into the one message named; id 0 is ignored |
| `ClientSession.NetworkManager.OnAckBatch` | client/network_manager.cpp:237-249 | each message ends with the facts of the set of successful ACKs that ever named it |
| `ClientSession.NetworkManager.OnPush` | client/network_manager.cpp:222-236 | the pushed message is in its sender's history exactly once |
| `ClientSession.NetworkManager.OnSendAck` | client/network_manager.cpp:549-562 | the sent message is in its receiver's history exactly once, its ACK merged |
| `ClientSession.NetworkManager.ApplyPage` | client/network_manager.cpp:612-627 | every message of the page is filed under its partner unless already there; the cursor never goes back |
| `ClientSession.NetworkManager.SyncMessages` | client/network_manager.cpp:583-632 | for a fixed inbox: over all its requests together the server hands over the messages above the cursor, each once, ascending; these are filed and the cursor ends at the last; with every request answered they are all of them after exactly Rounds requests; success means completeness exactly when no query failed with rows left |
| `ClientSession.InboxServer.Request` | server/src/service/msg_service.cpp:204-222 | one request: the page above the cursor, or an empty last page when the query fails; everything handed over is recorded in order |
| `ClientSession.Handle` | client/network_manager.cpp:222-249 | one locked section, whichever it is: what it brings is filed, its ACKs are merged, the cursor only rises |
| `ClientSession.Session` | client/network_manager.cpp:222-249 | any interleaving of pushes, send ACKs, pages, ACK pushes, logouts (in their two parts) and logins: each history is exactly what arrived for its partner since the last clear, the first message of each id, in order; delivery facts are those of the set of ACKs since then |
| `ClientSession.CursorNeverDecreases` | client/network_manager.cpp:624-627 | between clears the cursor never goes back |
| `ClientSession.RightPartnersIff` | client/network_manager.cpp:616-617 | all three insertion paths file a user's messages under the right partner, in any run since the last clear and whoever is logged in meanwhile, if and only if no page is applied under another user id with a message that user sent away, or one the other sent to that user |
| `ClientSession.OwnHistories` | client/network_manager.cpp:616-622 | then the history with p holds only messages between the user and p, and an id that names one message is in one history only |
| `ClientSession.StalePageMisfiles` | client/network_manager.cpp:395-413 | such a page after logout, and where its message ends up |
| `ClientSession.LatePageMisfiles` | client/network_manager.cpp:395-413 | such a page after the next login, and where its message ends up |
| `ClientSession.NextSessionStartsCleanIff` | client/network_manager.cpp:386-413 | the next user starts with empty histories if and only if nothing arrived between the clear and the login |
| `ClientSession.PushOutlivesLogout` | client/network_manager.cpp:386-393 | a push that arrives between clearing and closing is there when the next user logs in |
| `ClientSession.SyncCanStopShort` | client/network_manager.cpp:583-632 | a sync that reports success and fetched nothing of what was there |
| `ClientSession.RoundsIsCeiling` | client/network_manager.cpp:589-630 | Rounds(n) is 1 for an empty inbox, else n / 100 rounded up |
| `ClientStore.FileKeepsConsistent` | client/network_manager.cpp:618-622 | the id set stays exactly the ids of the history, which has no duplicate |
| `ClientStore.HistoryIsFirsts` | client/network_manager.cpp:618-622 | filing by id set gives exactly the reference history: the first arrival of each id, in order |
| `ClientStore.ArrivedIsFiledOnce` | client/network_manager.cpp:618-622 | every message that arrived is in its history exactly once |
| `ClientStore.EntryIsFirst` | client/network_manager.cpp:618-622 | every entry of a history is a message that arrived for it, the first with its id |
| `ClientStore.IdInOneHistory` | client/network_manager.cpp:616-622 | where partners are right and an id names one message, it is in one history only |
| `ClientSession.GetMessagesAfter` | server/src/dao/msg_scylla_dao.cpp:221-291 | the first page of the rows above the cursor, whether there are more, and the next cursor |
| `ClientSession.AfterSkips` | server/src/dao/msg_scylla_dao.cpp:221-291 | moving the cursor to the k-th remaining row leaves exactly the rows behind it |
| `Delivery.StoredIsRow` | server/src/dao/msg_scylla_dao.cpp:229-242 | a stored message is a row of both its users' inboxes |
| `Delivery.SyncFiles` | client/network_manager.cpp:583-632 | a fully answered sync leaves every stored message above the cursor in its history exactly once, with its own content |
| `Delivery.HistoriesAgree` | client/network_manager.cpp:222-236 | what any user has under the id of a message the server made is that message |
| `ServerRun.RunIsBoth` | server/src/service/msg_service.cpp:108-151 | server calls as the producers of the writer, persist callbacks as steps of the protocol, syncs limited to what the tables hold: every joint run is a run of SendProtocol and one of AsyncWriter, and the writer linked exactly what the calls wrote, in order |
| `ServerRun.ReportedIsStored` | server/src/dao/async_msg_writer.cpp:43-58 | in any joint run a message reported successful is in the history and both inboxes, with nothing assumed about clashes |
| `ServerRun.IdsDoNotClash` | server/src/service/msg_service.cpp:68-106 | no two messages the server hands to the writer clash |
| `Delivery.SyncDeliversPersisted` | server/src/service/msg_service.cpp:204-222 | end to end, over any joint run of clients, server calls, cache and writer: a message reported stored is, after a complete sync of either user from a cursor below its id, in that user's history with the other exactly once, and the entry is that message, whatever had brought it before |
| `PushService.Service.constructor` | server/src/service/push_service.cpp:9-12 | an empty queue over the given registry |
| `PushService.Service.EnqueueSerialized` | server/src/service/push_service.cpp:122-129 | accepted exactly for a nonzero user whom the lookup finds online and data that is not empty; then queued last |
| `PushService.Service.TakeBatch` | server/src/service/push_service.cpp:138-142 | the bulk dequeue takes from the front, while pushes are linked between its dequeues: up to the limit, or until nothing is left |
| `PushService.Service.FlushPending` | server/src/service/push_service.cpp:138-159 | however pushes are linked between its dequeues and the registry changes between its lookups, and in whatever order the groups are handed over, each connection gets its items of the batch in queue order |
| `PushService.GroupByConnection` | server/src/service/push_service.cpp:146-154 | each connection's group is its items in queue order, by the registry each lookup sees |
| `PushService.Service.HandOver` | server/src/service/push_service.cpp:156-158 | every connection gets exactly its group |
| `PushService.Service.Drain` | server/src/service/push_service.cpp:14-22 | the destructor gives every connection all it is due |
| `PushService.RunInv` | server/src/service/push_service.cpp:24-159 | any interleaving of lookups, links, logins, logouts, dequeues and hand-overs: accepted pushes are looked up in link order, each once; what a connection got, then what is grouped for it, is what was routed to it, in order |
| `PushService.NothingHeldBack` | server/src/service/push_service.cpp:138-159 | between flushes every connection has exactly what was routed to it, and everything taken has been routed |
| `PushService.StayingUserGetsAll` | server/src/service/push_service.cpp:138-159 | a user who stays on a connection gets every push looked up so far there; none is dropped |
| `PushService.ReachesIffOnline` | server/src/service/push_service.cpp:146-154 | an accepted push is routed if and only if its user is online at the moment it is looked up, and then to the connection the user is on |
| `PushService.LeaverMissesPush` | server/src/service/push_service.cpp:138-159 | a push accepted for a user who then leaves goes nowhere |
| `ConnPool.Init` | server/src/pool/sqlconnpool.cpp:52-63 | the semaphore starts at the number of connections that did open |
| `ConnPool.RunInv` | server/src/pool/sqlconnpool.cpp:76-96 | in every interleaving: queue length = semaphore + permitted but not popped + pushed but not posted; every connection is free or held once |
| `ConnPool.PopIsSafe` | server/src/pool/sqlconnpool.cpp:84-88 | a pop that is due finds a connection nobody holds; free + held = created |
| `ConnPool.BlockedOnlyWhenAllHeld` | server/src/pool/sqlconnpool.cpp:82-84 | no permit is lost: a thread is stuck at the semaphore only while every connection is held |

## Left out

- MpscQueue.QueueIsFifo: does not claim that freeing nodes is safe, because `delete head` can run while `tail_` still names the node; nodes live for ever here, and `empty()` is the consumer's.
- SendProtocol.OneMessagePerLifetime: is about fast-dedup mode; the synchronous mode looks up and upserts in two steps that are not atomic.
- SendProtocol.SendIsExactlyOnce: assumes no other send uses the same client message id (`IdGenerator.ClientMsgIdsEqualIff` says when ids collide) and counts a message still on its way to the writer; a logout, which empties the history, is `ClientSession.Session`'s matter.
- DedupCache.ReservedKeyAnswersTheSame: says nothing about the status of an entry, which UpdateStatus overwrites in any order; only the client's merge is monotone.
- ClientSession.NetworkManager.SyncMessages: is about an inbox that does not change during the sync; a smaller id persisted after the cursor passed it is not fetched.
- ClientSession.Session: the answers of server calls are events, so which ones come is the protocol's matter, not the session's.
- Delivery.SyncDeliversPersisted: assumes that no two sends share a client message id (`IdGenerator.ClientMsgIdsEqualIff` says when ids collide) and that message ids do not repeat within a run.
- AsyncWriter.RunInv: covers one start of the worker; starting it again after a stop, and callbacks that throw, are not modelled.
- TimerHeap.HeapTimer.Tick: callbacks remove timers, as the server's do, and do not add any.
- Connections.TcpConnection.constructor: does not model reuse of a connection object, where `init` leaves the queue of outgoing pushes as it was.
- Connections.TcpConnection.Write: does not model the HTTP branch.
- Connections.TcpConnection.Process: leaves the buffer of an HTTP connection alone, where the source runs the HTTP handler.
- ConnPool.RunInv: ends before the pool is closed, and callers return what they hold, once, as the RAII wrapper does.
- Wake-ups for queued pushes: the notification logic around one-shot epoll does not guarantee one for every push, so only order and conservation are proved.
- Alignment after an oversized frame: the decoder drops its header only, and no claim is made about what follows.
- HTTP parsing, the thread pool, the block queue, friend and login services, sockets, epoll, JWT and the user interface: foreign calls, or they would only add easy members.
- `DoWork` and `Clear` of the timer, `retrieve_until` and the string accessors of the buffer: variants of operations that are modelled.
