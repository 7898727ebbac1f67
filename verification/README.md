# Verified model of the chat server's engines

The chat system is a C++ server and a Flutter client. This project models the parts of it
that carry state from one event to the next, and proves what they are for:

- **WebSocket connection** (`Bytes`, `WebSocketFrames`, `WebSocketConnection`,
  `WebSocketDelivery`, `WebSocketCuts`, `WebSocketBytes`): the incremental frame decoder, the reassembly of fragments and the
  automatic replies. While sends succeed, the way TCP cuts the stream does not matter; everything a
  well-behaved peer sends is delivered once, in order, unaltered; encoder and decoder are inverse.
- **Thread pool** (`ThreadPool`, `ThreadPoolSafety`, `ThreadPoolProgress`, `ThreadPoolSteps`): locks, condition variables with spurious
  wakeups, thread growth and shutdown as a state machine of any number of workers and callers.
  No wakeup is lost, no task runs twice, shutdown drains, the counters add up, and the pool comes
  to rest with nobody waiting.
- **Database pool** (`DatabasePool`, `ConnectionPool`): idle queue, list of connections and
  counters, with the guards that hold connections. Conservation over every run, and what acquire
  and the idle cleanup do exactly.
- **Chat-completion client** (`Conversations`, `ChatClient`, `DeepSeekClient`): a cache of
  conversations that evicts the least recently used, and a window over each conversation's messages.
- **Session** (`WriteQueue`, `Base64`, `WireProtocol`): the write queue between sender threads and
  the I/O context, the base64 decoder of uploads, the nine-byte framing shared by both languages.
- **Group manager** (`GroupManager`): groups, owners, administrators and members.

The code that updates fields in place is modelled by classes whose methods have the same branches
and loops; each method's postcondition equates its result and new state with a function on values,
and the theorems are about those functions: what each operation does exactly, stated in bytes, bits and
plain numbers where that is what the source deals in, and what holds over runs. The thread pool and the write queue interleave
between threads, so each section under a lock, and each atomic access outside one, is a step of a
state machine. What sockets, MySQL, the clock and the remote service return are parameters.

Several stronger statements are false of the code. Each has a lemma that says exactly when it holds:

- a cut in a WebSocket stream can change the outcome of what follows: the failed pong closes the
  connection, but `handle_receive` goes on and reports success. That is so if and only if more pings
  have arrived than the link can still answer and the stream is accepted so far and can go on
  (`ChunkIndependenceExactly`); when it loses a message is said by `LostMessageExactly`, and
  `VisibleCut` shows a stream that does;
- a task whose submission races with `stop` can be accepted and never run (`RanExactly`,
  `RacingTaskIsLost`);
- two writes can be in flight (`OneWriteExactly`, `TwoWritesInFlight`), and completions are bound to
  keep the order only while no push starts a second chain of writes (`OneChainExactly`,
  `NotCalmCanOverlap`);
- if two conversations are equally old, another than the least recently used may be evicted
  (`EvictionExactly`, `TieEvictsAnother`);
- with an odd window the oldest exchange is cut in half once something is dropped
  (`WholeExchangesExactly`, `OddWindowCutsAnExchange`);
- a file of exactly 10 MB is refused (`FileUploads`);
- a message of 2^32 bytes or more does not come back (`RoundTripExactly`);
- owners can clear their own administrator flag (`OwnersStayAdminsExactly`, `OwnerWithoutFlag`).

## Model

| member | source | states |
|---|---|---|
| WebSocketFrames.DecodeEncode | server/src/websocket_server.cpp:105-170 | what the encoder wrote, masked or not and followed by anything, decodes to the same fin, opcode and payload and is consumed exactly; over 10 MB it is refused |
| WebSocketFrames.EncodeIsShortest | server/src/websocket_server.cpp:245-276 | no encoding the decoder accepts for a frame is shorter than the one the encoder picks |
| WebSocketFrames.DecodePrefixStable | server/src/websocket_server.cpp:105-170 | once the decoder has found a frame or refused one, more bytes do not change its answer |
| WebSocketFrames.WaitingIsBounded | server/src/websocket_server.cpp:108-153 | a buffer the decoder waits on is shorter than 14 + 10485760 bytes |
| WebSocketFrames.DecodeConsumes | server/src/websocket_server.cpp:87-100 | a frame consumes at least two bytes and no more than there are, so the receive loop ends |
| WebSocketFrames.MaskTwice | server/src/websocket_server.cpp:157-162 | masking twice with one key restores every payload |
| WebSocketFrames.ReadLength | server/src/websocket_server.cpp:126-132 | the loop over eight length bytes yields their big-endian value with no bit lost from 64 |
| WebSocketFrames.WriteLength | server/src/websocket_server.cpp:263-268 | the loop over eight shifts writes the big-endian form |
| WebSocketFrames.Unmask | server/src/websocket_server.cpp:157-162 | the unmasking loop is the mask operation on the whole payload |
| WebSocketBytes.FramePayload | server/src/websocket_server.cpp:155-165 | in octet i of a masked payload exactly those bits differ from the buffer that are set in octet i mod 4 of the key; an unmasked payload is the buffer's |
| WebSocketBytes.FrameFields | server/src/websocket_server.cpp:113-141 | fin is the top bit, the opcode the low four, and the length what the 7-bit, 16-bit or 64-bit form says byte by byte; the frame ends with the payload |
| WebSocketBytes.DecodeExactly | server/src/websocket_server.cpp:108-153 | exactly when the decoder waits, refuses for a length over 10485760, and finishes |
| WebSocketBytes.ServerBytes | server/src/websocket_server.cpp:245-276 | the server's frames byte by byte in the three length forms |
| WebSocketBytes.LongLength | server/src/websocket_server.cpp:263-268 | the eight bytes of a long length, highest first |
| WebSocketConnection.WsConnection.HandleReceive | server/src/websocket_server.cpp:79-103 | appends and handles frames until one is incomplete or refused: new state and result equal `AfterReceive` |
| WebSocketConnection.WsConnection.ParseFrame | server/src/websocket_server.cpp:105-170 | waits, refuses or handles exactly as `Decode` says, and reports how much was consumed |
| WebSocketConnection.WsConnection.HandleFrame | server/src/websocket_server.cpp:172-243 | pings are answered, close frames answered once and refused, fragments collected and delivered: equal to `AfterFrame` |
| WebSocketBytes.PingIsAnswered | server/src/websocket_server.cpp:178-181 | opcode 9 puts 0x8A, the length and the same payload on the socket and is accepted |
| WebSocketBytes.PongIsIgnored | server/src/websocket_server.cpp:183-185 | opcode 10 is accepted and changes nothing |
| WebSocketBytes.CloseIsAnswered | server/src/websocket_server.cpp:187-192 | opcode 8 puts 0x88, 16, 1000 in two bytes and the reason on the socket, closes, and is refused |
| WebSocketBytes.NormalClosureText | server/src/websocket_server.cpp:190 | the reason is the text Normal closure |
| WebSocketBytes.OthersAreRefused | server/src/websocket_server.cpp:187-196 | opcodes 11 to 15, and 8 once closed, are refused and change nothing |
| WebSocketBytes.AnswerFails | server/src/websocket_server.cpp:278-289 | if the answer cannot be sent the connection is closed, and a ping accepted all the same |
| WebSocketBytes.AnswerCounts | server/src/websocket_server.cpp:278-289 | on a link that is going to break an answer that is sent uses up one send |
| WebSocketBytes.DataFrames | server/src/websocket_server.cpp:200-242 | opcodes 0 to 7: accepted exactly if continuing what has begun or beginning where nothing has; what is collected, and delivered if there is a handler |
| WebSocketConnection.WsConnection.SendFrame | server/src/websocket_server.cpp:245-276 | puts exactly the unmasked encoding on the socket, or nothing when closed |
| WebSocketConnection.WsConnection.SendRaw | server/src/websocket_server.cpp:278-289 | a failed send closes the connection |
| WebSocketConnection.WsConnection.SendPong | server/src/websocket_server.cpp:48-52 | sends the payload back in a pong frame |
| WebSocketConnection.WsConnection.SendClose | server/src/websocket_server.cpp:54-66 | sends code and reason and closes, whether or not the send succeeded |
| WebSocketDelivery.ChunkIndependence | server/src/websocket_server.cpp:79-103 | from every state, unless the first receive reports success on a connection it has closed, receiving a then b has the outcome of receiving a + b: same events, fragments, closedness, and same buffer unless refused |
| WebSocketCuts.ChunkIndependenceExactly | server/src/websocket_server.cpp:79-103 | the cut changes the outcome for some bytes that follow if and only if the connection is open, what has arrived is accepted and so is some byte more, and it holds more pings than the link can still answer |
| WebSocketCuts.LostMessageExactly | server/src/websocket_server.cpp:79-103 | it changes what is delivered or sent for some bytes that follow if and only if moreover there is a handler and the frame that has begun can still be finished and accepted |
| WebSocketCuts.ReceiveClosesExactly | server/src/websocket_server.cpp:178-181 | a receive that reports success has closed an open connection if and only if a pong could not be sent |
| WebSocketCuts.AcceptedExactly | server/src/websocket_server.cpp:87-243 | which buffers are accepted: pings, pongs and fragments in turn, and no length over the limit |
| WebSocketCuts.VisibleCut | server/src/websocket_server.cpp:79-103 | a ping and a message on a broken link: in one piece the message is delivered, cut in two it is not |
| WebSocketDelivery.RefusalIsFinal | server/src/websocket_server.cpp:87-92 | after one refused receive every later one is refused, whatever arrives, and nothing more is delivered or sent |
| WebSocketDelivery.AnyChunking | server/src/websocket_server.cpp:494-521 | a read loop over any list of chunks has the outcome of receiving their concatenation |
| WebSocketDelivery.ResidualIsOneUnfinishedFrame | server/src/websocket_server.cpp:87-102 | after a successful receive the buffer is empty or one unfinished frame, below the bound |
| WebSocketDelivery.DrainEncoded | server/src/websocket_server.cpp:79-243 | receiving the encoding of any frames handles those frames one after the other |
| WebSocketDelivery.DrainIsFrames | server/src/websocket_server.cpp:79-243 | receiving any accepted bytes is handling the whole frames they begin with |
| WebSocketDelivery.FragmentBufferOverStream | server/src/websocket_server.cpp:200-240 | over any accepted byte stream, however cut, the fragment buffer holds exactly the payloads of the unfinished message and is empty if there is none |
| WebSocketDelivery.FragmentBufferIsUnfinishedMessage | server/src/websocket_server.cpp:200-240 | the same over any accepted list of frames |
| WebSocketDelivery.FragmentsDelivered | server/src/websocket_server.cpp:200-240 | the fragments of a message, with pings and pongs between them, are answered and delivered as one concatenation |
| WebSocketDelivery.EndToEnd | server/src/websocket_server.cpp:79-243 | any messages in any fragments with control frames interleaved, each frame masked with any key or not, cut anywhere, leave exactly the expected deliveries and pongs in the log and nothing in the buffer |
| WebSocketDelivery.ExpectedDeliversEachOnce | server/src/websocket_server.cpp:200-240 | the expected deliveries are each message once, in order, as the concatenation of its fragments |
| WebSocketDelivery.NothingAfterClose | server/src/websocket_server.cpp:187-192 | after a close frame the server's own close frame is the last event, whatever follows in the stream |
| ThreadPoolSafety.StepKept | server/src/thread_pool_v2.cpp:27-262 | every step of every thread keeps the whole invariant |
| ThreadPoolSafety.RunKept | server/src/thread_pool_v2.cpp:27-262 | so does every run |
| ThreadPoolSteps.CallExactly | server/src/thread_pool_v2.cpp:27-35 | a call goes on exactly if it saw the pool running |
| ThreadPoolSteps.SubmitExactly | server/src/thread_pool_v2.cpp:37-108 | with room the task is queued and counted, a thread added if all are active and there may be more, unless only trying, and one sleeper woken; in a full queue a try or a discard is rejected and counted, a stopping pool turns away, and otherwise the caller waits |
| ThreadPoolSteps.RecheckExactly | server/src/thread_pool_v2.cpp:45-49 | a caller that has waited is turned away, accepted or waits again |
| ThreadPoolSteps.TakeExactly | server/src/thread_pool_v2.cpp:207-223 | a worker takes a task no queued task outranks; from an empty queue it goes to sleep, or exits when stopping |
| ThreadPoolSteps.SomeTaskIsTaken | server/src/thread_pool_v2.cpp:216-224 | whenever something is queued there is such a task |
| ThreadPoolSteps.EveryCallIsAccountedFor | server/src/thread_pool_v2.cpp:27-108 | over every run the calls that saw the pool running are those accepted, rejected, turned away by a stop, and under way |
| ThreadPoolSteps.EveryCallIsDecided | server/src/thread_pool_v2.cpp:27-108 | where every run ends none is under way, and without a stop each was accepted or rejected |
| ThreadPoolSafety.NoLostWorkerWakeup | server/src/thread_pool_v2.cpp:200-224 | while a worker sleeps the queued tasks do not outnumber the workers woken and still to look |
| ThreadPoolSafety.QueuedTaskHasAwakeWorker | server/src/thread_pool_v2.cpp:73-107 | a queued task never coexists with workers that are all asleep or gone, unless none is left |
| ThreadPoolSafety.NoLostProducerWakeup | server/src/thread_pool_v2.cpp:40-49 | beside a free slot, a sleeping producer has a notification coming from a busy worker, even while the pool is stopping |
| ThreadPoolSafety.SleepingProducerIsNotForgotten | server/src/thread_pool_v2.cpp:40-49 | beside any sleeping producer a worker is awake |
| ThreadPoolSafety.Accounting | server/src/thread_pool_v2.cpp:131-160 | total is queued + running + between the counters + completed; queue and threads stay within their limits |
| ThreadPoolSafety.NeverRunTwice | server/src/thread_pool_v2.cpp:216-233 | no task runs twice or without having been accepted |
| ThreadPoolSafety.RanExactly | server/src/thread_pool_v2.cpp:200-214 | when no worker is left, an accepted task has run exactly once if some worker was left when it was accepted or one has been started since, and otherwise has not run |
| ThreadPoolSafety.ShutdownDrains | server/src/thread_pool_v2.cpp:162-177 | when stop has joined the workers, or no worker is left for any reason, every task accepted before the stop has run exactly once |
| ThreadPoolSafety.RacingTaskIsLost | server/src/thread_pool_v2.cpp:27-37 | a run in which a task is accepted after the last worker has exited, before the join; it does not run in any continuation |
| ThreadPoolSafety.QuietForever | server/src/thread_pool_v2.cpp:27-30 | once stopping, without workers and without callers past the test of the flag, the queue and what has run never change again |
| ThreadPoolProgress.StepWorks | server/src/thread_pool_v2.cpp:27-262 | every action of a thread under way uses up some of a bounded amount of work, notifications and thread growth included |
| ThreadPoolProgress.EveryRunEnds | server/src/thread_pool_v2.cpp:27-262 | without new calls and unprompted wakeups no run is longer than that |
| ThreadPoolProgress.PoolAtRest | server/src/thread_pool_v2.cpp:40-49 | where every run ends no caller waits, each accepted task has run exactly once unless stranded without workers, and the queue is empty while workers are left or the pool is not stopping |
| DatabasePool.PoolConserves | server/src/database_pool.cpp:200-239 | over every run of guards and health checks: the bound holds, acquires - releases = all - idle = marked in use = held by guards, and no held connection is idle |
| DatabasePool.StepKeeps | server/src/database_pool.cpp:492-525 | constructing, moving, assigning and dropping guards keeps guards and marks in one-to-one correspondence |
| DatabasePool.GuardsExactly | server/src/database_pool.cpp:492-499 | a new guard holds what acquire handed out, an ended one has given it back |
| DatabasePool.MovesExactly | server/src/database_pool.cpp:501-514 | the moved-to guard holds what the other held and that one nothing; what it held before is given back; no other guard changes |
| DatabasePool.SelfMove | server/src/database_pool.cpp:508 | assigning a guard to itself changes nothing |
| DatabasePool.OpenExactly | server/src/database_pool.cpp:213-223 | the connections that could be opened are in the queue and in the list, in order, and the failures counted |
| DatabasePool.AcquireKeeps | server/src/database_pool.cpp:250-291 | a pass of acquire keeps the invariant and hands out a connection nobody has |
| DatabasePool.AcquireExactly | server/src/database_pool.cpp:261-291 | the whole new pool: the first idle connection that works is handed out and the stale ones before it are gone; only without one, and with room, a new one is, and a failure is counted |
| DatabasePool.TakeIdleExact | server/src/database_pool.cpp:263-280 | the stale connections in front of it, and no others, leave the pool |
| DatabasePool.TryAcquireKeeps | server/src/database_pool.cpp:308-332 | one look at the queue, the invariant kept |
| DatabasePool.TryAcquireExactly | server/src/database_pool.cpp:311-331 | the first idle connection is handed out if it works and leaves the pool if not; no other is looked at |
| DatabasePool.ReleaseKeeps | server/src/database_pool.cpp:334-359 | giving back a held connection keeps the invariant, whether it still works or not |
| DatabasePool.ReleaseExactly | server/src/database_pool.cpp:343-358 | a returned connection is idle again, last, exactly if it still works, and in the pool exactly if it does; the others keep their order and one release is counted |
| DatabasePool.ReturnedServedLast | server/src/database_pool.cpp:347-349 | a returned connection waits behind all that were idle |
| DatabasePool.CleanupExact | server/src/database_pool.cpp:423-467 | drops exactly min(expired idle, surplus over the minimum), the earliest in queue order, keeps the order of the rest, never touches a held one, then refills |
| DatabasePool.CleanupKeeps | server/src/database_pool.cpp:423-467 | and keeps the invariant |
| DatabasePool.RefillAdds | server/src/database_pool.cpp:457-466 | a refill adds what the minimum lacks, or what could be opened and one error |
| DatabasePool.SweepDrops | server/src/database_pool.cpp:431-455 | the sweep removes exactly those connections and keeps everything else in order |
| ConnectionPool.ConnectionPool.Init | server/src/database_pool.cpp:200-239 | opens the minimum, counting failures; succeeds unless none could be opened |
| ConnectionPool.ConnectionPool.AcquirePass | server/src/database_pool.cpp:250-291 | the loop in place is `Acquire`, and what is handed out is touched; nothing once stopped |
| ConnectionPool.ConnectionPool.GiveUpWaiting | server/src/database_pool.cpp:294-300 | a timeout is counted and changes nothing else |
| ConnectionPool.ConnectionPool.TryAcquireNow | server/src/database_pool.cpp:308-332 | in place, `TryAcquire` |
| ConnectionPool.ConnectionPool.Return | server/src/database_pool.cpp:334-359 | in place, `Release`, and the connection is touched; nothing for no connection or once stopped |
| ConnectionPool.ConnectionPool.CleanupIdle | server/src/database_pool.cpp:423-467 | in place, the sweep over the queue and the refill, with idle times in truncated seconds |
| ConnectionPool.ExpiredExactly | server/src/database_pool.cpp:437-442 | expired is exactly what has been idle for a second more than the limit |
| Clock.MoreThanSeconds | server/src/database_pool.cpp:437-438 | when a duration cast to seconds exceeds a number of them, also below zero |
| ConnectionPool.ConnectionPool.UsedSize | server/src/database_pool.cpp:371-393 | the count of marked connections is the difference that get_stats reports |
| ConnectionPool.ConnectionPool.Shutdown | server/src/database_pool.cpp:395-421 | empties the pool once and for all |
| Conversations.LruRefinement | server/src/deepseek_client.cpp:56-85 | on a clock that never goes back, after any accesses in which nothing is evicted while another entry is as old, the cached ids are exactly the most recently used different ids of the log |
| Conversations.TickingIsUntied | server/src/deepseek_client.cpp:84-85 | that is so whenever the clock moves between accesses |
| Conversations.RecentIsByLastUse | server/src/deepseek_client.cpp:56-85 | that list holds every id of the log once, by last use |
| Conversations.AccessInOrder | server/src/deepseek_client.cpp:56-85 | one access, hit or miss, full or not, keeps the cache equal to the newest part of the log unless two entries tie for the oldest |
| Conversations.HitChangesNothingElse | server/src/deepseek_client.cpp:83-84 | a hit changes the time of its own entry only |
| ChatClient.ConversationIsSlidingWindow | server/src/deepseek_client.cpp:226-275 | over any run of calls, a conversation live since some call holds the prompt and then exactly the latest max/2 of the exchanges that succeeded in it since |
| ChatClient.RunShowsWindows | server/src/deepseek_client.cpp:226-275 | over any run, every conversation shows the window over everything said in it since it was opened, for any window size and prompt |
| ChatClient.HistoryIsSuccesses | server/src/deepseek_client.cpp:253-271 | what counts as said is every successful exchange since then, and nothing of the failed ones |
| ChatClient.TrimIsWindow | server/src/deepseek_client.cpp:262-265 | erasing the second message again and again leaves the first and the last max |
| ChatClient.WindowOfWindow | server/src/deepseek_client.cpp:262-265 | trimming after every exchange shows what trimming once at the end would |
| ChatClient.SlidingWindow | server/src/deepseek_client.cpp:262-265 | with a prompt and an even window that is the prompt and whole exchanges |
| ChatClient.WholeExchangesExactly | server/src/deepseek_client.cpp:262-265 | the prompt is followed by exactly the latest exchanges, whole, if and only if the window is even or nothing has been dropped |
| ChatClient.ConversationIsWholeExactly | server/src/deepseek_client.cpp:226-275 | the same for a live conversation after any run of calls |
| ChatClient.OddWindowCutsAnExchange | server/src/deepseek_client.cpp:262-265 | otherwise the oldest message kept is an answer without its question |
| ChatClient.NoPromptKeepsFirstMessage | server/src/deepseek_client.cpp:263-264 | without a prompt the user's very first message is kept in its place |
| ChatClient.FailedCallLeavesMessages | server/src/deepseek_client.cpp:246-272 | a failed call leaves the messages as they were |
| ChatClient.ChatsKeepMostRecent | server/src/deepseek_client.cpp:226-275 | whatever is answered, a run of chats without such ties keeps exactly the conversations most recently chatted in |
| DeepSeekClient.DeepSeekClient.FindOldest | server/src/deepseek_client.cpp:63-69 | the loop finds an entry no other is older than |
| DeepSeekClient.DeepSeekClient.GetConversation | server/src/deepseek_client.cpp:56-85 | a hit refreshes; a miss opens with the prompt, and from a full cache one of the oldest is gone, equal times included |
| DeepSeekClient.AccessedIsAccess | server/src/deepseek_client.cpp:56-85 | when one entry is the oldest that determines the new cache, which is `Access` |
| DeepSeekClient.EvictionExactly | server/src/deepseek_client.cpp:60-73 | a miss in a full cache keeps the most recently used, whichever entry the loop meets first, if and only if only one is the oldest |
| DeepSeekClient.TieEvictsAnother | server/src/deepseek_client.cpp:60-73 | on every tie there is an outcome that evicts another than the least recently used |
| DeepSeekClient.DeepSeekClient.ChatSync | server/src/deepseek_client.cpp:226-275 | without a key nothing happens; otherwise the service sees the kept messages and the user's, and the cache becomes `Answered` |
| DeepSeekClient.DeepSeekClient.TrimContext | server/src/deepseek_client.cpp:262-265 | the loop in place is `Trim` |
| DeepSeekClient.DeepSeekClient.CleanupExpiredConversations | server/src/deepseek_client.cpp:97-112 | keeps exactly the entries whose age in truncated seconds is within the limit |
| ChatClient.CleanupExactly | server/src/deepseek_client.cpp:97-112 | in nanoseconds: kept, unchanged, are exactly the entries not a whole second over age |
| ChatClient.ClearExactly | server/src/deepseek_client.cpp:87-95 | clearing takes away one entry, or all, and touches no other |
| DeepSeekClient.DeepSeekClient.ClearConversation | server/src/deepseek_client.cpp:87-90 | drops that entry only |
| DeepSeekClient.DeepSeekClient.ClearAllConversations | server/src/deepseek_client.cpp:92-95 | empties the cache |
| DeepSeekClient.ChatSyncIsCall | server/src/deepseek_client.cpp:226-275 | the in-place call is a step of the runs above |
| DeepSeekClient.CallKeepsDistinct | server/src/deepseek_client.cpp:84-85 | a clock that moves between calls keeps all times different, so that there is no tie |
| WriteQueue.QueueKeepsOrder | server/src/session.cpp:38-53 | under any interleaving what was popped followed by the queue is what was pushed, and each popped message is in flight or finished exactly once |
| WriteQueue.QueueIsNeverForgotten | server/src/session.cpp:140-163 | while no write has failed a non-empty queue has a sender about to post, a posted do_write or a write in flight |
| WriteQueue.CompleteExactly | server/src/session.cpp:153-162 | a failed write closes and leaves the queue alone, a successful one goes on with its front |
| WriteQueue.SendExactly | server/src/session.cpp:38-53 | a push goes last, only one that found the queue empty owes a post, and a posted call takes the front |
| WriteQueue.EverythingIsWritten | server/src/session.cpp:140-163 | once pushing stops every run ends, and unless a write failed every message has then been handed to a write that completed, exactly once |
| WriteQueue.OneWriteExactly | server/src/session.cpp:140-163 | at most one write is in flight through a run if and only if no posted do_write finds both something queued and a write in flight |
| WriteQueue.OneChainExactly | server/src/session.cpp:38-53 | at most one do_write is owed, posted or under way through a run if and only if every push that met an empty queue met none |
| WriteQueue.NotCalmCanOverlap | server/src/session.cpp:38-53 | any other push can be followed by two writes in flight |
| WriteQueue.CalmRunsKeepOrder | server/src/session.cpp:140-163 | in such runs writes complete in the order of the pushes |
| WriteQueue.TwoWritesInFlight | server/src/session.cpp:38-53 | a run with two writes in flight, the later finishing first |
| WriteQueue.Session.Enqueue | server/src/session.cpp:38-46 | the locked section of send: the message goes to the back, and a post is owed if the queue was empty |
| WriteQueue.Session.Write | server/src/session.cpp:140-151 | the front of the queue leaves it and is in flight |
| WriteQueue.Session.OnWritten | server/src/session.cpp:153-162 | a failure closes, a success goes on with the queue |
| Base64.DecodeIsTheNumber | server/src/session.cpp:1154-1189 | for every input the output is the leading run of n symbols, read as a number in base 64 without its 6n mod 8 last bits, written in 6n / 8 octets, although the accumulator wraps at 32 bits |
| Base64.DecodeEncode | server/src/session.cpp:1154-1189 | decoding the encoding of section 4 of RFC 4648 of any octets returns them |
| Base64.Base64Decode | server/src/session.cpp:1176-1188 | the loop, stopping at the first character outside the alphabet, is `Decode` |
| Base64.SymbolRoundTrip | server/src/session.cpp:1156-1173 | the table is the inverse of the standard's alphabet |
| Base64.SymbolsOfTheStandard | server/src/session.cpp:1156-1173 | the symbols are those of table 1 of RFC 4648, in its order, and the padding its equals sign |
| Base64.SextetExactly | server/src/session.cpp:1156-1181 | a character has a value exactly if it is in the alphabet, that of its place |
| Base64.EncodingEnds | server/src/session.cpp:1154-1189 | the encoding the decoder is held against ends in the right number of equals signs, after zero bits |
| Base64.HandleMediaUpload | server/src/session.cpp:1191-1219 | the checks in their order, with their codes |
| Base64.AcceptedExactly | server/src/session.cpp:1191-1219 | an upload is accepted exactly when it is authenticated, named, at most 13981013 characters and begins with two symbols; it then has fewer than 10485760 octets |
| Base64.RefusedExactly | server/src/session.cpp:1191-1219 | which refusal, with which code, by the first check that fails |
| Base64.FileUploads | server/src/session.cpp:1206-1214 | an encoded file is accepted unaltered if and only if it is smaller than 10 MB |
| WireProtocol.EndToEnd | server/src/session.cpp:72-98 | any messages either peer can write, cut anywhere, are received once each, in order, unaltered, with nothing left |
| WireProtocol.ServerSerialize | server/include/protocol.hpp:341-354 | the packed structure and the body, copied in place, are `Wire` |
| WireProtocol.ClientSerialize | client/chat_app/lib/models/protocol.dart:150-165 | the fields set one by one give the same bytes, for a sequence number of any size |
| WireProtocol.WireLayout | server/include/protocol.hpp:165-171 | byte by byte: four of length, one of type, four of sequence number, lowest first, and the body |
| WireProtocol.HeaderLayout | server/include/protocol.hpp:357-363 | a header is parsed exactly from nine bytes or more, and says what they say |
| WireProtocol.FirstExactly | client/chat_app/lib/services/network_service.dart:210-230 | a message is read exactly when the header and all it announces are there |
| WireProtocol.KnownKinds | client/chat_app/lib/models/protocol.dart:5-117 | which numbers are types the client knows |
| WireProtocol.RoundTripExactly | server/include/protocol.hpp:341-363 | a message comes back if and only if its length and sequence number fit 32 bits |
| WireProtocol.UniquelyDecodable | server/include/protocol.hpp:341-363 | different lists of messages give different bytes |
| WireProtocol.ReadWires | client/chat_app/lib/models/protocol.dart:168-177 | reading what was written returns the messages and goes on with what follows |
| WireProtocol.ReceiveIsReadAll | client/chat_app/lib/services/network_service.dart:192-242 | however the stream is cut, what is received is what the whole holds |
| WireProtocol.RestIsUnfinished | client/chat_app/lib/services/network_service.dart:210-224 | what is left over is part of a single message |
| WireProtocol.NetworkService.OnData | client/chat_app/lib/services/network_service.dart:194-242 | the client's buffer loop raises one event per whole message and keeps the rest |
| WireProtocol.SessionReader.OnData | server/src/session.cpp:72-138 | the server's alternation of header and body reads handles the same messages and keeps the same rest |
| WireProtocol.SessionReader.ReadHeader | server/src/session.cpp:72-92 | takes nine bytes if they are there |
| WireProtocol.SessionReader.ReadBody | server/src/session.cpp:95-112 | takes the announced bytes if they are there, and hands over the message |
| WireProtocol.FromValue | client/chat_app/lib/models/protocol.dart:122-127 | the first type with the value, error if there is none |
| WireProtocol.EventExactly | client/chat_app/lib/services/network_service.dart:235-240 | the client is told type, sequence number and body as they came, 255 for a type it does not know, and nothing of a heartbeat response, 101, which it notes |
| GroupManager.OwnersAreMembers | server/src/group_manager.cpp:10-185 | after any operations every owner is a member of the group and every member row is of an existing group and user |
| GroupManager.RemoveExactly | server/src/group_manager.cpp:85-111 | removing succeeds if and only if the operator strictly outranks the target, and removes only the target |
| GroupManager.OwnerChangesByTransfer | server/src/group_manager.cpp:159-185 | an owner changes exactly by the owner's own transfer to another member, who gets the administrator's flag while the old owner loses it |
| GroupManager.OwnershipIsAChain | server/src/group_manager.cpp:159-185 | over any run ownership passes along a chain of such transfers |
| GroupManager.GoneForGood | server/src/database.cpp:186-195 | with numbers handed out in increasing order, a dismissed group's number is never used again and has no members |
| GroupManager.MembershipExactly | server/src/group_manager.cpp:48-111 | exactly which acts of whom let somebody in or out |
| GroupManager.RankRisesOnlyByOwner | server/src/group_manager.cpp:137-185 | somebody's rank rises if and only if they create the group, the owner appoints them while they have none, or the owner hands over to them |
| GroupManager.SetAdminExactly | server/src/group_manager.cpp:137-157 | the member's flag becomes what the owner asks for, and no other changes (server/src/database.cpp:1169-1177) |
| GroupManager.AdminsExactly | server/src/group_manager.cpp:10-185 | after any operation the administrators are those it appoints, and those who were, are still in and are not demoted |
| GroupManager.SucceedsExactly | server/src/group_manager.cpp:10-185 | exactly when each operation succeeds; a refused one changes nothing |
| GroupManager.RefusalReasons | server/src/group_manager.cpp:10-185 | a refused caller is told the first check that failed |
| GroupManager.OwnerFlagExactly | server/src/group_manager.cpp:137-157 | an operation leaves every owner an administrator if and only if it is not an owner clearing the flag on themselves |
| GroupManager.OwnersStayAdminsExactly | server/src/group_manager.cpp:137-157 | the same over runs: owners are administrators throughout if and only if none ever clears the flag on themselves |
| GroupManager.OwnerWithoutFlag | server/src/group_manager.cpp:137-157 | a run that clears it; the owner still outranks everyone |
| GroupManager.GroupManager.CreateGroup | server/src/group_manager.cpp:10-24 | guarded insert of the group and its owner's row (server/src/database.cpp:938-963) |
| GroupManager.GroupManager.DismissGroup | server/src/group_manager.cpp:34-46 | owner only; the member rows go with the group |
| GroupManager.GroupManager.JoinGroup | server/src/group_manager.cpp:48-68 | an existing group, not yet a member |
| GroupManager.GroupManager.LeaveGroup | server/src/group_manager.cpp:70-83 | not for the owner; succeeds for strangers and changes nothing then |
| GroupManager.GroupManager.RemoveMember | server/src/group_manager.cpp:85-111 | the three checks in order, then the row is deleted |
| GroupManager.GroupManager.SetGroupAdmin | server/src/group_manager.cpp:137-157 | owner only, members only |
| GroupManager.GroupManager.TransferOwner | server/src/group_manager.cpp:159-185 | owner, flag of the old and flag of the new one (server/src/database.cpp:1179-1203) |

## Left out

- Sockets, TLS, the HTTP handshake, accept and heartbeat loops, MySQL, curl, JSON and file storage; bodies are byte strings, and failures of the outside are parameters.
- WebSocket message handler: it is an append to a log; a handler that closes the connection or sends on it is not modelled.
- WebSocket sends: a send either succeeds whole or fails and closes (`Link`); the theorems about delivery assume sends succeed.
- WebSocket strictness the code does not have (reserved bits, mandatory masking of client frames, 125-byte control frames, reserved data opcodes) is not claimed.
- Bit masks and shifts on bytes are written as division, remainder and addition.
- Thread pool: modelled on values, because its steps interleave; an empty task, `CALLER_RUNS` (it calls a moved-from function), `DISCARD_OLDEST`, `enqueue_and_wait`, `wait_all`, `clear_queue` and the timing statistics are not part of it.
- Thread pool: `stop` joins and clears the list of threads in one step each, after all have exited; a thread that a late `enqueue` adds to an empty list between the two would end the program. What `stop` does after clearing is not modelled. Ties between equal priorities are resolved in any way.
- ThreadPoolProgress.PoolAtRest: claimed for a minimum of at least one thread and room for at least one task; a pool configured without threads can keep tasks and callers waiting.
- Database pool: a connection is a handle, its in-use mark and last-use time are kept in the pool, and each connection that is opened is a new handle; whether it is valid and whether connecting succeeds are parameters.
- Database pool: a waiting `acquire` is a sequence of separate passes and a timeout; who is notified is not modelled (`release` of a dead connection notifies nobody), nor are guards moved between pools or releases after shutdown.
- DatabasePool.PoolConserves: the bound on connections is claimed for min <= max, since `init` opens the minimum without looking at the maximum.
- Conversation cache: sequential, with settings that do not change while conversations are live; a negative window, and a maximum of zero conversations (undefined in the source), are excluded.
- Conversations.LruRefinement: excludes runs in which an entry is evicted while another is equally old, because there it is false (`EvictionExactly`).
- WriteQueue.EverythingIsWritten: says nothing of the bytes that reach the peer, because the buffer handed to the socket refers to a local vector whose lifetime is not modelled.
- Write queue: several threads serve the I/O context, so popping a message and handing it to the socket are separate actions; `inFlight` lists messages in the order of popping, and only a failed write closes the session.
- Wire framing: the server's host is little-endian, as its copy of the structure assumes; heartbeats and what the client's callbacks do with an event are not modelled.
- GroupManager.GoneForGood: rests on AUTO_INCREMENT, modelled as a counter, never handing out a number twice.
- Groups: every SQL statement succeeds unless the users table lacks the user, and each operation is atomic, although the code checks and changes in separate statements; deleting users, group names, descriptions and timestamps are not modelled.
- Recall, favourites, friend requests, push tokens, login handlers, message history and the user interface.
