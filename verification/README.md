# SBN Client: a verified model

The SBN Client connects a program to a Software Bus Network over one TCP stream. A receiving thread
parses frames out of the stream and puts application messages into the pipes that subscribed to
them; the program creates pipes, subscribes, takes messages out and sends messages. This project
models that path in Dafny and proves what a user of the client relies on.

Two layers:

- **Values.** `Ring` (one pipe descriptor), `Table` (the pipe table and its operations), `Runs` (the
  client as a state machine over atomic steps, with a log per pipe), `Stream` (what `read` delivers
  and exact reads), `Framing` (frames, parser and printer), `Reception` (the receive loop),
  `Deadline`. The laws are in `RunLaws` (delivery, routing, allocation, overflow), `HeldMessage` (how
  long the returned address stays good), `WaitSafety` (the unguarded wait) and `EndToEnd` (bytes in, messages out).
- **Objects.** `PipeObjects`, `SocketObjects` and `ClientObjects` hold the same state in classes with arrays and
  update it in place with the source's loops. Each method's contract equates its result and the
  whole new state with the value-level function.

Main results:

- **Delivery.** In every run from `InitPipeTbl`, over any initial memory, in which each zero-status
  wait on a pipe since its last deletion resumes with an unread message there, the messages taken from
  that pipe followed by those unread in it are the messages accepted for it: none lost, duplicated or
  reordered (`FifoDelivery`). The invariant behind it holds after *every* prefix of a run *if and only if* that
  hypothesis holds, pipe by pipe (`PipeInvariant`): bad wake-ups of other pipes do no harm. For all
  pipes together this is `RunInvariant`.
- **What no run upsets.** Use, ids, subscriptions and the allocation balance stay in order in every run,
  bad wake-ups included (`RunKeepsRegistry`); so do the subscription history and the allocator.
- **The held message.** In any state, whatever happened before, the slot a live pipe's caller holds
  survives every continuation without a take from that pipe or its deletion *if and only if* the pipe's
  ring is valid (`HeldIffRingValid`); for a slot just returned, if and only if the receive found an
  unread message (`ReturnedIffUnread`). After a wake-up that found nothing, the next message for the
  pipe is written over the slot the caller was just given with success (`WakeOverwritten`), because the
  entry point equals the held slot exactly when the count is a multiple of the depth (`EntryIsHeld`).
- **The wait.** `RcvMsg` waits once and does not check again, and all pipes share one condition
  variable. For any number of pipes and one receiver, every wake-up finds a message *if and only if*
  each was preceded, during its wait and after the last deletion of its pipe, by an arrival that pipe
  accepted (`GoodIffEveryWakeFed`). With never more than one live pipe, no spurious wake-ups and no
  deletion during a wait that always holds (`EveryWakeFindsAMessage`, `SinglePipeDelivery`). It fails
  with two pipes (`TwoPipesBreakTheWait`) and with a deletion (`DeletionRun`): the receive then
  reports success and hands out a slot no message was accepted for (`WakeWithoutMessage`). Two such
  takes wrap the 32-bit count (`TakeTwiceWraps`).
- **Stream meaning.** Every status, payload and leftover of the receive loop is the same for any two
  chunkings of one stream (`ReceiveChunking`). A stream of well-formed frames that then ends delivers
  exactly the application payloads, and the table is the pure fold of them (`StreamMeaning`,
  `StreamToTable`). Cut off anywhere inside a frame, it delivers the frames before and no part of the
  cut one (`StreamCut`). `ParseMeaning` covers unknown types and oversized frames too;
  `RecvKnownType` and `RecvUnknownType` say by the type byte what is dropped, delivered or an error.
- **Termination and stop rule.** The loop ends for every finite script of chunks, failures and closes,
  right after the first call that completes five failures in a row; both run flags keep their values
  until that call and are cleared together by it (`StopRule`, `ReceiveMinder`).
- **Round trip.** A sent packet is received byte for byte exactly when its length field is at most
  65528 (`SendReceiveRoundTrip`); beyond that the 16-bit total length wraps and at most six bytes are
  sent. What is written is fixed byte by byte from the bytes of the message (`SendByBytes`), and so are
  the subscription and heartbeat messages (`SubscriptionBytes`, `HeartbeatIsFrame`).
- **End to end.** The bytes `SendMsg` writes for a list of packets, cut up in any way, put exactly the
  first 31 messages routed to an empty live pipe into it, and polls return them in order
  (`BytesInMessagesOut`). Over any run that neither creates nor deletes it a pipe accepts *all* messages
  routed to it exactly when it has room whenever one is (`LosslessIffRoom`), and then hands out or holds
  all of them in order (`SentIsDelivered`).

Conventions:

- Sizes are the repository's (5 pipes, depth 32, 4 ids per pipe). The message limit is a platform
  constant of cFE, which is not part of this model: 0x8000, which the unit tests call full size.
  Proofs use the sizes only as bounds. SBN's message types other than the heartbeat are any distinct
  values.
- `uint32` counters and the `uint16` total length wrap as in C.
- A slot is always full width. `memcpy` writes only the front of it, so "the slot carries the message"
  means the message is a prefix of the slot.
- `read` is a script of chunks and failures. An empty chunk, and everything after the end, is a close.
- An arrival carries the whole receive buffer, since a message shorter than two bytes takes its id from
  what the buffer held before.
- Each operation is one atomic step, a waiting receive two. `CreatePipe`, `DeletePipe` and `Subscribe`
  take no lock in the source; data races with them are outside the model.
- Message id 0 marks an empty subscription position, so a message with id 0 matches every live pipe
  that has one left, and subscribing to id 0 succeeds without effect. Both are modelled.
- A pipe that is full drops what is routed to it, even when a later subscriber has room
  (`RoutingByHistory`).

## Model

| member | source | states |
|---|---|---|
| Defs.HighByteFirst | unit-test/sbn_client_tests.c:205-207 | words travel high byte first: 0x80 0x00 is 0x8000 |
| Ring.InvalidatedPipe | fsw/src/sbn_client_utils.c:118-138 | every field an invalidated pipe is left with, and that its stored bytes are kept |
| Ring.CountersOfAnyRing | fsw/src/sbn_client_wrappers.c:329-335 | a take moves one slot on and counts one less in any ring, valid or not; the wrap of the uint32 sum never shows in the entry point |
| Ring.TakeKeepsRing | fsw/src/sbn_client_wrappers.c:325-337 | a take keeps the ring invariant exactly when an unread message exists, and leaves the entry point where it was |
| Ring.TakeTwiceWraps | fsw/src/sbn_client_wrappers.c:335 | two takes that find nothing unread wrap the 32-bit count |
| Ring.EntryIsHeld | fsw/src/sbn_client_utils.c:63-67 | the entry point is the held slot exactly when the count is a multiple of the depth |
| Ring.PutAppends | fsw/src/sbn_client_ingest.c:76-77 | an enqueue with room appends to the unread queue and spares the held slot |
| Ring.TakeRemovesFirst | fsw/src/sbn_client_wrappers.c:329-335 | a take removes the first unread slot, which becomes the held one |
| Table.LookupAgreement | fsw/src/sbn_client_utils.c:149-175 | quick check and scan agree when live ids are pairwise distinct |
| Table.LookupIsIdentity | fsw/src/sbn_client_wrappers.c:127-155 | under the invariant the index of a live id is the id itself, so Subscribe's two indices name one pipe |
| Table.DeleteHitsOwnIndex | fsw/src/sbn_client_wrappers.c:85-112 | deletion succeeds exactly on the live pipe of that index, invalidates it alone; which failure is which |
| Table.CreateUsesAvailable | fsw/src/sbn_client_wrappers.c:56-78 | creation hands out what GetAvailPipeIdx would and is refused exactly when all pipes are in use |
| Table.CreateRefused | fsw/src/sbn_client_wrappers.c:42-52 | exactly when arguments are bad; a refused create changes nothing and leaves the invalid id |
| Table.CreatedPipeIsFresh | fsw/src/sbn_client_wrappers.c:59-70 | a created pipe has no subscriptions, and an empty ring exactly if its entry was left invalidated, although creation resets neither |
| Table.ReceiveOutcomes | fsw/src/sbn_client_wrappers.c:260-357 | for all lock, wait and unlock results: one message taken or the table unchanged; address returned exactly on success; from the wait on, time-out exactly for an expired wait, read error exactly for a failed wait or unlock |
| Table.EnterOutcomes | fsw/src/sbn_client_wrappers.c:238-306 | exactly when a receive is refused, takes, waits, finds no message, or fails on its lock or unlock |
| Table.ArriveFrame | fsw/src/sbn_client_ingest.c:52-104 | an arrival changes at most one pipe, slot and count, and signals exactly when it does |
| Runs.InitInv | fsw/src/sbn_client.c:26-35 | InitPipeTbl establishes the invariant over any memory and keeps the stored bytes |
| Runs.SubscribeIndexIsLength | fsw/src/sbn_client_utils.c:177-190 | the free position is the one behind the subscribed ids |
| Runs.PutKeepsFifo | fsw/src/sbn_client_ingest.c:64-77 | an enqueue keeps taken-then-unread equal to accepted |
| Runs.TakeKeepsFifo | fsw/src/sbn_client_wrappers.c:329-335 | a take with an unread message keeps it too |
| Runs.StepKeepsRegistry | fsw/src/sbn_client_wrappers.c:56-163 | no step upsets use, ids, subscriptions or the allocation balance |
| Runs.RunKeepsRegistry | fsw/src/sbn_client_wrappers.c:56-163 | nor does any run, bad wake-ups included |
| Runs.StepKeepsRing | fsw/src/sbn_client_wrappers.c:271-337 | a step keeps one pipe's ring and FIFO invariant exactly when it is not a zero-status resume of that pipe without an unread message |
| Runs.PipeInvariant | fsw/src/sbn_client_wrappers.c:271-337 | one pipe's invariant holds after every prefix exactly when every zero-status resume of that pipe finds a message |
| Runs.DeletionHeals | fsw/src/sbn_client_wrappers.c:94-97 | deleting a live pipe puts its ring in order whatever state it was in |
| Runs.DeliversSinceDeletion | fsw/src/sbn_client_wrappers.c:271-337 | a pipe delivers if its waits have gone well since its last deletion |
| Runs.UnusedIsInvalidated | fsw/src/sbn_client_utils.c:118-138 | an unused entry is exactly what invalidation leaves |
| Runs.StepKeepsInv | fsw/src/sbn_client_wrappers.c:271-337 | a step keeps the invariant of all pipes exactly when it is not a zero-status resume without an unread message |
| Runs.RunInvariant | fsw/src/sbn_client_wrappers.c:271-337 | the invariant holds after every prefix of a run exactly when every zero-status resume finds a message |
| Runs.GoodIsGoodForEach | fsw/src/sbn_client_wrappers.c:271-337 | a run is good exactly when it is good for each pipe |
| RunLaws.FifoDelivery | fsw/src/sbn_client_wrappers.c:325-337 | if the waits on a pipe have gone well since its last deletion, taken then unread is accepted there, in order, and accepted = taken + (Num - 1) |
| RunLaws.AcceptedInArrivalOrder | fsw/src/sbn_client_ingest.c:52-93 | a pipe's accepted messages are a subsequence of the arrivals |
| HeldMessage.WhatDisturbs | fsw/src/sbn_client_wrappers.c:238-337 | exactly which steps take from a pipe or delete it |
| HeldMessage.HeldMessageStable | fsw/src/sbn_client_utils.c:60-67 | while its pipe's ring is valid the slot last returned is unchanged until the next take from or deletion of that pipe |
| HeldMessage.Overrun | fsw/src/sbn_client_ingest.c:64-77 | enough arrivals run over the held slot of a ring that is out of range, since overflow is tested by equality |
| HeldMessage.HeldIffRingValid | fsw/src/sbn_client_utils.c:60-67 | in every state the held slot survives all such continuations exactly if the ring is valid |
| HeldMessage.ReturnedIffUnread | fsw/src/sbn_client_wrappers.c:325-337 | a slot just returned survives them exactly if the receive found an unread message |
| RunLaws.MatchesIffSubscribed | fsw/src/sbn_client_ingest.c:60-62 | a live pipe matches a nonzero id exactly when it was subscribed since creation; id zero while a position is free |
| RunLaws.SubscriptionHistory | fsw/src/sbn_client_wrappers.c:114-163 | in every run the array is the in-order list of subscribed ids, then empty positions |
| RunLaws.SubscribeOutcome | fsw/src/sbn_client_wrappers.c:127-162 | subscribing succeeds exactly on a live pipe below its limit |
| RunLaws.RoutingByHistory | fsw/src/sbn_client_ingest.c:52-93 | a message, whose id is its first two bytes, goes to the lowest live pipe that wants that id, zero included, if it has room, and nowhere else |
| RunLaws.AllocatorBalance | fsw/src/sbn_client_wrappers.c:56-111 | in every run live pipes = creates - deletes, ids are distinct, and refusal comes exactly at the table size |
| RunLaws.DropTail | fsw/src/sbn_client_ingest.c:64-77 | while nothing is received a pipe accepts exactly the first messages routed to it that fit |
| RunLaws.LosslessIffRoom | fsw/src/sbn_client_ingest.c:64-77 | over any run that neither creates nor deletes it a pipe accepts every message routed to it exactly when it has room whenever one is |
| RunLaws.LosslessDelivery | fsw/src/sbn_client_ingest.c:64-77 | and then all of them are taken or unread, in order |
| RunLaws.RoutedArrived | fsw/src/sbn_client_ingest.c:52-93 | what is routed to a pipe along a run is some of what arrives, in order |
| WaitSafety.NextKeepsWaitInv | fsw/src/sbn_client_ingest.c:76-82 | with one live pipe a signal implies an unread message, step by step |
| WaitSafety.EveryWakeFindsAMessage | fsw/src/sbn_client_wrappers.c:271-306 | in that setting every zero-status resume of every run finds one |
| WaitSafety.SinglePipeDelivery | fsw/src/sbn_client_wrappers.c:271-337 | there delivery is FIFO with no hypothesis on waits |
| WaitSafety.GoodIffEveryWakeFed | fsw/src/sbn_client_wrappers.c:271-306 | for any number of pipes every wake-up finds a message exactly when its pipe accepted an arrival during the wait and after its last deletion |
| WaitSafety.PossibleIffNoneSpurious | fsw/src/sbn_client_wrappers.c:271-306 | the possible runs are exactly those of one receiver in which no zero status comes without a signal; a wait may expire or fail at any time |
| WaitSafety.PossibleGoodIffFed | fsw/src/sbn_client_wrappers.c:271-306 | the same for runs without spurious wake-ups |
| WaitSafety.WakeWithoutMessage | fsw/src/sbn_client_wrappers.c:325-337 | what a wake-up with nothing unread does: success unless the unlock fails, an unaccepted slot, count 0 |
| WaitSafety.WakeOverwritten | fsw/src/sbn_client_ingest.c:64-77 | the slot such a wake-up returned is overwritten by the next message for the pipe |
| WaitSafety.TwoPipesBreakTheWait | fsw/src/sbn_client_ingest.c:79-82 | a possible two-pipe run in which that happens |
| WaitSafety.DeletionBreaksTheWait | fsw/src/sbn_client_wrappers.c:94-97 | a deletion between signal and wake-up also causes it |
| WaitSafety.DeletionRun | fsw/src/sbn_client_wrappers.c:94-97 | a possible run with a single pipe in which that happens |
| Stream.CollectExact | fsw/src/sbn_client_utils.c:86-115 | an exact read succeeds exactly when enough bytes precede the first failure or close; what it consumes either way |
| Stream.ExactRead | fsw/src/sbn_client_utils.c:69-116 | the same for ReadBytes with its size check; exactly when it is refused, broken by a failed read or closed by an empty one |
| Stream.ReadBytesChunking | fsw/src/sbn_client_utils.c:86-105 | exact reads do not depend on the chunking |
| Stream.SizeShrinks | fsw/src/sbn_client_utils.c:86-105 | an exact read uses up input for every byte it stores |
| Framing.HeaderRoundTrip | fsw/src/sbn_client.c:104-108 | packing and unpacking a header are inverse both ways |
| Framing.HeaderBytes | fsw/src/sbn_client_wrappers.c:210-212 | which bytes of a packed header hold the size, the type and the processor id |
| Framing.ParseMeaning | fsw/src/sbn_client.c:86-134 | recv_msg's status, payload and consumption on every stream |
| Framing.ParseProgress | fsw/src/sbn_client.c:94-129 | every successful call consumes at least a header |
| Framing.ParseChunking | fsw/src/sbn_client.c:86-134 | recv_msg does not depend on the chunking |
| Framing.ParseFrame | fsw/src/sbn_client.c:104-124 | a well-formed frame is parsed as itself and consumed exactly |
| Framing.RecvKnownType | fsw/src/sbn_client.c:112-124 | a complete frame of each of the five silent types is read and dropped, one of an application message delivered, both consumed exactly |
| Framing.RecvUnknownType | fsw/src/sbn_client.c:126-128 | any type but those six different ones is an error and its payload stays in the stream |
| Framing.HeartbeatIsFrame | fsw/src/sbn_client_utils.c:217-232 | the bytes of a heartbeat; it is one whole frame that delivers nothing |
| Framing.SubscriptionBytes | fsw/src/sbn_client.c:64-74 | every byte of the subscription message: size 54, its type, processor 2, identification string, one id, two zero bytes |
| Framing.SubscriptionIsFrame | fsw/src/sbn_client.c:61-83 | the subscription message is one whole frame exactly when identification string and packed id have 50 bytes together |
| Framing.SendIsFrame | fsw/src/sbn_client_wrappers.c:206-226 | SendMsg writes the well-formed frame of the message; success exactly when all was written |
| Framing.SendByBytes | fsw/src/sbn_client_wrappers.c:193-227 | from bytes 4 and 5 of the message: what is refused, and otherwise every byte written and what a short write reports |
| Framing.SendReceiveRoundTrip | fsw/src/sbn_client_wrappers.c:193-227 | what is received of a sent packet is the packet exactly when the length field is at most 65528 |
| Framing.SendRefuses | fsw/src/sbn_client_wrappers.c:196-204 | a packet is refused exactly when too big and its length did not wrap |
| Reception.ErrorSuffixMeaning | fsw/src/sbn_client_minders.c:55-63 | the consecutive-error count is the length of the failed suffix |
| Reception.StopRule | fsw/src/sbn_client_minders.c:49-70 | the loop stops after the first call whose last five have all failed |
| Reception.ReceiveChunking | fsw/src/sbn_client_minders.c:49-70 | the whole loop does not depend on the chunking |
| Reception.ReceiveFrames | fsw/src/sbn_client_minders.c:49-63 | well-formed frames at the head of a stream are delivered in order and clear the error count |
| Reception.StreamMeaning | fsw/src/sbn_client.c:86-134 | a stream of frames that ends delivers exactly the application payloads, then stops |
| Reception.StreamCut | fsw/src/sbn_client.c:86-134 | a stream cut inside a frame delivers the frames before it and no part of the cut one |
| EndToEnd.IngestByMessage | fsw/src/sbn_client_ingest.c:31-93 | the table depends only on message bytes, not on what the buffer held before |
| EndToEnd.StreamToTable | fsw/src/sbn_client.c:110-124 | a run of the arrivals of a stream of frames, in any chunking, leaves the table of the pure fold |
| EndToEnd.Drain | fsw/src/sbn_client_wrappers.c:269-346 | polling returns everything unread in order, then reports no message |
| EndToEnd.StoreAndForward | fsw/src/sbn_client_wrappers.c:325-337 | an empty pipe stores the first messages routed to it and hands them out in order |
| EndToEnd.SentIsReceived | fsw/src/sbn_client_wrappers.c:206-216 | the receive loop delivers exactly the messages sent, under any chunking |
| EndToEnd.SentInOrder | fsw/src/sbn_client_ingest.c:52-93 | under any interleaving a pipe carries sent messages in order, each at most once |
| EndToEnd.SentIsDelivered | fsw/src/sbn_client_ingest.c:52-93 | over any run that neither creates nor deletes it, with room and good waits, every message sent that is routed to a pipe is taken or unread there, in order |
| EndToEnd.BytesInMessagesOut | fsw/src/sbn_client_minders.c:49-70 | bytes of sent packets in, exactly the routed messages out, in order |
| Deadline.DeadlineExact | fsw/src/sbn_client_wrappers.c:287-298 | the deadline is normalised and lies exactly the timeout, in units of 1,000,000 ns, after the entry time; its intermediate value fits a double |
| Deadline.DeadlineMonotone | fsw/src/sbn_client_wrappers.c:287-298 | a longer timeout gives a later deadline |
| PipeObjects.PipeD.EntryPoint | fsw/src/sbn_client_utils.c:63-67 | in a pipe with room the entry slot is neither the held slot nor an unread one |
| PipeObjects.PipeD.Invalidate | fsw/src/sbn_client_utils.c:118-138 | in place, the invalidated pipe with its slots kept |
| PipeObjects.PipeD.Put | fsw/src/sbn_client_ingest.c:76-77 | in place, the enqueue on the ring |
| PipeObjects.PipeD.Take | fsw/src/sbn_client_wrappers.c:329-335 | in place, the take, and the slot whose address is returned |
| PipeObjects.PipeTbl.InitPipeTbl | fsw/src/sbn_client.c:26-35 | every pipe invalidated |
| PipeObjects.PipeTbl.GetAvailPipeIdx | fsw/src/sbn_client.c:37-51 | the lowest unused index, or the invalid one |
| PipeObjects.PipeTbl.CreatePipe | fsw/src/sbn_client_wrappers.c:28-83 | new table, status and id of the creation law |
| PipeObjects.PipeTbl.DeletePipe | fsw/src/sbn_client_wrappers.c:85-112 | new table and status of the deletion law |
| PipeObjects.PipeTbl.GetPipeIdx | fsw/src/sbn_client_utils.c:149-175 | the looked-up index |
| PipeObjects.PipeTbl.GetMessageSubscribeIndex | fsw/src/sbn_client_utils.c:177-190 | the first free position, or the limit mark |
| PipeObjects.PipeTbl.Subscribe | fsw/src/sbn_client_wrappers.c:114-163 | new table and status of the subscription law, and, exactly on success, every byte of the message to the peer |
| PipeObjects.PipeTbl.Ingest | fsw/src/sbn_client_ingest.c:47-104 | the nested early-exit loops equal the routing specification, and signal with it |
| PipeObjects.PipeTbl.RcvMsgEnter | fsw/src/sbn_client_wrappers.c:229-306 | table and outcome of the first half of a receive, and the exact deadline of a timed wait |
| PipeObjects.PipeTbl.RcvMsgResume | fsw/src/sbn_client_wrappers.c:308-357 | table and outcome of the second half; which status an expired wait, a failed one and a failed unlock give |
| PipeObjects.PipeTbl.Finish | fsw/src/sbn_client_wrappers.c:325-355 | the common end of a receive: take, unlock, clear the pointer on failure |
| SocketObjects.Socket.ReadBytes | fsw/src/sbn_client_utils.c:69-116 | status, remaining input and buffer contents of an exact read, the rest of the buffer untouched |
| ClientObjects.Client.SendMsg | fsw/src/sbn_client_wrappers.c:193-227 | the frame built in place, byte by byte from the message's own bytes, and the status |
| ClientObjects.Client.IngestAppMessage | fsw/src/sbn_client_ingest.c:27-105 | read into an uninitialised buffer, then one arrival or none |
| ClientObjects.Client.RecvMsg | fsw/src/sbn_client.c:86-134 | status, remaining input and table of one frame |
| ClientObjects.Client.ReceiveMinder | fsw/src/sbn_client_minders.c:44-73 | terminates on every input with the loop's statuses, arrivals and table, after the first call whose last five have all failed; a trace of both run flags shows them cleared together by the last call and not before; does nothing if entered with the receive flag cleared |

## Left out

- Sockets, connecting, sleeping, thread creation, start-up and errno tables: input and output only; `read` and `write` results are parameters.
- Logging, the heartbeat timer loop, the Python interface, and the calls that only return -1.
- SBN's identification string and packing of message ids: they come from SBN headers that are not part of this model, so the subscription message takes them as parameters. A failed write of it is only logged in the source.
- The version 2 message id: it depends on CCSDS macros that are not part of this model; the version 1 id is used.
- Pipe names, the send-error counter, the unused queue id, and malloc and free. `Depth` is only range-checked in the source, so every pipe holds 31 unread messages.
- Looking up a pipe id of MAX_PIPES or more: the source indexes past the table there, so lookups, subscriptions and receives require a smaller id.
- `SendMsg` on memory shorter than the message states: reading past it is undefined in the source.
- Data races between the unlocked operations and the receiving thread.
- Several receivers waiting at once: WaitSafety has one receiving thread; the laws of Runs and RunLaws hold for any number.
- Pack and unpack internals of SBN: big-endian fields in the order the client uses.
- The waiting clock, and IEEE rounding in the seconds sum of a deadline; sums are exact.
