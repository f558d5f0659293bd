# Verification of the USB protocol stack

A Dafny model of the reliable link between a host and a device, and proofs about it. It follows
the program from the bytes on the wire to the callbacks of the application:

1. **Framing.** `Bits`, `Crc`, `Checksums` define checksums one bit at a time and prove the
   table-driven code equal to them, `ChecksumLoops` says which numbers they are. `BipRegions` and `BipBuffer` are the two-region receive buffer,
   `Scanning` the pure stream scanner, `Framing` the verdict on one frame, `Parser` the loop over the
   buffer, `Encoding` and `Serializer` the writer. `Corruption` and `Capacity` state what damage is
   always seen and exactly when the buffer is large enough.
2. **Requests and responses.** `Dedup` is the ring of seen ids, `Session`, `SessionRuns` and
   `SessionProgress` the requesting side of a session, `DeviceCache` its answering side,
   `ReliableSession` the object that does both in place. `TxQueue`, `Stack`, `Receiving` and
   `ProtocolStack` are the protocol stack, `Dispatch` and `Sending` what it tells the application and what
   it sends. `EndToEnd` and `EndToEndRuns` join two stacks by lossy links,
   `Reaching` says which worlds a run can reach, `WindowLimit` why the window has to be one, `Recovery`
   what losses are made good, `Cycle` that the cycles of the object are steps of a run,
   `Broadcasts` and `BroadcastOrder` what becomes of packets that are not repeated; `Wires` and
   `ArmWire` put the frames of the first layer and packets of the arm underneath.
3. **Shared data.** `Wrapping` and `IsrRing` (as an object, `IsrRingBuffer`) are the single-producer
   single-consumer ring, `Seqlock` the version counter around a packet, `Layout` and `Deserializer`
   the pool of latest packets.
4. **Packing and lookup.** `Bitstream` packs bit fields; `QuickSort` and `PerfectHash` build the
   tables that find a command, `RedundantKeys` says which repeated keys are noticed.

Code that updates objects is modelled as classes and methods with loops; each method is proved
against a function of the old state, and the theorems are about these functions. What happens
concurrently, or on both ends of a link, is a system of steps, and theorems quantify over all runs.

`dafny verify dfyconfig.toml` checks everything.

## What turned out not to hold as promised

Each of these is proved as an exact condition, in the theorem named.

- At-most-once execution depends on the window, which is configurable: it holds for a window of one
  and fails for every wider one, whatever the size of the ring (`WindowLimit.NeverTwiceIff`).
- The response cache has a configurable capacity, the ring of seen ids a fixed one of 64. Repeated
  requests always find their response only if both are equal; a larger cache is as wrong as a smaller
  one, because an old entry of the eviction order then evicts a newer response
  (`DeviceCache.AlwaysReplaysIff`). Responses over 256 bytes are kept cut off. For the same reason a
  response is not kept at all if its request was answered before and that answer is about to go
  (`DeviceCache.KeptIff`).
- A request id that is still on the books or queued must not be registered again
  (`Session.RegisterKeepsSoundIff`); the id counter is a 32-bit word, so this bounds the number of
  requests.
- `advance_write_index` on an empty buffer accepts any length (`3rdparty/rpl/include/RPL/Containers/BipBuffer.hpp`,
  lines 147-151), although its comment promises refusal (`BipBuffers.BipBuffer.AdvanceWriteIndex`).
- The 256-byte chunks of `drain_rx` can be refused, and are then lost, if no packet type has a frame
  of over 128 bytes (`Capacity.DrainNeverRefusedIff`).
- The acknowledgement of a repeated request is itself displaced by the kept response if at least 15
  frames wait in the send queue and it holds no telemetry, or 16 wait and at most one is telemetry
  (`Stacks.RepeatedGetsAnswer`; `Stacks.AcknowledgementLost` is such a queue).
- A telemetry broadcast, although it has the lowest priority, displaces the newest reply or request
  if the send queue is full and holds no telemetry (`include/ProtocolStack.hpp`, lines 316-321;
  `TxQueues.BroadcastDisplacesIff`).
- Status packets are told from responses by the lowest bit of their command, so a handler registered for
  one with an even command is never called; the feedback of the motors is 0x6002
  (`Dispatching.StatusDeliveredIff`, `Dispatching.MotorFeedbackUnheard`).
- A request that is handed out while its frame cannot be queued counts as in flight and waits for its
  timeout like one that was sent (`Sending.HandOutsQueued`). One that cannot be serialised still
  displaces telemetry (`TxQueues.OldestTelemetryGoes`).
- The length of a received payload is not compared with its packet type before it is written to the
  pool: a longer one changes the packets it reaches behind its own (`Deserializers.NeighbourSafeIff`).
- A reader of a packet can see a mix of two writes if 2^31 writes fall into one attempt
  (`Seqlock.NeverMixedIff`).
- Negative values in bit fields narrower than their type do not come back
  (`Bitstream.SignedRoundTripIff`).
- The check for redundant keys of the perfect hash compares the first items of the list instead of
  those of the bucket. It is sure to report them exactly when the first key of the list is repeated
  at an index below the largest number of times a key occurs (`RedundantKeys.AlwaysReportedIff`), and
  misses 0, 1, 1 (`RedundantKeys.RepeatedKeyMissed`). Tables that come out are correct all the same
  (`PerfectHash.CorrectMeansDistinct`).

## Hypotheses

- Fewer than 2^32 - 1 requests are sent, so that ids are fresh. A request packet carries the id it is
  registered under, and its command is odd and below 0x6300. A handler answers an id it was given,
  once, with a packet that carries that id, whose command is neither a request nor the
  acknowledgement, and whose frame has at most 256 bytes. Broadcasts carry no id and are not
  acknowledgements. These are the conditions of `EndToEnd.ValidStep`.
- Links lose whole frames and keep their order. Damaged frames count as lost; `Corruption` says which
  damage the checksums are sure to see.
- A payload given to the deserializer does not reach beyond the end of the pool, where the effect of
  writing is undefined; the parser only bounds it by the largest frame.
- The capacity of the ring divides the word size and is smaller than it (`IsrRing.Sizes`), which a
  power of two held in a word is.
- The clock is a parameter: each call is given its reading, and a poll one more for each request it
  retries.

## Reading the model

- A machine word is a sequence of bits, least significant first; a byte is a number below 256.
  `reverse_bits` is modelled by what it computes, not by its table of nibbles.
- Masking with a capacity that is a power of two is written as a remainder, aligning with a mask as
  rounding down to a multiple.
- Callbacks are events: a method reports that a callback is called, the run model records it in a log.
- The serializer's comment says that its sequence number goes up with every serialisation; the code
  does so once per call, however many packets it writes, and the model follows the code.
- `rx_ring_capacity` and `tx_queue_capacity` of the stack's configuration are not used by the code;
  the model has the fixed 16 frames of the send queue.
- A random generator is the sequence of seeds it will yield; when it is used up the construction gives
  up, where the code would go on.

## Model

| member | source | states |
|---|---|---|
| `EndToEndRuns.AtMostOnce` | include/ProtocolStack.hpp:199-335 | In every run of two stacks with a window of one, over links that lose frames but keep order: the device accepts ids in strictly increasing order, a handler runs at most once for an id and on the very request registered under it, and a callback gets what the handler answered to its id, at most once |
| `EndToEndRuns.StepKeepsWorld` | include/ProtocolStack.hpp:451-517 | Every step of either stack or link keeps the invariant behind that: ids on the way to the device never go back, the device remembers the last one it accepted, every frame on the way back is an acknowledgement, a broadcast or the answer to its id |
| `WindowLimit.NeverTwiceIff` | include/ReliableSession.hpp:32-49 | No request is ever accepted twice exactly when the window is at most one (zero being corrected to one), for every size of the ring of seen ids |
| `WindowLimit.WiderWindowRepeats` | include/ReliableSession.hpp:144-167 | For any wider window a run exists in which the device forgets a request that is still in flight and accepts it a second time when it is sent again |
| `Recovery.LossRecovered` | include/ProtocolStack.hpp:480-517 | For every number of retries and every sequence of at most so many lost rounds, whether each loses the request, the response, or both replies, whenever the acknowledgements that are not lost arrive, and whether or not the last one is lost: the handler runs once, on the request as registered, its answer reaches the callback, nothing is left pending |
| `Recovery.OneLossTooMany` | include/ReliableSession.hpp:213-222 | With one more lost round, of whatever kind, the request is given up and its callback never called |
| `Broadcasts.EachHeardOnce` | include/ProtocolStack.hpp:451-478 | In every run, whatever the window and the losses: the handlers for unreliable packets at either end are given exactly the packets for them that arrive, unchanged, each once and in the order of arrival |
| `BroadcastOrder.BroadcastsInOrder` | include/ProtocolStack.hpp:184-193 | In every run of two stacks, over lossy links and with retries and replies between them: what these handlers are given at one end is what the other end broadcast, in that order, each at most once, and nothing else |
| `BroadcastOrder.HeardUnlessLost` | include/ProtocolStack.hpp:184-193 | And it is given to them if nothing is lost: broadcast on an idle link, sent and received |
| `Reaching.ReachedGuarantees` | include/ProtocolStack.hpp:199-335 | The guarantees of every run, for every world reached from two fresh stacks with a window of one |
| `Cycles.HostCycle` | include/ProtocolStack.hpp:199-205 | A cycle of the host object (`ProtocolStack.RunOneCycle` states the same functions) is a sequence of steps of the run model: one step for each frame received, repeated hand-outs, a poll, a transmission; the log grows by exactly the events of the cycle |
| `Cycles.DeviceCycle` | include/ProtocolStack.hpp:199-205 | The same for a cycle of the device, which stays without requests of its own |
| `Sending.RetriesQueued` | include/ProtocolStack.hpp:277-309 | Of the requests due (outside the telemetry range), those that can be serialised get exactly one frame each, in order and under consecutive sequence numbers, taking the place of telemetry only, until the queue is full of other frames; the rest get none |
| `Sending.RetriesDisplaceNothing` | include/ProtocolStack.hpp:277-309 | With room for all of them, the queue grows by exactly their frames, one for each id, in order, whatever their commands |
| `Sending.HandOutsQueued` | include/ProtocolStack.hpp:259-273 | The hand-out phase takes waiting requests (outside the telemetry range) in order, marks each in flight and queues its frame, and goes on until the window is full, none waits, or one gets no frame; that one is in flight too |
| `Sending.HandOutsStop` | include/ProtocolStack.hpp:259-273 | After the phase the window is full, or nothing waits, or a request in flight cannot be serialised, or the queue is full and holds no telemetry |
| `Sending.CycleSendsFirst` | include/ProtocolStack.hpp:199-205 | With an empty send queue, room in the window and a first waiting request that can be serialised: a cycle puts its frame at the head of the queue and sends it |
| `Sending.CycleSendsOldest` | include/ProtocolStack.hpp:337-346 | A frame at the head of the queue that is no telemetry is what the cycle sends; if the transport does not take it, it stays there |
| `Sending.BroadcastQueued` | include/ProtocolStack.hpp:184-193 | With room, a broadcast goes behind all other frames and takes the next sequence number |
| `Dispatching.DispatchedIff` | include/ProtocolStack.hpp:224-240 | A packet goes straight to a handler, unchanged, without acknowledgement and with the stack left as it is, exactly if one is registered for it and it is a real-time command, or a status packet without id whose command is odd |
| `Dispatching.StatusDeliveredIff` | include/ProtocolStack.hpp:412-415 | A status packet without id reaches the handler registered for it exactly if its command is odd |
| `Dispatching.MotorFeedbackUnheard` | include/ArmStatus.hpp:107-114 | The feedback of the motors, command 0x6002, never reaches the handler registered for it |
| `Dispatching.WithoutIdIgnored` | include/ProtocolStack.hpp:512-517 | Reliable requests and responses without an id change nothing and are reported to nobody |
| `Dispatching.ResponseOutcome` | include/ReliableSession.hpp:101-129 | The first response to a request on the books takes it off, whatever its command, and is given to the callback exactly if it has the expected one; repeated and late ones change nothing but the memory of responses |
| `Dispatching.CallbacksCounted` | include/ReliableSession.hpp:122-128 | The history of a run counts a callback exactly when the application sees it called |
| `Dispatching.AckOutcome` | include/ProtocolStack.hpp:441-447 | An acknowledgement of the right size keeps polls off its request for exactly one timeout from its arrival; one of another size changes nothing; the application sees neither |
| `ArmWires.ArmIsAnswerable` | include/ArmCommand.hpp:569-609 | The conditions of the run theorems are met: by requests to set the limits of a joint, their acknowledgements and response, on the frame format of the stack with any checksums, if ids are written as they are read |
| `ArmWires.LittleEndianSound` | include/ProtocolStack.hpp:422-437 | Ids written least significant byte first are read back |
| `Wires.WireIsFaithful` | include/ProtocolStack.hpp:351-408 | The frames of the serializer and the verdict of the parser form a wire on which what is sent is what arrives, as the run theorems require |
| `Wires.ProtocolAtMostOnce` | include/ProtocolStack.hpp:351-437 | All guarantees of the run theorem for this frame format and its checksums, for any set of packet types: increasing acceptance, handlers run at most once and on the request registered, callbacks get the answer to their id at most once |
| `Wires.TelemetryIff` | include/ProtocolStack.hpp:362-375 | What the send queue reads off a frame: exactly packets of the commands 0x6000 to 0x60FF are telemetry |
| `Wires.AcksAreNoTelemetry` | include/ProtocolStack.hpp:362-375 | An acknowledgement is never taken for telemetry in the send queue |
| `Wires.FramesScanInChunks` | 3rdparty/rpl/include/RPL/Parser.hpp:434-441 | Any sequence of whole frames that gets through is parsed into its packets one by one, however its bytes are cut into chunks; a link may be seen as a sequence of frames |
| `Stacks.FreshGetsAck` | include/ProtocolStack.hpp:480-507 | A fresh reliable request is acknowledged whatever the state of the send queue, and handed to its handler if there is one |
| `Stacks.RepeatedGetsAnswer` | include/ProtocolStack.hpp:494-501 | A repeated request whose response is kept gets it again. The acknowledgement goes out right in front of it, except when at least 15 frames were waiting and at most as many of them telemetry as there were frames beyond 15: then the response takes its place |
| `Stacks.RepeatedGetsAck` | include/ProtocolStack.hpp:480-501 | A repeated request whose response is not kept is acknowledged, and its handler not called |
| `Stacks.AnswerQueuedAndKept` | include/ProtocolStack.hpp:156-177 | The answer of a handler becomes the newest entry of the send queue, and can be repeated, exactly if the cache has a place and the key of the request is not among the oldest ones that make room |
| `Stacks.SecondDisplacesFirstIff` | include/ProtocolStack.hpp:311-335 | Of two replies in a row, the second displaces the first exactly under that condition on the queue before both |
| `Stacks.AcknowledgementLost` | include/ProtocolStack.hpp:480-501 | With 15 replies waiting, the acknowledgement of a repetition is not in the queue afterwards |
| `TxQueues.PriorityAlwaysEnters` | include/ProtocolStack.hpp:311-335 | A reply always enters the queue of 16; at most one frame is lost for it, telemetry if there is any and otherwise the newest; what stays keeps its order |
| `TxQueues.RequestsDropOnlyTelemetry` | include/ProtocolStack.hpp:288-309 | A request displaces telemetry only, and is refused exactly when the full queue holds none or the request cannot be serialised |
| `TxQueues.OrdinaryNeedsRoom` | include/ProtocolStack.hpp:311-335 | A frame that is neither a reply nor telemetry enters exactly if fewer than 16 wait, and displaces nothing |
| `TxQueues.OldestTelemetryGoes` | include/ProtocolStack.hpp:288-335 | From a full queue with telemetry the oldest telemetry goes and all else keeps its order; for a request even if it then cannot be serialised |
| `TxQueues.BroadcastDisplacesIff` | include/ProtocolStack.hpp:311-335 | A telemetry broadcast always enters; it displaces a reply or request, the newest one, exactly when the queue is full and holds no telemetry |
| `ProtocolStacks.ProtocolStack.constructor` | include/ProtocolStack.hpp:47-57 | A new stack is a new session with empty queues |
| `ProtocolStacks.ProtocolStack.DropOneTelemetry` | include/ProtocolStack.hpp:377-388 | Removes the oldest telemetry frame and no other, and says whether there was one |
| `ProtocolStacks.ProtocolStack.EnqueuePendingFrame` | include/ProtocolStack.hpp:288-309 | Changes the stack as the step of the run model does, and succeeds exactly when the frame enters |
| `ProtocolStacks.ProtocolStack.EnqueuePrebuiltFrame` | include/ProtocolStack.hpp:311-335 | Changes the queue as specified, including which frame is lost |
| `ProtocolStacks.ProtocolStack.DrainTx` | include/ProtocolStack.hpp:337-346 | Offers the oldest frame and removes it only if it was taken |
| `ProtocolStacks.ProtocolStack.SendPacket` | include/ProtocolStack.hpp:350-360 | A known packet is serialised, uses up a sequence number, and is queued |
| `ProtocolStacks.ProtocolStack.Send` | include/ProtocolStack.hpp:125-150 | The request is registered under the id it carries |
| `ProtocolStacks.ProtocolStack.SendResponseAndCache` | include/ProtocolStack.hpp:156-177 | The frame is queued and kept, or neither if it cannot be serialised |
| `ProtocolStacks.ProtocolStack.HandleSessionOutbound` | include/ProtocolStack.hpp:259-273 | The loop hands out requests until the window is full, none waits, or one does not enter the queue |
| `ProtocolStacks.ProtocolStack.HandleSessionRetries` | include/ProtocolStack.hpp:277-284 | Exactly the requests due are queued again, once each, and exactly the expired ones are reported |
| `ProtocolStacks.ProtocolStack.HandlePacket` | include/ProtocolStack.hpp:224-240 | Dispatch by command does what the step of the run model does, and tells the application the same |
| `ProtocolStacks.ProtocolStack.HandleRequestPacket` | include/ProtocolStack.hpp:451-478 | Unreliable requests and status packets go to their handlers without acknowledgement; a reliable one without id is ignored |
| `ProtocolStacks.ProtocolStack.HandleReliablePacket` | include/ProtocolStack.hpp:480-507 | Acknowledgement first, then the kept response for a repetition or the handler for a fresh request |
| `ProtocolStacks.ProtocolStack.HandleResponsePacket` | include/ProtocolStack.hpp:512-517 | A response with an id goes to the session; one without is ignored |
| `ProtocolStacks.ProtocolStack.HandleAckPacket` | include/ProtocolStack.hpp:441-447 | An acknowledgement of the right size puts off the deadline of its request, and nothing else |
| `ProtocolStacks.ProtocolStack.RunOneCycle` | include/ProtocolStack.hpp:199-205 | The ring is drained into the parser, and the packets that come out are handled, then come hand-outs, retries and one transmission, in this order; exactly the expired requests are reported |
| `Receiving.DrainRx` | include/ProtocolStack.hpp:244-255 | Empties the ring into the parser in chunks of up to 256 bytes; a chunk the buffer refuses is lost; returns what the parser dispatched meanwhile |
| `Receiving.DrainedIsScan` | include/ProtocolStack.hpp:244-255 | With room enough, the packets and the rest are those of the whole stream |
| `Receiving.RefusedChunkLost` | include/ProtocolStack.hpp:244-255 | A chunk that the buffer refuses is lost as a whole, 256 bytes or the rest, and nothing else is |
| `Receiving.StackReceivesAll` | include/ProtocolStack.hpp:244-255 | A stack whose largest frame has over 128 bytes parses everything the interrupt stored |
| `Session.RegisterKeepsSoundIff` | include/ReliableSession.hpp:65-89 | Registering keeps the session invariant exactly when the id is neither on the books nor in the queue |
| `Session.AckKeepsSound` | include/ReliableSession.hpp:91-99 | The in-flight count stays the number of requests in flight and within the window; waiting requests stay queued exactly once |
| `Session.RespondKeepsSound` | include/ReliableSession.hpp:101-129 | The same for a response, fresh, repeated or late |
| `Session.PollKeepsSound` | include/ReliableSession.hpp:199-245 | The same for a poll that drops and retries any number of requests |
| `Session.PumpKeepsSound` | include/ReliableSession.hpp:251-277 | The same for handing out a request, past queue entries that are off the books |
| `SessionRuns.EveryRun` | include/ReliableSession.hpp:65-277 | In every run of fewer than 2^32 - 1 requests: the invariant holds, first transmissions come out in registration order, no request is handed out more than once plus its retries, none gets two callbacks |
| `SessionRuns.HistoryIsTrue` | include/ReliableSession.hpp:101-277 | The history that these theorems count is what happens on the books: a request is counted as handed out exactly when it is sent first or once more, and its callback exactly when it leaves the books, other than by a response of the wrong command |
| `SessionRuns.StepKeeps` | include/ReliableSession.hpp:55-277 | Each call keeps the counts and orders behind that |
| `SessionRuns.NextIdUnknown` | include/ReliableSession.hpp:55-58 | The next id is on no list |
| `SessionProgress.PollTooEarly` | include/ReliableSession.hpp:285-300 | A poll before the next deadline changes nothing, retries nothing and gives up nothing |
| `SessionProgress.PollProgresses` | include/ReliableSession.hpp:199-245 | A poll at or after the next deadline strictly lowers the sum of the retries left |
| `SessionProgress.AckPutsOff` | include/ReliableSession.hpp:91-99 | After an acknowledgement of a request in flight a poll touches it from one timeout later on and no earlier; nothing else changes |
| `SessionProgress.HandOutStartsTimer` | include/ReliableSession.hpp:251-277 | The same for handing out, from its time on |
| `SessionProgress.PollRestartsTimers` | include/ReliableSession.hpp:199-245 | The same for a retry, from the clock read for it; expired requests are off the books, all others stay as they are |
| `SessionProgress.AckKeepsBudget` | include/ReliableSession.hpp:91-99 | An acknowledgement does not raise that sum |
| `SessionProgress.ResponseNeverRaisesBudget` | include/ReliableSession.hpp:101-129 | A response lowers it by what its request had left, or leaves it alone |
| `SessionProgress.PumpKeepsBudget` | include/ReliableSession.hpp:251-277 | Handing out leaves it alone |
| `SessionProgress.BudgetSplit` | include/ReliableSession.hpp:225-226 | The sum does not depend on the order in which the map is traversed |
| `ReliableSessions.ReliableSession.constructor` | include/ReliableSession.hpp:42-49 | A window of zero is corrected to one; everything is empty |
| `ReliableSessions.ReliableSession.NextTxId` | include/ReliableSession.hpp:55-58 | Hands out the counter, which is a 32-bit word |
| `ReliableSessions.ReliableSession.RegisterPending` | include/ReliableSession.hpp:65-89 | The request, cut to 256 bytes, replaces what was under its id and is queued |
| `ReliableSessions.ReliableSession.OnAck` | include/ReliableSession.hpp:91-99 | Puts off the deadline of a request in flight, and only then |
| `ReliableSessions.ReliableSession.OnResponse` | include/ReliableSession.hpp:101-129 | A response not seen before ends its request whatever its command; the callback is called exactly if the command is the expected one |
| `ReliableSessions.ReliableSession.Poll` | include/ReliableSession.hpp:199-245 | Whatever the order of the traversal: the books are those of the specification, and the lists hold each retried and each expired request once |
| `ReliableSessions.ReliableSession.NextOutbound` | include/ReliableSession.hpp:251-277 | The first queued request still on the books, if the window has room |
| `ReliableSessions.ReliableSession.NextDeadline` | include/ReliableSession.hpp:285-300 | The least deadline of the requests in flight, if there are any |
| `ReliableSessions.ReliableSession.OnRequest` | include/ReliableSession.hpp:144-167 | Whether the request is a repetition, and the response kept for it |
| `ReliableSessions.ReliableSession.CacheResponse` | include/ReliableSession.hpp:169-185 | The response is kept, and the oldest ones go until the capacity is met |
| `ReliableSessions.ReliableSession.ShrinkDeviceCache` | include/ReliableSession.hpp:337-345 | The loop drops exactly the oldest responses beyond the capacity |
| `ReliableSessions.ReliableSession.ResetDeviceState` | include/ReliableSession.hpp:302-308 | Both rings and the cache are empty; the books are not touched |
| `ReliableSessions.PollAdvances` | include/ReliableSession.hpp:205-234 | One request looked at: books, count and lists move on together |
| `ReliableSessions.SkipOne` | include/ReliableSession.hpp:253-262 | A queue entry off the books does not change what is handed out |
| `DeviceCache.AlwaysReplaysIff` | include/ReliableSession.hpp:144-185 | Every repeated request finds its response unchanged exactly when the cache has the capacity of the ring and no response exceeds 256 bytes |
| `DeviceCache.KeptIff` | include/ReliableSession.hpp:169-185 | A response is kept, cut to 256 bytes, exactly if the capacity is not zero and its key is not among the oldest ones that go |
| `DeviceCache.AnsweredTwice` | include/ReliableSession.hpp:169-185 | A request answered twice, with its first answer the oldest of a full cache, has no answer left |
| `DeviceCache.ServeKeepsLockstep` | include/ReliableSession.hpp:144-185 | Ring, eviction order and cache keep the same keys, the first two in the same order |
| `DeviceCache.OneIsForgotten` | include/ReliableSession.hpp:337-345 | With any other capacity, smaller or larger, a run exists in which the ring still knows a request whose response is gone |
| `DeviceCache.LongAnswerIsCut` | include/ReliableSession.hpp:179-180 | A response over 256 bytes is not what a repetition gets |
| `DeviceCache.ShrinkOnlyDrops` | include/ReliableSession.hpp:337-345 | Eviction changes no response that stays |
| `Dedup.IdRingBuffer.TestAndInsert` | include/IdRingBuffer.hpp:19-31 | Reports whether the key is in the window, and inserts it as the newest only if it is not |
| `Dedup.IdRingBuffer.Clear` | include/IdRingBuffer.hpp:33-37 | The window is empty |
| `Dedup.KeyInjective` | include/IdRingBuffer.hpp:47-50 | Different pairs of command and id have different keys; only the pair of zeros has the key of an empty slot |
| `Dedup.WindowIsRecent` | include/IdRingBuffer.hpp:19-31 | After any calls the window holds exactly the last accepted keys |
| `Dedup.SeenMeans` | include/IdRingBuffer.hpp:19-31 | A key is reported seen exactly when it is among the last accepted ones, or is zero while slots are unused |
| `Dedup.AcceptancesApart` | include/IdRingBuffer.hpp:19-31 | Two acceptances of one key are separated by at least as many acceptances as the ring has slots, the first so many of which are of pairwise different other keys |
| `Scanning.ScanConcat` | 3rdparty/rpl/include/RPL/Parser.hpp:512-587 | Scanning a longer stream continues from the rest of the shorter one |
| `Scanning.ChunkingIrrelevant` | 3rdparty/rpl/include/RPL/Parser.hpp:434-441 | The packets and the rest do not depend on how a stream is cut into chunks |
| `Scanning.TakenIsScan` | 3rdparty/rpl/include/RPL/Parser.hpp:512-587 | The packets emitted are those of the frames at the positions taken, in order |
| `Scanning.Resynchronises` | 3rdparty/rpl/include/RPL/Parser.hpp:516-587 | Each position where a complete valid frame starts is taken, or lies under a frame taken before it, or is still ahead |
| `Scanning.LagBounded` | 3rdparty/rpl/include/RPL/Parser.hpp:293-315 | The scan lags the end of the stream by less than the largest frame |
| `Framing.Judge` | 3rdparty/rpl/include/RPL/Parser.hpp:593-671 | The verdict on the bytes from a start byte on: sizes of accepted frames, and that only a frame not yet complete is waited for |
| `Framing.JudgeStable` | 3rdparty/rpl/include/RPL/Parser.hpp:593-671 | More bytes change no verdict but "incomplete" |
| `Parsers.BitCeilIsPower` | 3rdparty/rpl/include/RPL/Parser.hpp:309-315 | The buffer size is a power of two |
| `Parsers.BufferSize` | 3rdparty/rpl/include/RPL/Parser.hpp:309-317 | The buffer holds at least four largest frames |
| `Parsers.PayloadSpansSlice` | 3rdparty/rpl/include/RPL/Parser.hpp:673-695 | The payload spans of a frame that wraps are its payload, wherever the wrap lies |
| `Parsers.Parser.FrameChecksum` | 3rdparty/rpl/include/RPL/Parser.hpp:646-657 | The checksum over two segments is that over their concatenation, for every place of the wrap |
| `Parsers.Parser.CheckFrame` | 3rdparty/rpl/include/RPL/Parser.hpp:646-671 | A frame is sound exactly if the verdict on contiguous bytes says so, even with the checksum split across the segments |
| `Parsers.Parser.JudgeHead` | 3rdparty/rpl/include/RPL/Parser.hpp:593-671 | The verdict on the head of the buffer is that on the queue it holds |
| `Parsers.Parser.ParseFrame` | 3rdparty/rpl/include/RPL/Parser.hpp:593-701 | A sound frame is dispatched and discarded; otherwise nothing is |
| `Parsers.Parser.ScanOnce` | 3rdparty/rpl/include/RPL/Parser.hpp:516-587 | One round of the loop leaves the scan result unchanged and uses up bytes, or waits |
| `Parsers.Parser.TryParsePackets` | 3rdparty/rpl/include/RPL/Parser.hpp:512-587 | The loop terminates, emits what the pure scanner emits, and leaves its rest |
| `Parsers.Parser.PushData` | 3rdparty/rpl/include/RPL/Parser.hpp:434-441 | A chunk is refused exactly when the buffer has no contiguous room, and then nothing changes; else packets and rest are those of the scanner |
| `Capacity.NeverRefusesIff` | 3rdparty/rpl/include/RPL/Parser.hpp:293-315 | No run of chunks of at most L bytes meets a refusal exactly when 2 * L + M <= SIZE + 2, for largest frame M |
| `Capacity.OwnBufferSuffices` | 3rdparty/rpl/include/RPL/Parser.hpp:309-317 | The size chosen by the parser never refuses chunks of up to a largest frame |
| `Capacity.DrainNeverRefusedIff` | include/ProtocolStack.hpp:244-255 | Chunks of 256 bytes are never refused exactly when the largest frame has over 128 bytes |
| `Capacity.TooLittleRoom` | 3rdparty/rpl/include/RPL/Containers/BipBuffer.hpp:216-241 | If the bound is exceeded, a run of noise and one frame in single bytes ends in a refusal |
| `BipBuffers.BipBuffer.AdvanceWriteIndex` | 3rdparty/rpl/include/RPL/Containers/BipBuffer.hpp:127-167 | Commits bytes; keeps the buffer sound exactly if it is not empty or the length fits, since the branch for the empty buffer accepts any length |
| `BipBuffers.BipBuffer.Write` | 3rdparty/rpl/include/RPL/Containers/BipBuffer.hpp:216-241 | Appends to the queue, or refuses for lack of contiguous room and changes nothing |
| `BipBuffers.BipBuffer.Discard` | 3rdparty/rpl/include/RPL/Containers/BipBuffer.hpp:269-303 | Drops a prefix of the queue, or refuses |
| `BipBuffers.BipBuffer.GetReadSpans` | 3rdparty/rpl/include/RPL/Containers/BipBuffer.hpp:318-336 | Two spans inside the array, as the geometry says |
| `BipBuffers.BipBuffer.Peek` | 3rdparty/rpl/include/RPL/Containers/BipBuffer.hpp:401-420 | The exact slice of the queue, across the wrap |
| `BipBuffers.BipBuffer.Read` | 3rdparty/rpl/include/RPL/Containers/BipBuffer.hpp:433-438 | Peek and discard |
| `BipRegions.QueueGrows` | 3rdparty/rpl/include/RPL/Containers/BipBuffer.hpp:216-241 | Copying to the place of a write appends to the queue of regions A and B |
| `BipRegions.CommitGrows` | 3rdparty/rpl/include/RPL/Containers/BipBuffer.hpp:82-167 | Committing bytes already in the offered span appends them |
| `BipRegions.QueueShrinks` | 3rdparty/rpl/include/RPL/Containers/BipBuffer.hpp:269-303 | Discarding drops a prefix, through region A into region B |
| `BipRegions.ReadSpansSlice` | 3rdparty/rpl/include/RPL/Containers/BipBuffer.hpp:318-336 | The two spans together are the slice asked for |
| `Crc.GetCrcTableValueAtIndex` | 3rdparty/rpl/3rdparty/cppcrc/cppcrc.h:39-53 | The loop yields the register after feeding one byte bit by bit, for both reflections |
| `Crc.CalculateCrcReflected` | 3rdparty/rpl/3rdparty/cppcrc/cppcrc.h:69-77 | Table-driven, reflected: the bitwise checksum of any message |
| `Crc.CalculateCrcForward` | 3rdparty/rpl/3rdparty/cppcrc/cppcrc.h:79-87 | Table-driven, forward: the same |
| `Crc.Calc` | 3rdparty/rpl/3rdparty/cppcrc/cppcrc.h:101-106 | The checksum continued from any prior value is the bitwise one, for all four reflections |
| `Crc.Continuation` | 3rdparty/rpl/3rdparty/cppcrc/cppcrc.h:100-106 | calc(b, calc(a)) is calc(a ++ b) for all four reflections |
| `Crc.TableStep` | 3rdparty/rpl/3rdparty/cppcrc/cppcrc.h:74-75 | Eight bits at once are a table entry and a shift |
| `Crc.FeedInjectiveInState` | 3rdparty/rpl/3rdparty/cppcrc/cppcrc.h:69-77 | For given bytes the register update is injective in the register |
| `Crc.FeedInjectiveInBits` | 3rdparty/rpl/3rdparty/cppcrc/cppcrc.h:69-77 | From a given register the update is injective in as many bits as the register has |
| `Crc.BurstSeen` | 3rdparty/rpl/3rdparty/cppcrc/cppcrc.h:69-77 | Messages that differ within one register width have different checksums |
| `Crc.Residue` | 3rdparty/rpl/3rdparty/cppcrc/cppcrc.h:69-77 | A checksum behind its data clears the register, and no other word does |
| `Checksums.Constants` | 3rdparty/rpl/include/RPL/Utils/Def.hpp:20-24 | The polynomials of both configurations are 0x31 and 0x1021 |
| `ChecksumLoops.HeaderCrcIsLoop` | 3rdparty/rpl/include/RPL/Utils/Def.hpp:20-21 | The header checksum of every message is what the usual loop over numbers computes: start 0xFF, and for each byte an exclusive or and eight shifts to the right with 0x8C, the reflected 0x31 |
| `ChecksumLoops.FrameCrcIsLoop` | 3rdparty/rpl/include/RPL/Utils/Def.hpp:22-24 | The frame checksum likewise: start 0xFFFF, polynomial 0x8408, the reflected 0x1021 |
| `ChecksumLoops.EmptyMessages` | 3rdparty/rpl/include/RPL/Utils/Def.hpp:20-24 | The checksums of nothing are the initial values 0xFF and 0xFFFF |
| `ChecksumLoops.FrameBytes` | 3rdparty/rpl/include/RPL/Serializer.hpp:101-184 | A frame byte by byte: 0xA5, length, sequence number, header checksum, command, payload, frame checksum; numbers of two bytes with the low byte first, and both checksums those of the loops |
| `Checksums.SegmentsCheckAsOne` | 3rdparty/rpl/include/RPL/Parser.hpp:650-657 | Continuing the frame checksum over a second segment checks the concatenation |
| `Checksums.CalcFrame` | 3rdparty/rpl/include/RPL/Parser.hpp:650-657 | The two calls of the parser compute the frame checksum of both segments |
| `Corruption.OneByteDamageRejected` | 3rdparty/rpl/include/RPL/Parser.hpp:615-671 | A frame changed in one byte, whichever it is, is never accepted at its place, whatever follows |
| `Corruption.TwoByteDamageRejected` | 3rdparty/rpl/include/RPL/Parser.hpp:615-671 | Nor is one changed in two adjacent bytes other than the length |
| `Encoding.EncodeAccepted` | 3rdparty/rpl/include/RPL/Serializer.hpp:101-184 | An encoded frame at the head of any stream is accepted and gives back its packet, for every sequence number |
| `Encoding.RoundTrip` | 3rdparty/rpl/include/RPL/Serializer.hpp:91-189 | Any list of packets, with noise free of start bytes between them, is scanned to exactly those packets with nothing left |
| `Encoding.RoundTripInChunks` | 3rdparty/rpl/include/RPL/Serializer.hpp:91-189 | The same under every cut into chunks |
| `Serializers.Serializer.SerializeOne` | 3rdparty/rpl/include/RPL/Serializer.hpp:101-184 | Writes one frame in place and nothing else |
| `Serializers.Serializer.Serialize` | 3rdparty/rpl/include/RPL/Serializer.hpp:91-189 | Refuses a buffer that is too small and changes nothing; else the frames one after the other, all with one sequence number, which then goes up by one |
| `IsrRing.NothingLost` | include/ISRRingBuffer.hpp:32-97 | In every interleaving, bytes delivered followed by bytes stored are the bytes accepted, however often the counters have wrapped |
| `IsrRing.RefusedChangesNothing` | include/ISRRingBuffer.hpp:34-46 | A write is refused exactly for lack of room and changes only the drop count |
| `IsrRing.PublishStores` | include/ISRRingBuffer.hpp:48-61 | At any point of any interleaving, publishing a write appends its bytes to those stored |
| `IsrRing.ReadTakes` | include/ISRRingBuffer.hpp:74-82 | A read takes as many bytes as are asked for and stored when it looks |
| `IsrRing.AdvanceDelivers` | include/ISRRingBuffer.hpp:84-96 | Finishing it delivers the oldest of the bytes stored by then, and leaves the others stored |
| `IsrRing.StepKeeps` | include/ISRRingBuffer.hpp:32-97 | Each atomic step of producer and consumer keeps the invariant |
| `IsrRing.CopyInKeeps` | include/ISRRingBuffer.hpp:48-58 | A byte copied in never lands on one that is not yet read |
| `IsrRingBuffers.ISRRingBuffer.Write` | include/ISRRingBuffer.hpp:32-62 | Accepts exactly what fits, behind what is stored; refused writes only count |
| `IsrRingBuffers.ISRRingBuffer.Read` | include/ISRRingBuffer.hpp:74-97 | Delivers the oldest bytes, as many as asked for and stored |
| `IsrRingBuffers.ISRRingBuffer.Available` | include/ISRRingBuffer.hpp:64-67 | The difference of the wrapped counters is the number of bytes stored |
| `Seqlock.NeverMixedIff` | 3rdparty/rpl/include/RPL/Deserializer.hpp:182-213 | Accepted reads never mix writes exactly when fewer version changes than the counter has values fall into one attempt: fewer than 2^31 writes |
| `Seqlock.AcceptedIsLatest` | 3rdparty/rpl/include/RPL/Deserializer.hpp:182-213 | An accepted read is the contents after the latest completed write |
| `Seqlock.AcceptedIff` | 3rdparty/rpl/include/RPL/Deserializer.hpp:182-213 | A complete read is accepted exactly if no write is under way and no version change, or a whole number of words of them, fell into it |
| `Seqlock.StepKeeps` | 3rdparty/rpl/include/RPL/Deserializer.hpp:96-213 | Each byte copy and version change, in any interleaving, keeps the invariant |
| `Seqlock.WriteCompletes` | 3rdparty/rpl/include/RPL/Deserializer.hpp:132-160 | A completed write leaves its payload on top of the earlier contents |
| `Seqlock.WholeWordMixes` | 3rdparty/rpl/include/RPL/Deserializer.hpp:182-213 | With 2^31 writes between two byte copies of one attempt, an accepted read is a mix |
| `Layout.SlotsApart` | 3rdparty/rpl/include/RPL/Meta/PacketInfoCollector.hpp:73-84 | Slots are aligned, inside the pool, pairwise disjoint and packed as tightly as alignment allows |
| `Layout.AlignUpLeast` | 3rdparty/rpl/include/RPL/Meta/PacketInfoCollector.hpp:38-40 | The least multiple of the alignment that is not smaller |
| `Layout.CalculateOffsets` | 3rdparty/rpl/include/RPL/Meta/PacketInfoCollector.hpp:73-84 | Fills the array of offsets with that layout |
| `Deserializers.Deserializer.WriteSegmented` | 3rdparty/rpl/include/RPL/Deserializer.hpp:132-160 | Writes a payload of any length that stays in the pool at the place of its packet and bumps its version twice; the rest of the pool and the other versions are not touched, and an unknown command does nothing |
| `Deserializers.OneSlotWritten` | 3rdparty/rpl/include/RPL/Deserializer.hpp:132-160 | A payload no longer than its packet type replaces the head of that packet and changes no other |
| `Deserializers.NeighbourSafeIff` | 3rdparty/rpl/include/RPL/Deserializer.hpp:148-154 | The packet of another type is safe from every payload of a length exactly when it lies before, is empty, or is not reached |
| `Bitstream.RoundTrip` | 3rdparty/rpl/include/RPL/Meta/BitstreamSerializer.hpp:234-258 | For any layout that fits, into clear bits: unpacking after packing gives every value modulo two to its width |
| `Bitstream.OthersUntouched` | 3rdparty/rpl/include/RPL/Meta/BitstreamSerializer.hpp:88-91 | Injecting one field changes no value outside it |
| `Bitstream.InjectBits` | 3rdparty/rpl/include/RPL/Meta/BitstreamSerializer.hpp:69-96 | The byte-crossing loop puts exactly the low bits of the value at the offset; pieces beyond the end are dropped |
| `Bitstream.ExtractBits` | 3rdparty/rpl/include/RPL/Meta/BitstreamParser.hpp:66-101 | The byte-crossing loop collects exactly the bits at the offset; those beyond the end read as zero |
| `Bitstream.FieldInByte` | 3rdparty/rpl/include/RPL/Meta/BitstreamParser.hpp:66-101 | A field inside one byte is the byte shifted past the bits below it, modulo two to the width |
| `Bitstream.SerializeBitstream` | 3rdparty/rpl/include/RPL/Meta/BitstreamSerializer.hpp:234-258 | Packs all fields at the prefix sums of their widths |
| `Bitstream.ParseBitstream` | 3rdparty/rpl/include/RPL/Meta/BitstreamParser.hpp:116-134 | Unpacks all fields at the prefix sums of their widths |
| `Bitstream.SignedRoundTripIff` | 3rdparty/rpl/include/RPL/Meta/BitstreamSerializer.hpp:69-96 | Packing the two's complement pattern of a value of a signed type into clear bits and unpacking it gives the pattern back exactly when the field is as wide as the type, or the value is not negative and fits |
| `BitOps.LowIsRemainder` | 3rdparty/rpl/include/RPL/Meta/BitstreamSerializer.hpp:72-75 | Masking is the remainder modulo two to the width |
| `QuickSort.Partition` | 3rdparty/rpl/3rdparty/frozen/frozen/bits/algorithms.h:117-131 | Parts the range at the pivot; if the last element came after all others, the pivot does not end up last |
| `QuickSort.Sort` | 3rdparty/rpl/3rdparty/frozen/frozen/bits/algorithms.h:133-140 | A sorted rearrangement, and termination although the recursive range includes the pivot and can repeat once |
| `PerfectHash.Distribute` | 3rdparty/rpl/3rdparty/frozen/frozen/bits/pmh.h:99-111 | Succeeds exactly when no bucket of the hash overflows, and then each bucket holds the items of its hash value in order |
| `PerfectHash.FindSeed` | 3rdparty/rpl/3rdparty/frozen/frozen/bits/pmh.h:229-242 | A seed found sends the items of a bucket to free slots, all different |
| `PerfectHash.PlaceAll` | 3rdparty/rpl/3rdparty/frozen/frozen/bits/pmh.h:211-250 | Placing all buckets leaves those placed before where they are |
| `PerfectHash.MakePmhTables` | 3rdparty/rpl/3rdparty/frozen/frozen/bits/pmh.h:187-253 | Whatever tables come out send each key to its own index and any other key to an index or the sentinel |
| `PerfectHash.CorrectMeansDistinct` | 3rdparty/rpl/3rdparty/frozen/frozen/bits/pmh.h:196-199 | Tables that come out prove the keys distinct, although the check made for that compares other items |
| `PerfectHash.DetectRedundant` | 3rdparty/rpl/3rdparty/frozen/frozen/bits/pmh.h:196-199 | Reports exactly when a bucket has an index, above zero, at which the list of items repeats its first key |
| `RedundantKeys.AlwaysReportedIff` | 3rdparty/rpl/3rdparty/frozen/frozen/bits/pmh.h:189-199 | Repeated keys are reported under every hash function exactly when the first key is repeated at an index below the largest number of times a key occurs |
| `RedundantKeys.ReportedMeansRepeated` | 3rdparty/rpl/3rdparty/frozen/frozen/bits/pmh.h:196-199 | Keys that are all different are never reported |
| `RedundantKeys.RepeatedKeyMissed` | 3rdparty/rpl/3rdparty/frozen/frozen/bits/pmh.h:189-199 | The keys 0, 1, 1 in the buckets [0] and [1, 2] are not reported |
| `PerfectHash.FindIff` | 3rdparty/rpl/3rdparty/frozen/frozen/bits/pmh.h:175-182 | With these tables a key is found exactly where it is |
| `PerfectHash.SortBuckets` | 3rdparty/rpl/3rdparty/frozen/frozen/bits/pmh.h:85-89 | Each bucket once, larger ones first |

## Left out

- ReliableSessions.ReliableSession.Poll: does not model callbacks that call back into the session while it polls; they could invalidate the request bytes the retries point to.
- ProtocolStacks.ProtocolStack.HandlePacket: reports which handler or callback is called and does not run it; answers are separate calls, as in the run model.
- ProtocolStacks.ProtocolStack.RunOneCycle: handles the packets of a drain after the drain, not while the parser is still at work; ring and parser are passed to it.
- Sending.RetriesQueued: is stated for requests outside the range of telemetry, which later retries may displace; `Sending.RetriesDisplaceNothing` is not so restricted.
- Sending.HandOutsQueued: the same; `Sending.HandOutsStop` and `Sending.CycleSendsOldest` hold for all requests.
- PerfectHash.MakePmhTables: does not say that tables are found, which depends on the random seeds.
- BipBuffers.BipBuffer.Peek: returns the bytes instead of writing them to the caller's memory.
- Deserializers.Deserializer.WriteSegmented: the unsegmented `write` is the case of an empty second segment; bytes are copied one after the other there, and in any interleaving in `Seqlock`.
- Seqlock.StepKeeps: steps are sequentially consistent; memory barriers and the `before_get` hook are not modelled.
- IsrRing.StepKeeps: steps are sequentially consistent; `clear`, which must not run concurrently, is not modelled.
- Lines 157-158 of BipBuffer.hpp would commit a length that line 142 has already accepted; they cannot be reached and are not in the model. Forced wrapping (`get_write_buffer_force_wrap`) is not used by the parser.
- Second start bytes, protocols of fixed size and several start bytes in the parser, which the default protocol does not use.
- Wrap-around of ids, `set_next_tx_id` and `reset_device_state` within runs; the last two are outside the run model.
- Bodies and traits of the packet structures: a packet is a command and a payload, and packet types are parameters.
- `next_highest_power_of_two`, `LowerBound` and the other containers of the vendored library: not on the protocol path.
- Dispatch through thread-local pointers, serial and USB transport, logging, examples and build files: plumbing.
- `AckManager` and `USBTransport`: not used by the stack.
