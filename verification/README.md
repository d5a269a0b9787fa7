# Verification of the message pipeline

A Dafny model of a market-data pipeline written in C++: a slot pool and a lock-free ring shared by
threads, a double-buffered inlet between a feed writer and a feed reader, frame splitters and
decoders, producers that turn ticks into signals, consumers that turn signals into orders, a gateway
that confirms orders, and an SBE codec.

Check the whole project with `dafny verify dfyconfig.toml`.

## How the model is built

* A pointer to a pool slot is the slot's number; an empty ring cell is `None`. A slot's kind byte and
  body are one value of `Messages.Message`: the constructor is the kind.
* `Machine` has the machine words: 32-bit wrap-around, the bitwise mask of the ring cursors, division
  that truncates toward zero.
* `Ring`, `Pool`, `Ingress`, `FeedReader`, `Trading` and `SbeCodec` hold the components as objects and
  methods that run alone. Each method is proved against a specification function, and what the component
  is for is proved about that function.
* `Workers`, `Deliveries`, `WorkerRuns`, `FullRing` and `SoloRuns` are the concurrent program of pool,
  ring and worker threads. Every atomic operation and every access to a body is one step; any thread may
  take the next step; a weak compare-exchange may fail for no reason at any time. `History` and
  `Scan.mark` are records beside the program that no step depends on. Results are about every run of
  every number of threads, every capacity and every pool size.
* `Inlet`, `TornRead`, `LatestFrame` and `Lockstep` are the inlet protocol; each word of a frame slot is
  written and read in a step of its own. `FeedLine` puts a bounded pool and a bounded market queue
  behind it, with other threads taking messages and releasing slots at any time.
* `Framing`, `Decoding`, `FrameContents`, `Quotes` and `DemoFeed` go from bytes to messages and quotes.
  The LZ4 decompressor is a parameter, any partial function. A splitter's message handler is a parameter
  too, any function of the call; `Ingress` has the loops again with the real handler.
* `Strategy`, `TradingSteps`, `Pipeline`, `Orders`, `Causes`, `Submissions`, `Sequencing`, `Rotation`
  and `Standstill` are the trading side on queues of messages; `SlotSteps` and `SlotPipeline` carry it
  over to a pool and queues of slots, and `Trading` to the objects.

The main results are numbered 1 to 40 in the files.

## Model

| member | source | states |
|---|---|---|
| Machine.CapacityTestMeansPowerOfTwo | include/mpmc/mpmc.hpp:15-17 | the ring's capacity constraint accepts exactly the powers of two |
| Machine.CellIsCursorMod | include/mpmc/mpmc.hpp:43-52 | masking any 32-bit cursor, negative or wrapped, is the cursor modulo the capacity |
| Machine.BumpMovesOneCell | include/mpmc/mpmc.hpp:43-43 | fetch_add moves a cursor to the cyclically next cell, also across the wrap at 2^31 |
| Ring.RingRefinesQueue | include/mpmc/mpmc.hpp:38-86 | every sequential run of push, pop and try_pop gives the results of a bounded FIFO queue, blocks exactly where that one would, and ends as that queue: the full cells are the cyclic run from pop to post cursor |
| Ring.EveryCellIsProbed | include/mpmc/mpmc.hpp:75-77 | one lap of the masked scan visits every cell |
| Ring.FifoRoom | include/mpmc/mpmc.hpp:45-56 | a FIFO ring has a free cell exactly when the queue is shorter than the capacity, and a message exactly when it is not empty |
| Ring.NewRingIsEmpty | include/mpmc/mpmc.hpp:23-32 | a new ring is the empty queue |
| Ring.Mpmc.constructor | include/mpmc/mpmc.hpp:23-32 | a new ring is valid, FIFO and empty |
| Ring.Mpmc.Push | include/mpmc/mpmc.hpp:38-56 | null is ignored; otherwise the message lands in the first free cell cyclically from the ticket, within Capacity attempts; on a FIFO ring it is appended at the first attempt |
| Ring.Mpmc.Pop | include/mpmc/mpmc.hpp:59-70 | the first full cell from the ticket gives up its message; on a FIFO ring that is the head |
| Ring.Mpmc.TryPop | include/mpmc/mpmc.hpp:73-86 | fails exactly when no cell is full, and then changes nothing; on a FIFO ring it takes the head |
| Pool.IndexFindsSlot | include/mem/memory_pool.hpp:16-21 | an address has a valid index exactly when it lies in the pool, and the index is its slot: a foreign pointer, below or above, is ignored by release |
| Pool.TaggedPool.constructor | include/mem/memory_pool.hpp:37-45 | all slots start free |
| Pool.TaggedPool.Acquire | include/mem/memory_pool.hpp:50-63 | the first free slot, marked and cleared; null exactly when none is free; nothing else changes |
| Pool.TaggedPool.Release | include/mem/memory_pool.hpp:65-77 | a slot of the pool becomes free; null and a bad index change nothing |
| Pool.TaggedPool.AcquireFilled | include/mem/memory_pool.hpp:80-88 | the first free slot, holding the given message; null exactly when none is free |
| Workers.StepKeepsOwnership | include/mem/memory_pool.hpp:50-77 | every step of every thread, spurious failures included, keeps each acquired slot in one place |
| Deliveries.StepKeepsContents | include/mpmc/mpmc_runtime.hpp:158-211 | every step keeps the pushed messages intact, undelivered twice and unlost |
| WorkerRuns.FreshProgramStarts | include/mpmc/mpmc_runtime.hpp:213-218 | a new pool, a new ring and no worker is a start state |
| WorkerRuns.EverySlotHasOnePlace | include/mem/memory_pool.hpp:50-77 | in every reachable state a slot is acquired exactly when its pointer is in a ring cell or a thread's hand, and then in one only; slots held by others are never touched |
| WorkerRuns.NoBodyIsShared | include/mpmc/mpmc_runtime.hpp:172-196 | no two threads are ever about to touch the same body, nor is a body touched while its pointer is in the ring |
| WorkerRuns.EveryPushIsDeliveredOnce | include/mpmc/mpmc_runtime.hpp:20-33 | each consumer reads the sequence number, modulo 2^32, its push was made with; no push is delivered twice; every push is delivered or still carried, never both |
| WorkerRuns.CountersBalance | include/mpmc/mpmc_runtime.hpp:168-198 | initial ring + pushed + pushes not counted yet = ring + popped + pops not counted yet, in every state; without the uncounted ones when all workers are done |
| WorkerRuns.FailedTryPopMeaning | include/mpmc/mpmc.hpp:73-86 | after its last probe every message in the ring was pushed after the cursor load; with no push in between the ring is empty |
| WorkerRuns.PendingPushHasRoom | include/mpmc/mpmc.hpp:45-56 | with a pool no larger than the ring, a thread that holds a message to push finds a free cell in every reachable state |
| FullRing.FullRingIsReached | include/mpmc/mpmc_runtime.hpp:158-181 | with a larger pool, a run of producers with one operation each reaches a pending push on a full ring |
| FullRing.BlocksExactly | include/mpmc/mpmc.hpp:45-56 | some run of a new program leaves a push without a free cell exactly when the pool is larger than the ring |
| WorkerRuns.SoloPushSucceeds | include/mpmc/mpmc.hpp:43-56 | a push alone, without spurious failure, from its ticket on: the cursor moves one on, the message fills the first free cell cyclically from it after exactly that many attempts, and nothing else in the whole state differs |
| SoloRuns.SoloTakeSucceeds | include/mpmc/mpmc.hpp:73-86 | a try_pop alone takes the first full cell cyclically from the pop cursor, at the probe that finds it, and stores the cyclically next cell as the new cursor; nothing else in the whole state differs |
| SoloRuns.SoloTakeFails | include/mpmc/mpmc.hpp:73-86 | on an empty ring it gives up after one lap and nothing has changed |
| SoloRuns.TakenIsDelivered | include/mpmc/mpmc_runtime.hpp:192-197 | then the message is read, its slot released, the pop counted and one operation less is left |
| SoloRuns.SoloProduceSucceeds | include/mpmc/mpmc_runtime.hpp:166-177 | a producer's whole operation alone: the next number is drawn, written into the first free slot, pushed into the first free cell, and counted; one operation less is left; nothing else differs |
| SoloRuns.SoloProduceFails | include/mpmc/mpmc_runtime.hpp:168-171 | with no slot free the number is used up and the operation is over |
| SoloRuns.SerialRunsAreFifo | include/mpmc/mpmc.hpp:38-86 | in every run in which no two operations overlap and no exchange fails spuriously, for any number of threads: messages are delivered in exactly the order of their pushes, and between operations cells and cursors are those of the FIFO queue of the undelivered ones |
| Inlet.ReadsAreUntorn | include/feed/shared_inlet.hpp:77-106 | without any waiting, a read always has a published frame to read, and a completed read that at most one publish overlapped has read exactly the newest one at its start; the slot under a read is written only by every second publish |
| TornRead.TwoPublishesTear | include/feed/shared_inlet.hpp:77-106 | two overlapping publishes can tear a read: whatever three frames are published first, if the first and third have the same positive length, some run completes a copy with the header of the first and the payload of the third |
| Inlet.HeaderDecides | include/feed/feed_reader.hpp:64-81 | in any state of any slot: a header with another magic, no length or too great a length is acknowledged and not ingested; any other is ingested once its payload is read |
| LatestFrame.NewestFrameIsHandled | include/feed/feed_reader.hpp:53-116 | in every run, waiting or not: when the reader is idle, has acknowledged the current sequence number and the writer is not between its two stores, the last frame handled is the newest published, exactly as published |
| Lockstep.WritesAndReadsNeverOverlap | include/feed/multicast_receiver.hpp:133-135 | when the writer waits after each publish, body writes and reads never overlap and processed <= sequence <= processed + 1 |
| Lockstep.ReaderRefinesPublishedLog | include/feed/feed_reader.hpp:53-116 | with waiting, the reader handles every accepted frame once, in order, untorn, and the market queue receives exactly the decoded messages of the handled frames, in order |
| Lockstep.WaitEnds | include/feed/shared_inlet.hpp:70-75 | the wait ends after at most 1511 reader steps on every branch, whatever the schedule |
| FeedLine.LineDeliversLog | include/feed/frame_ingress.hpp:15-84 | with a bounded pool and queue, whoever takes messages and releases slots in between: the frames are handled as before; the messages taken and queued are, in order, the decoded messages that found a slot; the first messages, as many as there are slots, all find one, later ones are refused only when every slot is queued or taken; every slot is in one place |
| FeedLine.RefusedOnlyWhenFull | include/mem/memory_pool.hpp:80-88 | a message is refused only when every slot is queued or taken; with a pool no larger than the queue the reader never waits for room |
| FeedLine.WaitsSpin | include/feed/shared_inlet.hpp:70-75 | every wait of every run is one of which LineWaitEnds speaks, and the reader's moves left are at most 1511, two for each message of the frame not offered yet, and one for a message in its hand |
| FeedLine.LineWaitEnds | include/feed/shared_inlet.hpp:70-75 | with a pool no larger than the queue the wait ends, even if nobody takes a message, once the reader has made the moves it has left |
| FeedLine.FullQueueHoldsReader | include/mpmc/mpmc.hpp:45-56 | with a slot in hand and a full queue, which only a larger pool allows, the reader acknowledges nothing until somebody takes a message |
| Framing.SplitItchFrame | include/proto/itch_decode.hpp:31-61 | on any bytes: the handler sees exactly the bodies of the frame, in bounds, in order, disjoint; saved + skipped = calls; consumed is the exact total, plus two on a bad prefix |
| Framing.ItchSplitInvertsEncode | include/proto/itch_decode.hpp:31-61 | splitting encode(xs) followed by any tail calls the handler on exactly xs and then behaves as the split of the tail |
| Framing.SplitMtbtFrame | include/proto/mtbt_decode.hpp:63-95 | on any bytes on which it stops, the handler gets exactly the packets the 64-bit arithmetic selects, and the final offset is reported |
| Framing.StopsWithinLength | include/proto/mtbt_decode.hpp:72-91 | the loop terminates exactly when it stops within as many handler calls as the frame has bytes |
| Framing.NegativeLengthLoops | include/proto/mtbt_decode.hpp:78-80 | a sign-extended length of -8 passes the bounds test and makes the loop go round for ever: a concrete frame |
| Framing.ForwardFrameSplits | include/proto/mtbt_decode.hpp:63-95 | when no reached header steps back the loop stops, and handler calls and consumed bytes are those of the plain split |
| Framing.ForwardFrameInOrder | include/proto/mtbt_decode.hpp:63-95 | on such frames the packets are in bounds, back to back and in order, and consumed is their exact total |
| Framing.ForwardExactly | include/proto/mtbt_decode.hpp:78-80 | for every frame on which the loop stops: the ranges are in bounds, are in order, and are those of the plain split, each exactly when no reached header at offset o holds a length from -o to -1 |
| Framing.CallsInBoundsExactly | include/proto/mtbt_decode.hpp:72-91 | on every frame, also one on which the loop never stops: the first n calls are in bounds exactly when no header steps back or n is at most the number of packets of the plain split |
| Framing.CallsFollowSplit | include/proto/mtbt_decode.hpp:72-91 | up to there the calls are, in order and back to back, those of the plain split |
| Framing.FirstStepBack | include/proto/mtbt_decode.hpp:78-80 | the next call is that of the header at which the plain split ends, which steps back and hands over a wrapped length |
| Framing.NonNegativeStepsForward | include/proto/mtbt_decode.hpp:78-80 | a frame without negative lengths steps back nowhere |
| Framing.MtbtSplitInvertsEncode | include/proto/mtbt_decode.hpp:63-95 | splitting encode(xs) followed by any tail gives exactly xs and then the split of the tail; whether a header steps back depends on the tail alone |
| Framing.SplitterInvertsEncode | include/proto/mtbt_decode.hpp:63-95 | the loop itself hands over exactly xs and then the split of the tail, exactly when no header reached in the tail steps back |
| Decoding.ItchBodyReadsBack | src/main.cpp:44-49 | a built ITCH body decodes, and shares, price and stock read back |
| Decoding.MtbtPacketReadsBack | src/main.cpp:63-77 | a built MTBT packet is well-formed, and token, price and quantity read back |
| Decoding.AppendItchAddOrder | src/main.cpp:41-57 | the framed order lands at the offset; bytes before and after stay; the offset moves past it |
| Decoding.AppendMtbtOrder | src/main.cpp:59-78 | likewise for an MTBT order |
| Decoding.BuildItchFrame | src/main.cpp:121-124 | calling the ITCH append again and again from offset 0 builds exactly the encoding of the orders' bodies; bytes behind it stay |
| Decoding.BuildMtbtFrame | src/main.cpp:126-129 | likewise for MTBT orders |
| Decoding.OtherFieldsReadBack | src/main.cpp:44-71 | locate and side of a built ITCH order, and length, stream, sequence number and side of a built MTBT packet, stand at their offsets |
| FrameContents.RejectedFramesAddNothing | include/feed/feed_reader.hpp:64-101 | an empty or over-long frame, one of no known kind, or a compressed one with a bad length, not to be decompressed or decompressed to another length, adds nothing |
| FrameContents.ItchFrameHolds | include/proto/itch_decode.hpp:20-27 | on any bytes: exactly the messages of 36 bytes that begin with 'A' among those the splitter finds, in order |
| FrameContents.BuiltItchFrameDecodes | include/proto/itch_decode.hpp:20-27 | a frame built of any messages puts exactly the add orders among them on the queue, in order; foreign types and sizes are dropped |
| FrameContents.AppendedItchOrdersArrive | src/main.cpp:154-155 | any orders appended to a frame and published arrive, all and in order |
| FrameContents.SentBytesHold | include/feed/feed_reader.hpp:83-108 | on any bytes on which the splitter stops, sent plain or compressed: exactly the orders among the packets of the bytes themselves |
| FrameContents.BuiltMtbtFrameDecodes | include/proto/mtbt_decode.hpp:42-59 | packets of any builder, sent plain or compressed: exactly those of 34 bytes and type N, M or X arrive, in order; a compressed frame is ingested decompressed |
| FrameContents.AppendedMtbtOrdersArrive | src/main.cpp:156-157 | any MTBT orders appended to a frame and sent plain or compressed arrive, all and in order |
| FrameContents.TopOfBookArrives | include/feed/frame_ingress.hpp:62-84 | an MCX frame of 56 bytes is one message; of any other size it holds nothing |
| Quotes.TopOfBookIsRead | include/trading/producer.hpp:269-295 | a published top of book arrives, and its producer reads bid quantity, security, at most nine characters of the symbol, and the middle of bid and ask |
| Quotes.BestBidOfferIsRead | include/trading/producer.hpp:190-218 | the SBE producer reads the middle of bid and ask and the bid size, each shifted by its own exponent, the update number and at most nine characters of the symbol |
| Quotes.ShiftMeans | include/proto/sbe/common.hpp:121-138 | a shift multiplies by a power of ten, or divides by it and drops the digits behind the point |
| DemoFeed.WhatIsSentArrives | src/main.cpp:119-163 | for any run of publish calls with ITCH orders, MTBT orders plain or compressed and tops of book: every frame is accepted and ingested, and its messages are exactly the orders and quotes sent, in order |
| Ingress.Offer | include/feed/frame_ingress.hpp:22-34 | a decoded message gets a free slot and is appended; without a message or a free slot nothing changes; no slot in use is touched |
| Ingress.IngestItchFrame | include/feed/frame_ingress.hpp:15-35 | the frame's decodable messages are appended in order until the pool is exhausted; each takes one slot, the rest none; saved, skipped and consumed are exact |
| Ingress.IngestMtbtFrame | include/feed/frame_ingress.hpp:37-60 | likewise, on any bytes on which the splitter stops |
| Ingress.IngestMcxTobFrame | include/feed/frame_ingress.hpp:62-84 | only a frame of exactly one message is taken, and only if there is a slot; otherwise the stats are zero and nothing changes |
| FeedReader.SharedInlet.Publish | include/feed/shared_inlet.hpp:84-106 | null or over-long data changes nothing; otherwise the unpublished slot gets the frame, word for word, and is published; the other slot keeps every word |
| FeedReader.Reader.constructor | include/feed/feed_reader.hpp:30-39 | the current sequence number is taken as seen |
| FeedReader.Reader.Load | include/feed/feed_reader.hpp:64-101 | none exactly on the rejecting branches; the payload of a plain frame; the decompressed bytes of a compressed one |
| FeedReader.Reader.RunOnce | include/feed/feed_reader.hpp:56-115 | nothing new: nothing changes; otherwise every branch acknowledges, and the queue gains exactly the frame's messages there are slots for, in order |
| FeedReader.PublishAndRead | src/main.cpp:144-152 | one publish and the pass waited for: the queue gains the accepted frame's messages there are slots for |
| FeedReader.PublishAll | src/main.cpp:154-163 | a whole run of such calls with the real pool and queue: the queue gains exactly the decoded messages of the accepted frames that found slots, in order, the pool loses as many slots, and every accepted frame is acknowledged |
| Strategy.RefStaysInRange | include/trading/strategy.hpp:11-17 | for positive prices the reference stays between the least and the greatest price seen |
| Strategy.DistanceShrinks | include/trading/strategy.hpp:11-17 | under a price the distance shrinks strictly while above 7; the reference is fixed exactly when it is at most 7 |
| Strategy.ConstantPriceSettles | include/trading/strategy.hpp:11-17 | how far the reference is from a constant price after n ticks |
| Strategy.SilentExactly | include/trading/producer.hpp:44-55 | after as many ticks at a price p as the reference is away from it the reference has stopped, within 7 of p, and from then on a tick is silent exactly when the band there is not positive or wider than the distance left: for every band width |
| Strategy.NarrowBandSignalsForEver | include/trading/strategy.hpp:19-37 | with the default band, a reference from 7991 to 7993 and price 8000, every tick is a sell |
| Strategy.ConstantPriceFallsSilent | include/trading/producer.hpp:44-55 | so at a constant price no tick signals after as many as the reference was away from it, when the band is at least 8 near the price |
| Strategy.BandIsWide | include/trading/strategy.hpp:25-28 | which prices and band widths meet that condition |
| Strategy.EvaluateMeans | include/trading/strategy.hpp:19-37 | without division: buy exactly when ref * bps is at least 10000 and 10000 (ref - price + 1) exceeds it; sell with price - ref + 1 |
| Strategy.NothingToEvaluate | include/trading/strategy.hpp:21-28 | no signal for a price, reference or width that is not positive |
| Strategy.SignalDirection | include/trading/strategy.hpp:19-37 | the first tick never signals; buy means below the old reference, sell above it |
| Strategy.BuyIsMonotone | include/trading/strategy.hpp:19-37 | a lower price than one that signals buy signals buy exactly when its band is positive |
| Strategy.SellIsNotMonotone | include/trading/strategy.hpp:19-37 | the sell side is not monotone: concrete prices |
| Strategy.SellSurvivesARaise | include/trading/strategy.hpp:11-37 | for bands up to the reference: exactly when raising a selling price loses the signal |
| Strategy.SellSurvivesExactly | include/trading/strategy.hpp:11-37 | for every band: the signal is lost exactly when the band grows by more than the old slack and the raise leave |
| Strategy.LargeRaiseKeepsSell | include/trading/strategy.hpp:11-37 | for bands below seven times the reference a large enough raise always keeps the signal |
| TradingSteps.ApplyExponent | include/proto/sbe/common.hpp:121-138 | repeated multiplication or truncating division by ten is one scaling by a power of ten, rounded toward zero once |
| TradingSteps.SbeMidIsBetween | include/trading/producer.hpp:192-194 | the mid price lies between the scaled bid and the scaled ask |
| TradingSteps.McxMidIsBetween | include/trading/producer.hpp:271-272 | the mid price lies between bid and ask |
| TradingSteps.SymbolNamesToken | include/trading/producer.hpp:134-137 | the symbol is TKN and the token cut to nine characters, the series EQ; the text names the token exactly when the token, with its sign, has at most six characters |
| TradingSteps.SideOfSignal | include/trading/producer.hpp:44-61 | a signal buys exactly below the reference before the tick and sells exactly above it, the first tick gives none, and the reference moves as the strategy says |
| TradingSteps.ConfirmKinds | include/trading/gateway.hpp:123-173 | exactly requests are confirmed, by confirmations |
| TradingSteps.OuchTokenRoundTrip | include/trading/gateway.hpp:16-23 | the token text has 14 characters and parses back, for every uint32 |
| Pipeline.PipelineConserves | include/trading/consumer.hpp:28-61 | in every run: queue typing, and per feed emitted = queued signals + pending orders + numbered orders |
| SlotPipeline.SlotsRefinePipeline | include/mem/memory_pool.hpp:50-88 | in every run on a pool of any size: a slot is acquired exactly when it stands in exactly one place in the four queues, and the run seen as messages is the run of the pipeline without the ticks that found the pool full |
| SlotPipeline.AcquiredSlotsAreQueued | src/main.cpp:299-327 | in every run as many pool slots are acquired as stand in the four queues: nothing leaks |
| Orders.OrderDataIsConserved | include/trading/gateway.hpp:117-177 | in every run, for every feed: confirmations are numbered 1..k, and their order data with that still queued is, as a multiset, exactly the order data of the signals emitted |
| Orders.ConfirmationsMatchSignals | include/trading/consumer.hpp:48-60 | for every feed whose confirmations name the order, with fewer than 2^32 signals: each confirmation names exactly one emitted signal and carries its data; different confirmations answer different signals |
| Orders.OuchConfirmationsMatchSignals | include/trading/gateway.hpp:124-134 | for OUCH: the 14-character token parses to the signal's number, and side, shares, stock and price are that signal's; references are 1..k |
| Orders.TokensRepeatExactly | include/trading/producer.hpp:62-62 | in every run of any length two signals of a feed share a token exactly when a multiple of 2^32 signals lies between them |
| Orders.SignalKeepsTick | include/trading/producer.hpp:57-63 | shares and price of an ITCH tick survive the casts to int32 and back |
| Orders.SignalKeepsMtbtOrder | include/trading/producer.hpp:128-137 | a signal for a built MTBT order carries its token, price and quantity |
| Orders.ConfirmationNamesAccount | include/trading/gateway.hpp:41-100 | trader, symbol and security of the consumer's account come back on the confirmation |
| Causes.SignalsFollowTicks | include/trading/producer.hpp:44-75 | in every run ticks are routed in the order of arrival, and each producer and its log of signals are what its own feed's routed ticks make of a new producer, whatever else runs |
| Causes.SignalsHaveTicks | include/trading/producer.hpp:57-75 | in every run, for every feed and any number of signals: each emitted signal has a routed tick of its own, with the tick's price, quantity and instrument, the next token, and, for positive prices, the side on which the price lies of the average of the prices before |
| Causes.ConfirmationsHaveTicks | include/trading/gateway.hpp:117-177 | on every feed whose confirmations name the order, with fewer than 2^32 signals: each confirmation has a routed tick of its own, the one that caused the signal it answers, and repeats its data; no two have the same |
| Submissions.OrdersSaySignals | include/trading/consumer.hpp:48-60 | in every run, for every feed: side, quantity, price, token and stock, symbol or series of the signals queued and the orders submitted are, as a multiset, exactly those of the signals emitted; every order names the account; the pending orders are the last submitted |
| Submissions.ConfirmationsFollowOrders | include/trading/gateway.hpp:117-177 | in every run, for every feed: the i-th confirmation has the number i + 1 and the data of the i-th order submitted |
| Submissions.ConfirmationsAreCollected | src/main.cpp:314-327 | in every run the confirmations leave the confirm queue in the order in which they were made |
| Sequencing.McxConfirmationsInSequence | include/trading/consumer.hpp:231-231 | in every run the MCX confirmations carry sequence and order numbers 1, 2, 3, ... in that order |
| Sequencing.ConfirmationsAreStamped | include/trading/gateway.hpp:79-100 | in every run the MCX confirmations carry execution numbers 1, 2, 3, ... and the SBE ones the order id exch-oid |
| Rotation.LapIsFilter | include/trading/consumer.hpp:84-121 | n polls on n messages leave exactly the other feeds' signals in order and append exactly the orders of its own |
| Rotation.OrdersCounted | include/trading/consumer.hpp:60-60 | submitted grows by one for each of those orders |
| Rotation.SomethingLeavesUnlessStuck | src/main.cpp:107-114 | within three laps a signal leaves exactly when the queue is not stuck; a stuck queue rotates for ever |
| Rotation.StuckExactly | src/main.cpp:107-114 | a queue is stuck exactly when its length is a multiple of 3 and each signal stands where the wrong consumer meets it; any other length loses a signal within 3n polls |
| Rotation.DrainingEnds | src/main.cpp:107-114 | round-robin reaches an empty or stuck queue within 3(n + ... + 1) polls |
| SlotSteps.TickSlotsRefines | include/trading/producer.hpp:44-75 | on slots, a tick is OnTick on messages: the slot is freed or carries the signal on; every slot stays in one place and no other queue sees a change |
| SlotSteps.PollSlotsRefines | include/trading/consumer.hpp:28-61 | a consumer's poll on slots is Poll on messages; a slot is freed exactly when its message is dropped |
| SlotSteps.AnswerSlotsRefines | include/trading/gateway.hpp:117-177 | the gateway's poll on slots is PollGateway on messages |
| Trading.FeedConsumer.PollOnce | include/trading/consumer.hpp:145-184 | pool, both queues and counters change exactly as the slot step, for each of the four consumers |
| Trading.ExchangeGateway.Number | include/trading/gateway.hpp:123-173 | the confirmation of a request and the counters after it |
| Trading.ExchangeGateway.PollOnce | include/trading/gateway.hpp:117-177 | pool, both queues and counters change exactly as the slot step |
| Trading.FeedProducer.OnTick | include/trading/producer.hpp:44-75 | with an owned slot, exactly the slot step; without one, a signal takes a free slot, and when there is none the token is used up and the signal lost |
| Trading.RouteMarketTick | src/main.cpp:80-105 | a tick reaches the producer of its kind and no other; anything else is released; null changes nothing; queue room is needed only for a signal |
| Trading.RoutedMeans | src/main.cpp:80-105 | exactly the ITCH, MTBT and MCX ticks of the right size are routed |
| Trading.DrainSignals | src/main.cpp:107-114 | after r rounds the signal queue, the pending queue and the three consumers are those of 3r polls in turn, and every slot is in one place |
| Rotation.TakenSignalsArrive | src/main.cpp:107-114 | after any number of polls in turn: the signals that have left and those still queued are together exactly the old ones, and behind the old pending orders stands, in order, the order of each that has left, made by its own feed's consumer with that account and the counters of that moment; the consumers' counters are those after exactly these orders |
| Rotation.TakenSignalsCounted | src/main.cpp:107-114 | so orders and signals together stay as many, and the counters go up by the number of orders |
| Standstill.StuckQueueStandsStill | src/main.cpp:107-114 | on a stuck queue any number of polls changes nothing in the whole system but the order of the queue |
| Standstill.StandstillIsReached | src/main.cpp:299-308 | a run from the start reaches such a queue: two ticks on each of three feeds, for every first price from 8000 to 65535; after any number of polls all three signals are still queued and none is submitted |
| Sbe.BestObRoundTrip | include/proto/sbe/decode.hpp:153-169 | decode(encode(m)) restores body and symbol exactly when the symbol has at most 15 characters |
| Sbe.BestObWireRoundTrip | include/proto/sbe/decode.hpp:46-71 | encode(decode(w)) = w for accepted frames of exact length with the canonical header |
| Sbe.FastRespRoundTrip | include/proto/sbe/decode.hpp:187-207 | decode(encode(m)) restores body and ids exactly when both have at most 31 characters |
| Sbe.FastRespWireRoundTrip | include/proto/sbe/decode.hpp:97-126 | encode(decode(w)) = w for accepted frames of exact length with the canonical header |
| Sbe.BestObBegins | include/proto/sbe/decode.hpp:153-169 | an encoded tick begins with the bytes 98 0, 20000, 1, 0, then body, length and characters |
| Sbe.FastRespBegins | include/proto/sbe/decode.hpp:187-207 | an encoded response begins with the bytes 60 0, 21000, 1, 0, then body, order id, link id |
| Sbe.BestObAccepted | include/proto/sbe/decode.hpp:46-71 | exactly which bytes the tick decoder accepts |
| Sbe.FastRespAccepted | include/proto/sbe/decode.hpp:97-126 | exactly which bytes the response decoder accepts |
| Sbe.BestObRefused | include/proto/sbe/decode.hpp:46-71 | what a refused tick leaves in the struct |
| Sbe.FastRespRefused | include/proto/sbe/decode.hpp:97-126 | what a refused response leaves in the struct, at each point of failure |
| Sbe.CreateOrderBegins | include/proto/sbe/decode.hpp:171-185 | an encoded order begins with the bytes 242 0, 5, 2, 2, then the order |
| Sbe.CreateOrderAccepted | include/proto/sbe/decode.hpp:73-95 | exactly which bytes the order decoder accepts |
| Sbe.AckFields | include/trading/gateway.hpp:61-85 | category, side, status, price, quantity left, number and symbol of an acknowledgement stand at their offsets |
| Sbe.CreateOrderRoundTrip | include/proto/sbe/decode.hpp:73-95 | every encoded order decodes to itself, whatever follows it |
| Sbe.AckRoundTrip | include/trading/gateway.hpp:61-85 | an acknowledgement comes back from the wire, body and both ids, exactly when the request's link id has at most 31 characters |
| Sbe.ConsumerAcksSurvive | include/trading/consumer.hpp:177-183 | every acknowledgement of an order the SBE consumer makes comes back, with the order's own link id |
| SbeCodec.AppendVarString8 | include/proto/sbe/decode.hpp:139-151 | nothing when the string does not fit; otherwise length and characters at the offset, the rest of the buffer unchanged |
| SbeCodec.EncodeBestObRpi | include/proto/sbe/decode.hpp:153-169 | 0 and no change when the buffer is too small, else the encoding at its start and the rest unchanged |
| SbeCodec.EncodeFastOrderResp | include/proto/sbe/decode.hpp:187-207 | likewise |
| SbeCodec.EncodeCreateOrderReq | include/proto/sbe/decode.hpp:171-185 | likewise |
| SbeCodec.Text.Read | include/proto/sbe/decode.hpp:24-44 | the length-prefixed string is bounds-checked, copied and terminated; the rest of the buffer stays; failures leave the string alone |
| SbeCodec.FastOrderResp.Decode | include/proto/sbe/decode.hpp:97-126 | the out parameter after a decode, successful or not |
| SbeCodec.BestObRpi.Decode | include/proto/sbe/decode.hpp:46-71 | the out parameter after a decode, successful or not |

## Where the model meets the code's edges

* The ring's template constraint admits capacity 0; the model requires a positive capacity that fits an
  `int`.
* `push` on a full ring and `pop` on an empty one do not return; the methods that push require room,
  and the protocol results say when there is room.
* Signed overflow that C++ leaves undefined (`slot + probe` in `try_pop`, `ref * band_bps`) is modelled
  as two's-complement wrap; the strategy results say for which products nothing wraps.
* An MTBT length below zero is sign-extended and can pass the bounds test: a header at offset o that
  holds -k sends the splitter back exactly when k is at most o, and is rejected otherwise.
  `ForwardExactly` says that this is exactly when order, bounds and plain split fail. Termination has its
  own exact condition, `StopsWithinLength`, and the splitter's results are stated for exactly the frames
  on which it stops (`StopsIn`). Both can be checked before the call.
* A round-robin over a queue such as [MTBT, MCX, ITCH] rotates for ever: `StuckExactly` says which
  queues do, and `StandstillIsReached` that the pipeline gets there.
* A reader that is not waited for can put a frame together from two: `TwoPublishesTear`.
* The encoder accepts a 16-character symbol and 32-character ids that the decoder refuses.

## Left out

- The `Runtime` class: the worker threads are a state machine of atomic steps on values, because two methods of one object cannot interleave in Dafny; its random choices, sleeps, joins, `live_threads_` and the limit of 32 threads are choices of the schedule or not modelled, and nothing is claimed about `stop()` returning.
- Weak memory ordering: all steps are sequentially consistent.
- FIFO order when operations overlap or after a spurious compare-exchange failure: it does not hold, and nothing is claimed; without either it is `SoloRuns.SerialRunsAreFifo`.
- Framing.SplitMtbtFrame: a handler call on a wrapped length gets a packet with that length, not the bytes behind the frame it would reach.
- Ingress.IngestMtbtFrame: the loop tests are those of `NextPacket`, which `SplitMtbtFrame` is proved to follow.
- FeedReader.Reader.RunOnce: the branches that acknowledge and continue are one call of `Load` and one acknowledgement; the `running_` flag and the thread are left out.
- Inlet.ReadsAreUntorn: the reader model copies the six header words before any branch looks at them, which reads at least what the code reads.
- Pipeline.PipelineConserves: the demo's separate SBE queues and gateway are part of one pipeline with four feeds, and the queues are never full; the count of acquired slots is a plain number there and the pool's own in `SlotPipeline`.
- Trading.FeedConsumer.PollOnce: `encode_signal` and `decode_signal` are the constructor and the test of a message value, not a byte copy; constant struct fields, second copies of a field and fields the program never sets are omitted.
- Trading.ExchangeGateway.PollOnce: the NNF order number is an integer, not a double; 64-bit counters do not wrap.
- TradingSteps.ApplyExponent: 64-bit overflow of the scaled mantissa is not modelled, nor is that of the sum of bid and ask.
- Strategy.SellSurvivesARaise: bands up to the reference only; `SellSurvivesExactly` is for every band.
- Lockstep.ReaderRefinesPublishedLog: the market queue is an unbounded history there; pool and queue are added, with other threads at work on both, by `FeedLine.LineDeliversLog`.
- FeedLine.LineDeliversLog: a frame's messages are decoded at once and offered one by one, where the code decodes each just before it offers it; the frame does not change in between. Who releases a slot, and after which steps, is left to the schedule.
- Inlet.sequence and the counters `pushed_`, `popped_`, `submitted_`, `signals_` and `confirms_` do not wrap at 2^64.
- The producers' own `poll_once` on a mixed market queue: `main.cpp` routes instead.
- Sockets, polling, the multicast hub and its simulator: I/O; only publish-then-wait is kept.
- `mmap`, `mlock`, regions, page sizes and cache-line layout: foreign calls; pool and ring are plain arrays.
- LZ4 itself: any partial function stands for the decompressor.
- MCX wire codecs, `split_sbe_frame`, enum tables and `slot_size`: one-branch or finite facts.
- Null frame pointers handed to a splitter or decoder: they are the empty byte string, which is refused in the same way.
