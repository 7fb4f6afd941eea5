# mm-engine: a verified model

mm-engine is a low-latency market maker. Market data and execution reports
arrive by FIX, pass through single-producer/single-consumer rings to one
strategy thread, and the strategy's orders leave through another ring and a
sender thread. This project models those parts in Dafny and proves what their
comments, the repository's README and its mock exchange promise of them.

| files | what they model |
|---|---|
| `Common`, `Machine64`, `Fifo`, `RingMachine`, `RingWords`, `SpscRing` | the ring: interleaved atomic steps with stale acquire loads, the bounded queue it refines, uint64 counters and masked indices, and the two operations as methods on an array |
| `Events`, `OrderManager`, `MarketMaker`, `QuoteRules`, `BookDecisions`, `QuoteSystem`, `StatusRule` | order slots, decisions, their thresholds written out, and the messages that cause them; the quote protocol as one system of strategy, rings, sender and venue; the claim that the engine never double-quotes, and the exact venue behaviour it rests on |
| `QuoteFills`, `TradeReports`, `CancelDiscipline`, `PhantomQuotes`, `Convergence`, `Ranking`, `CancelAcks` | fills conserved and what each event tells of its trade, commands over whole runs, reports without an id, convergence with a ranking measure and its exact condition, and what can free a slot |
| `Buckets`, `Histogram`, `LockFreeMax`, `HighWater` | the latency histogram, its percentiles read while others record, the lock-free maximum, and the queue high-water marks |
| `Decimal`, `FixCodec`, `Envelope`, `Framing`, `MockSession`, `MockReplies`, `ReplyFields` | the mock exchange: FIX text, its envelope, the stream splitter, the session and its replies, tag by tag |
| `BookFeed`, `Vwap`, `Persister`, `ObjectPool` | snapshot decoding into books, the depth-weighted price, the batch persister, the free-list pool |

## How to read the model

- The rings inside the quote protocol are FIFO queues whose pushes may be
  refused at any time; that this is what the ring provides is the result of
  the first group. A load of the opposite index may return any value between
  the last one that thread saw and the current one.
- The venue is nondeterministic: it accepts, refuses or ignores what it
  receives, trades, cancels on its own, confirms cancels under either id, and
  may send reports of earlier sessions and repeat any report it ever sent.
  Commands and reports may be dropped.
- A quote slot is numbered `2 * symbol + side`. A report without ClOrdID is
  decoded as id 0, which empty slots also hold; such reports are among those
  of earlier sessions and the safety results cover them.
- Prices and quantities are reals, machine words are written out modulo 2^64.

## Where the code does less than it says

- **Status rule.** A trade that leaves quantity open but does not carry
  OrdStatus `1` is decoded as a complete fill, the slot is freed and quoted
  again: `StatusRule.SafeIffStatusRule` shows that this is exactly the venue
  behaviour that breaks the claim of README.md:50-52. A trade that completes an
  order under OrdStatus `1` is decoded as a partial one, and the slot waits
  forever (`CancelAcks.FreedIffNotCalledPartial`).
- **Cancel confirmations.** `on_exec` matches on ClOrdID only, and the mock
  confirms a cancel under the request's id: the slot then waits forever
  (`CancelAcks.FreedIffOwnId`, `MockReplies.CancelConfirmedUnderRequestId`).
- **Lost commands and reports.** A new order dropped while logged off, or a
  last report the ring refuses and the venue does not repeat, leaves the slot in
  use for good (`CancelAcks.FreedIffSent`, `CancelAcks.FreedIffReportedAgain`). What can
  free a slot at all is `CancelAcks.FreeableIffEndInSight`.
- **Reports without ClOrdID.** They are decoded as id 0, which empty slots
  hold: a New report of this kind turns an empty slot into a phantom Live
  quote, and a narrow market cancels an order that never was
  (`PhantomQuotes.UnnamedAckMakesPhantom`). `PhantomQuotes.UnnamedIsSafeIffItFits`
  shows that this takes a New report that can meet an empty slot, and nothing else.
- **Repeated reports.** No quote is doubled by them, but an acknowledgement
  that comes twice makes a quote Live that is being cancelled, and a fill that
  comes twice is handed on twice: exactly when is
  `CancelDiscipline.RepeatedAckIsSafeIffItFits` and
  `QuoteFills.RepeatAgreesIffNoFill`.
- **Dropped fills.** A fill whose report the exec ring refuses never reaches the
  trade ring, and nothing else loses one (`QuoteFills.FillsArriveIffNoneDropped`).
- **Occupancy.** `size_approx` is sound for either end of the ring, but not
  for the metrics thread its comment names (`RingMachine.BystanderSize`).
- **Percentiles.** Reported values are not monotone between majors 4 and 5 and
  wrap from 63 * 2^57 on (`Buckets.UpperOrder`, `Buckets.ReportedWraps`).
- **Skipped decisions.** A wide market whose improved prices do not fit leaves
  the slot as it is, empty or not; `Ranking.AnsweredIffFits` shows that this
  and a tick that is not positive are exactly what prevents an answer.
- **One-sided books.** While one side of a book is empty nothing is decided, so
  Live quotes stand uncancelled; what withdraws a quote at all is
  `BookDecisions.QuoteStandsIff`.
- **Visible levels.** A depth limit below five clips the counts but not the
  arrays the depth-weighted price sums (`Vwap.VwapCountsVisibleIffNotClipped`).
- **Sequence numbers.** The numbers of market data events wrap at 2^32
  (`BookFeed.NumbersGrowIffFew`); no decision reads them.
- **Persister.** A transaction that does not open loses the record just popped
  (`Persister.DrainFails`, `Persister.PersistedIffOpened`), and a restart
  overwrites old records (`Persister.RestartOverwrites`). Keys sort in push
  order only while they have ten digits (`Persister.KeyOrderIsPushOrder`).
- **Framing.** A body field of tag 10 ends a message early
  (`Framing.FramedWholeIffNoTen`); messages behind a logout are handled or not
  depending on how the stream was cut (`MockSession.LogoutDecidesChunking`).
- **Reserved tag.** The parser stores its symbol list under `_symbols`, over a
  field of that tag (`FixCodec.ParseInvertsText`).
- **Pool.** Releasing a free object hands it out twice, and nothing else does
  (`ObjectPool.ReturnIsSafeIffHeld`).

## Model

| member | source | states |
|---|---|---|
| `RingMachine.SlotExclusion` | src/common/spsc_ring.hpp:42-46 | When the producer may write, the cell it writes is none of the unread cells, and not the one the consumer is about to read |
| `RingMachine.StepKeepsInv` | src/common/spsc_ring.hpp:39-61 | Every atomic step of either thread, with stale loads of the opposite index, keeps cached_tail <= tail <= cached_head <= head <= cached_tail + capacity and what each thread has established so far |
| `RingMachine.StepRefines` | src/common/spsc_ring.hpp:39-61 | Every atomic step is either invisible or exactly one enqueue, dequeue, refused push or refused pop of a bounded FIFO queue; refusals may be spurious only by as much as the load was stale |
| `RingMachine.RunRefines` | src/common/spsc_ring.hpp:39-61 | The same for whole interleavings: the labels of a run are accepted by the bounded queue and lead to the ring's contents |
| `RingMachine.PoppedIsPrefixOfPushed` | src/common/spsc_ring.hpp:39-61 | From an empty ring over any buffer: pushed values are the popped values followed by the contents, which never exceed the capacity |
| `Fifo.InOrder` | src/common/spsc_ring.hpp:38-61 | What a bounded FIFO accepts: nothing lost, invented or reordered, and never more than the capacity inside |
| `RingMachine.ProducerSizeIsSound` | src/common/spsc_ring.hpp:64-68 | Asked by the producer, the occupancy is head minus the tail it loaded, at most the capacity, whatever the consumer does between the two loads |
| `RingMachine.ConsumerSizeIsSound` | src/common/spsc_ring.hpp:64-68 | Asked by the consumer, with any head its acquire load may return, the occupancy is exact for that head and at most the capacity |
| `RingMachine.BystanderSize` | src/common/spsc_ring.hpp:63-68 | Asked by a third thread, the result is an occupancy if and only if the tail loaded second has not overtaken the head loaded first |
| `RingMachine.BystanderCanSeeUnderflow` | src/common/spsc_ring.hpp:63-68 | One push and one pop between the two loads of a third thread make the result 2^64 - 1: the use named in the source comment is unsound |
| `Machine64.MaskIsModulo` | src/common/spsc_ring.hpp:73 | Bitwise and with 2^k - 1 is the remainder modulo 2^k |
| `Machine64.WrapKeepsCell` | src/common/spsc_ring.hpp:46 | Reducing a counter modulo 2^64 first does not change its cell in a ring of any power-of-two capacity up to 2^63 |
| `RingWords.WordStepLifts` | src/common/spsc_ring.hpp:39-61 | A step on uint64 counters with subtraction tests and masked indexing is the image, modulo 2^64, of a step of the unbounded ring with the same outcome |
| `RingWords.UnboundedStepHasImage` | src/common/spsc_ring.hpp:39-61 | Conversely every step of the unbounded ring is such an image, for exactly one machine-word step |
| `RingWords.WordRunLifts` | src/common/spsc_ring.hpp:39-61 | Whole machine-word runs are images of unbounded runs with the same results, across any number of wraps |
| `RingWords.WordRingIsFifo` | src/common/spsc_ring.hpp:39-61 | What the compiled ring delivers: for every interleaving, stale load and wrap, an in-order bounded FIFO |
| `SpscRing.Ring.constructor` | src/common/spsc_ring.hpp:36 | A fresh ring is empty, over an arbitrary buffer |
| `SpscRing.Ring.TryPush` | src/common/spsc_ring.hpp:39-49 | A push appends the item and needs room; a refused push changes no element, and what is inside plus what was popped since the load used is the capacity |
| `SpscRing.Ring.TryPop` | src/common/spsc_ring.hpp:52-61 | A pop returns and removes the oldest element; a refused pop means that only elements newer than the load used are inside |
| `SpscRing.PushPass` | src/common/spsc_ring.hpp:39-49 | One uninterrupted pass of try_push is a run of producer steps of the interleaved machine with the result the method is specified by |
| `SpscRing.PopPass` | src/common/spsc_ring.hpp:52-61 | The same for try_pop |
| `SpscRing.WholePush` | src/common/spsc_ring.hpp:39-49 | try_push on machine words is try_push of the unbounded ring, with the effect promised on the queue, in both outcomes |
| `SpscRing.WholePop` | src/common/spsc_ring.hpp:52-61 | The same for try_pop |
| `OrderManager.Oms.constructor` | src/oms/order_manager.hpp:54 | All sixteen slots start empty, with ClOrdID 0 |
| `OrderManager.Oms.OnExecReport` | src/oms/order_manager.hpp:26-47 | A report moves the first of the symbol's two slots that holds its ClOrdID as its kind says, and nothing else |
| `MarketMaker.Strategy.CancelSlot` | src/strategy/market_maker.hpp:131-147 | Cancelling a side over the real ring: only from Live; PendingCancel exactly when the push succeeded; an id is used up either way |
| `MarketMaker.Strategy.RequoteSlot` | src/strategy/market_maker.hpp:107-129 | Requoting a side over the real ring, for either outcome of the push, is the requote of the QuoteRules rows: slot, seed and queue |
| `MarketMaker.Strategy.DecideOn` | src/strategy/market_maker.hpp:90-105 | Deciding on a symbol over the real ring, for either outcome of the pushes, is the decision of the QuoteRules rows |
| `MarketMaker.DecidePreserves` | src/strategy/market_maker.hpp:90-105 | Every property of slots, seed and ring that each requote and each cancel of a side keeps is kept by a decision |
| `MarketMaker.OneDecisionDoesNotCross` | src/strategy/market_maker.hpp:95-99 | A bid and an offer placed by one decision lie strictly inside the spread and at least half a tick apart |
| `QuoteRules.RequoteMovesIff` | src/strategy/market_maker.hpp:111-115 | With room in the ring a Live quote is pulled if and only if the wanted price is at least half a tick below or above it; otherwise nothing changes |
| `QuoteRules.RequotePlaces` | src/strategy/market_maker.hpp:117-128 | With room in the ring an empty slot comes to hold a new order at the wanted price, of the configured size and under a fresh id, and the command says the same |
| `QuoteRules.RequoteWaits` | src/strategy/market_maker.hpp:109-110 | A slot that waits for the venue is left alone, room or not |
| `QuoteRules.RequoteRefused` | src/strategy/market_maker.hpp:120-146 | In dry run or when the push is refused, only an id is used up, and only if a command was due |
| `QuoteRules.WideMarketIsQuoted` | src/strategy/market_maker.hpp:93-99 | Ask minus bid at least the configured spread and, less two ticks, at least half a tick: an empty bid slot holds bid plus a tick, an empty offer slot ask minus a tick, and a Live quote half a tick or more from there is pulled |
| `QuoteRules.NarrowMarketIsLeft` | src/strategy/market_maker.hpp:100-104 | Ask minus bid below the configured spread: each Live quote of the symbol is pulled when there is room, and nothing is placed |
| `QuoteRules.TightMarketIsSkipped` | src/strategy/market_maker.hpp:97 | Wide, but less than half a tick between the two improved prices: nothing at all happens |
| `QuoteRules.CommandsAreExplained` | src/strategy/market_maker.hpp:90-147 | Every command a decision sends matches what happened to its slot: a New one filled an empty slot with its price and size, a Cancel pulled the Live quote it names; at most two, and other symbols are untouched |
| `BookDecisions.HandlePop` | src/strategy/market_maker.hpp:67-75 | A popped snapshot leaves its book as the clipped projection, and the engine decides on it exactly when both sides are non-empty |
| `BookDecisions.QuoteStandsIff` | src/strategy/market_maker.hpp:75 | Through any sequence of snapshots a Live quote stands unchanged if and only if none of them, for its symbol and with both sides, finds room for the cancel and a narrow market, or a wide one whose fitting prices are elsewhere; otherwise it is being cancelled |
| `BookDecisions.WideMessageIsQuoted` | src/strategy/market_maker.hpp:67-99 | From message to slot: when the first bid and the first offer of a message are that far apart, both sides of its symbol are quoted one tick inside them |
| `BookDecisions.NarrowMessagePulls` | src/strategy/market_maker.hpp:67-104 | When they are closer than the configured spread, the Live quotes of its symbol are pulled |
| `BookDecisions.OneSidedMessageIsIgnored` | src/strategy/market_maker.hpp:75 | A message without a bid or without an offer changes no slot and sends nothing |
| `QuoteSystem.StepKeepsInv` | src/strategy/market_maker.hpp:107-147 | Every step of strategy, rings, sender or venue, repeated reports included, keeps the invariant: at most one live order a slot, named by the slot; no freeing report about a live order, now or ever sent; every report finds its symbol |
| `QuoteSystem.DecideKeepsInv` | src/strategy/market_maker.hpp:90-147 | A decision keeps the invariant whichever of its pushes are refused |
| `QuoteSystem.OnReportKeepsInv` | src/oms/order_manager.hpp:26-47 | Handling a report, of either id scheme and of earlier sessions, keeps the invariant |
| `QuoteSystem.TellAgainKeepsInv` | src/oms/order_manager.hpp:26-47 | Reports of earlier sessions and reports sent a second time, whatever they say, keep the invariant |
| `QuoteSystem.SendKeepsInv` | src/main.cpp:215-219 | Sending a command, or dropping it when logged off, keeps the invariant |
| `QuoteSystem.CloseKeepsInv` | src/oms/order_manager.hpp:38-42 | Closing an order at the venue and reporting it under its own or its cancel's id keeps the invariant |
| `QuoteSystem.RunKeepsInv` | src/strategy/market_maker.hpp:43-86 | The invariant holds along every admissible run in which the venue obeys the status rule |
| `QuoteSystem.NoDoubleQuote` | README.md:50-52 | In every reachable state each slot has at most one order queued, in flight or open, and it is the one its cl_ord_id names |
| `StatusRule.BrokenRuleQuotesTwice` | src/fix/fix_app.hpp:160-170 | From any state that satisfies the invariant, and not in dry-run: one trade that leaves quantity open without OrdStatus partially-filled has a continuation with two live orders in a slot |
| `StatusRule.SafeIffStatusRule` | src/fix/fix_app.hpp:160-170 | A venue step is safe for all futures if and only if it obeys the status rule |
| `QuoteFills.FillConservation` | src/strategy/market_maker.hpp:53-63 | On runs in which no report of a fill is dropped and none of this run is repeated: reported fills are, in order, those handed to the trade ring and those on the way; slot quantity plus handled fills is the quantity sent; every fill reports what the fills so far leave; an order reported filled has traded exactly that quantity |
| `QuoteFills.FillsArriveIffNoneDropped` | src/fix/fix_app.hpp:185-187 | Over every run, rule or no rule and with any repeats: reported fills are, in order, those handed to the trade ring and those on the way if and only if the exec ring refused no report of a fill |
| `QuoteFills.RepeatAgreesIffNoFill` | src/strategy/market_maker.hpp:53-63 | When a report is repeated, what the fills report as left agrees with what they add up to if and only if the report is not about a fill of this run |
| `QuoteFills.ReportFindsSlot` | src/oms/order_manager.hpp:26-47 | A report about an order of this run moves every slot that holds its id, so no slot misses a fill |
| `TradeReports.FieldsAreKept` | src/fix/fix_app.hpp:151-178 | The event has the report's ClOrdID, zero without one, its side, Buy exactly for '1', its symbol, and its price, quantity and rest of the trade |
| `TradeReports.ReportEffect` | src/oms/order_manager.hpp:26-47 | What a report makes of the slot it finds, in terms of ExecType and OrdStatus: '0' or none Live, 'F' with '1' the rest as quantity, other 'F' and '4' and '8' empty, any other type no change; no other slot changes |
| `TradeReports.UnknownIdIsIgnored` | src/oms/order_manager.hpp:29 | A report whose ClOrdID neither slot of its symbol holds changes nothing |
| `TradeReports.TradesAreHandedOn` | src/strategy/market_maker.hpp:55 | What goes to the trade ring is the reports of ExecType 'F', and nothing else |
| `TradeReports.HandedOnTradesWereMade` | src/strategy/market_maker.hpp:53-61 | On every run, whatever is lost, stray or repeated: an event handed to the trade ring about an order of this run has the price and quantity of a trade the venue made in that order, and side Buy exactly if the order's New command was for a bid slot |
| `TradeReports.FillsAreTheTrades` | src/strategy/market_maker.hpp:53-61 | If no fill is repeated, reported fills of this run's orders are one for one the venue's trades, with id, price, quantity and side; if none is dropped either, so are, in order, those handed to the trade ring and those on the way |
| `CancelDiscipline.CommandsAreDisciplined` | src/strategy/market_maker.hpp:116-164 | Over every run in which no acknowledgement is repeated to harm, ids of commands sent strictly increase, no order is the target of two cancels, and a cancel is sent only after the New report about its target was handled (targets of id 0 aside) |
| `CancelDiscipline.RepeatedAckIsSafeIffItFits` | src/oms/order_manager.hpp:31-34 | From every state of such a run: after a repeated acknowledgement no continuation cancels an order twice if and only if no slot holds the order, or a report in the exec ring frees that slot first, or the slot still waits and this is the first acknowledgement on its way |
| `CancelDiscipline.SecondAckCancelsAgain` | src/oms/order_manager.hpp:31-34 | The failing half as a run of the whole system: the second acknowledgement turns a quote being cancelled Live again, and its order is cancelled a second time |
| `PhantomQuotes.CancelTargetsAreOurs` | src/strategy/market_maker.hpp:131-147 | On runs in which no acknowledgement without a ClOrdID can meet an empty slot: every cancel sent targets an order of this run, and every slot in use holds one |
| `PhantomQuotes.UnnamedIsSafeIffItFits` | src/oms/order_manager.hpp:29-34 | From every state of such a run: after a report without ClOrdID no continuation cancels an order that never was if and only if the report is no acknowledgement, or both slots of its symbol are in use and no report in front of it empties one |
| `PhantomQuotes.UnnamedIsSafeIffNotNew` | src/oms/order_manager.hpp:29-34 | So a report without ClOrdID does no harm in any of these states if and only if it is not a New report |
| `PhantomQuotes.CancelsAreExact` | src/strategy/market_maker.hpp:131-147 | On runs without either kind of harmful acknowledgement every cancel targets an acknowledged order of this run, and no two the same one |
| `PhantomQuotes.UnnamedAckMakesPhantom` | src/oms/order_manager.hpp:29-34 | A New report without ClOrdID turns an empty slot Live with id 0, and a narrow market then cancels an order that never was |
| `Convergence.StepSound` | src/oms/order_manager.hpp:31-42 | While acknowledgements carry the order's own id, no report is lost and none repeated to harm, every pending slot is answered for by a command, an open order or a report on its way |
| `Convergence.ReachableSound` | src/oms/order_manager.hpp:31-42 | So in every state of a cooperative run |
| `Ranking.TickBudget` | src/strategy/market_maker.hpp:90-147 | Handling the standing snapshot lowers the slot's rank by exactly the number of commands it causes for it, in any state of the slot |
| `Ranking.RoundsLowerRank` | src/strategy/market_maker.hpp:90-147 | Each round, in which a snapshot meets this one slot at rest, lowers a positive rank, whatever the other slots do |
| `Ranking.AnsweredWithinTwoSnapshots` | src/strategy/market_maker.hpp:90-147 | From every cooperative state, two snapshots that meet the slot at rest bring it where it is wanted, with at most two commands: empty if ask minus bid is below the configured spread, else a live quote strictly between half a tick and one and a half ticks inside the best price of its side; it is there in every state of every quiet continuation, and causes no command ever again |
| `Ranking.AnsweredIffFits` | src/strategy/market_maker.hpp:90-105 | Every cooperative state is answered in this way if and only if ask minus bid is below the configured spread, or the tick is positive and the spread less two ticks is at least half a tick |
| `Ranking.UnfitRun` | src/strategy/market_maker.hpp:97 | While a wide market stands whose improved prices do not fit, no command is caused for the slot and an empty slot stays empty, along every quiet run |
| `Ranking.CanSettle` | src/strategy/market_maker.hpp:53-65 | A quiet system can always be brought to rest, in all slots, without a snapshot |
| `Ranking.RoundsExist` | src/strategy/market_maker.hpp:53-86 | Any number of such rounds can be carried out from every cooperative state |
| `CancelAcks.FreeableIffEndInSight` | src/oms/order_manager.hpp:26-47 | In every state of the invariant, some continuation frees a slot in use if and only if its order's end is on its way, or the order is open, or its command is still queued, or its end was reported before and the venue may repeat it |
| `CancelAcks.ClosedIsFreed` | src/oms/order_manager.hpp:26-47 | When an order leaves the venue with one report, some continuation frees its slot if and only if that report ends the order under its own id |
| `CancelAcks.RequestIdStrands` | src/fix/fix_app.hpp:151-152 | A confirmation that carries the cancel request's ClOrdID matches no slot and leaves the order's slot stranded, even if the venue repeats everything it sent |
| `CancelAcks.StrandedForever` | src/oms/order_manager.hpp:29 | A stranded slot stays in use under its id in every continuation, with or without repeated reports |
| `CancelAcks.FreedIffOwnId` | src/oms/order_manager.hpp:29 | When the venue closes and confirms the cancel of an open order, some continuation frees its slot if and only if the confirmation carries the order's own id, whatever is repeated |
| `CancelAcks.FreedIffNotCalledPartial` | src/fix/fix_app.hpp:167-170 | When a trade completes an order, some continuation frees its slot if and only if OrdStatus does not call the trade a partial fill |
| `CancelAcks.FreedIffSent` | src/main.cpp:215-219 | When a new order leaves the queue, some continuation frees its slot if and only if it was sent and not dropped while logged off |
| `CancelAcks.FreedIffReportedAgain` | src/fix/fix_app.hpp:185-187 | When the report that ends a slot's order reaches the execution ring, some continuation frees the slot if and only if the ring takes it, or another such report is on its way, or the venue may repeat it |
| `Buckets.Log2Floor` | src/common/latency_histogram.hpp:23-29 | The position of the leading one |
| `Buckets.Coarse` | src/common/latency_histogram.hpp:34-38 | For values of at least 32 the bucket is given by the leading six bits |
| `Buckets.IndexMono` | src/common/latency_histogram.hpp:34-40 | A larger sample never falls into an earlier bucket |
| `Buckets.IndexInRange` | src/common/latency_histogram.hpp:32-40 | Every int64 sample falls into one of the first 63 * 32 buckets |
| `Buckets.ReportedBound` | src/common/latency_histogram.hpp:80-85 | Below 63 * 2^57 the value reported for a sample exceeds v = x|1 by at most v/32, twofold below 32 |
| `Buckets.ReportedWraps` | src/common/latency_histogram.hpp:80-85 | From 63 * 2^57 on the value reported is the smallest int64, whatever the sample |
| `Buckets.UpperOrder` | src/common/latency_histogram.hpp:80-85 | Values reported for two ordered int64 samples are in order if and only if they avoid the corner between majors 4 and 5 and lie on the same side of 63 * 2^57 |
| `Histogram.LatencyHistogram.Record` | src/common/latency_histogram.hpp:32-45 | Recording is its three atomic steps, on one bucket, the count and the maximum; undisturbed it leaves a complete record of one more clamped sample |
| `Histogram.CompleteMaximum` | src/common/latency_histogram.hpp:39-45 | Once every call has done its three steps, the maximum is the largest sample recorded |
| `Histogram.LatencyHistogram.CopyBuckets` | src/common/latency_histogram.hpp:51-56 | The copy loop with any atomic steps of other threads before every load, and loads that may be as stale as the reader's earlier reads allow: bucket i holds what some prefix of the samples, none shorter than what the reader knew, put there |
| `Histogram.Walk` | src/common/latency_histogram.hpp:59-69 | The cumulative walk with its early exit yields, for 50, 90 and 99 per cent, the bound of the bucket of a sample with fewer than k per cent of the samples below it and at least k per cent at or below it |
| `Histogram.LatencyHistogram.Snapshot` | src/common/latency_histogram.hpp:50-71 | A snapshot taken while others are anywhere inside record reports, in this sense, the percentiles of samples that include all the reader knew before the copy and only those present at its end |
| `Histogram.SeenBetween` | src/common/latency_histogram.hpp:50-56 | The samples seen lie between the two ends of the copy, as multisets |
| `Histogram.SeenCounts` | src/common/latency_histogram.hpp:53-56 | Bucket by bucket those samples are what had been recorded when the bucket was loaded |
| `Histogram.RankedExists` | src/common/latency_histogram.hpp:59-61 | Every rank from 1 to n belongs to some sample |
| `Histogram.RankedIsPercentile` | src/common/latency_histogram.hpp:59-61 | A sample is the one of rank ceil(k n / 100) if and only if fewer than k per cent of the samples are below it and at least k per cent at or below it, counting positions |
| `Histogram.ReportsPercentiles` | src/common/latency_histogram.hpp:59-69 | So each of the three reported values is the bound of the bucket of such a sample |
| `Histogram.RankedReaches` | src/common/latency_histogram.hpp:62-68 | The bucket in which the running count reaches rank r is the bucket of the r-th smallest sample |
| `Histogram.PercentileAccuracy` | src/common/latency_histogram.hpp:50-85 | Each reported percentile p satisfies v < p <= v + v/32 (v < p <= 2v below 32) for v = x|1 of a sample x that is the k-th percentile in this sense |
| `Histogram.PercentilesOrdered` | src/common/latency_histogram.hpp:59-69 | The bucket bounds of two ranked samples are in order if and only if the samples avoid that corner and lie on the same side of the overflow bound |
| `Histogram.ReportedInOrder` | src/common/latency_histogram.hpp:59-69 | For what a snapshot reports: p50 <= p90 and p90 <= p99 hold exactly when the samples that are those percentiles avoid that corner and lie on the same side of 63 * 2^57, hence always when all samples are at least 32 and below it |
| `LockFreeMax.Climbs` | src/metrics/metrics.hpp:37-40 | Every atomic step of any thread, with stale loads, only ever appends a larger value |
| `LockFreeMax.NeverDecreases` | src/metrics/metrics.hpp:37-40 | The stored maximum never decreases between two points of a run |
| `LockFreeMax.QuiescentIsMaximum` | src/metrics/metrics.hpp:37-40 | With any number of threads and spurious failures: when no call is under way the stored value is the largest of the initial one and all offered |
| `LockFreeMax.BoundedOffersBoundedMark` | src/metrics/metrics.hpp:37-40 | If every offer is within a bound, every value ever stored is |
| `HighWater.MarkIsWithinCapacity` | src/fix/fix_app.hpp:141-143 | A high-water mark fed with the occupancies a ring's producer sees lies between 0 and the capacity at every moment, whatever the interleaving on the ring and of the tracking threads |
| `LockFreeMax.AtomicMax.TrackMax` | src/metrics/metrics.hpp:37-40 | The retry loop leaves the maximum of the old value, its own and what others stored, or has used up its exchanges without storing |
| `Decimal.StrToULLInvertsPrint` | src/fix/fix_app.hpp:151-152 | strtoull reads back every uint64 printed with %llu, whatever non-digit follows |
| `Decimal.AnyNumberIsRead` | src/fix/fix_app.hpp:151-152 | What strtoull reads from any text with a number: white space and a sign first, the digits up to the first other character, capped at 2^64 - 1, and counted down from 2^64 behind a minus sign |
| `Decimal.PrintsNumeral` | src/storage/lmdb_persister.hpp:56-65 | A printed number is a decimal numeral of that value without leading zeros |
| `Decimal.PadsWithZeros` | src/storage/lmdb_persister.hpp:56-65 | A padded one is the same numeral with just the zeros that reach the width |
| `FixCodec.Checksum` | scripts/mock_exchange.py:42-43 | Three digits that read as the byte sum modulo 256 |
| `FixCodec.Build` | scripts/mock_exchange.py:46-53 | Building body first, length in front and checksum behind yields the text of the message's fields in standard order |
| `FixCodec.Parse` | scripts/mock_exchange.py:56-67 | The parsing loop computes the fold of the pieces between separators, with the symbol list stored under _symbols at the end |
| `FixCodec.SplitIsAtSeparators` | scripts/mock_exchange.py:58 | The pieces contain no separator, and joined by separators they are the text again |
| `FixCodec.ParsedMeans` | scripts/mock_exchange.py:56-66 | Parsing any text at all, well formed or not: a tag is found if and only if some piece starts with it and an equals sign, its value is that of the first such piece, the reserved tag apart, and the symbols are the values of tag 55 in order |
| `FixCodec.ParseInvertsText` | scripts/mock_exchange.py:56-67 | Parsing the text of any clean fields gives exactly their tags and the reserved _symbols, the first value of every other tag, and every value of tag 55 in order |
| `FixCodec.ParseInvertsBuild` | scripts/mock_exchange.py:46-67 | So for every built message, header and trailer included |
| `Envelope.BuiltIsAccepted` | scripts/mock_exchange.py:51-53 | Every built message passes a receiver's BodyLength and CheckSum tests, stated independently from the standard header and trailer sections of FIXT 1.1 |
| `Envelope.CorruptionIsNoticed` | scripts/mock_exchange.py:42-43 | Changing any single byte before the trailer makes those tests fail |
| `Framing.CutIsStable` | scripts/mock_exchange.py:146-153 | A message end once found is not moved by more input |
| `Framing.CutWasThere` | scripts/mock_exchange.py:146-153 | An end within the earlier input was already there |
| `Framing.NothingIsLost` | scripts/mock_exchange.py:146-153 | The messages cut off and the remainder concatenate to the buffer |
| `Framing.ChunkInvariance` | scripts/mock_exchange.py:141-153 | However the stream is cut into chunks, the same messages and remainder come out |
| `Framing.FramingInvertsBuilding` | scripts/mock_exchange.py:46-66 | Any concatenation of built messages, cut anywhere, comes out as exactly those messages with nothing left over, each parsing back to what it was built from |
| `Framing.FramedWholeIffNoTen` | scripts/mock_exchange.py:147-153 | A built message is framed whole if and only if its body has no field of tag 10 |
| `MockSession.Session.Receive` | scripts/mock_exchange.py:145-154 | One chunk: every message complete by now is handled in order, a logout not stopping the draining of this buffer |
| `MockSession.Session.Run` | scripts/mock_exchange.py:137-154 | The receive loop handles what the chunks dictate and stops after the chunk in which a logout completes or at end of input |
| `MockSession.HandledPrefix` | scripts/mock_exchange.py:141-154 | Under every chunking, what is handled is a prefix of the stream's messages, all of them or one that contains a logout |
| `MockSession.LogoutDecidesChunking` | scripts/mock_exchange.py:141-154 | All chunkings of a stream handle the same messages if and only if no message but the last is a logout |
| `MockReplies.ClientSeesNumberedReplies` | scripts/mock_exchange.py:81-114 | Whatever a session is sent, whatever snapshots its streaming thread sends in between, and however its output is cut on the way back, the client receives exactly the messages sent, numbered 1, 2, 3 and so on |
| `MockReplies.LifeIsOrderly` | scripts/mock_exchange.py:81-114 | Replies and streamed snapshots in any interleaving, each with its own time stamps, only extend what was sent with readable, consecutively numbered messages |
| `MockReplies.OnlyGot` | scripts/mock_exchange.py:160-195 | A session that streams nothing is the receive loop's fold over the messages it handled |
| `MockReplies.HandleIsOrderly` | scripts/mock_exchange.py:160-195 | Every reply is readable, numbered by its position, and adds to those sent before |
| `MockReplies.CancelConfirmedUnderRequestId` | scripts/mock_exchange.py:191-193 | A cancel request is confirmed under its own ClOrdID, as the engine decodes the reply |
| `MockReplies.OrderAcknowledgedFirst` | scripts/mock_exchange.py:183-190 | An order is acknowledged as New under its own id, and a fill, when there is one, comes after that under the same id |
| `ReplyFields.HeaderIsRead` | scripts/mock_exchange.py:46-53 | Parsed back, a built message has its kind, number, sender, sending time and target under 35, 34, 49, 52 and 56 |
| `ReplyFields.OrderIsAnswered` | scripts/mock_exchange.py:117-134 | The answer to an order read tag by tag: acknowledged with its ClOrdID, symbol, side and quantity, all open, and filled at its price and in full if and only if the running number of the acknowledgement is a multiple of five |
| `ReplyFields.CancelIsAnswered` | scripts/mock_exchange.py:191-193 | A cancel request is answered by one report, Canceled, with nothing open and the request's own ClOrdID, symbol, side and quantity |
| `ReplyFields.LogonIsAnswered` | scripts/mock_exchange.py:162-168 | A logon sets the user later messages go to and is answered to that user with its own heartbeat interval and, only if it asks for it, the reset flag |
| `ReplyFields.TestRequestIsAnswered` | scripts/mock_exchange.py:171-172 | A test request is answered by a heartbeat with its id, and nothing else changes |
| `ReplyFields.LogoutIsAnswered` | scripts/mock_exchange.py:173-176 | A logout is answered in kind and ends the session |
| `ReplyFields.OthersAreIgnored` | scripts/mock_exchange.py:160-195 | Messages of all other kinds are answered by nothing and change nothing |
| `ReplyFields.SnapshotIsStreamed` | scripts/mock_exchange.py:102-113 | A streamed snapshot names request and symbol, states how many levels there are, and lists bids and then offers, each with kind, price and size |
| `BookFeed.DecodeEntries` | src/fix/fix_app.hpp:123-137 | The two-cursor loop: entry i of kind '0' with j < 5 bids before it is bid level j, with its own price and size, zero where absent, and likewise offers; the rest is zeros, the counts are those of the entries up to five, and the last price is that of the last entry of kind '2' |
| `BookFeed.DecodedShows` | src/fix/fix_app.hpp:102-137 | So every decoded event: the first position of its symbol in the list, and side by side the entries' own prices and sizes |
| `BookFeed.SymbolId` | src/fix/fix_app.hpp:258-262 | The scan finds the first symbol of that name, or none |
| `BookFeed.Feed.OnSnapshot` | src/fix/fix_app.hpp:102-137 | Each message of a known symbol becomes one event with what its entries say, numbered by its arrival modulo 2^32; foreign ones only advance the number |
| `BookFeed.DecodedIsUnique` | src/fix/fix_app.hpp:102-137 | A message has one decoding up to its receive time |
| `BookFeed.NumbersGrowIffFew` | src/fix/fix_app.hpp:108 | The numbers of a feed's messages increase throughout if and only if there are fewer than 2^32 |
| `BookFeed.OrderBook.ApplySnapshot` | src/book/order_book.hpp:32-41 | The book becomes the event's arrays with its counts clipped |
| `BookFeed.BookIsLastSnapshot` | src/strategy/market_maker.hpp:66-72 | After any run a symbol has a book if and only if an event for it was popped, and it is the clipped projection of the last one |
| `BookFeed.BookAgreesWithFeed` | src/strategy/market_maker.hpp:66-72 | Whatever the ring drops and however far the strategy has read: a book shows, level by level, the prices and sizes of the first entries of each side of a message received for its own symbol, and no popped snapshot of it arrived later, wrapped numbers or not |
| `Vwap.ScalarVwap` | src/book/order_book.hpp:70-76 | The loop computes the size-weighted mean over both sides, the mid price without size |
| `Vwap.VectorVwap` | src/book/order_book.hpp:51-68 | The four-lane form with the fifth level as scalar tail computes the same |
| `Vwap.VwapIsWeightedMean` | src/book/order_book.hpp:50-77 | Both compute the quotient of the sums of price times size and of size over all levels, or half the sum of the best prices when there is no size |
| `Vwap.VwapIsBetween` | src/book/order_book.hpp:50-77 | With non-negative sizes, not all zero, the result lies between any bounds on the prices of levels with size |
| `Vwap.VwapCountsVisibleIffNotClipped` | src/book/order_book.hpp:32-76 | The price counts only visible levels, for all contents, if and only if the depth limit clips neither side |
| `Persister.BookKeyIsInjective` | src/storage/lmdb_persister.hpp:56-57 | Different symbol or position, different snapshot key |
| `Persister.KindsDiffer` | src/storage/lmdb_persister.hpp:56-65 | No snapshot key is a trade key |
| `Persister.BookKeyReads` | src/storage/lmdb_persister.hpp:56-57 | A snapshot's key is ob, a bar, the symbol as a decimal numeral, a bar, and the position as one with zeros in front up to ten digits |
| `Persister.TradeKeyReads` | src/storage/lmdb_persister.hpp:64-65 | A trade's key is tr, a bar, and the position in the same form |
| `Persister.PaddedOrder` | src/storage/lmdb_persister.hpp:56-65 | The exact byte order of two padded numbers of any lengths |
| `Persister.KeyOrderIsPushOrder` | src/storage/lmdb_persister.hpp:56-65 | Byte order of keys is push order for all positions below a bound if and only if the bound is at most 10^10 |
| `Persister.LmdbPersister.DrainSnapshots` | src/storage/lmdb_persister.hpp:53-60 | The snapshot loop over the real rings and map, records arriving between its pops, takes its lane where Drained says and leaves the trades alone |
| `Persister.LmdbPersister.DrainTrades` | src/storage/lmdb_persister.hpp:61-68 | The same for trades, in the transaction already begun if there is one |
| `Persister.DrainWrites` | src/storage/lmdb_persister.hpp:53-68 | A loop that has or gets its transaction writes everything that waits or arrives and loses nothing |
| `Persister.DrainFails` | src/storage/lmdb_persister.hpp:54-57 | Without a transaction exactly the record at the head, if any, is popped and lost, what was written stays as it was, and the rest keeps waiting |
| `Persister.LmdbPersister.Batch` | src/storage/lmdb_persister.hpp:51-69 | A batch is its two loops in one transaction, the second opening it only if the first did not |
| `Persister.BatchLosses` | src/storage/lmdb_persister.hpp:51-69 | A batch loses exactly one record for each opening that failed with a record popped, every loop without such a failure empties its ring, and what was written stays written |
| `Persister.LmdbPersister.Run` | src/storage/lmdb_persister.hpp:47-71 | Any sequence of batches leaves rings, map and sequence numbers as RunOf computes |
| `Persister.PersistedIffOpened` | src/storage/lmdb_persister.hpp:47-71 | Over any sequence of batches of a fresh persister: everything accepted is written or waiting, in order, if and only if no opening failed while a record was waiting |
| `Persister.LmdbPersister.PersistedExactlyOnce` | src/storage/lmdb_persister.hpp:47-71 | Written records followed by waiting ones are all accepted ones, in order, exactly when none was lost; the database holds every one written under the key of its position, and nothing else if it was empty before |
| `Persister.RestartOverwrites` | src/storage/lmdb_persister.hpp:85 | After a new run on an existing database every old record whose key the run reaches has the new value, and every other one its old value |
| `ObjectPool.Pool.constructor` | src/common/object_pool.hpp:15-18 | All objects start free |
| `ObjectPool.Pool.Acquire` | src/common/object_pool.hpp:19-22 | Gives an object nobody holds, or none exactly when all are held |
| `ObjectPool.Pool.Release` | src/common/object_pool.hpp:23-27 | Returns a held object to the pool, and no other |
| `ObjectPool.Pool.Available` | src/common/object_pool.hpp:28 | Available plus held is the size of the pool |
| `ObjectPool.HonestIsExclusive` | src/common/object_pool.hpp:19-27 | Over every sequence of acquires and releases of held objects no object has two holders |
| `ObjectPool.DoubleReturnShares` | src/common/object_pool.hpp:23-27 | With room in the free list, returning an object nobody holds gives it to two holders once the pool is drained |
| `ObjectPool.ReturnIsSafeIffHeld` | src/common/object_pool.hpp:23-27 | With room in the free list, a return is harmless for every honest continuation if and only if the object was held |

## Left out

- QuickFIX sessions, sockets, stunnel, logon and logout of the engine: foreign library and I/O; kept is that a command may be dropped when logged off.
- LMDB itself, its commit and sync: a map keyed by byte strings; puts and commits succeed.
- The metrics exporter, CSV logging, thread affinity, timestamps and clock calibration; time is a parameter where a message carries it.
- The timer by which the strategy pushes book snapshots to the persister: which snapshots and trades a persister's rings are given is an input there.
- Configuration parsing, `dump_lmdb.py`, FIX dictionaries and `.cfg` files.
- Floating-point rounding: prices, quantities and sums are reals, the fused multiply-add is not distinguished from multiply and add.
- Shutdown: results are about runs before `running` is cleared.
- The exchange's order id kept in a quote, which no decision reads.
- Wrap-around of the ClOrdID seed and of the persister's sequence numbers at 2^64.
- CancelDiscipline.CommandsAreDisciplined: excludes acknowledgements repeated to harm, because they break it (RepeatedAckIsSafeIffItFits is the exact condition); cancels of id 0 are the subject of PhantomQuotes.
- The venue answers on one FIFO wire and names the symbol of the order in its reports; symbols of reports are known.
- QuoteFills.FillConservation: excludes dropped and repeated fills, because either breaks it (FillsArriveIffNoneDropped and RepeatAgreesIffNoFill are the exact conditions).
- Ranking.AnsweredWithinTwoSnapshots: stated for quiet runs, in which the market stands with both sides, the rings have room, nothing is dropped, lost or repeated and confirmations carry the order's own id; what a wrong id, a dropped order or a lost report does instead is exactly stated in CancelAcks.
- Histogram.LatencyHistogram.Record: the exchange loop that raises the maximum is one step here and the subject of LockFreeMax. Resetting is not modelled.
- Histogram.LatencyHistogram.CopyBuckets: a relaxed load counts as what it misses of its bucket, none of it known to the reader before; the load of the maximum is taken as current, and LockFreeMax has its stale ones.
- Histogram.LatencyHistogram.Snapshot: needs fewer than about 2^64 / 99 samples, beyond which the rank arithmetic of the source wraps.
- MockSession.Session.Receive: sends succeed; the receive loop and the streaming thread interleave by whole messages, as their lock provides, and the prices streamed are any clean text; text is Latin-1.
- ObjectPool.Pool.Release: asks for a held object, as the source's callers must guarantee; what happens otherwise is ReturnIsSafeIffHeld.
- ObjectPool.ReturnIsSafeIffHeld: a return when every object is free already writes behind the free list's array, which the model does not have.
- SpscRing.Ring.TryPush: the method runs undisturbed between its acquire load and its end; interleavings are the subject of RingMachine, to which PushPass ties it.
