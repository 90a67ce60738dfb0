# A verified model of the market-data and order-safety core

The program follows Binance Spot markets and can trade on them. This project models the parts of it
where a mistake would be silent, and proves what they are for:

- **The local order book.** `book_spec.dfy` is the depth book as a function of the messages that reach
  it, `depth_book.dfy` the object that changes in place. `book_truth.dfy` sets it against the exchange:
  a history `h(k)` of the whole book after every update id. A delta `[U, u]` carries the quantity at
  `u` of each level touched in `U..u`; a snapshot is a best-N prefix of `h(lastUpdateId)`; delivery may
  lose, repeat and reorder. The main theorem is a refinement: a book that says it is verified shows the
  exchange's own best levels, although it saw only part of the book. `book_bridge.dfy` says what every
  message does to a book in terms of its rows, and exactly when a snapshot and the buffered updates bridge.
- **The collector** (`collector_spec.dfy`, `collector_replies.dfy`, `depth_collector.dfy`) adds the worker thread, whose replies
  can be stale. Each lock section is one atomic step; the theorems hold for every interleaving.
- **Trade flow** (`flow_spec.dfy`, `flow.dfy`): one-second buckets against the naive sum over every trade,
  and `flow_meaning.dfy`: every figure from the raw messages.
- **Subscriptions** (`subscription_spec.dfy`, `spot_stream.dfy`): desired, confirmed and pending
  streams across commands, acknowledgements and reconnects.
- **Order placement** (`placement.dfy`) against an exchange that loses replies.
- **Sizing and filters** (`rounding.dfy`, `bracket.dfy`): tick and step arithmetic, the bracket order,
  break-even arming.
- **Reservations** (`reservation_spec.dfy`, `portfolio.dfy`, `entry.dfy`): slots and money promised to
  entries in flight.
- **Protection** (`broker.dfy`, `protection.dfy`): the broker's cached balances, when a position is naked,
  and what is then sold.
- **Limits** (`sliding_window.dfy`, `budget.dfy`, `rate_limit.dfy`, `rate_limit_overlap.dfy`) and the
  **audit log** (`audit_log.dfy`).
- **The backtester** (`backtest.dfy`) and its summary (`metrics.dfy`).

Objects that the program updates in place are classes whose methods are proved equal to functions on
values; the theorems over whole runs are about those functions. `prelude.dfy` and `ranking.dfy` hold
shared vocabulary. `dafny verify dfyconfig.toml` checks everything.

Prices, quantities and clocks are exact reals; update ids and counters are unbounded integers, as
Python's are. What comes from outside (messages, replies, clock readings, disk errors) is a parameter
and may be anything the stated assumptions allow.

## Where the code and its own claims differ

The model follows the code. Each of these has a lemma with a concrete input and one with the exact
condition:

- A placement "can only ever yield one live order" holds if and only if the exchange refuses duplicate
  client ids or the lookup is exact (`Placement.AtMostOneIffGuarded`); its status "can never be lost" if
  and only if the lookup is exact (`Placement.StatusNeverLostIffLookupExact`).
- "Worst-case trigger right at activation is still at break-even" fails for prices of few ticks
  (`Brackets.BreakEvenCanBeMissed`) and, at any price, when the exchange's band raises the delta, because
  the activation is computed from the delta asked for (`Brackets.ClampingCanMissBreakEven`). The exact
  condition is `Brackets.BreakEvenNeedsATickInReach`.
- "The caller must settle its reservation": `execute` does for every explicit outcome, but an exception
  while reading a placed bracket's reply leaves it behind for good; `Entries.EntryEngine.Finish` says
  exactly when, `ReservationSpec.LossIsPermanent` for how long.
- The daily trade limit counts placed entries only. It holds exactly with a single slot
  (`ReservationSpec.DailyLimitHoldsIffOneSlot`); with more it is overshot by at most one less than the
  slots (`ReservationSpec.ReservationsAreExact`).
- The request limit of a client holds exactly while its requests do not overlap
  (`OverlappingRequests.LimitHoldsIffNoOverlap`).
- Acknowledgements out of command order can leave a dropped symbol subscribed
  (`SubscriptionSpec.OutOfOrderAckCanResubscribe`, `SubscriptionSpec.AckIsNeutralExactlyWhenSafe`).
- Taking the stop first within one candle is not always the worst case
  (`Backtests.StopFirstIsNotAlwaysWorst`, `Backtests.StopFirstIsWorstExactlyWhen`).
- The handlers of a failing balance query in the protection check never run: `Broker.free` answers with
  the cache or with zero instead (`Brokers.Broker.Free`). They are not part of the model.

## Model

| member | source | states |
|---|---|---|
| DepthBooks.DepthBook.Reset | runtime_owner/market_context_repair/l2_book.py:39-48 | a reset empties both sides and the buffer, forgets the sequence number, starts a new epoch and releases the pending request |
| DepthBooks.DepthBook.Delta | runtime_owner/market_context_repair/l2_book.py:50-65 | the object after one depth message is exactly the specified book; `True` comes back exactly when the sequence number grew, and then the book is verified |
| DepthBooks.DepthBook.Apply | runtime_owner/market_context_repair/l2_book.py:67-94 | the in-place merge loops and the chain of checks do one `BookSpec.Apply`: skip, reject a gap, or merge and settle |
| DepthBooks.DepthBook.Snapshot | runtime_owner/market_context_repair/l2_book.py:96-119 | the object after a snapshot is exactly the specified book; `True` exactly when the request was for this epoch and the replay bridged |
| DepthBooks.DepthBook.ReplayAll | runtime_owner/market_context_repair/l2_book.py:112-115 | the replay loop applies the buffered updates in order until one of them resets the book |
| DepthBooks.DepthBook.View | runtime_owner/market_context_repair/l2_book.py:121-135 | fresh exactly when verified and young enough; then the depth sums are those of the 20 best levels and the imbalance lies strictly between -1 and 1, so nothing divides by zero |
| BookTruth.SideAdvances | runtime_owner/market_context_repair/l2_book.py:71-80 | a genuine delta that overlaps or touches the next id moves a faithful side to the exchange's side at its last id, ids already applied included |
| BookTruth.SideInstalls | runtime_owner/market_context_repair/l2_book.py:100-108 | a best-N snapshot side installs a faithful side, complete up to its own worst price |
| BookTruth.RunWellFormed | runtime_owner/market_context_repair/l2_book.py:50-119 | for any messages whatever: bounded buffer, and with a sequence number between `minLevels` and `maxLevels` positive, covered, uncrossed levels on each side |
| BookTruth.ApplyIsAllOrNothing | runtime_owner/market_context_repair/l2_book.py:67-94 | no half-applied delta is visible: the book is untouched, fully merged at the next id, or empty in a new epoch |
| BookTruth.RunRefines | runtime_owner/market_context_repair/l2_book.py:50-119 | over every run with lost, repeated and reordered messages, each stored level is the exchange's at `sequence` and none at or inside the covered edge is missing |
| BookTruth.VerifiedBookIsTheExchanges | runtime_owner/market_context_repair/l2_book.py:81-94 | whenever the reason says verified, the best levels on each side, down to the configured minimum, are the exchange's own at that id, in order and in quantity |
| BookTruth.DepthSumsAreTheExchanges | runtime_owner/market_context_repair/l2_book.py:128-134 | with at least 20 guaranteed levels the two 20-level quote sums are those of the exchange's true 20 best levels |
| BookTruth.SideTopIsTrue | runtime_owner/market_context_repair/l2_book.py:85-88 | why the coverage check suffices: a faithful prefix whose `minLevels`-th best price has not passed the snapshot edge ranks like the whole exchange side |
| BookTruth.ImbalanceIsProper | runtime_owner/market_context_repair/l2_book.py:129-134 | both depth sums of a verified book are positive, so the imbalance is defined and strictly between -1 and 1 |
| Ranking.RankedIsSorted | runtime_owner/market_context_repair/l2_book.py:85-86 | the sorted price list contains each price once, best first |
| Ranking.SameTop | runtime_owner/market_context_repair/l2_book.py:85-88 | two price sets that agree down to an edge have the same best prices down to that edge |
| BookBridge.DeltaDoes | runtime_owner/market_context_repair/l2_book.py:50-94 | one depth message on any book, from its rows alone: malformed empties it; without a sequence number it is buffered, emptying a full buffer first; not newer changes nothing; a gap empties it and is kept; any other puts every row in order, and the book is verified at its last id, or emptied by the first of the three checks that the merged sides fail |
| BookBridge.VerdictMeans | runtime_owner/market_context_repair/l2_book.py:81-91 | the three checks, by counting and comparing prices: enough levels and not too many, enough of them not beyond the edge of the snapshot, every bid below every ask |
| BookBridge.SnapshotBridges | runtime_owner/market_context_repair/l2_book.py:96-116 | a usable snapshot whose buffered updates are each old, or overlap or touch the next id and leave sound sides: the book stands at the last of them with every row put in order, and is verified exactly when one of them is newer than the snapshot |
| BookBridge.SequencedOnlyIfBridged | runtime_owner/market_context_repair/l2_book.py:96-116 | the converse: a snapshot that leaves a sequence number was usable, and the buffered updates bridge it |
| BookBridge.SnapshotStopsAtABreak | runtime_owner/market_context_repair/l2_book.py:112-116 | a usable snapshot whose updates link on only up to one of them: that one empties the book for its own reason, a gap keeps it, and nothing after it is looked at |
| BookBridge.SnapshotRefused | runtime_owner/market_context_repair/l2_book.py:96-119 | a reply for another epoch changes nothing, an unusable one empties the book |
| BookBridge.Top20IsTheBest | runtime_owner/market_context_repair/l2_book.py:129-130 | the summary sums the twenty best prices, or all there are, best first, each once |
| BookBridge.QuoteAddsPriceTimesQuantity | runtime_owner/market_context_repair/l2_book.py:131-132 | each listed price adds itself times its own quantity to the sum |
| DepthCollectors.DepthCollector.SetSymbols | runtime_owner/market_context_repair/l2_collector.py:12-16 | kept symbols keep their very book object, new ones get a fresh one, the others are dropped |
| DepthCollectors.DepthCollector.Ingest | runtime_owner/market_context_repair/l2_collector.py:22-31 | only the addressed book changes: a late event resets it, any other goes through `delta` |
| DepthCollectors.DepthCollector.ResetAll | runtime_owner/market_context_repair/l2_collector.py:18-20 | every book is reset, objects and job in flight stay |
| DepthCollectors.DepthCollector.PickJob | runtime_owner/market_context_repair/l2_collector.py:44-47 | one eligible book, if there is any, becomes pending with its identity and epoch noted |
| DepthCollectors.DepthCollector.FinishJob | runtime_owner/market_context_repair/l2_collector.py:51-62 | a reply or a failure touches the book only if it is still the same object in the same epoch |
| CollectorSpec.OnlyTheRequestedReplyInstalls | runtime_owner/market_context_repair/l2_collector.py:55-57 | in every interleaving a sequence number appears only through the reply to a request made for this object in this epoch |
| CollectorSpec.OneInstallPerEpoch | runtime_owner/market_context_repair/l2_collector.py:44-57 | each epoch of a book object installs at most one snapshot |
| CollectorSpec.SequenceOnlyGrows | runtime_owner/market_context_repair/l2_book.py:67-94 | within one epoch of one object the sequence number, once there, stays, and the levels change only as it strictly increases |
| CollectorSpec.PendingIsTheJobInFlight | runtime_owner/market_context_repair/l2_collector.py:44-62 | `pending` is true exactly for the book of the one request in flight |
| CollectorSpec.NoBookIsStuck | runtime_owner/market_context_repair/l2_collector.py:44-62 | with the worker idle, a book that buffers deltas can be picked at the latest ten seconds later, and then some job is picked |
| CollectorSpec.RunLater | runtime_owner/market_context_repair/l2_collector.py:12-62 | over a run, a book still in service was in service all along and its epoch never went back |
| CollectorSpec.RunRefinesEverySymbol | runtime_owner/market_context_repair/l2_collector.py:22-62 | every book in service refines its own symbol's exchange history under every interleaving |
| CollectorSpec.CollectorBooksAreTheExchanges | runtime_owner/market_context_repair/l2_collector.py:22-36 | a verified book in service shows the exchange's 20 best levels per side and their quote sums |
| CollectorReplies.PicksExactlyWhen | runtime_owner/market_context_repair/l2_collector.py:44-47 | the worker asks for a book exactly when some book has updates buffered, no sequence number, no request in flight and its retry time behind it; it takes such a book in its current epoch |
| CollectorReplies.IngestsExactly | runtime_owner/market_context_repair/l2_collector.py:22-31 | a delta reaches its own symbol's book only; a wrong event time empties it |
| CollectorReplies.ReconnectEmptiesAll | runtime_owner/market_context_repair/l2_collector.py:18-20 | a reconnect empties every book in a new epoch and leaves objects and request |
| CollectorReplies.AnswersExactly | runtime_owner/market_context_repair/l2_collector.py:51-62 | a reply for an object or epoch gone by changes no book; an answer installs the snapshot and waits one second, a failure names itself and waits ten |
| CollectorReplies.RequestsAreSpaced | runtime_owner/market_context_repair/l2_collector.py:44-62 | over every run, a book is not asked for again within ten seconds of a failed request and one second of an answered one, whatever resets and deltas come between |
| CollectorReplies.BridgedReplyVerifies | runtime_owner/market_context_repair/l2_collector.py:44-57 | over every run, a usable answer that the updates buffered meanwhile bridge puts the book at the last of them, verified exactly when one is newer |
| FlowAnalytics.SpotAnalytics.SetSymbols | runtime_owner/market_context_repair/analytics.py:136-151 | all or nothing at the symbol limit; staying symbols keep their flow, others start afresh |
| FlowAnalytics.SpotAnalytics.ResetConnection | runtime_owner/market_context_repair/analytics.py:153-156 | every active symbol starts afresh |
| FlowAnalytics.SpotAnalytics.IngestAggTrade | runtime_owner/market_context_repair/analytics.py:179-250 | the verdict on one message, the one statistic that counts it, and that only an accepted one changes its own symbol's flow |
| FlowAnalytics.SpotAnalytics.PurgeFront | runtime_owner/market_context_repair/analytics.py:173-177 | the pop loop drops exactly the buckets below the 65-second horizon from the front |
| FlowAnalytics.SpotAnalytics.ReadWindow | runtime_owner/market_context_repair/analytics.py:300-310 | the sum read after the purge equals the window over the unpurged buckets |
| FlowSpec.WindowIsTheNaiveSum | runtime_owner/market_context_repair/analytics.py:300-310 | every window up to 65 s equals the sum over the full history of the current gap-free run |
| FlowSpec.RangeIsTheNaiveSum | runtime_owner/market_context_repair/analytics.py:312-320 | so do the age ranges behind the acceleration ratio |
| FlowSpec.PurgeChangesNoLaterAnswer | runtime_owner/market_context_repair/analytics.py:173-177 | purging at any moment changes no present or later window |
| FlowSpec.WindowAges | runtime_owner/market_context_repair/analytics.py:304-305 | a trade of age at most w-1 is counted, one older than w is not |
| FlowSpec.BucketsBounded | runtime_owner/market_context_repair/analytics.py:226-229 | never more than 66 buckets |
| FlowSpec.SessionIsOneGapFreeRun | runtime_owner/market_context_repair/analytics.py:207-245 | the trades since the session start have consecutive ids up to `last_agg_id`, and the session delta is their signed sum whatever was purged |
| FlowSpec.RunStartsAfterAGap | runtime_owner/market_context_repair/analytics.py:223-225 | a session starts only where the ids left a hole |
| FlowSpec.FreshFlowCoversTheMinute | runtime_owner/market_context_repair/analytics.py:336-339 | with both clocks advancing together a fresh status means that the whole last minute lies in one gap-free run |
| FlowSpec.RunKeeps | runtime_owner/market_context_repair/analytics.py:173-250 | the correspondence of buckets, session and history holds after every run |
| FlowMeaning.WindowMeans | runtime_owner/market_context_repair/analytics.py:179-310 | over every run, from the raw messages: buy (sell) is the sum of price times quantity over the accepted messages of the current gap-free run in the window whose maker flag is false (true), the count their number |
| FlowMeaning.RangeMeans | runtime_owner/market_context_repair/analytics.py:312-320 | the age ranges count the same messages |
| FlowMeaning.SessionMeans | runtime_owner/market_context_repair/analytics.py:233-238 | the session delta is what the messages of the run bought less what they sold |
| FlowMeaning.VerdictMeans | runtime_owner/market_context_repair/analytics.py:207-246 | accepted exactly when newer in id and not older in event time than the last accepted message, a duplicate with the same id, otherwise out of order |
| FlowMeaning.FreshExactlyWhen | runtime_owner/market_context_repair/analytics.py:326-339 | fresh exactly when the last message of the run is recent on both clocks and its first one at least a minute old |
| FlowMeaning.RoundIsNearest | runtime_owner/market_context_repair/analytics.py:326-330 | the age in milliseconds is rounded to the nearest integer, ties to the even one |
| SpotStreams.SpotStream.UpdateSymbols | runtime_owner/market_context_repair/spot_stream.py:167-186 | refused exactly above 200 symbols, and then nothing changes; otherwise these are the desired symbols, connected or not, and on a connection the leaving and the joining streams are commanded |
| SpotStreams.SpotStream.SendControl | runtime_owner/market_context_repair/spot_stream.py:188-223 | the chunking loop with its early exits is the specified command |
| SpotStreams.SpotStream.OnOpen | runtime_owner/market_context_repair/spot_stream.py:225-241 | a new connection forgets confirmed and pending streams and commands exactly the desired ones |
| SpotStreams.SpotStream.OnAcknowledgement | runtime_owner/market_context_repair/spot_stream.py:254-272 | a known id moves its own streams only, an unknown one nothing |
| SpotStreams.SpotStream.OnClose | runtime_owner/market_context_repair/spot_stream.py:317-323 | a closed connection has nothing confirmed or pending |
| SubscriptionSpec.ChunksPartition | runtime_owner/market_context_repair/spot_stream.py:191-192 | the messages of a command are at most 200 long and together list each of its streams exactly once, in order |
| SubscriptionSpec.SendControlQueuesTheChunks | runtime_owner/market_context_repair/spot_stream.py:191-215 | a command sent in full leaves exactly its chunks pending, under consecutive fresh ids |
| SubscriptionSpec.SendControlEffect | runtime_owner/market_context_repair/spot_stream.py:188-223 | a command sent in full moves the effective streams by exactly its own streams |
| SubscriptionSpec.AckIsNeutralExactlyWhenSafe | runtime_owner/market_context_repair/spot_stream.py:258-272 | an acknowledgement leaves the effective streams unchanged if and only if every stream it decides was decided alike by the newest older pending command |
| SubscriptionSpec.InOrderAckIsSafe | runtime_owner/market_context_repair/spot_stream.py:258-272 | acknowledgements in command order are always safe |
| SubscriptionSpec.OutOfOrderAckCanResubscribe | runtime_owner/market_context_repair/spot_stream.py:258-272 | out of order a dropped symbol can end up subscribed: a concrete run |
| SubscriptionSpec.RunKeeps | runtime_owner/market_context_repair/spot_stream.py:167-272 | after any mix of operations with safe acknowledgements, the confirmed streams with the pending commands applied are the desired ones, or the connection is closing or stopping |
| SubscriptionSpec.QuietMeansExactlyDesired | runtime_owner/market_context_repair/spot_stream.py:303-304 | with nothing pending, exactly the three streams of every symbol of the last accepted change are subscribed |
| SubscriptionSpec.DesiredIsWhatWasAskedFor | runtime_owner/market_context_repair/spot_stream.py:167-180 | over every run, connected or not, the desired symbols are those of the last change within the ceiling |
| SubscriptionSpec.UpdateSendsExactly | runtime_owner/market_context_repair/spot_stream.py:181-186 | a change on a connection queues the dropped streams for unsubscribing and then the new ones for subscribing, in messages of at most 200, when everything goes out |
| SubscriptionSpec.OpenSendsExactly | runtime_owner/market_context_repair/spot_stream.py:235-241 | a connection that opens queues all desired streams and nothing else |
| SubscriptionSpec.SendControlStopsAt | runtime_owner/market_context_repair/spot_stream.py:188-223 | a command that stops part way leaves exactly the messages before the failing one pending, and the link as that one found it |
| SubscriptionSpec.LateAckIsIgnored | runtime_owner/market_context_repair/spot_stream.py:235-236 | after a reconnect a late acknowledgement of an earlier command changes nothing |
| Placement.PlaceIdempotent | legacy_core/binance_bot_V4.9.16_ALL_IN_ONE.py:2617-2697 | the retry loop is the specified recursion over attempts |
| Placement.AtMostOneOrder | legacy_core/binance_bot_V4.9.16_ALL_IN_ONE.py:2617-2697 | one call creates at most one order for its client id and a normal return hands back that order |
| Placement.AtMostOneIffGuarded | legacy_core/binance_bot_V4.9.16_ALL_IN_ONE.py:2617-2621 | the at-most-one claim holds against every outside behaviour if and only if the exchange refuses duplicate ids or the lookup is exact |
| Placement.UnguardedCanDuplicate | legacy_core/binance_bot_V4.9.16_ALL_IN_ONE.py:2682-2696 | without either protection one lost reply and one failed lookup make a second order |
| Placement.ExactLookupNeverLosesTheStatus | legacy_core/binance_bot_V4.9.16_ALL_IN_ONE.py:2660-2690 | with an exact lookup the call returns normally exactly when an order exists |
| Placement.InexactLookupCanLoseTheStatus | legacy_core/binance_bot_V4.9.16_ALL_IN_ONE.py:2682-2697 | without an exact lookup a call can end in an error while an order is live, whether or not the exchange refuses duplicates |
| Placement.StatusNeverLostIffLookupExact | legacy_core/binance_bot_V4.9.16_ALL_IN_ONE.py:2618-2621 | a call returns normally exactly when an order exists, against every outside behaviour, if and only if the lookup is exact |
| Placement.SendsBounded | legacy_core/binance_bot_V4.9.16_ALL_IN_ONE.py:2623-2692 | at most five sends |
| Placement.TriesAgainExactlyWhen | legacy_core/binance_bot_V4.9.16_ALL_IN_ONE.py:2623-2697 | after one reply another attempt is made exactly when nothing was found and the answer was no reply, 429, or an error neither 418, nor of the codes not to retry |
| Placement.ReturnsExactlyWhen | legacy_core/binance_bot_V4.9.16_ALL_IN_ONE.py:2623-2697 | a reply ends in a normal return exactly when it or one of the lookups it calls for names the order |
| Placement.OneAttempt | legacy_core/binance_bot_V4.9.16_ALL_IN_ONE.py:2623-2697 | what one attempt makes of the call: its outcome, or the remaining attempts with one send more |
| Placement.PausedSendsNothing | legacy_core/binance_bot_V4.9.16_ALL_IN_ONE.py:2623-2640 | a paused attempt ends the call and sends nothing |
| Rounding.RoundDownCountsSteps | legacy_core/binance_bot_V4.9.16_ALL_IN_ONE.py:2098-2103 | for every positive step the second, decimal stage changes nothing: the result is a whole number of steps |
| Rounding.RoundDownIsGreatestMultiple | legacy_core/binance_bot_V4.9.16_ALL_IN_ONE.py:2088-2103 | `round_down` of a non-negative value is the greatest multiple of the step not above it, and less than a step below it |
| Rounding.RoundDownIdempotent | legacy_core/binance_bot_V4.9.16_ALL_IN_ONE.py:2451-2452 | rounding again, as the broker does, changes nothing |
| Brackets.BracketPassesItsGridChecks | legacy_core/binance_bot_V4.9.16_ALL_IN_ONE.py:2546-2577 | an order built from rounded numbers is never refused for tick or step, for its trailing delta only if the band is empty, and is accepted exactly when prices are positive, lots in range, notionals large enough and the band non-empty |
| Brackets.EntryStaysWithinItsReservation | legacy_core/binance_bot_V4.9.16_ALL_IN_ONE.py:3811-3833 | quantity times price never exceeds the reserved amount, no larger lot multiple would fit, and the target is not below the price |
| Brackets.ExecutedBracketIsRefusedOnlyFor | legacy_core/binance_bot_V4.9.16_ALL_IN_ONE.py:3811-3833 | after the checks of `execute`, a bracket can fail only for its floor price, the lot range, a sell notional or an empty band |
| Brackets.RepriceStaysWithinTheRemainder | legacy_core/binance_bot_V4.9.16_ALL_IN_ONE.py:4049-4064 | a repriced order costs at most the unspent remainder and passes the tick, step and delta checks |
| Brackets.SizeFromTheNumbers | legacy_core/binance_bot_V4.9.16_ALL_IN_ONE.py:3806-3833 | price, quantity and target from ask, reservation and filters alone, by greatest multiples, and which check stops an entry |
| Brackets.ResizeFromTheNumbers | legacy_core/binance_bot_V4.9.16_ALL_IN_ONE.py:4049-4064 | the same for a repriced order, whose quantity comes from the price before rounding |
| Brackets.BracketFromTheNumbers | legacy_core/binance_bot_V4.9.16_ALL_IN_ONE.py:2715-2730 | delta, floor and sell legs from entry, quantity and filters alone; the legs never exceed the buy, nor the floor the entry for any delta above -30 bips |
| Brackets.BracketRefusedExactlyFor | legacy_core/binance_bot_V4.9.16_ALL_IN_ONE.py:2731-2739 | the one refusal, or none, of a bracket built from rounded numbers |
| Brackets.ValidatesExactlyWhen | legacy_core/binance_bot_V4.9.16_ALL_IN_ONE.py:2546-2577 | any order, rounded or not, passes exactly when every number meets its own filter |
| Brackets.ActivationFromTheNumbers | legacy_core/binance_bot_V4.9.16_ALL_IN_ONE.py:3417-3427 | the activation is the greatest tick not above the entry plus the requested delta and 15 bips |
| Brackets.TriggerFromTheNumbers | legacy_core/binance_bot_V4.9.16_ALL_IN_ONE.py:2468-2469 | the worst-case trigger is the activation less the delta in its band |
| Brackets.ArmsWithinATickOfBreakEven | legacy_core/binance_bot_V4.9.16_ALL_IN_ONE.py:3417-3427 | with an unclamped delta d and d(d+15) at most 150000 the first worst-case trigger is above entry less one tick |
| Brackets.ArmsAtBreakEven | legacy_core/binance_bot_V4.9.16_ALL_IN_ONE.py:2468-2473 | it is above entry once the gain outweighs a tick: 679 ticks of price for 50 bips, 697 for 80 |
| Brackets.BreakEvenNeedsATickInReach | legacy_core/binance_bot_V4.9.16_ALL_IN_ONE.py:2468-2473 | exactly when it is at or above entry, clamped delta or not: some tick price lies between what the trail sent can lose and the unrounded activation |
| Brackets.BreakEvenCanBeMissed | legacy_core/binance_bot_V4.9.16_ALL_IN_ONE.py:2041-2045 | the stated promise of break-even fails for an entry of one tick |
| Brackets.ClampingCanMissBreakEven | legacy_core/binance_bot_V4.9.16_ALL_IN_ONE.py:2437-2438 | it also fails at 100000 ticks when the band raises 50 bips to 100, because the activation uses the delta asked for |
| Portfolios.Portfolio.CanOpen | legacy_core/binance_bot_V4.9.16_ALL_IN_ONE.py:3254-3270 | all gates after the daily roll, and the halt set at the loss limit |
| Portfolios.Portfolio.TryReserve | legacy_core/binance_bot_V4.9.16_ALL_IN_ONE.py:3280-3298 | reserves exactly when gates, symbol and balance allow; otherwise only the gates' own effects remain |
| Portfolios.Portfolio.ReleaseReservation | legacy_core/binance_bot_V4.9.16_ALL_IN_ONE.py:3300-3304 | gives back one slot, the symbol and the money |
| Portfolios.Portfolio.CommitReservation | legacy_core/binance_bot_V4.9.16_ALL_IN_ONE.py:3306-3317 | gives the reservation back and registers the position in one step |
| Portfolios.Portfolio.Close | legacy_core/binance_bot_V4.9.16_ALL_IN_ONE.py:3319-3345 | removes the position and books its net result; an unfilled entry books nothing |
| Portfolios.Portfolio.RollDailyIfNeeded | legacy_core/binance_bot_V4.9.16_ALL_IN_ONE.py:3355-3383 | resets the counters once per new day and lifts only a daily-loss halt |
| ReservationSpec.DayRolls | legacy_core/binance_bot_V4.9.16_ALL_IN_ONE.py:3355-3383 | with a readable day other than the stored one the day moves, trades and loss are zero and only a daily-loss halt is lifted; otherwise nothing changes; a second call on the same day does nothing |
| ReservationSpec.OpensExactlyWhen | legacy_core/binance_bot_V4.9.16_ALL_IN_ONE.py:3254-3278 | entries are allowed if and only if, in terms of the ledger before and the new day, no switch, halt, trade count, slot limit or loss stands against it |
| ReservationSpec.ReservesExactlyWhen | legacy_core/binance_bot_V4.9.16_ALL_IN_ONE.py:3254-3298 | a signal is accepted if and only if entries are allowed, the symbol is neither open nor being opened, and the balance covers all promises and this one |
| ReservationSpec.SignalLeaves | legacy_core/binance_bot_V4.9.16_ALL_IN_ONE.py:3254-3298 | what a signal leaves in every field, taken or refused, with the daily-loss halt that the gates may set |
| ReservationSpec.TradesArePlacedToday | legacy_core/binance_bot_V4.9.16_ALL_IN_ONE.py:3254-3383 | over every run the day's counter is the number of entries placed since the day last changed |
| ReservationSpec.UnholdIsExact | legacy_core/binance_bot_V4.9.16_ALL_IN_ONE.py:3300-3311 | the `max(0, ...)` clamps never bite and a settlement hands back exactly what was promised |
| ReservationSpec.ReservationsAreExact | legacy_core/binance_bot_V4.9.16_ALL_IN_ONE.py:3254-3317 | over every interleaving: pending equals the entries in flight, reserved money their sum, no symbol is both open and being opened, open plus pending stays within the largest slot limit (or what was loaded), trades plus pending within the daily limit less one plus that limit |
| ReservationSpec.PromisesFitTheReportedBalance | legacy_core/binance_bot_V4.9.16_ALL_IN_ONE.py:3290-3293 | all promises together, the new one included, fit in the balance the broker reported |
| ReservationSpec.DailyLimitHoldsIffOneSlot | legacy_core/binance_bot_V4.9.16_ALL_IN_ONE.py:3263-3266 | over all loaded ledgers and all runs with at most p slots the day's trades stay within the limit if and only if p is at most one |
| ReservationSpec.DailyLimitCanBeOvershot | legacy_core/binance_bot_V4.9.16_ALL_IN_ONE.py:3263-3264 | two entries in flight at 11 trades make 13 |
| ReservationSpec.InterleavedEntrySettlesExactly | legacy_core/binance_bot_V4.9.16_ALL_IN_ONE.py:3803-3866 | whatever other threads do between the two lock sections of an entry, its ending hands back exactly the slot, the symbol and the amount that its signal reserved |
| ReservationSpec.LossIsPermanent | legacy_core/binance_bot_V4.9.16_ALL_IN_ONE.py:3841-3866 | a reservation whose `execute` let an exception escape is never given back and its symbol is refused for the rest of the run |
| Entries.EntryEngine.Finish | legacy_core/binance_bot_V4.9.16_ALL_IN_ONE.py:3806-3866 | every explicit outcome settles the reservation exactly once; it stays behind exactly when an order went out as a bracket and its reply could not be read |
| Entries.GoesOutExactlyWhen | legacy_core/binance_bot_V4.9.16_ALL_IN_ONE.py:3806-3848 | an order leaves exactly when filters and ask are there, the reservation can be sized, the quantity is in the lot range and, for a bracket, so are its sell legs, its floor is positive, both sell notionals are large enough and the band is not empty |
| Entries.EntryEngine.Execute | legacy_core/binance_bot_V4.9.16_ALL_IN_ONE.py:3773-3873 | a call that does not let an exception escape leaves the held slots and money as they were; success adds exactly the new position |
| Protection.ExitEngine.ReprotectIfNaked | legacy_core/binance_bot_V4.9.16_ALL_IN_ONE.py:3547-3696 | the in-place decision chain is the specified three-state decision |
| Protection.ExitEngine.RearmOrExit | legacy_core/binance_bot_V4.9.16_ALL_IN_ONE.py:3664-3696 | re-arm, give up on nothing sellable, or the emergency exit |
| Protection.ReprotectExactly | legacy_core/binance_bot_V4.9.16_ALL_IN_ONE.py:3547-3696 | the whole result of one call from the raw answers: what is sent, and every field of the position and the switches |
| Protection.OnlyADoneOrderIsReplaced | legacy_core/binance_bot_V4.9.16_ALL_IN_ONE.py:3573-3625 | something is sent or the position closed only if the exit order was answered FILLED, CANCELED, EXPIRED, REJECTED or PENDING_CANCEL, or, without one, the list ALL_DONE |
| Protection.RearmsExactlyWhen | legacy_core/binance_bot_V4.9.16_ALL_IN_ONE.py:3627-3683 | the trailing sell goes out exactly when the flag is raised, the order done, the balance above dust, the quantity positive and within the lot range, and the exchange takes it |
| Protection.SellsOnlyWhenNaked | legacy_core/binance_bot_V4.9.16_ALL_IN_ONE.py:3627-3683 | an order leaves only after this call saw the tracked order terminal and a balance above dust; the re-armed quantity is a positive lot multiple, the greatest within the booked fill and the balance reported for it |
| Protection.FirstBalanceBoundsTheSaleExactlyWhen | legacy_core/binance_bot_V4.9.16_ALL_IN_ONE.py:3631-3671 | the sale stays within the balance that decided exactly when the fill or the second balance, cut to the lot, does |
| Protection.OnlyANewerFetchExceedsTheFirstBalance | legacy_core/binance_bot_V4.9.16_ALL_IN_ONE.py:3631-3671 | a sale above the first balance takes an account query more than five seconds after the fetch before it, telling of a larger balance |
| Brokers.Broker.Free | legacy_core/binance_bot_V4.9.16_ALL_IN_ONE.py:2414-2431 | always answers: from the account when the cache is empty or over five seconds old and the account answers, else from the cache, else zero |
| Brokers.TwoReadsAgreeExactlyWhen | legacy_core/binance_bot_V4.9.16_ALL_IN_ONE.py:2414-2431 | two reads in a row agree exactly when the second finds the cache valid, cannot ask, or is told the same again |
| Protection.FlagClearsOnlyWhenSettled | legacy_core/binance_bot_V4.9.16_ALL_IN_ONE.py:3590-3688 | the flag is lowered exactly when protection was seen live, was re-armed, or nothing sellable was reported |
| Protection.UnknownLatchesAndWaits | legacy_core/binance_bot_V4.9.16_ALL_IN_ONE.py:3597-3625 | an unknown status sells nothing, keeps the flag, latches the halt when a retry is due, and then does nothing for at least 30 seconds |
| Protection.OneRearmPerRaising | legacy_core/binance_bot_V4.9.16_ALL_IN_ONE.py:3547-3696 | over every monitor run, re-armed sells never outnumber the raisings of the flag |
| Protection.EmergencyExactlyWhen | legacy_core/binance_bot_V4.9.16_ALL_IN_ONE.py:3695-3696 | the emergency sell goes out exactly when the position is naked, the trailing sell was refused and the emergency sell accepted; it leaves the flag raised |
| Protection.EmergenciesCanRepeat | legacy_core/binance_bot_V4.9.16_ALL_IN_ONE.py:3742-3746 | so emergency sells can repeat any number of times under one raising of the flag |
| SlidingWindow.AnySpanHoldsAtMost | legacy_core/binance_bot_V4.9.16_ALL_IN_ONE.py:4984-4987 | grants spaced a minute from the one `cap` places before never exceed `cap` in any half-open 60-second span |
| SlidingWindow.PurgeTracks | monitoring/api/authentication.py:138-139 | popping old times from the front and filtering them out are the same, and lose nothing that a later check would count |
| SlidingWindow.PurgingChangesNoAnswer | legacy_core/binance_bot_V4.9.16_ALL_IN_ONE.py:4986 | the purged list answers like the whole history of grants |
| SlidingWindow.RecentIsTheLastMinute | legacy_core/binance_bot_V4.9.16_ALL_IN_ONE.py:4986 | what the filter keeps is each time less than 60 seconds old, as often as it was there |
| Budgets.RollingBudget.RollNow | legacy_core/binance_bot_V4.9.16_ALL_IN_ONE.py:4984-4992 | keeps the times under a minute old and restarts the counters of a new day or month |
| Budgets.RollingBudget.AcquireOnce | legacy_core/binance_bot_V4.9.16_ALL_IN_ONE.py:5022-5031 | one turn under the lock grants exactly when the three budgets allow |
| Budgets.RollingBudget.Acquire | legacy_core/binance_bot_V4.9.16_ALL_IN_ONE.py:5015-5036 | always comes back, grants at most once, goes on exactly while waiting is on, the turn was refused, neither cap is full and the deadline is ahead |
| Budgets.BudgetHolds | legacy_core/binance_bot_V4.9.16_ALL_IN_ONE.py:4969-5036 | over every run of every thread: at most `per_min` grants in any 60 seconds, day and month counters are the grants of the current day and month, and no day or month exceeds its cap |
| Budgets.GrantedExactlyWhenUnderTheCaps | legacy_core/binance_bot_V4.9.16_ALL_IN_ONE.py:5021-5031 | a turn is granted exactly when, over everything ever granted, the last minute, the day and the month are under their caps |
| RateLimits.Gate.RequireBearer | monitoring/api/authentication.py:115-145 | the chain of checks, the purge loop and the audit outcome as one specified answer |
| RateLimits.ClientsStayWithinTheLimit | monitoring/api/authentication.py:136-145 | no client is authorised more than its limit in any 60 seconds |
| RateLimits.RefusedExactlyAtTheLimit | monitoring/api/authentication.py:134-145 | an authentic request is authorised or refused for its rate exactly by its client's count of the last minute, and counted even when the log fails; others use up no quota |
| RateLimits.RefusedBeforeTheLimiter | monitoring/api/authentication.py:120-132 | which requests are told disabled, misconfigured, denied or unauthorised, and that an unwritable log hides every answer behind it |
| OverlappingRequests.OverlapOvershootsByAtMost | monitoring/api/authentication.py:136-143 | with at most m requests of one client between check and append at once, no 60 seconds hold more than m-1 admissions above the limit |
| OverlappingRequests.LimitHoldsIffNoOverlap | monitoring/api/authentication.py:136-143 | the limit itself holds in every such run if and only if m is one |
| AuditLogs.AuditLog.Rotate | monitoring/api/authentication.py:47-66 | the downward shift, stopped by an error at any step, loses at most the oldest backup and keeps the reading order |
| AuditLogs.AuditLog.Audit | monitoring/api/authentication.py:69-91 | one call appends its record, or fails without adding anything; it succeeds if the directory does not refuse; the oldest backup goes only when the current file would overflow |
| AuditLogs.MoveKeepsLog | monitoring/api/authentication.py:61-66 | renaming a file to the free number above it does not change what is read |
| AuditLogs.LogIsTheEndOfAllWritten | monitoring/api/authentication.py:47-91 | after any audits the files from oldest to current are the latest part of everything written, in order; at most `backups` + 1 files, each within the limit unless it holds one oversized record |
| Backtests.FindExit | legacy_core/binance_bot_V4.9.16_ALL_IN_ONE.py:7551-7570 | the candle loop with its ratcheting stop finds the specified exit |
| Backtests.Simulate | legacy_core/binance_bot_V4.9.16_ALL_IN_ONE.py:7513-7582 | the outer loop terminates and yields the specified trades; equity is the running sum of net results |
| Backtests.NeverLooksAhead | legacy_core/binance_bot_V4.9.16_ALL_IN_ONE.py:7532-7582 | two histories that agree on their first m candles give the same stop and target trades that end before m, for any score |
| Backtests.ExitIsTheFirstTouch | legacy_core/binance_bot_V4.9.16_ALL_IN_ONE.py:7551-7573 | the exit is the first candle that touches the stop, at the trail below the highest price so far, or the target; otherwise the last close |
| Backtests.StopNeverFalls | legacy_core/binance_bot_V4.9.16_ALL_IN_ONE.py:7557-7559 | the trailing stop never falls |
| Backtests.StopLossIsBounded | legacy_core/binance_bot_V4.9.16_ALL_IN_ONE.py:7561-7567 | for every trail and slippage below one, a stopped trade has gross return at least (1-trail)(1-slip)-1 |
| Backtests.StopFirstIsWorstExactlyWhen | legacy_core/binance_bot_V4.9.16_ALL_IN_ONE.py:7557-7564 | on a candle that touches both, taking the stop is no better than the target exactly when the stop raised by that candle's own high fills no higher than the target |
| Backtests.StopFirstIsNotAlwaysWorst | legacy_core/binance_bot_V4.9.16_ALL_IN_ONE.py:7562-7564 | a candle on which it is better |
| Backtests.FirstTradeIsTheFirstSignal | legacy_core/binance_bot_V4.9.16_ALL_IN_ONE.py:7532-7545 | entries come at the first allowed signal and no signal is passed over |
| Backtests.TradesNeverOverlap | legacy_core/binance_bot_V4.9.16_ALL_IN_ONE.py:7532-7581 | each trade is entered more than the cooldown after the exit before it |
| Backtests.TradeFromTheCandles | legacy_core/binance_bot_V4.9.16_ALL_IN_ONE.py:7546-7579 | one trade from candles and rates alone: bought at the open plus slippage, left at the first fall below the trail or reach of the target, sold for the trailed high less slippage, the target or the last close, and net of the fee |
| Backtests.EverySignalIsTaken | legacy_core/binance_bot_V4.9.16_ALL_IN_ONE.py:7519-7545 | over a whole history, the trades are entered at exactly the first signals after the warm-up and after each cooldown, and none is left behind |
| Backtests.EquityAddsEachNet | legacy_core/binance_bot_V4.9.16_ALL_IN_ONE.py:7530-7576 | the equity starts at zero and every trade adds its net result |
| Metrics.MaxDrawdown | legacy_core/binance_bot_V4.9.16_ALL_IN_ONE.py:7598-7603 | the one-pass drawdown is the minimum of later less earlier equity |
| Metrics.LongestLosingStreak | legacy_core/binance_bot_V4.9.16_ALL_IN_ONE.py:7604-7610 | the one-pass streak is the longest contiguous run of non-winning trades |
| Metrics.WinsAndLossesPartition | legacy_core/binance_bot_V4.9.16_ALL_IN_ONE.py:7594-7597 | wins and losses partition the trades and their gross amounts make up the total |
| Metrics.ProfitFactorAgreesWithExpectancy | legacy_core/binance_bot_V4.9.16_ALL_IN_ONE.py:7611-7622 | before rounding, the profit factor exceeds one exactly when the expectancy is positive |

## Left out

- BookTruth.VerifiedBookIsTheExchanges: assumes a configured minimum of at least one level per side; the code also accepts zero, where its own indexing of the last guaranteed level wraps around.
- BookTruth.RunRefines: safety only; when a snapshot bridges is BookBridge.SnapshotBridges, but after a gap inside the replay the rest of the buffer is dropped and bridging starts again, and no bound on the number of such rounds is stated.
- CollectorSpec.NoBookIsStuck: says that a waiting book becomes eligible and that some job is then picked, not that the scheduler reaches this book first.
- FlowSpec.FreshFlowCoversTheMinute: assumes that the monotonic and the wall clock advance together between the messages and the reading.
- SubscriptionSpec.RunKeeps: `_on_open` and `update_symbols` are atomic; interleaving their chunks, which the per-chunk send lock permits, is not modelled.
- Budgets.RollingBudget.Acquire: the method runs one caller's turns back to back; turns of other threads in between are covered by Budgets.BudgetHolds, which takes turns in any order.
- RateLimits.ClientsStayWithinTheLimit: requests of one client are handled one at a time; OverlappingRequests.OverlapOvershootsByAtMost separates the append from the check, but keeps reading the clock, purging and checking together, so two purges that race for the same entry are not modelled.
- AuditLogs.LogIsTheEndOfAllWritten: settings are fixed and rotation is enabled; a line cut short by a failed write is not modelled.
- Protection.SellsOnlyWhenNaked: speaks of the balance that the broker reports, which may be cached or zero after a failure, and of the orders that the call knows to be placed; a sell whose call raised may have been taken by the exchange too.
- Protection.OnlyANewerFetchExceedsTheFirstBalance: assumes that no other thread reads a balance between the two reads of the call.
- Entries.EntryEngine.Execute: one call on a symbol not being opened, with nothing between its two lock sections; entries with other activity between them are covered by ReservationSpec.InterleavedEntrySettlesExactly. The switch that refuses entries at the broker and add-on buys, off by default, are not modelled.
- Brackets.EntryStaysWithinItsReservation: arithmetic is exact; the 28 digits of the decimal context and floating point in the backtest are not modelled.
- Backtests.Simulate: assumes positive opening prices; at a price of zero the code divides by zero.
- Order of dictionaries and sorted names: a job or a list of streams is picked in some order, not in the code's own.
- Stream names: a stream is a symbol and a channel; lower-casing, which could merge two symbols that differ in case only, is not modelled.
- Book-ticker ingestion, the HTTP status fields, the Telegram menus, indicator scoring, persistence and reconciliation at start, JSON and socket handling, deployment scripts: plumbing or single checks.
- `subscription_ready`: it compares counts, not streams; the set comparison of the probation check is what `SubscriptionSpec.QuietMeansExactlyDesired` is about.
- `allow` followed by `record` on the budget: callers that check once and record several times are outside the claims, which are about `acquire`.
- The choice in `place_initial` between an activation order and an immediate trail, momentum uncapping and the two-step tightening: only the activation arithmetic is modelled.
- Total spend over several reprices, and tightening of trailing stops by cancel and replace.
- Rounding of the backtest's published figures.
