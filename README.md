# tws-redis-bridge: the normalisation and aggregation pipeline in Dafny

This project models the core of a bridge from a brokerage market-data feed to a publish/subscribe sink. There are three stages.

- **Feed adapter** (`TwsClient`): tick-by-tick callbacks become flat `TickUpdate` records. Each record is routed by request id and offered to a bounded queue.
- **Worker** (`RedisWorker`): updates are drained one at a time and merged per symbol into an `InstrumentState`.
- **Publishing**: a state is published as a JSON snapshot on `TWS:TICKS:<symbol>` once it has both a quote and a trade. Bars go straight to `TWS:BARS:<symbol>`.

Files and modules:

| file | module | what it holds |
|---|---|---|
| `wrappers.dfy` | `Wrappers` | `Option` |
| `market_data.dfy` | `MarketData` | the records `TickUpdate` and `InstrumentState`, their defaults and their quote/trade halves |
| `timestamp.dfy` | `Timestamp` | `formatTimestamp` |
| `serialization.dfy` | `Serialization` | `serializeState` |
| `event_queue.dfy` | `EventQueue` | the bounded FIFO queue, with capacity 10000 |
| `tws_client.dfy` | `TwsClient` | the adapter class `Client` |
| `redis_worker.dfy` | `RedisWorker` | the worker class `Worker` and its one-step and many-step specification functions |

**`Timestamp`.** `gmtime` is written out with integer day arithmetic. It is proved to invert the "Seconds Since the Epoch" formula of section 4.16 of POSIX.1-2017 Base Definitions. The text is read back by a parser, and the round trip `ParseTimestamp(FormatTimestamp(t)) == Some(t)` is proved.

**`Serialization`.** The snapshot is an ordered JSON tree with a decoder. The decoder shows that the snapshot carries exactly the published fields of the state.

**`TwsClient`.**
- The connection flag, the routing map and the queue are fields that the methods update.
- The construction of an update from callback arguments is a pure function.
- The callbacks are proved against `Deliver`.

**`RedisWorker`.**
- `Worker.ProcessUpdate` is the per-event body of the worker loop. It covers the symbol ladder, the merge through `stateMap[symbol]`, the bar fast path, gated publishing and a sink that may fail.
- It is proved against `StepState` and `StepPublications`.
- `Worker.Drain` runs it over the queue and is proved against `RunState`, `RunPublications` and `RunDelivered`.

Behaviour of the code worth noting:

- **Unknown ids.** An update whose ticker id is not on the worker's ladder is not discarded. It is aggregated under the symbol `"UNKNOWN"` (src/main.cpp:40-45).
- **Bars touch state.** A bar event still creates the `stateMap[symbol]` entry and overwrites its `symbol` and `tickerId` before the bar branch runs (src/main.cpp:48-50). It never changes the quote or trade halves.
- **Channel names.** The channel prefix is the literal `TWS:`. It is not configurable.
- **Bar fields.** A bar carries only open, high, low, close and volume.

## Model

| member | source | states |
|---|---|---|
| MarketData.DefaultTickUpdate | include/MarketData.h:22-37 | a value-initialised update has ticker id 0, tag BidAsk, timestamp 0, zero quote and trade fields and pastLimit false |
| MarketData.DefaultInstrumentState | include/MarketData.h:47-69 | a value-initialised state has empty symbol and exchange, zero ids, prices, sizes and timestamps, no quote and no trade, so it is not ready to publish |
| Timestamp.YearOf | include/Serialization.h:22 | splitting a day count into a year and a day of that year: the day is within the year and the days before the year plus the day give back the count |
| Timestamp.MonthOf | include/Serialization.h:22 | splitting a day of the year into a month and a day of the month: both in range, and the days before the month plus the day give back the day of the year |
| Timestamp.Gmtime | include/Serialization.h:18-22 | the broken-down UTC time of the seconds: every field in range, the date counts the whole days and the clock the remaining seconds |
| Timestamp.GmtimeInverse | include/Serialization.h:22 | the broken-down time gmtime produces has exactly the given seconds since the epoch under the formula of section 4.16 of POSIX.1-2017 |
| Timestamp.DecimalRoundTrip | include/Serialization.h:22 | the year as `%Y` prints it reads back as the same number |
| Timestamp.FormatTm | include/Serialization.h:21-23 | the text ends with '.', three digits whose value is the milliseconds, and 'Z', and is at least 24 characters long |
| Timestamp.FormatTimestamp | include/Serialization.h:17-26 | the text ends with '.', the three-digit zero-padded `t % 1000`, and 'Z' |
| Timestamp.FormatParseRoundTrip | include/Serialization.h:17-26 | the formatted text reads back as the same timestamp, so the format loses nothing for t >= 0 |
| Timestamp.SameSecondSamePrefix | include/Serialization.h:18-22 | two timestamps in the same second give texts of the same length that agree on everything before the milliseconds |
| Timestamp.FormatFirstSecond | include/Serialization.h:17-26 | every timestamp within the first second is `1970-01-01T00:00:00.` followed by its padded milliseconds and `Z` |
| Timestamp.FormatEpoch | include/Serialization.h:17-26 | timestamp 0 is rendered `1970-01-01T00:00:00.000Z` |
| Serialization.Max | include/Serialization.h:53 | the combined timestamp is one of the two timestamps and at least both |
| Serialization.SerializeState | include/Serialization.h:37-93 | the snapshot is an object with the keys instrument, conId, timestamp, price, size, timestamps, exchange and tickAttrib in that order; the nested keys are bid/ask/last, bid/ask/last, quote/trade and pastLimit; instrument is the symbol and timestamp is the later of the two half timestamps |
| Serialization.DecodeSerialize | include/Serialization.h:37-93 | a snapshot reads back as the state with only the ticker id and the two presence flags reset, so every other field, both half timestamps included, is emitted as given |
| Serialization.SerializeExactlyPublished | include/Serialization.h:37-93 | two states give equal snapshots if and only if they agree on everything except the ticker id and the presence flags |
| Serialization.SerializeIgnoresUnpublished | include/Serialization.h:43-90 | the ticker id and the presence flags never reach the snapshot |
| Serialization.SerializeDefaultWithSymbol | tests/test_serialization.cpp:36-43 | a default state with only the symbol set still serialises with `instrument` equal to that symbol and a zero timestamp |
| EventQueue.Offer | src/TwsClient.cpp:130-132 | an offer succeeds if and only if the queue is below capacity; a success appends at the tail, a failure leaves the queue unchanged |
| EventQueue.OfferAllKeepsPrefix | src/TwsClient.cpp:130-132 | a burst of offers keeps the earliest updates that fit, in order, after what was queued, and drops the rest |
| EventQueue.OneOverCapacity | src/main.cpp:131 | offering one more update than the capacity to an empty queue keeps the first `capacity` updates |
| EventQueue.BoundedQueue.constructor | src/main.cpp:131 | a new queue is empty with the given capacity |
| EventQueue.BoundedQueue.TryEnqueue | src/TwsClient.cpp:130-132 | the new contents and the result are exactly `Offer` of the old contents |
| EventQueue.BoundedQueue.TryDequeue | src/main.cpp:37 | an empty queue yields nothing; otherwise the oldest update is removed and returned |
| TwsClient.SubscribedRoutes | src/TwsClient.cpp:52-72 | subscribing routes both `tickerId` and `tickerId + 10000` to the symbol, adds exactly those keys and leaves every other entry unchanged |
| TwsClient.ClassifyError | src/TwsClient.cpp:96-106 | a code is informational if and only if it is 2104, 2106 or 2158; every other code is an error |
| TwsClient.BidAskUpdate | src/TwsClient.cpp:119-127 | the update is tagged BidAsk with the request id and time*1000; its selected payload is exactly the callback's bid/ask prices and sizes; its trade fields keep their defaults |
| TwsClient.AllLastUpdate | src/TwsClient.cpp:147-153 | the update is tagged AllLast with the request id and time*1000; its selected payload is exactly the callback's price, size and pastLimit; its quote fields keep their defaults |
| TwsClient.Deliver | src/TwsClient.cpp:108-133 | an unknown request id leaves the queue unchanged; a full queue drops the update unchanged; otherwise the update is appended |
| TwsClient.DeliverOnlyAppends | src/TwsClient.cpp:130-132 | a callback either leaves the queue as it was or appends its update, and it appends exactly when it reports Enqueued |
| TwsClient.SubscribedCallbacksEnqueue | src/TwsClient.cpp:113-132 | after subscribing, updates under either of the symbol's two ids reach the queue whenever there is room |
| TwsClient.Client.constructor | src/TwsClient.cpp:12-16 | a new adapter is disconnected with an empty routing map over the given queue |
| TwsClient.Client.Connect | src/TwsClient.cpp:22-38 | the result is eConnect's outcome; the flag is set only on success and is left as it was on failure |
| TwsClient.Client.Disconnect | src/TwsClient.cpp:40-46 | eDisconnect is sent exactly when the adapter was connected; the flag is false afterwards, so a second call sends nothing |
| TwsClient.Client.ConnectionClosed | src/TwsClient.cpp:91-94 | the flag is false afterwards and the routing map is unchanged |
| TwsClient.Client.IsConnected | src/TwsClient.cpp:48-50 | the adapter is up if and only if its flag and the socket both say so |
| TwsClient.Client.SubscribeTickByTick | src/TwsClient.cpp:52-72 | the routing map becomes `Subscribed` of the old one; a BidAsk request goes out under the id and an AllLast request under the id plus 10000 |
| TwsClient.Client.TickByTickBidAsk | src/TwsClient.cpp:108-133 | the new queue and the outcome are `Deliver` of the built BidAsk update |
| TwsClient.Client.TickByTickAllLast | src/TwsClient.cpp:135-158 | the new queue and the outcome are `Deliver` of the built AllLast update |
| RedisWorker.SymbolFor | src/main.cpp:40-45 | ids 1001 and 11001 give AAPL; 1002, 11002, 2001 and 3001 give SPY; 1003 and 11003 give TSLA; any other id gives UNKNOWN; each of these holds in both directions |
| RedisWorker.LadderMatchesSubscriptions | src/main.cpp:40-45 | for AAPL, SPY and TSLA under 1001, 1002 and 1003, both ids the adapter routes to the symbol are aggregated under that same symbol |
| RedisWorker.Merge | src/main.cpp:48-64 | the identity is overwritten for every update; a quote replaces only the quote half and sets hasQuote; a trade replaces only the trade half (pastLimit included) and sets hasTrade; a bar leaves both halves as they were |
| RedisWorker.StepState | src/main.cpp:48-64 | after any update, bars included, the symbol's entry exists and is the update merged (by `Merge`) into the old entry or a default one, so symbol and ticker id are written on every update and only the selected half changes; no key is added but that symbol, and every other entry is unchanged |
| RedisWorker.StepPublications | src/main.cpp:65-100 | at most one publication; a bar publishes its bar on the bars channel; a quote or trade publishes if and only if the merged state has both halves |
| RedisWorker.StepKeepsWellFormed | src/main.cpp:48-64 | every entry stays keyed by its own symbol, with the conId and exchange the worker never writes |
| RedisWorker.Worker.constructor | src/main.cpp:32 | the worker starts with an empty state map |
| RedisWorker.Worker.ProcessUpdate | src/main.cpp:37-100 | the new map is `StepState` of the old, the publications are `StepPublications`, and a failing sink delivers nothing but keeps the state update |
| RedisWorker.Worker.Drain | src/main.cpp:34-105 | draining the queue in order leaves it empty, the map equal to `RunState` and the publications and deliveries equal to `RunPublications` and `RunDelivered` |
| RedisWorker.RunKeepsFlags | src/main.cpp:48-64 | over any sequence of updates an entry stays present, and hasQuote and hasTrade once true stay true |
| RedisWorker.ReadyKeepsPublishing | src/main.cpp:85-100 | once a symbol has both halves, every later quote or trade for it publishes its snapshot again |
| RedisWorker.TickPublishesIffReady | src/main.cpp:85-100 | a quote or trade publishes the merged state's snapshot on the ticks channel when the state is ready, and nothing otherwise |
| RedisWorker.BarLeavesHalves | src/main.cpp:65-83 | a bar publishes once on the bars channel, never on the ticks channel, and leaves the quote and trade halves and flags as they were while still setting the symbol and ticker id |
| RedisWorker.TicksChannelInjective | src/main.cpp:89 | distinct symbols have distinct ticks channels |
| RedisWorker.ChannelsDisjoint | src/main.cpp:76-89 | no ticks channel is a bars channel |
| RedisWorker.QuotesAloneNeverPublish | src/main.cpp:85-90 | a symbol without a trade that receives no trade never gains one, and nothing is ever published on its ticks channel |
| RedisWorker.SnapshotCarriesState | src/main.cpp:86-90 | a published snapshot decodes to the published part of the merged state |
| RedisWorker.QuoteThenTradeScenario | src/main.cpp:40-100 | from an empty map, an AAPL quote under 1001 then an AAPL trade under 11001 publish exactly one snapshot, on the AAPL ticks channel; it carries both halves and the later of the two timestamps |
| RedisWorker.SinkUpDeliversAll | src/main.cpp:85-100 | over any run in which the sink never fails, the deliveries are exactly the publications |
| RedisWorker.FailureThenRecovery | src/main.cpp:86-99 | for a ready symbol, when the sink throws on one quote or trade and is back for the next, that next update's snapshot, carrying both updates, is delivered: a failure loses only its own message |
| RedisWorker.TwoStepDelivered | src/main.cpp:86-99 | the deliveries of two updates are the publications of each step whose sink call succeeded, in order |

## Left out

- **Sockets and threads.** Socket I/O (eConnect, eDisconnect, reqTickByTickData, the EReader thread, processMessages) is out. So are the worker thread, the `running` flag, the sleep when the queue is empty, signal handling and `main`'s wiring. Instead, eConnect's outcome and the socket's liveness are parameters, and subscription requests are returned as values.
- **The queue library.** moodycamel::ConcurrentQueue's internals and thread safety are out. The queue is a first-in first-out sequence with an exact capacity of 10000. The library's pre-allocated blocks are taken to mean that an offer fails exactly at that capacity.
- **The Redis client.** The client, its connection pool and its reconnect logic are out. `publish` is a sink that either returns or throws, given per update as `sinkUp`.
- **Text rendering.** Logging and all console output are out. So are the rendering of doubles and the escaping of strings in JSON text: prices are exact reals and the snapshot is a JSON tree.
- **Bar serialisation.** `serializeBarData`, `subscribeHistoricalBars` and `subscribeRealTimeBars` are defined in no file of this model. A bar message carries the symbol and the bar fields opaquely.
- **Bar tag.** The `Bar` tag and the bar fields of `TickUpdate` are an assumption. The worker loop uses them, but include/MarketData.h does not declare them.
- **Other callbacks.** `nextValidId`, `connectAck` and the callbacks that do nothing are out.
- Timestamp.FormatTimestamp: only non-negative timestamps are modelled. For negative ones C++ truncating `/` and `%` would give a negative millisecond field.
- TwsClient.BidAskUpdate: the callback receives sizes as `Decimal` and casts them with `static_cast<int>`; the model takes sizes as integers, so the cast is not modelled. The 64-bit overflow of `time * 1000` is not modelled either.
- TwsClient.AllLastUpdate: the same `Decimal` cast and the same overflow of `time * 1000` are not modelled.
- RedisWorker.Worker.Drain: drains until the queue is empty rather than until `running` is cleared, with no producer running concurrently.
- **Integer widths.** The `int` and `long` fields are unbounded integers.
