/**
 * The aggregation worker (the body of redisWorkerLoop in src/main.cpp): each
 * dequeued TickUpdate is attributed to a symbol by a fixed ladder of ids,
 * merged into that symbol's InstrumentState, and published as a snapshot on
 * "TWS:TICKS:<symbol>" once the state has both a quote and a trade. Bar
 * updates are published at once on "TWS:BARS:<symbol>" and never merged.
 *
 * Publishing is an abstract sink call that either succeeds or fails; a failure
 * is caught and changes nothing else, so the sink's outcome is a parameter.
 */
module RedisWorker {
  import opened Wrappers
  import opened MarketData
  import opened Serialization
  import opened EventQueue
  import TwsClient

  // ---- symbol ladder ------------------------------------------------------------

  /** The symbol an update is aggregated under, from its ticker id alone. */
  function SymbolFor(tickerId: int): (symbol: string)
    ensures symbol == "AAPL" <==> tickerId == 1001 || tickerId == 11001
    ensures symbol == "SPY" <==> tickerId == 1002 || tickerId == 11002 || tickerId == 2001 || tickerId == 3001
    ensures symbol == "TSLA" <==> tickerId == 1003 || tickerId == 11003
    ensures symbol == "UNKNOWN" <==> tickerId !in {1001, 11001, 1002, 11002, 2001, 3001, 1003, 11003}
  {
    if tickerId == 1001 || tickerId == 11001 then "AAPL"
    else if tickerId == 1002 || tickerId == 11002 then "SPY"
    else if tickerId == 1003 || tickerId == 11003 then "TSLA"
    else if tickerId == 2001 then "SPY"
    else if tickerId == 3001 then "SPY"
    else "UNKNOWN"
  }

  /** The ladder agrees with the adapter's routing for the three tick-by-tick
      subscriptions it knows of (AAPL, SPY and TSLA under 1001, 1002 and 1003):
      both request ids the adapter routes to a symbol are aggregated under it. */
  lemma LadderMatchesSubscriptions(table: map<int, string>, symbol: string, tickerId: int, id: int)
    requires (symbol, tickerId) in {("AAPL", 1001), ("SPY", 1002), ("TSLA", 1003)}
    requires id == tickerId || id == tickerId + TwsClient.AllLastIdOffset
    ensures var routed := TwsClient.Subscribed(table, symbol, tickerId);
            id in routed && routed[id] == symbol == SymbolFor(id)
  {
    TwsClient.SubscribedRoutes(table, symbol, tickerId);
  }

  // ---- merging ----------------------------------------------------------------

  /** The entry for a symbol, or a default state when there is none yet
      (what `stateMap[symbol]` yields). */
  function Lookup(m: map<string, InstrumentState>, symbol: string): InstrumentState {
    if symbol in m then m[symbol] else DefaultInstrumentState()
  }

  /** One update merged into a symbol's state: the identity is overwritten for
      every update, and then only the half the update's tag selects. */
  function Merge(s: InstrumentState, symbol: string, u: TickUpdate): (r: InstrumentState)
    ensures r.symbol == symbol && r.tickerId == u.tickerId
    ensures r.conId == s.conId && r.exchange == s.exchange
    ensures u.kind == BidAsk ==> QuoteHalfOf(r) == QuoteHalf(QuoteOf(u), u.timestamp, true) && TradeHalfOf(r) == TradeHalfOf(s)
    ensures u.kind == AllLast ==> TradeHalfOf(r) == TradeHalf(TradeOf(u), u.timestamp, true) && QuoteHalfOf(r) == QuoteHalfOf(s)
    ensures u.kind == Bar ==> QuoteHalfOf(r) == QuoteHalfOf(s) && TradeHalfOf(r) == TradeHalfOf(s)
  {
    var named := s.(symbol := symbol, tickerId := u.tickerId);
    match u.kind
    case BidAsk =>
      named.(bidPrice := u.bidPrice, askPrice := u.askPrice, bidSize := u.bidSize, askSize := u.askSize,
             quoteTimestamp := u.timestamp, hasQuote := true)
    case AllLast =>
      named.(lastPrice := u.lastPrice, lastSize := u.lastSize, tradeTimestamp := u.timestamp,
             hasTrade := true, pastLimit := u.pastLimit)
    case Bar => named
  }

  /** The state map after one update: only the update's symbol's entry changes,
      and it becomes the update merged into the old entry (or a default one). */
  function StepState(m: map<string, InstrumentState>, u: TickUpdate): (r: map<string, InstrumentState>)
    ensures SymbolFor(u.tickerId) in r
    ensures r[SymbolFor(u.tickerId)] == Merge(Lookup(m, SymbolFor(u.tickerId)), SymbolFor(u.tickerId), u)
    ensures r.Keys == m.Keys + {SymbolFor(u.tickerId)}
    ensures forall k :: k in m && k != SymbolFor(u.tickerId) ==> r[k] == m[k]
  {
    var symbol := SymbolFor(u.tickerId);
    m[symbol := Merge(Lookup(m, symbol), symbol, u)]
  }

  // ---- publishing -------------------------------------------------------------

  function TicksChannel(symbol: string): string {
    "TWS:TICKS:" + symbol
  }

  function BarsChannel(symbol: string): string {
    "TWS:BARS:" + symbol
  }

  /** A published message: a state snapshot, or a bar whose serialisation is not
      part of this model. */
  datatype Message = Snapshot(json: Json) | BarMessage(symbol: string, bar: BarFields)

  datatype Publication = Publication(channel: string, message: Message)

  /** What one update publishes, given the state map before it. */
  function StepPublications(m: map<string, InstrumentState>, u: TickUpdate): (pubs: seq<Publication>)
    ensures |pubs| <= 1
    ensures u.kind == Bar ==> pubs == [Publication(BarsChannel(SymbolFor(u.tickerId)), BarMessage(SymbolFor(u.tickerId), u.bar))]
    ensures u.kind != Bar ==> (pubs != [] <==> EmitReady(StepState(m, u)[SymbolFor(u.tickerId)]))
  {
    var symbol := SymbolFor(u.tickerId);
    var state := StepState(m, u)[symbol];
    if u.kind == Bar then [Publication(BarsChannel(symbol), BarMessage(symbol, u.bar))]
    else if EmitReady(state) then [Publication(TicksChannel(symbol), Snapshot(SerializeState(state)))]
    else []
  }

  /** The state map after a sequence of updates. */
  function RunState(m: map<string, InstrumentState>, us: seq<TickUpdate>): map<string, InstrumentState>
    decreases |us|
  {
    if us == [] then m else StepState(RunState(m, us[..|us| - 1]), us[|us| - 1])
  }

  /** Everything a sequence of updates publishes, in order. */
  function RunPublications(m: map<string, InstrumentState>, us: seq<TickUpdate>): seq<Publication>
    decreases |us|
  {
    if us == [] then []
    else RunPublications(m, us[..|us| - 1]) + StepPublications(RunState(m, us[..|us| - 1]), us[|us| - 1])
  }

  /** The publications the sink accepted, given its outcome for each update. */
  function RunDelivered(m: map<string, InstrumentState>, us: seq<TickUpdate>, sinkUp: seq<bool>): seq<Publication>
    requires |sinkUp| == |us|
    decreases |us|
  {
    if us == [] then []
    else
      var n := |us| - 1;
      RunDelivered(m, us[..n], sinkUp[..n]) + (if sinkUp[n] then StepPublications(RunState(m, us[..n]), us[n]) else [])
  }

  /** Running one more update extends a run by one step. */
  lemma RunSnoc(m: map<string, InstrumentState>, us: seq<TickUpdate>, i: nat)
    requires i < |us|
    ensures RunState(m, us[..i + 1]) == StepState(RunState(m, us[..i]), us[i])
    ensures RunPublications(m, us[..i + 1]) == RunPublications(m, us[..i]) + StepPublications(RunState(m, us[..i]), us[i])
  {
    assert us[..i + 1][..i] == us[..i];
  }

  /** The sink's outcome for one more update decides whether its publications
      are delivered. */
  lemma DeliveredSnoc(m: map<string, InstrumentState>, us: seq<TickUpdate>, sinkUp: seq<bool>, i: nat)
    requires i < |us| == |sinkUp|
    ensures RunDelivered(m, us[..i + 1], sinkUp[..i + 1])
            == RunDelivered(m, us[..i], sinkUp[..i]) + (if sinkUp[i] then StepPublications(RunState(m, us[..i]), us[i]) else [])
  {
    assert us[..i + 1][..i] == us[..i];
    assert sinkUp[..i + 1][..i] == sinkUp[..i];
  }

  // ---- the map invariant --------------------------------------------------------

  /** Every entry is keyed by its own symbol, and the fields the worker never
      writes (conId, exchange) keep their defaults. */
  predicate WellFormed(m: map<string, InstrumentState>) {
    forall k :: k in m ==> m[k].symbol == k && m[k].conId == 0 && m[k].exchange == ""
  }

  lemma StepKeepsWellFormed(m: map<string, InstrumentState>, u: TickUpdate)
    requires WellFormed(m)
    ensures WellFormed(StepState(m, u))
  {
    var symbol := SymbolFor(u.tickerId);
    var r := StepState(m, u);
    forall k | k in r
      ensures r[k].symbol == k && r[k].conId == 0 && r[k].exchange == ""
    {
      if k == symbol {
        assert r[k] == Merge(Lookup(m, symbol), symbol, u);
      }
    }
  }

  // ---- the worker ---------------------------------------------------------------

  class Worker {
    var stateMap: map<string, InstrumentState>

    predicate Valid()
      reads this
    {
      WellFormed(stateMap)
    }

    constructor ()
      ensures Valid() && stateMap == map[]
    {
      stateMap := map[];
    }

    /** One dequeued update: the symbol ladder, the merge through
        `stateMap[symbol]`, the bar fast path and the gated snapshot publish.
        `sinkUp` is whether the publish call returns or throws; either way the
        step completes and keeps its state update. */
    method ProcessUpdate(update: TickUpdate, sinkUp: bool) returns (published: seq<Publication>, delivered: seq<Publication>)
      requires Valid()
      modifies this
      ensures Valid()
      ensures stateMap == StepState(old(stateMap), update)
      ensures published == StepPublications(old(stateMap), update)
      ensures delivered == if sinkUp then published else []
    {
      ghost var before := stateMap;
      StepKeepsWellFormed(stateMap, update);
      var symbol := SymbolFor(update.tickerId);
      var state := Lookup(stateMap, symbol);
      state := state.(symbol := symbol, tickerId := update.tickerId);
      stateMap := stateMap[symbol := state];
      published, delivered := [], [];
      if update.kind == BidAsk {
        state := state.(bidPrice := update.bidPrice, askPrice := update.askPrice,
                        bidSize := update.bidSize, askSize := update.askSize,
                        quoteTimestamp := update.timestamp, hasQuote := true);
        stateMap := stateMap[symbol := state];
      } else if update.kind == AllLast {
        state := state.(lastPrice := update.lastPrice, lastSize := update.lastSize,
                        tradeTimestamp := update.timestamp, hasTrade := true, pastLimit := update.pastLimit);
        stateMap := stateMap[symbol := state];
      } else {
        var bar := Publication(BarsChannel(symbol), BarMessage(symbol, update.bar));
        published := [bar];
        if sinkUp {
          delivered := [bar];
        }
        return;
      }
      assert state == StepState(before, update)[symbol];
      if state.hasQuote && state.hasTrade {
        var snapshot := Publication(TicksChannel(symbol), Snapshot(SerializeState(state)));
        published := [snapshot];
        if sinkUp {
          delivered := [snapshot];
        }
      }
    }

    /** Drains the queue, one update at a time, in queue order. `sinkUp[i]` is
        the sink's outcome while the i-th update is handled. */
    method Drain(queue: BoundedQueue, sinkUp: seq<bool>) returns (published: seq<Publication>, delivered: seq<Publication>)
      requires Valid() && queue.Valid() && |sinkUp| == |queue.items|
      modifies this, queue
      ensures Valid() && queue.Valid() && queue.items == []
      ensures stateMap == RunState(old(stateMap), old(queue.items))
      ensures published == RunPublications(old(stateMap), old(queue.items))
      ensures delivered == RunDelivered(old(stateMap), old(queue.items), sinkUp)
    {
      ghost var start := stateMap;
      ghost var us := queue.items;
      published, delivered := [], [];
      var i := 0;
      while i < |sinkUp|
        invariant 0 <= i <= |us| && queue.Valid() && Valid()
        invariant queue.items == us[i..]
        invariant stateMap == RunState(start, us[..i])
        invariant published == RunPublications(start, us[..i])
        invariant delivered == RunDelivered(start, us[..i], sinkUp[..i])
        decreases |us| - i
      {
        var next := queue.TryDequeue();
        var update := next.value;
        assert update == us[i];
        var pubs, sent := ProcessUpdate(update, sinkUp[i]);
        RunSnoc(start, us, i);
        DeliveredSnoc(start, us, sinkUp, i);
        published := published + pubs;
        delivered := delivered + sent;
        i := i + 1;
      }
      assert us[..i] == us;
      assert sinkUp[..i] == sinkUp;
    }
  }

  // ---- properties ---------------------------------------------------------------

  /** The presence flags are never reset: an entry that has a quote (a trade)
      keeps it over any sequence of updates. */
  lemma {:induction false} RunKeepsFlags(m: map<string, InstrumentState>, us: seq<TickUpdate>, symbol: string)
    requires symbol in m
    ensures symbol in RunState(m, us)
    ensures m[symbol].hasQuote ==> RunState(m, us)[symbol].hasQuote
    ensures m[symbol].hasTrade ==> RunState(m, us)[symbol].hasTrade
    decreases |us|
  {
    if us != [] {
      var prefix := us[..|us| - 1];
      RunKeepsFlags(m, prefix, symbol);
      var before := RunState(m, prefix);
      var u := us[|us| - 1];
      if symbol == SymbolFor(u.tickerId) {
        assert RunState(m, us)[symbol] == Merge(before[symbol], symbol, u);
      }
    }
  }

  /** Publishing is not edge-triggered: once a symbol has had both a quote and a
      trade, every later quote or trade for it publishes a snapshot again. */
  lemma ReadyKeepsPublishing(m: map<string, InstrumentState>, us: seq<TickUpdate>, u: TickUpdate)
    requires SymbolFor(u.tickerId) in m && EmitReady(m[SymbolFor(u.tickerId)])
    requires u.kind != Bar
    ensures StepPublications(RunState(m, us), u) ==
            [Publication(TicksChannel(SymbolFor(u.tickerId)),
                         Snapshot(SerializeState(StepState(RunState(m, us), u)[SymbolFor(u.tickerId)])))]
  {
    var symbol := SymbolFor(u.tickerId);
    RunKeepsFlags(m, us, symbol);
    var before := RunState(m, us);
    assert StepState(before, u)[symbol] == Merge(before[symbol], symbol, u);
  }

  /** A quote or trade publishes exactly when its symbol's merged state has both
      halves, and what it publishes is that state's snapshot on the ticks channel. */
  lemma TickPublishesIffReady(m: map<string, InstrumentState>, u: TickUpdate)
    requires u.kind != Bar
    ensures var symbol := SymbolFor(u.tickerId);
            var state := StepState(m, u)[symbol];
            (EmitReady(state) ==> StepPublications(m, u) == [Publication(TicksChannel(symbol), Snapshot(SerializeState(state)))])
            && (!EmitReady(state) ==> StepPublications(m, u) == [])
  {
  }

  /** A bar publishes once on the bars channel and leaves its symbol's quote
      and trade halves (flags included) as they were. */
  lemma BarLeavesHalves(m: map<string, InstrumentState>, u: TickUpdate)
    requires u.kind == Bar
    ensures var symbol := SymbolFor(u.tickerId);
            var after := StepState(m, u)[symbol];
            && StepPublications(m, u) == [Publication(BarsChannel(symbol), BarMessage(symbol, u.bar))]
            && QuoteHalfOf(after) == QuoteHalfOf(Lookup(m, symbol))
            && TradeHalfOf(after) == TradeHalfOf(Lookup(m, symbol))
            && after.symbol == symbol && after.tickerId == u.tickerId
  {
    var symbol := SymbolFor(u.tickerId);
    assert StepState(m, u)[symbol] == Merge(Lookup(m, symbol), symbol, u);
  }

  lemma TicksChannelInjective(a: string, b: string)
    ensures TicksChannel(a) == TicksChannel(b) <==> a == b
  {
    if TicksChannel(a) == TicksChannel(b) {
      assert a == TicksChannel(a)[10..];
      assert b == TicksChannel(b)[10..];
    }
  }

  lemma ChannelsDisjoint(a: string, b: string)
    ensures TicksChannel(a) != BarsChannel(b)
  {
    assert TicksChannel(a)[4] == 'T' && BarsChannel(b)[4] == 'B';
  }

  /** No snapshot is ever published for a symbol that has no trade and receives
      no trade: quotes alone never publish. */
  lemma {:induction false} QuotesAloneNeverPublish(m: map<string, InstrumentState>, us: seq<TickUpdate>, symbol: string)
    requires !Lookup(m, symbol).hasTrade
    requires forall i :: 0 <= i < |us| && SymbolFor(us[i].tickerId) == symbol ==> us[i].kind != AllLast
    ensures !Lookup(RunState(m, us), symbol).hasTrade
    ensures forall p :: p in RunPublications(m, us) ==> p.channel != TicksChannel(symbol)
    decreases |us|
  {
    if us != [] {
      var n := |us| - 1;
      var prefix, u := us[..n], us[n];
      assert forall i :: 0 <= i < |prefix| ==> prefix[i] == us[i];
      QuotesAloneNeverPublish(m, prefix, symbol);
      var before := RunState(m, prefix);
      var uSymbol := SymbolFor(u.tickerId);
      assert RunState(m, us) == StepState(before, u);
      if uSymbol == symbol {
        assert StepState(before, u)[symbol] == Merge(Lookup(before, symbol), symbol, u);
      }
      if u.kind == Bar {
        ChannelsDisjoint(symbol, uSymbol);
      } else if uSymbol != symbol {
        TicksChannelInjective(symbol, uSymbol);
      }
    }
  }

  /** A published snapshot reads back as the published part of the merged state:
      what subscribers receive is the aggregated quote and trade. */
  lemma SnapshotCarriesState(m: map<string, InstrumentState>, u: TickUpdate)
    requires u.kind != Bar
    requires StepPublications(m, u) != []
    ensures var state := StepState(m, u)[SymbolFor(u.tickerId)];
            StepPublications(m, u)[0].message.Snapshot?
            && DecodeState(StepPublications(m, u)[0].message.json) == Some(PublishedPart(state))
  {
    DecodeSerialize(StepState(m, u)[SymbolFor(u.tickerId)]);
  }

  /** From an empty map, an AAPL quote under 1001 followed by an AAPL trade
      under 11001 publishes one snapshot, on TWS:TICKS:AAPL, that carries both
      and the later of their timestamps. */
  lemma QuoteThenTradeScenario(quote: TickUpdate, trade: TickUpdate)
    requires quote.kind == BidAsk && quote.tickerId == 1001
    requires trade.kind == AllLast && trade.tickerId == 11001
    ensures var pubs := RunPublications(map[], [quote, trade]);
            var state := RunState(map[], [quote, trade])["AAPL"];
            && pubs == [Publication(TicksChannel("AAPL"), Snapshot(SerializeState(state)))]
            && QuoteHalfOf(state) == QuoteHalf(QuoteOf(quote), quote.timestamp, true)
            && TradeHalfOf(state) == TradeHalf(TradeOf(trade), trade.timestamp, true)
            && SerializeState(state).members[2].value == JInt(Max(quote.timestamp, trade.timestamp))
  {
    var m1 := StepState(map[], quote);
    TwoStepRun(map[], [quote, trade]);
    QuoteFirst(quote, m1);
    var s2 := Merge(m1["AAPL"], "AAPL", trade);
    assert StepState(m1, trade)["AAPL"] == s2;
  }

  /** The first step of the scenario: the quote creates the AAPL entry and
      publishes nothing. */
  lemma QuoteFirst(quote: TickUpdate, m1: map<string, InstrumentState>)
    requires quote.kind == BidAsk && quote.tickerId == 1001
    requires m1 == StepState(map[], quote)
    ensures "AAPL" in m1 && m1["AAPL"] == Merge(DefaultInstrumentState(), "AAPL", quote)
    ensures StepPublications(map[], quote) == []
  {
  }

  /** With the sink up throughout, everything published is delivered. */
  lemma {:induction false} SinkUpDeliversAll(m: map<string, InstrumentState>, us: seq<TickUpdate>, sinkUp: seq<bool>)
    requires |sinkUp| == |us|
    requires false !in sinkUp
    ensures RunDelivered(m, us, sinkUp) == RunPublications(m, us)
    decreases |us|
  {
    if us != [] {
      var n := |us| - 1;
      assert sinkUp[n] in sinkUp;
      SinkUpDeliversAll(m, us[..n], sinkUp[..n]);
    }
  }

  /** A failed publish loses only its own message: when the sink throws while
      one quote or trade of a ready symbol is handled and is back for the next,
      the next snapshot, carrying both updates, is delivered. */
  lemma FailureThenRecovery(m: map<string, InstrumentState>, u1: TickUpdate, u2: TickUpdate)
    requires SymbolFor(u1.tickerId) in m && EmitReady(m[SymbolFor(u1.tickerId)])
    requires u1.kind != Bar && u2.kind != Bar && SymbolFor(u2.tickerId) == SymbolFor(u1.tickerId)
    ensures var symbol := SymbolFor(u1.tickerId);
            RunDelivered(m, [u1, u2], [false, true])
            == [Publication(TicksChannel(symbol), Snapshot(SerializeState(RunState(m, [u1, u2])[symbol])))]
  {
    var us := [u1, u2];
    TwoStepRun(m, us);
    TwoStepDelivered(m, us, [false, true]);
    RecoveryStep(m, u1, u2, StepState(m, u1));
  }

  /** The second update of the recovery publishes the snapshot of the state it
      produces, since the state stays ready. */
  lemma RecoveryStep(m: map<string, InstrumentState>, u1: TickUpdate, u2: TickUpdate, m1: map<string, InstrumentState>)
    requires SymbolFor(u1.tickerId) in m && EmitReady(m[SymbolFor(u1.tickerId)])
    requires u2.kind != Bar && SymbolFor(u2.tickerId) == SymbolFor(u1.tickerId)
    requires m1 == StepState(m, u1)
    ensures StepPublications(m1, u2)
            == [Publication(TicksChannel(SymbolFor(u1.tickerId)), Snapshot(SerializeState(StepState(m1, u2)[SymbolFor(u1.tickerId)])))]
  {
    TickPublishesIffReady(m1, u2);
  }

  /** Deliveries of a run of two updates are those of its two steps. */
  lemma TwoStepDelivered(m: map<string, InstrumentState>, us: seq<TickUpdate>, sinkUp: seq<bool>)
    requires |us| == 2 && |sinkUp| == 2
    ensures RunDelivered(m, us, sinkUp)
            == (if sinkUp[0] then StepPublications(m, us[0]) else [])
               + (if sinkUp[1] then StepPublications(StepState(m, us[0]), us[1]) else [])
  {
    PairSlices(us, sinkUp);
    var first := RunDelivered(m, us[..1], sinkUp[..1]);
    DeliveredSnoc(m, us, sinkUp, 0);
    assert first == (if sinkUp[0] then StepPublications(m, us[0]) else []);
    DeliveredSnoc(m, us, sinkUp, 1);
    RunSnoc(m, us, 0);
  }


  lemma PairSlices(us: seq<TickUpdate>, sinkUp: seq<bool>)
    requires |us| == 2 && |sinkUp| == 2
    ensures us[..0] == [] && sinkUp[..0] == [] && us[..2] == us && sinkUp[..2] == sinkUp
  {
  }

  /** A run of two updates is two steps. */
  lemma TwoStepRun(m: map<string, InstrumentState>, us: seq<TickUpdate>)
    requires |us| == 2
    ensures RunState(m, us) == StepState(StepState(m, us[0]), us[1])
    ensures RunPublications(m, us) == StepPublications(m, us[0]) + StepPublications(StepState(m, us[0]), us[1])
  {
    var first := us[..1];
    assert us[..|us| - 1] == first && first[..0] == [];
    assert RunState(m, first) == StepState(m, us[0]);
    assert RunPublications(m, first) == StepPublications(m, us[0]);
  }
}
