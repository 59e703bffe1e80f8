/**
 * The feed adapter (src/TwsClient.cpp): the connection flag, the routing table
 * from request ids to symbols, the classification of error codes, and the two
 * tick-by-tick callbacks that normalise feed events into TickUpdates and offer
 * them to the queue.
 *
 * The socket calls the adapter makes are not modelled: the outcome of eConnect
 * and the socket's own liveness arrive as parameters, and the subscription
 * requests are returned as values instead of being sent.
 */
module TwsClient {
  import opened Wrappers
  import opened MarketData
  import opened EventQueue

  /** AllLast subscriptions use the BidAsk request id plus this offset. */
  const AllLastIdOffset := 10000

  // ---- routing ----------------------------------------------------------------

  /** The routing table after subscribing `symbol` under `tickerId`. */
  function Subscribed(table: map<int, string>, symbol: string, tickerId: int): map<int, string> {
    table[tickerId := symbol][tickerId + AllLastIdOffset := symbol]
  }

  /** Subscribing routes both request ids to the symbol and leaves every other
      entry as it was. */
  lemma SubscribedRoutes(table: map<int, string>, symbol: string, tickerId: int)
    ensures var r := Subscribed(table, symbol, tickerId);
            && tickerId in r && r[tickerId] == symbol
            && tickerId + AllLastIdOffset in r && r[tickerId + AllLastIdOffset] == symbol
            && r.Keys == table.Keys + {tickerId, tickerId + AllLastIdOffset}
            && forall k :: k in table && k != tickerId && k != tickerId + AllLastIdOffset ==> r[k] == table[k]
  {
  }

  /** One reqTickByTickData call: a request id, the contract's symbol and the
      tick type asked for. The contract is always a US stock routed SMART in USD. */
  datatype TickRequest = TickRequest(reqId: int, symbol: string, tickType: string)

  // ---- error classification ---------------------------------------------------

  datatype Severity = Info | Error

  /** The codes the error callback reports as informational. */
  const InformationalCodes: set<int> := {2104, 2106, 2158}

  /** The error callback's classification: the three informational codes are
      logged as Info, every other code as an Error. */
  function ClassifyError(errorCode: int): (s: Severity)
    ensures s == Info <==> errorCode == 2104 || errorCode == 2106 || errorCode == 2158
  {
    if errorCode in InformationalCodes then Info else Error
  }

  // ---- normalisation ----------------------------------------------------------

  /** The update a BidAsk callback builds: the quote fields are copied, the time
      in seconds becomes milliseconds, and everything else keeps its default. */
  function BidAskUpdate(reqId: int, time: int, bidPrice: Price, askPrice: Price, bidSize: int, askSize: int): (u: TickUpdate)
    ensures u.kind == BidAsk && u.tickerId == reqId && u.timestamp == time * 1000
    ensures SelectedPayload(u) == QuotePayload(QuoteFields(bidPrice, askPrice, bidSize, askSize))
    ensures TradeOf(u) == TradeOf(DefaultTickUpdate()) && u.bar == DefaultTickUpdate().bar
  {
    DefaultTickUpdate().(tickerId := reqId, kind := BidAsk, timestamp := time * 1000,
                         bidPrice := bidPrice, askPrice := askPrice, bidSize := bidSize, askSize := askSize)
  }

  /** The update an AllLast callback builds: price, size and the past-limit
      attribute are copied, the time becomes milliseconds, and the quote fields
      keep their defaults. The exchange, tick type and special conditions the
      callback receives are dropped. */
  function AllLastUpdate(reqId: int, time: int, price: Price, size: int, pastLimit: bool): (u: TickUpdate)
    ensures u.kind == AllLast && u.tickerId == reqId && u.timestamp == time * 1000
    ensures SelectedPayload(u) == TradePayload(TradeFields(price, size, pastLimit))
    ensures QuoteOf(u) == QuoteOf(DefaultTickUpdate()) && u.bar == DefaultTickUpdate().bar
  {
    DefaultTickUpdate().(tickerId := reqId, kind := AllLast, timestamp := time * 1000,
                         lastPrice := price, lastSize := size, pastLimit := pastLimit)
  }

  /** What became of one callback: dropped for an unknown request id, dropped
      because the queue was full, or enqueued. */
  datatype CallbackOutcome = UnknownTicker | QueueFull | Enqueued

  /** The queue contents and outcome of a callback that would enqueue `u`. */
  function Deliver(table: map<int, string>, items: seq<TickUpdate>, capacity: nat, u: TickUpdate): (r: (seq<TickUpdate>, CallbackOutcome))
    ensures u.tickerId !in table ==> r == (items, UnknownTicker)
    ensures u.tickerId in table && |items| >= capacity ==> r == (items, QueueFull)
    ensures u.tickerId in table && |items| < capacity ==> r == (items + [u], Enqueued)
  {
    if u.tickerId !in table then (items, UnknownTicker)
    else
      var offered := Offer(items, capacity, u);
      (offered.0, if offered.1 then Enqueued else QueueFull)
  }

  /** Whatever the callback does, the queue only ever grows by the update at its
      tail, and nothing is enqueued for an id that was never subscribed. */
  lemma DeliverOnlyAppends(table: map<int, string>, items: seq<TickUpdate>, capacity: nat, u: TickUpdate)
    ensures var r := Deliver(table, items, capacity, u);
            (r.0 == items || r.0 == items + [u]) && (r.0 != items <==> r.1 == Enqueued)
  {
  }

  // ---- the adapter ------------------------------------------------------------

  class Client {
    var connected: bool
    var tickerToSymbol: map<int, string>
    const queue: BoundedQueue

    predicate Valid()
      reads this, queue
    {
      queue.Valid()
    }

    constructor (queue: BoundedQueue)
      requires queue.Valid()
      ensures Valid() && this.queue == queue && !connected && tickerToSymbol == map[]
    {
      this.queue := queue;
      connected := false;
      tickerToSymbol := map[];
    }

    /** connect: the flag is set only when eConnect succeeds; a failed attempt
        leaves it as it was. */
    method Connect(eConnectSucceeded: bool) returns (ok: bool)
      modifies this
      ensures ok == eConnectSucceeded
      ensures connected == (eConnectSucceeded || old(connected))
      ensures tickerToSymbol == old(tickerToSymbol)
    {
      if !eConnectSucceeded {
        return false;
      }
      connected := true;
      return true;
    }

    /** disconnect: sends eDisconnect only when connected, and always leaves the
        flag false. */
    method Disconnect() returns (sentDisconnect: bool)
      modifies this
      ensures sentDisconnect == old(connected)
      ensures !connected && tickerToSymbol == old(tickerToSymbol)
    {
      sentDisconnect := false;
      if connected {
        sentDisconnect := true;
        connected := false;
      }
    }

    /** connectionClosed: the server closed the connection. */
    method ConnectionClosed()
      modifies this
      ensures !connected && tickerToSymbol == old(tickerToSymbol)
    {
      connected := false;
    }

    /** isConnected: both the flag and the socket's own state must say so. */
    method IsConnected(socketConnected: bool) returns (up: bool)
      ensures up <==> connected && socketConnected
    {
      up := connected && socketConnected;
    }

    /** subscribeTickByTick: routes both request ids to the symbol and asks for
        BidAsk under the id and AllLast under the id plus 10000. */
    method SubscribeTickByTick(symbol: string, tickerId: int) returns (requests: seq<TickRequest>)
      modifies this
      ensures tickerToSymbol == Subscribed(old(tickerToSymbol), symbol, tickerId)
      ensures requests == [TickRequest(tickerId, symbol, "BidAsk"), TickRequest(tickerId + AllLastIdOffset, symbol, "AllLast")]
      ensures connected == old(connected)
    {
      tickerToSymbol := tickerToSymbol[tickerId := symbol];
      requests := [TickRequest(tickerId, symbol, "BidAsk")];
      requests := requests + [TickRequest(tickerId + AllLastIdOffset, symbol, "AllLast")];
      tickerToSymbol := tickerToSymbol[tickerId + AllLastIdOffset := symbol];
    }

    /** tickByTickBidAsk. */
    method TickByTickBidAsk(reqId: int, time: int, bidPrice: Price, askPrice: Price, bidSize: int, askSize: int)
      returns (outcome: CallbackOutcome)
      requires Valid()
      modifies queue
      ensures Valid()
      ensures (queue.items, outcome) == Deliver(tickerToSymbol, old(queue.items), queue.capacity,
                                               BidAskUpdate(reqId, time, bidPrice, askPrice, bidSize, askSize))
    {
      if reqId !in tickerToSymbol {
        return UnknownTicker;
      }
      var update := BidAskUpdate(reqId, time, bidPrice, askPrice, bidSize, askSize);
      var ok := queue.TryEnqueue(update);
      outcome := if ok then Enqueued else QueueFull;
    }

    /** tickByTickAllLast. */
    method TickByTickAllLast(reqId: int, time: int, price: Price, size: int, pastLimit: bool)
      returns (outcome: CallbackOutcome)
      requires Valid()
      modifies queue
      ensures Valid()
      ensures (queue.items, outcome) == Deliver(tickerToSymbol, old(queue.items), queue.capacity,
                                               AllLastUpdate(reqId, time, price, size, pastLimit))
    {
      if reqId !in tickerToSymbol {
        return UnknownTicker;
      }
      var update := AllLastUpdate(reqId, time, price, size, pastLimit);
      var ok := queue.TryEnqueue(update);
      outcome := if ok then Enqueued else QueueFull;
    }
  }

  /** Once a symbol is subscribed, both of its callbacks are routed: a BidAsk
      under the id and an AllLast under the id plus 10000 reach the queue when
      there is room. */
  lemma SubscribedCallbacksEnqueue(table: map<int, string>, symbol: string, tickerId: int,
                                   items: seq<TickUpdate>, capacity: nat, u: TickUpdate)
    requires |items| < capacity
    requires u.tickerId == tickerId || u.tickerId == tickerId + AllLastIdOffset
    ensures Deliver(Subscribed(table, symbol, tickerId), items, capacity, u) == (items + [u], Enqueued)
  {
    SubscribedRoutes(table, symbol, tickerId);
  }
}
