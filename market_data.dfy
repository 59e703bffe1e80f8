/**
 * The records exchanged between the feed adapter and the aggregation worker
 * (include/MarketData.h): the flat TickUpdate put on the queue and the
 * aggregated InstrumentState kept per symbol.
 */
module MarketData {

  /** A price as the feed reports it (a C++ double). Prices are only copied from
      callback to update to state to payload and never computed with, so an exact
      real stands for them; IEEE rounding plays no part. */
  type Price = real

  /** The tag of a TickUpdate. BidAsk and AllLast are the two variants the header
      declares; Bar is used by the worker loop but declared in no shown header and
      is added here as an assumption. */
  datatype TickUpdateType = BidAsk | AllLast | Bar

  /** The bar fields the worker loop reads (open, high, low, close, volume). Their
      declaration is not part of this model; they are carried along opaquely. */
  datatype BarFields = BarFields(open: Price, high: Price, low: Price, close: Price, volume: real)

  const NoBar := BarFields(0.0, 0.0, 0.0, 0.0, 0.0)

  /** One normalized tick. Both the quote fields and the trade fields are always
      present; `kind` says which of them carry data. */
  datatype TickUpdate = TickUpdate(
    tickerId: int,
    kind: TickUpdateType,
    timestamp: int,          // milliseconds since the epoch
    bidPrice: Price,
    askPrice: Price,
    bidSize: int,
    askSize: int,
    lastPrice: Price,
    lastSize: int,
    pastLimit: bool,
    bar: BarFields)

  /** The quote part of an update or of a state. */
  datatype QuoteFields = QuoteFields(bidPrice: Price, askPrice: Price, bidSize: int, askSize: int)

  /** The trade part of an update or of a state. */
  datatype TradeFields = TradeFields(lastPrice: Price, lastSize: int, pastLimit: bool)

  function QuoteOf(u: TickUpdate): QuoteFields {
    QuoteFields(u.bidPrice, u.askPrice, u.bidSize, u.askSize)
  }

  function TradeOf(u: TickUpdate): TradeFields {
    TradeFields(u.lastPrice, u.lastSize, u.pastLimit)
  }

  /** The fields of an update that its tag selects as meaningful. */
  datatype Payload = QuotePayload(quote: QuoteFields) | TradePayload(trade: TradeFields) | BarPayload(bar: BarFields)

  function SelectedPayload(u: TickUpdate): Payload {
    match u.kind
    case BidAsk => QuotePayload(QuoteOf(u))
    case AllLast => TradePayload(TradeOf(u))
    case Bar => BarPayload(u.bar)
  }

  /** A value-initialised TickUpdate. */
  function DefaultTickUpdate(): (u: TickUpdate)
    ensures u.tickerId == 0 && u.kind == BidAsk && u.timestamp == 0
    ensures QuoteOf(u) == QuoteFields(0.0, 0.0, 0, 0)
    ensures TradeOf(u) == TradeFields(0.0, 0, false)
  {
    TickUpdate(0, BidAsk, 0, 0.0, 0.0, 0, 0, 0.0, 0, false, NoBar)
  }

  /** The aggregated state of one symbol. */
  datatype InstrumentState = InstrumentState(
    symbol: string,
    conId: int,
    tickerId: int,
    bidPrice: Price,
    askPrice: Price,
    bidSize: int,
    askSize: int,
    quoteTimestamp: int,
    hasQuote: bool,
    lastPrice: Price,
    lastSize: int,
    tradeTimestamp: int,
    hasTrade: bool,
    exchange: string,
    pastLimit: bool)

  /** The quote half of a state: its fields, their timestamp and whether it was ever set. */
  datatype QuoteHalf = QuoteHalf(fields: QuoteFields, timestamp: int, present: bool)

  /** The trade half of a state, pastLimit included. */
  datatype TradeHalf = TradeHalf(fields: TradeFields, timestamp: int, present: bool)

  function QuoteHalfOf(s: InstrumentState): QuoteHalf {
    QuoteHalf(QuoteFields(s.bidPrice, s.askPrice, s.bidSize, s.askSize), s.quoteTimestamp, s.hasQuote)
  }

  function TradeHalfOf(s: InstrumentState): TradeHalf {
    TradeHalf(TradeFields(s.lastPrice, s.lastSize, s.pastLimit), s.tradeTimestamp, s.hasTrade)
  }

  /** A state may be published once both halves have been seen. */
  predicate EmitReady(s: InstrumentState) {
    s.hasQuote && s.hasTrade
  }

  /** A value-initialised InstrumentState: empty strings, zeros, no half present. */
  function DefaultInstrumentState(): (s: InstrumentState)
    ensures !EmitReady(s) && !s.hasQuote && !s.hasTrade
    ensures s.symbol == "" && s.exchange == "" && s.conId == 0 && s.tickerId == 0
    ensures QuoteHalfOf(s).fields == QuoteFields(0.0, 0.0, 0, 0) && s.quoteTimestamp == 0
    ensures TradeHalfOf(s).fields == TradeFields(0.0, 0, false) && s.tradeTimestamp == 0
  {
    InstrumentState("", 0, 0, 0.0, 0.0, 0, 0, 0, false, 0.0, 0, 0, false, "", false)
  }
}
