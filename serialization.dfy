/**
 * serializeState (include/Serialization.h): the JSON snapshot of an
 * InstrumentState, as the tree of keys and values the writer emits in order.
 * Numbers and strings are kept as values; their textual rendering (double
 * formatting, string escaping) belongs to the JSON library and is not modelled.
 */
module Serialization {
  import opened Wrappers
  import opened MarketData

  datatype Json =
    | JString(str: string)
    | JInt(num: int)
    | JDouble(price: Price)
    | JBool(flag: bool)
    | JObject(members: seq<Member>)

  /** One key/value pair of an object, in the order it is written. */
  datatype Member = Member(key: string, value: Json)

  function Keys(members: seq<Member>): (keys: seq<string>)
    ensures |keys| == |members|
    ensures forall i :: 0 <= i < |members| ==> keys[i] == members[i].key
  {
    if members == [] then [] else [members[0].key] + Keys(members[1..])
  }

  /** The keys of the snapshot object and of its nested objects, in writing order. */
  const TopKeys: seq<string> := ["instrument", "conId", "timestamp", "price", "size", "timestamps", "exchange", "tickAttrib"]
  const PriceKeys: seq<string> := ["bid", "ask", "last"]
  const SizeKeys: seq<string> := ["bid", "ask", "last"]
  const TimestampKeys: seq<string> := ["quote", "trade"]
  const AttribKeys: seq<string> := ["pastLimit"]

  function Max(a: int, b: int): (m: int)
    ensures m >= a && m >= b && (m == a || m == b)
  {
    if a >= b then a else b
  }

  /** serializeState. */
  function SerializeState(s: InstrumentState): (j: Json)
    ensures j.JObject? && Keys(j.members) == TopKeys
    ensures j.members[0].value == JString(s.symbol)
    ensures j.members[2].value == JInt(Max(s.quoteTimestamp, s.tradeTimestamp))
    ensures j.members[3].value.JObject? && Keys(j.members[3].value.members) == PriceKeys
    ensures j.members[4].value.JObject? && Keys(j.members[4].value.members) == SizeKeys
    ensures j.members[5].value.JObject? && Keys(j.members[5].value.members) == TimestampKeys
    ensures j.members[7].value.JObject? && Keys(j.members[7].value.members) == AttribKeys
  {
    JObject([
      Member("instrument", JString(s.symbol)),
      Member("conId", JInt(s.conId)),
      Member("timestamp", JInt(Max(s.quoteTimestamp, s.tradeTimestamp))),
      Member("price", JObject([
        Member("bid", JDouble(s.bidPrice)),
        Member("ask", JDouble(s.askPrice)),
        Member("last", JDouble(s.lastPrice))])),
      Member("size", JObject([
        Member("bid", JInt(s.bidSize)),
        Member("ask", JInt(s.askSize)),
        Member("last", JInt(s.lastSize))])),
      Member("timestamps", JObject([
        Member("quote", JInt(s.quoteTimestamp)),
        Member("trade", JInt(s.tradeTimestamp))])),
      Member("exchange", JString(s.exchange)),
      Member("tickAttrib", JObject([
        Member("pastLimit", JBool(s.pastLimit))]))])
  }

  /** The part of a state that a snapshot carries: everything but the ticker id
      and the two presence flags, which are reset to their defaults. */
  function PublishedPart(s: InstrumentState): InstrumentState {
    s.(tickerId := 0, hasQuote := false, hasTrade := false)
  }

  // ---- reading a snapshot back ----------------------------------------------

  /** The values of an object whose keys are exactly `keys`, in that order. */
  function Fields(j: Json, keys: seq<string>): (r: Option<seq<Json>>)
    ensures r.Some? ==> |r.value| == |keys|
  {
    if j.JObject? && Keys(j.members) == keys then Some(Values(j.members)) else None
  }

  function Values(members: seq<Member>): (values: seq<Json>)
    ensures |values| == |members|
    ensures forall i :: 0 <= i < |members| ==> values[i] == members[i].value
  {
    if members == [] then [] else [members[0].value] + Values(members[1..])
  }

  /** Reads a snapshot: the keys must come in the order serializeState writes
      them, every value must have the written type, and the combined timestamp
      must be the later of the two half timestamps. */
  function DecodeState(j: Json): Option<InstrumentState> {
    var top := Fields(j, TopKeys);
    if top.None? then None
    else
      var t := top.value;
      var price, size := Fields(t[3], PriceKeys), Fields(t[4], SizeKeys);
      var times, attrib := Fields(t[5], TimestampKeys), Fields(t[7], AttribKeys);
      if price.None? || size.None? || times.None? || attrib.None? then None
      else
        var p, z, ts, a := price.value, size.value, times.value, attrib.value;
        if !(t[0].JString? && t[1].JInt? && t[2].JInt? && t[6].JString?) then None
        else if !(p[0].JDouble? && p[1].JDouble? && p[2].JDouble?) then None
        else if !(z[0].JInt? && z[1].JInt? && z[2].JInt?) then None
        else if !(ts[0].JInt? && ts[1].JInt? && a[0].JBool?) then None
        else if t[2].num != Max(ts[0].num, ts[1].num) then None
        else
          Some(InstrumentState(t[0].str, t[1].num, 0, p[0].price, p[1].price, z[0].num, z[1].num,
                               ts[0].num, false, p[2].price, z[2].num, ts[1].num, false, t[6].str, a[0].flag))
  }

  // ---- properties -----------------------------------------------------------

  /** A snapshot reads back as the published part of the state it was made from. */
  lemma DecodeSerialize(s: InstrumentState)
    ensures DecodeState(SerializeState(s)) == Some(PublishedPart(s))
  {
    var j := SerializeState(s);
    assert Fields(j, TopKeys) == Some(Values(j.members));
  }

  /** The snapshot reads exactly the published part: two states give the same
      snapshot if and only if they agree on it. */
  lemma SerializeExactlyPublished(a: InstrumentState, b: InstrumentState)
    ensures SerializeState(a) == SerializeState(b) <==> PublishedPart(a) == PublishedPart(b)
  {
    if SerializeState(a) == SerializeState(b) {
      DecodeSerialize(a);
      DecodeSerialize(b);
    }
  }

  /** The ticker id and the presence flags never reach the snapshot. */
  lemma SerializeIgnoresUnpublished(s: InstrumentState)
    ensures SerializeState(PublishedPart(s)) == SerializeState(s)
  {
    SerializeExactlyPublished(PublishedPart(s), s);
  }

  /** The snapshot of a default state with only the symbol set still names the
      instrument, and reports zero timestamps. */
  lemma SerializeDefaultWithSymbol(symbol: string)
    ensures var j := SerializeState(DefaultInstrumentState().(symbol := symbol));
            j.members[0] == Member("instrument", JString(symbol)) && j.members[2].value == JInt(0)
  {
  }
}
