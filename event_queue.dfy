/**
 * The queue between the feed callbacks and the aggregation worker. Only the
 * contract the code relies on is modelled: a first-in first-out sequence of
 * TickUpdates with a fixed capacity (10000 slots in src/main.cpp), where an
 * offer to a full queue fails and changes nothing.
 */
module EventQueue {
  import opened Wrappers
  import opened MarketData

  /** The capacity the bridge gives its queue. */
  const QueueCapacity: nat := 10000

  /** The queue contents after offering u: appended at the tail when there is
      room, unchanged otherwise. */
  function Offer(items: seq<TickUpdate>, capacity: nat, u: TickUpdate): (r: (seq<TickUpdate>, bool))
    ensures r.1 <==> |items| < capacity
    ensures r.1 ==> r.0 == items + [u]
    ensures !r.1 ==> r.0 == items
  {
    if |items| < capacity then (items + [u], true) else (items, false)
  }

  /** The queue contents after offering each of us in turn, with no consumer
      running in between. */
  function OfferAll(items: seq<TickUpdate>, capacity: nat, us: seq<TickUpdate>): seq<TickUpdate>
    decreases |us|
  {
    if us == [] then items else OfferAll(Offer(items, capacity, us[0]).0, capacity, us[1..])
  }

  function Min(a: int, b: int): int {
    if a <= b then a else b
  }

  /** A burst of offers keeps the earliest updates that fit, in order, and drops
      the rest: nothing is reordered and nothing already queued is displaced. */
  lemma {:induction false} OfferAllKeepsPrefix(items: seq<TickUpdate>, capacity: nat, us: seq<TickUpdate>)
    requires |items| <= capacity
    ensures OfferAll(items, capacity, us) == items + us[..Min(|us|, capacity - |items|)]
    decreases |us|
  {
    if us != [] {
      var next := Offer(items, capacity, us[0]).0;
      OfferAllKeepsPrefix(next, capacity, us[1..]);
      if |items| < capacity {
        assert us[..Min(|us|, capacity - |items|)] == [us[0]] + us[1..][..Min(|us| - 1, capacity - |next|)];
      } else {
        assert capacity - |items| == 0;
      }
    }
  }

  /** Offering one more update than the queue holds to an empty queue keeps the
      first `capacity` updates and drops only the last one. */
  lemma OneOverCapacity(capacity: nat, us: seq<TickUpdate>)
    requires |us| == capacity + 1
    ensures OfferAll([], capacity, us) == us[..capacity]
    ensures |OfferAll([], capacity, us)| == capacity
  {
    OfferAllKeepsPrefix([], capacity, us);
  }

  /** The bounded queue itself. */
  class BoundedQueue {
    const capacity: nat
    var items: seq<TickUpdate>

    predicate Valid()
      reads this
    {
      |items| <= capacity
    }

    constructor (capacity: nat)
      ensures Valid() && this.capacity == capacity && items == []
    {
      this.capacity := capacity;
      items := [];
    }

    /** try_enqueue: appends u when there is room; reports whether it did. */
    method TryEnqueue(u: TickUpdate) returns (ok: bool)
      requires Valid()
      modifies this
      ensures Valid()
      ensures (items, ok) == Offer(old(items), capacity, u)
    {
      ok := |items| < capacity;
      if ok {
        items := items + [u];
      }
    }

    /** try_dequeue: removes and returns the oldest update, or None when empty. */
    method TryDequeue() returns (r: Option<TickUpdate>)
      requires Valid()
      modifies this
      ensures Valid()
      ensures old(items) == [] ==> r == None && items == []
      ensures old(items) != [] ==> r == Some(old(items)[0]) && items == old(items)[1..]
    {
      if items == [] {
        r := None;
      } else {
        r := Some(items[0]);
        items := items[1..];
      }
    }
  }
}
