/** The FreeRTOS queue the button posts its events to, as the button and its
    tests use it: a bounded FIFO, `xQueueSend(q, &item, 0)` gives up at once
    when the queue is full, and `xQueueReceive` takes the oldest item. */
module EventQueue {
  import opened Types

  /** What `xQueueSend` with zero block time leaves in a queue of the given
      capacity: the item is appended when there is room and dropped when not. */
  function Offer<T>(items: seq<T>, capacity: nat, item: T): (r: seq<T>)
    ensures |items| < capacity ==> r == items + [item]
    ensures capacity <= |items| ==> r == items
  {
    if |items| < capacity then items + [item] else items
  }

  /** The queue after a series of sends, in order, each one dropped if the
      queue is full at that moment. */
  function OfferAll<T>(items: seq<T>, capacity: nat, sent: seq<T>): (r: seq<T>)
    decreases |sent|
  {
    if sent == [] then items else OfferAll(Offer(items, capacity, sent[0]), capacity, sent[1..])
  }

  /** Sends never overfill the queue, never reorder or lose what was already
      queued, and only ever add items that were sent. */
  lemma {:induction false} OfferAllKeepsBound<T>(items: seq<T>, capacity: nat, sent: seq<T>)
    requires |items| <= capacity
    ensures |OfferAll(items, capacity, sent)| <= capacity
    ensures items <= OfferAll(items, capacity, sent)
    ensures forall x :: x in OfferAll(items, capacity, sent) ==> x in items || x in sent
    decreases |sent|
  {
    if sent != [] {
      var next := Offer(items, capacity, sent[0]);
      OfferAllKeepsBound(next, capacity, sent[1..]);
      forall x | x in OfferAll(items, capacity, sent)
        ensures x in items || x in sent
      {
        assert x in next || x in sent[1..];
        if x in sent[1..] {
          assert x in sent;
        }
      }
    }
  }

  /** A full queue stays as it is, whatever is sent. */
  lemma {:induction false} OfferAllWhenFull<T>(items: seq<T>, capacity: nat, sent: seq<T>)
    requires capacity <= |items|
    ensures OfferAll(items, capacity, sent) == items
    decreases |sent|
  {
    if sent != [] {
      OfferAllWhenFull(items, capacity, sent[1..]);
    }
  }

  /** Without receives in between, the queue after a series of sends is the
      old contents followed by a prefix of what was sent: once an item is
      dropped, every later one is dropped too. */
  lemma {:induction false} OfferAllIsPrefix<T>(items: seq<T>, capacity: nat, sent: seq<T>)
    ensures OfferAll(items, capacity, sent) <= items + sent
    decreases |sent|
  {
    if sent != [] {
      if |items| < capacity {
        OfferAllIsPrefix(items + [sent[0]], capacity, sent[1..]);
        assert items + [sent[0]] + sent[1..] == items + sent;
      } else {
        OfferAllWhenFull(items, capacity, sent);
      }
    }
  }

  /** When the queue has room for all of them, every sent item arrives, in order. */
  lemma {:induction false} OfferAllWithRoom<T>(items: seq<T>, capacity: nat, sent: seq<T>)
    requires |items| + |sent| <= capacity
    ensures OfferAll(items, capacity, sent) == items + sent
    decreases |sent|
  {
    if sent != [] {
      OfferAllWithRoom(items + [sent[0]], capacity, sent[1..]);
      assert items + [sent[0]] + sent[1..] == items + sent;
    }
  }

  /** A queue created by `xQueueCreate(capacity, sizeof(T))`. */
  class Queue<T> {
    var items: seq<T>
    const capacity: nat

    ghost predicate Valid()
      reads this
    {
      |items| <= capacity
    }

    constructor (capacity: nat)
      ensures Valid() && items == [] && this.capacity == capacity
    {
      items := [];
      this.capacity := capacity;
    }

    /** `xQueueSend(q, &item, 0)`: returns whether the item was queued. */
    method Send(item: T) returns (ok: bool)
      requires Valid()
      modifies this
      ensures Valid()
      ensures ok <==> |old(items)| < capacity
      ensures items == Offer(old(items), capacity, item)
    {
      ok := |items| < capacity;
      if ok {
        items := items + [item];
      }
    }

    /** `xQueueReceive`: the oldest item, or None when empty. The tests wait up
        to 100 ms for an item; the scenarios make every send before the
        receive that expects it, so the wait is taken to end at once. */
    method Receive() returns (r: Option<T>)
      requires Valid()
      modifies this
      ensures Valid()
      ensures old(items) == [] ==> r == None && items == []
      ensures old(items) != [] ==> r == Some(old(items)[0]) && items == old(items)[1..]
    {
      if items == [] {
        r := None;
      } else {
        r := Some(items[0]);
        items := items[1..];
      }
    }
  }
}
