/** The channels between producers and the receiver, as FIFO queues.

    `Channel` is a crossbeam channel, as a sink and the buffer pool use it: a
    send fails once the receiving end is gone. Such a bounded channel makes a
    sender wait while it is full; waiting is not modelled, so a send on a
    live channel always enqueues.

    `Bounded` is the sender of `src/channel.rs`, as a source uses it: a send
    is refused when the queue already holds `bound` items and otherwise
    enqueues; a receiver that has gone away is never reported. */
module Channels {
  import opened Base

  datatype Channel<T> = Channel(items: seq<T>, connected: bool)

  /** A send: fails when the receiving end is gone, otherwise enqueues. */
  function Send<T>(c: Channel<T>, x: T): (r: Option<Channel<T>>)
    ensures r.Some? <==> c.connected
    ensures r.Some? ==> r.value == Channel(c.items + [x], c.connected)
  {
    if c.connected then Some(Channel(c.items + [x], true)) else None
  }

  /** A send whose failure the caller discards (`let _ = tx.send(..)`). */
  function SendIgnoringError<T>(c: Channel<T>, x: T): (r: Channel<T>)
    ensures c.connected ==> r.items == c.items + [x]
    ensures !c.connected ==> r == c
    ensures r.connected == c.connected
  {
    Send(c, x).GetOr(c)
  }

  /** A blocking receive returns without waiting when an item is queued or the
      sending side is gone. */
  predicate Ready<T>(c: Channel<T>) {
    |c.items| > 0 || !c.connected
  }

  /** A blocking receive on a ready channel: the oldest item, or None once
      the channel is empty and disconnected. */
  function Recv<T>(c: Channel<T>): (r: Option<(T, Channel<T>)>)
    requires Ready(c)
    ensures r.Some? <==> |c.items| > 0
    ensures r.Some? ==> r.value.0 == c.items[0] && r.value.1 == Channel(c.items[1..], c.connected)
  {
    if |c.items| > 0 then Some((c.items[0], Channel(c.items[1..], c.connected))) else None
  }

  datatype Bounded<T> = Bounded(items: seq<T>, bound: nat)

  /** `is_full` of the underlying bounded queue. */
  predicate Full<T>(c: Bounded<T>) {
    |c.items| >= c.bound
  }

  /** `Sender::send` of `src/channel.rs`: refused exactly when the queue is
      full, otherwise the item goes to the back. */
  function Offer<T>(c: Bounded<T>, x: T): (r: Option<Bounded<T>>)
    ensures r.Some? <==> !Full(c)
    ensures r.Some? ==> r.value == Bounded(c.items + [x], c.bound)
  {
    if Full(c) then None else Some(Bounded(c.items + [x], c.bound))
  }

  /** An offer whose refusal the caller discards. */
  function OfferIgnoringError<T>(c: Bounded<T>, x: T): (r: Bounded<T>)
    ensures !Full(c) ==> r.items == c.items + [x]
    ensures Full(c) ==> r == c
    ensures r.bound == c.bound
  {
    Offer(c, x).GetOr(c)
  }
}
