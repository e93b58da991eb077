/** The batching producer handle of `src/source.rs`. A source holds at most
    one buffer of samples, taken from a pool channel; it appends each sample
    and forwards the buffer on the data channel once it holds `batch_size`
    samples. The data and control channels are the bounded senders of
    `src/channel.rs`, which refuse an item when full; the pool is a crossbeam
    channel. */
module Sources {
  import opened Base
  import opened Channels
  import opened Data

  datatype Source<T> = Source(buffer: Option<seq<T>>, batchSize: U64)

  datatype SourceError = NoBuffer | SendFailed

  /** The state after one `send`: the handle, both channels, and the result. */
  datatype Sent<T> = Sent(source: Source<T>, pool: Channel<seq<T>>, data: Bounded<seq<T>>,
                          result: Result<(), SourceError>)

  /** The samples a source holds and has not forwarded yet. */
  function Held<T>(s: Source<T>): seq<T> {
    s.buffer.GetOr([])
  }

  /** A held buffer is always shorter than the batch size. */
  predicate Valid<T>(s: Source<T>) {
    s.buffer.Some? ==> |s.buffer.value| < s.batchSize
  }

  /** `Source::new`: no buffer held yet. */
  function New<T>(batchSize: U64): (s: Source<T>)
    ensures s.buffer.None? && s.batchSize == batchSize
    ensures Valid(s) && Held(s) == []
  {
    Source(None, batchSize)
  }

  /** `send` returns without blocking: it holds a buffer or can take one. */
  predicate CanSend<T>(s: Source<T>, pool: Channel<seq<T>>) {
    s.buffer.Some? || Ready(pool)
  }

  /** Appends the sample to the working buffer, then forwards the buffer once
      it is long enough. */
  function Push<T>(s: Source<T>, buffer: seq<T>, pool: Channel<seq<T>>, data: Bounded<seq<T>>, sample: T): (r: Sent<T>)
    ensures r.pool == pool && r.source.batchSize == s.batchSize && Valid(r.source)
    ensures |buffer| + 1 >= s.batchSize ==> r.source.buffer.None?
    ensures |buffer| + 1 >= s.batchSize && !Full(data) ==>
      r.data == Bounded(data.items + [buffer + [sample]], data.bound) && r.result.Ok?
    ensures |buffer| + 1 >= s.batchSize && Full(data) ==> r.data == data && r.result == Err(SendFailed)
    ensures |buffer| + 1 < s.batchSize ==>
      r.source.buffer == Some(buffer + [sample]) && r.data == data && r.result.Ok?
  {
    var full := buffer + [sample];
    if |full| >= s.batchSize then
      match Offer(data, full)
      case Some(data') => Sent(Source(None, s.batchSize), pool, data', Ok(()))
      case None => Sent(Source(None, s.batchSize), pool, data, Err(SendFailed))
    else
      Sent(Source(Some(full), s.batchSize), pool, data, Ok(()))
  }

  /** `Source::send`. Without a held buffer it takes exactly one from the pool
      and fails, changing nothing, when the pool is closed and empty. A
      forwarded buffer is gone even when forwarding fails. */
  function Send<T>(s: Source<T>, pool: Channel<seq<T>>, data: Bounded<seq<T>>, sample: T): (r: Sent<T>)
    requires CanSend(s, pool)
    ensures r.source.batchSize == s.batchSize && Valid(r.source)
    ensures r.pool.connected == pool.connected && |r.pool.items| + 1 >= |pool.items|
    ensures EmptyBuffers(pool) ==> EmptyBuffers(r.pool)
    ensures s.buffer.Some? ==> r.pool == pool
    ensures s.buffer.None? && |pool.items| > 0 ==> r.pool.items == pool.items[1..]
    ensures s.buffer.None? && |pool.items| == 0 ==>
      r.result == Err(NoBuffer) && r.source == s && r.pool == pool && r.data == data
    ensures r.data.bound == data.bound
    ensures r.data.items == data.items
      || (|r.data.items| == |data.items| + 1 && r.data.items[..|data.items|] == data.items)
    ensures r.result == Err(SendFailed) ==> r.source.buffer.None? && r.data == data && Full(data)
  {
    match s.buffer
    case Some(buffer) => Push(s, buffer, pool, data, sample)
    case None =>
      match Recv(pool)
      case Some((buffer, pool')) => Push(s, buffer, pool', data, sample)
      case None => Sent(s, pool, data, Err(NoBuffer))
  }

  /** The concatenation of a sequence of batches. */
  function Flatten<T>(batches: seq<seq<T>>): seq<T>
    decreases |batches|
  {
    if |batches| == 0 then [] else Flatten(batches[..|batches| - 1]) + batches[|batches| - 1]
  }

  lemma {:induction false} FlattenConcat<T>(a: seq<seq<T>>, b: seq<seq<T>>)
    ensures Flatten(a + b) == Flatten(a) + Flatten(b)
    decreases |b|
  {
    if |b| == 0 {
      assert a + b == a;
    } else {
      assert (a + b)[..|a + b| - 1] == a + b[..|b| - 1];
      FlattenConcat(a, b[..|b| - 1]);
    }
  }

  /** Every buffer in the pool is empty, as freshly allocated buffers are. */
  predicate EmptyBuffers<T>(pool: Channel<seq<T>>) {
    forall i :: 0 <= i < |pool.items| ==> |pool.items[i]| == 0
  }

  /** Enough buffers are available for `n` more sends not to block. */
  predicate Supplied<T>(pool: Channel<seq<T>>, n: nat) {
    !pool.connected || |pool.items| >= n
  }

  /** The data channel has room for `n` more batches. */
  predicate Room<T>(data: Bounded<seq<T>>, n: nat) {
    |data.items| + n <= data.bound
  }

  /** The outcome of sending a sequence of samples one by one. */
  datatype Trace<T> = Trace(source: Source<T>, pool: Channel<seq<T>>, data: Bounded<seq<T>>, accepted: seq<T>)

  function Run<T>(s: Source<T>, pool: Channel<seq<T>>, data: Bounded<seq<T>>, samples: seq<T>): (r: Trace<T>)
    requires Supplied(pool, |samples|)
    ensures r.source.batchSize == s.batchSize
    ensures Valid(s) ==> Valid(r.source)
    ensures r.data.bound == data.bound
    ensures |r.data.items| >= |data.items| && r.data.items[..|data.items|] == data.items
    ensures EmptyBuffers(pool) ==> EmptyBuffers(r.pool)
    decreases |samples|
  {
    if |samples| == 0 then Trace(s, pool, data, [])
    else
      var step := Send(s, pool, data, samples[0]);
      var rest := Run(step.source, step.pool, step.data, samples[1..]);
      var mine := if step.result.Ok? then [samples[0]] else [];
      Trace(rest.source, rest.pool, rest.data, mine + rest.accepted)
  }

  /** One `send` keeps the books: what it forwards, followed by what it then
      holds, is what it held before followed by the sample when accepted. */
  lemma SendConserves<T>(s: Source<T>, pool: Channel<seq<T>>, data: Bounded<seq<T>>, sample: T)
    requires CanSend(s, pool) && EmptyBuffers(pool) && !Full(data)
    ensures Send(s, pool, data, sample).result != Err(SendFailed)
    ensures Flatten(Send(s, pool, data, sample).data.items[|data.items|..]) + Held(Send(s, pool, data, sample).source)
      == Held(s) + (if Send(s, pool, data, sample).result.Ok? then [sample] else [])
  {
    var r := Send(s, pool, data, sample);
    var forwarded := r.data.items[|data.items|..];
    if r.data.items == data.items {
      assert forwarded == [];
    } else {
      assert forwarded == [r.data.items[|data.items|]];
      assert Flatten(forwarded) == Flatten([]) + forwarded[0];
    }
    if s.buffer.None? && |pool.items| > 0 {
      assert |pool.items[0]| == 0;
    }
  }

  lemma SliceSplit<T>(a: seq<T>, b: seq<T>, c: seq<T>)
    requires |a| <= |b| <= |c| && b[..|a|] == a && c[..|b|] == b
    ensures c[|a|..] == b[|a|..] + c[|b|..]
  {
  }

  lemma Chain<T>(f1: seq<T>, f2: seq<T>, h0: seq<T>, h1: seq<T>, h2: seq<T>, m: seq<T>, acc: seq<T>)
    requires f1 + h1 == h0 + m && f2 + h2 == h1 + acc
    ensures (f1 + f2) + h2 == h0 + (m + acc)
  {
    calc {
      (f1 + f2) + h2;
      f1 + (f2 + h2);
      f1 + (h1 + acc);
      (f1 + h1) + acc;
      (h0 + m) + acc;
    }
  }

  /** Nothing is lost or reordered: when the pool hands out empty buffers and
      the data channel never fills, the forwarded batches concatenated with the held
      buffer are the held samples followed by every accepted sample, in
      submission order. */
  lemma {:induction false} RunConserves<T>(s: Source<T>, pool: Channel<seq<T>>, data: Bounded<seq<T>>, samples: seq<T>)
    requires Supplied(pool, |samples|) && EmptyBuffers(pool) && Room(data, |samples|)
    ensures Flatten(Run(s, pool, data, samples).data.items[|data.items|..]) + Held(Run(s, pool, data, samples).source)
      == Held(s) + Run(s, pool, data, samples).accepted
    decreases |samples|
  {
    var r := Run(s, pool, data, samples);
    if |samples| == 0 {
      assert r.data.items[|data.items|..] == [];
    } else {
      var step := Send(s, pool, data, samples[0]);
      var rest := Run(step.source, step.pool, step.data, samples[1..]);
      var mine := if step.result.Ok? then [samples[0]] else [];
      assert r == Trace(rest.source, rest.pool, rest.data, mine + rest.accepted);
      SendConserves(s, pool, data, samples[0]);
      RunConserves(step.source, step.pool, step.data, samples[1..]);
      var first := step.data.items[|data.items|..];
      var later := rest.data.items[|step.data.items|..];
      SliceSplit(data.items, step.data.items, rest.data.items);
      FlattenConcat(first, later);
      Chain(Flatten(first), Flatten(later), Held(s), Held(step.source), Held(rest.source), mine, rest.accepted);
    }
  }

  function Max(a: int, b: int): int {
    if a >= b then a else b
  }

  /** Every forwarded batch holds exactly `max(batch_size, 1)` samples when the
      pool hands out empty buffers. */
  lemma {:induction false} RunBatchSizes<T>(s: Source<T>, pool: Channel<seq<T>>, data: Bounded<seq<T>>, samples: seq<T>)
    requires Supplied(pool, |samples|) && EmptyBuffers(pool) && Valid(s)
    ensures forall i :: |data.items| <= i < |Run(s, pool, data, samples).data.items| ==>
      |Run(s, pool, data, samples).data.items[i]| == Max(s.batchSize, 1)
    decreases |samples|
  {
    if |samples| > 0 {
      var step := Send(s, pool, data, samples[0]);
      if s.buffer.None? && |pool.items| > 0 {
        assert |pool.items[0]| == 0;
      }
      RunBatchSizes(step.source, step.pool, step.data, samples[1..]);
    }
  }

  /** `Source::add_facet`: enqueues the registration unless the control
      channel is full, in which case it is dropped; the held buffer is
      untouched. */
  function AddFacet<T>(s: Source<T>, control: Bounded<ControlMessage<T>>, facet: Facet<T>): (r: (Source<T>, Bounded<ControlMessage<T>>))
    ensures r.0 == s && r.1.bound == control.bound
    ensures !Full(control) ==> r.1.items == control.items + [ControlMessage.AddFacet(facet)]
    ensures Full(control) ==> r.1 == control
  {
    (s, OfferIgnoringError(control, ControlMessage.AddFacet(facet)))
  }

  /** `Source::remove_facet`. */
  function RemoveFacet<T>(s: Source<T>, control: Bounded<ControlMessage<T>>, facet: Facet<T>): (r: (Source<T>, Bounded<ControlMessage<T>>))
    ensures r.0 == s && r.1.bound == control.bound
    ensures !Full(control) ==> r.1.items == control.items + [ControlMessage.RemoveFacet(facet)]
    ensures Full(control) ==> r.1 == control
  {
    (s, OfferIgnoringError(control, ControlMessage.RemoveFacet(facet)))
  }
}
