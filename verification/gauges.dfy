/** The gauge aggregator of `src/data/gauge.rs`: a last-write-wins map from
    metric key to an unsigned value. */
module Gauges {
  import opened Base

  datatype Gauge<K> = Gauge(data: map<K, U64>)

  /** `Gauge::new`. */
  function New<K(==)>(): (g: Gauge<K>)
    ensures g.data.Keys == {}
    ensures |Values(g)| == 0
  {
    Gauge(map[])
  }

  function Value<K(==)>(g: Gauge<K>, key: K): Option<U64> {
    Get(g.data, key)
  }

  /** `Gauge::update`: the key holds exactly `value` afterwards, whatever it
      held before. */
  function Update<K(==)>(g: Gauge<K>, key: K, value: U64): (r: Gauge<K>)
    ensures Value(r, key) == Some(value)
    ensures r.data.Keys == g.data.Keys + {key}
    ensures forall k :: k in g.data && k != key ==> r.data[k] == g.data[k]
  {
    Gauge(g.data[key := value])
  }

  /** `Gauge::values`: one (key, value) pair per key ever updated. */
  function Values<K(==)>(g: Gauge<K>): (r: set<(K, U64)>)
    ensures forall e :: e in r ==> Value(g, e.0) == Some(e.1)
    ensures forall k :: k in g.data ==> (k, g.data[k]) in r
    ensures |r| == |g.data|
  {
    Entries(g.data)
  }

  /** Applies a sequence of `(key, value)` updates in order. */
  function Apply<K(==)>(g: Gauge<K>, updates: seq<(K, U64)>): Gauge<K>
    decreases |updates|
  {
    if |updates| == 0 then g
    else Update(Apply(g, updates[..|updates| - 1]), updates[|updates| - 1].0, updates[|updates| - 1].1)
  }

  /** Reference definition: the last value written to `key`, if any. */
  function LastFor<K(==)>(updates: seq<(K, U64)>, key: K): Option<U64>
    decreases |updates|
  {
    if |updates| == 0 then None
    else if updates[|updates| - 1].0 == key then Some(updates[|updates| - 1].1)
    else LastFor(updates[..|updates| - 1], key)
  }

  /** Last write wins: after a sequence of updates a key holds the last value
      written to it, or its previous value when the sequence never wrote it. */
  lemma {:induction false} ApplyValue<K>(g: Gauge<K>, updates: seq<(K, U64)>, key: K)
    ensures LastFor(updates, key).Some? ==> Value(Apply(g, updates), key) == LastFor(updates, key)
    ensures LastFor(updates, key).None? ==> Value(Apply(g, updates), key) == Value(g, key)
    decreases |updates|
  {
    if |updates| > 0 {
      ApplyValue(g, updates[..|updates| - 1], key);
    }
  }

  /** Writing the same value twice is the same as writing it once. */
  lemma UpdateIdempotent<K>(g: Gauge<K>, key: K, value: U64)
    ensures Update(Update(g, key, value), key, value) == Update(g, key, value)
  {
  }

  /** Updates to different keys commute, so interleaving another producer's
      writes to other keys does not disturb the last-write-wins value. */
  lemma UpdatesCommute<K>(g: Gauge<K>, k1: K, v1: U64, k2: K, v2: U64)
    requires k1 != k2
    ensures Update(Update(g, k1, v1), k2, v2) == Update(Update(g, k2, v2), k1, v1)
  {
  }
}
