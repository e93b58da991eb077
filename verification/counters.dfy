/** The counter aggregator of `src/data/counter.rs`: a map from metric key to a
    running signed sum. Sums are mathematical integers; the source's `+=` on
    `i64` has no overflow policy. */
module Counters {
  import opened Base

  datatype Counter<K> = Counter(data: map<K, int>)

  /** `Counter::new`. */
  function New<K(==)>(): (c: Counter<K>)
    ensures c.data.Keys == {}
    ensures |Values(c)| == 0
  {
    Counter(map[])
  }

  /** The value stored for `key`, if the key was ever updated. */
  function Value<K(==)>(c: Counter<K>, key: K): Option<int> {
    Get(c.data, key)
  }

  /** The value stored for `key`, reading an absent key as 0, the value
      `or_insert` starts from. */
  function ValueOrZero<K(==)>(c: Counter<K>, key: K): int {
    Value(c, key).GetOr(0)
  }

  /** `Counter::update`: an absent key starts at 0, then `delta` is added. */
  function Update<K(==)>(c: Counter<K>, key: K, delta: int): (r: Counter<K>)
    ensures key !in c.data ==> Value(r, key) == Some(delta)
    ensures key in c.data ==> Value(r, key) == Some(c.data[key] + delta)
    ensures r.data.Keys == c.data.Keys + {key}
    ensures forall k :: k in c.data && k != key ==> r.data[k] == c.data[k]
  {
    Counter(c.data[key := ValueOrZero(c, key) + delta])
  }

  /** `Counter::values`: one (key, sum) pair per key ever updated. */
  function Values<K(==)>(c: Counter<K>): (r: set<(K, int)>)
    ensures forall e :: e in r ==> Value(c, e.0) == Some(e.1)
    ensures forall k :: k in c.data ==> (k, c.data[k]) in r
    ensures |r| == |c.data|
  {
    Entries(c.data)
  }

  /** Applies a sequence of `(key, delta)` updates in order. */
  function Apply<K(==)>(c: Counter<K>, updates: seq<(K, int)>): Counter<K>
    decreases |updates|
  {
    if |updates| == 0 then c
    else Apply(Update(c, updates[0].0, updates[0].1), updates[1..])
  }

  /** Reference definition: the sum of the deltas given for `key`. */
  function SumFor<K(==)>(updates: seq<(K, int)>, key: K): int
    decreases |updates|
  {
    if |updates| == 0 then 0
    else Term(updates[0], key) + SumFor(updates[1..], key)
  }

  /** The keys mentioned by a sequence of updates. */
  function KeysOf<K(==)>(updates: seq<(K, int)>): set<K> {
    set i | 0 <= i < |updates| :: updates[i].0
  }

  /** After a sequence of updates a key holds its starting value (0 when
      absent) plus the sum of its own deltas. */
  lemma {:induction false} ApplyValue<K>(c: Counter<K>, updates: seq<(K, int)>, key: K)
    ensures ValueOrZero(Apply(c, updates), key) == ValueOrZero(c, key) + SumFor(updates, key)
    decreases |updates|
  {
    if |updates| > 0 {
      ApplyValue(Update(c, updates[0].0, updates[0].1), updates[1..], key);
    }
  }

  /** The key set grows by exactly the keys updated, so `values` has one entry
      per distinct key ever updated. */
  lemma {:induction false} ApplyKeys<K>(c: Counter<K>, updates: seq<(K, int)>)
    ensures Apply(c, updates).data.Keys == c.data.Keys + KeysOf(updates)
    decreases |updates|
  {
    if |updates| > 0 {
      ApplyKeys(Update(c, updates[0].0, updates[0].1), updates[1..]);
      assert KeysOf(updates) == {updates[0].0} + KeysOf(updates[1..]) by {
        forall x | x in KeysOf(updates)
          ensures x in {updates[0].0} + KeysOf(updates[1..])
        {
          var i :| 0 <= i < |updates| && updates[i].0 == x;
          if i > 0 {
            assert updates[1..][i - 1] == updates[i];
          }
        }
        forall x | x in KeysOf(updates[1..])
          ensures x in KeysOf(updates)
        {
          var i :| 0 <= i < |updates[1..]| && updates[1..][i].0 == x;
          assert updates[i + 1] == updates[1..][i];
        }
      }
    }
  }

  /** Splitting an update sequence anywhere gives the same counter. */
  lemma {:induction false} ApplyConcat<K>(c: Counter<K>, a: seq<(K, int)>, b: seq<(K, int)>)
    ensures Apply(c, a + b) == Apply(Apply(c, a), b)
    decreases |a|
  {
    if |a| > 0 {
      assert (a + b)[0] == a[0];
      assert (a + b)[1..] == a[1..] + b;
      ApplyConcat(Update(c, a[0].0, a[0].1), a[1..], b);
    } else {
      assert a + b == b;
    }
  }

  lemma {:induction false} SumForConcat<K>(a: seq<(K, int)>, b: seq<(K, int)>, key: K)
    ensures SumFor(a + b, key) == SumFor(a, key) + SumFor(b, key)
    decreases |a|
  {
    if |a| == 0 {
      assert a + b == b;
    } else {
      assert (a + b)[0] == a[0];
      assert (a + b)[1..] == a[1..] + b;
      SumForConcat(a[1..], b, key);
    }
  }

  /** The contribution of one update to the sum for `key`. */
  function Term<K(==)>(update: (K, int), key: K): int {
    if update.0 == key then update.1 else 0
  }

  lemma SumForRemove<K>(w: seq<(K, int)>, i: nat, key: K)
    requires i < |w|
    ensures SumFor(w, key) == Term(w[i], key) + SumFor(w[..i] + w[i + 1..], key)
  {
    var tail := [w[i]] + w[i + 1..];
    assert w == w[..i] + tail;
    SumForConcat(w[..i], tail, key);
    assert tail[1..] == w[i + 1..];
    SumForConcat(w[..i], w[i + 1..], key);
  }

  lemma MultisetRemove<T>(w: seq<T>, i: nat)
    requires i < |w|
    ensures multiset(w[..i] + w[i + 1..]) == multiset(w) - multiset{w[i]}
  {
    assert w == w[..i] + [w[i]] + w[i + 1..];
  }

  /** The sum for a key depends only on the multiset of updates, not on their
      order. */
  lemma {:induction false} SumForPermutation<K>(u: seq<(K, int)>, w: seq<(K, int)>, key: K)
    requires multiset(u) == multiset(w)
    ensures SumFor(u, key) == SumFor(w, key)
    decreases |u|
  {
    if |u| == 0 {
      assert |w| == |multiset(w)| == 0;
    } else {
      assert u[0] in multiset(w);
      var i :| 0 <= i < |w| && w[i] == u[0];
      MultisetRemove(u, 0);
      MultisetRemove(w, i);
      assert u[..0] + u[1..] == u[1..];
      SumForPermutation(u[1..], w[..i] + w[i + 1..], key);
      SumForRemove(w, i, key);
    }
  }

  lemma KeysOfPermutation<K>(u: seq<(K, int)>, w: seq<(K, int)>)
    requires multiset(u) == multiset(w)
    ensures KeysOf(u) == KeysOf(w)
  {
    forall x | x in KeysOf(u)
      ensures x in KeysOf(w)
    {
      var i :| 0 <= i < |u| && u[i].0 == x;
      assert u[i] in multiset(w);
      var j :| 0 <= j < |w| && w[j] == u[i];
    }
    forall x | x in KeysOf(w)
      ensures x in KeysOf(u)
    {
      var j :| 0 <= j < |w| && w[j].0 == x;
      assert w[j] in multiset(u);
      var i :| 0 <= i < |u| && u[i] == w[j];
    }
  }

  /** Counter additivity: any reordering of the same updates — in particular
      any interleaving of several producers' update streams, however they were
      cut into batches — yields the same counter. */
  lemma OrderIndependent<K>(c: Counter<K>, u: seq<(K, int)>, w: seq<(K, int)>)
    requires multiset(u) == multiset(w)
    ensures Apply(c, u) == Apply(c, w)
  {
    var ru, rw := Apply(c, u), Apply(c, w);
    KeysOfPermutation(u, w);
    ApplyKeys(c, u);
    ApplyKeys(c, w);
    forall k | k in ru.data
      ensures ru.data[k] == rw.data[k]
    {
      ApplyValue(c, u, k);
      ApplyValue(c, w, k);
      SumForPermutation(u, w, k);
    }
  }
}
