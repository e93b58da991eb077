/** The rolling-window histogram of `src/data/histogram.rs`.

    The HdrHistogram each bucket holds is a foreign type; here it is the
    multiset of the values recorded into it, so `len()` is its size and `add`
    is multiset union. Instants and durations are nanosecond counts. */
module Histograms {
  import opened Base

  /** A recorded distribution: how many times each value was recorded. */
  type Hdr = multiset<U64>

  /** `WindowedHistogram`: a ring of buckets, the one being written, the time of
      the last rotation and the rotation period. `num_buckets` is
      `|buckets|`. */
  datatype Window = Window(buckets: seq<Hdr>, index: nat, lastUpkeep: nat, granularity: nat)

  predicate ValidWindow(w: Window) {
    0 < |w.buckets| && w.index < |w.buckets|
  }

  /** The number of buckets a window of the given span keeps: one per
      granularity step plus a spare that is always clear for writing. */
  function BucketCount(window: nat, granularity: nat): nat
    requires granularity > 0
  {
    window / granularity + 1
  }

  /** The sum of the bucket sizes. */
  function CountSum(bs: seq<Hdr>): nat
    decreases |bs|
  {
    if |bs| == 0 then 0 else CountSum(bs[..|bs| - 1]) + |bs[|bs| - 1]|
  }

  /** Union of all the buckets, in order; `add` never loses a value. */
  function Sum(bs: seq<Hdr>): (r: Hdr)
    ensures |r| == CountSum(bs)
    decreases |bs|
  {
    if |bs| == 0 then multiset{} else Sum(bs[..|bs| - 1]) + bs[|bs| - 1]
  }

  /** Every bucket is contained in the union. */
  lemma {:induction false} SumContains(bs: seq<Hdr>, i: nat)
    requires i < |bs|
    ensures bs[i] <= Sum(bs)
    decreases |bs|
  {
    if i < |bs| - 1 {
      assert bs[..|bs| - 1][i] == bs[i];
      SumContains(bs[..|bs| - 1], i);
    }
  }

  /** The union of empty buckets is empty. */
  lemma {:induction false} SumOfEmpty(bs: seq<Hdr>)
    requires forall i :: 0 <= i < |bs| ==> bs[i] == multiset{}
    ensures Sum(bs) == multiset{}
    decreases |bs|
  {
    if |bs| > 0 {
      SumOfEmpty(bs[..|bs| - 1]);
    }
  }

  /** Clearing one bucket removes exactly its values from the union. */
  lemma {:induction false} SumClear(bs: seq<Hdr>, i: nat)
    requires i < |bs|
    ensures Sum(bs[i := multiset{}]) + bs[i] == Sum(bs)
    decreases |bs|
  {
    var n := |bs|;
    var bs' := bs[i := multiset{}];
    if i == n - 1 {
      assert bs'[..n - 1] == bs[..n - 1];
    } else {
      assert bs'[..n - 1] == bs[..n - 1][i := multiset{}];
      SumClear(bs[..n - 1], i);
    }
  }

  /** Adding values to one bucket adds exactly those values to the union. */
  lemma {:induction false} SumAdd(bs: seq<Hdr>, i: nat, m: Hdr)
    requires i < |bs|
    ensures Sum(bs[i := bs[i] + m]) == Sum(bs) + m
    decreases |bs|
  {
    var n := |bs|;
    var bs' := bs[i := bs[i] + m];
    if i == n - 1 {
      assert bs'[..n - 1] == bs[..n - 1];
    } else {
      assert bs'[..n - 1] == bs[..n - 1][i := bs[..n - 1][i] + m];
      SumAdd(bs[..n - 1], i, m);
    }
  }

  /** The source's `index += 1; index %= num_buckets` on an index in range. */
  lemma NextIndex(i: nat, n: nat)
    requires i < n
    ensures (i + 1) % n == (if i + 1 < n then i + 1 else 0)
  {
  }

  /** `WindowedHistogram::new`: `window / granularity + 1` empty buckets, so a
      5s window at 1s granularity keeps 6. Dividing by a zero granularity
      panics in the source. */
  function NewWindow(window: nat, granularity: nat, now: nat): (w: Window)
    requires granularity > 0
    ensures ValidWindow(w)
    ensures |w.buckets| == BucketCount(window, granularity)
    ensures w.index == 0 && w.lastUpkeep == now && w.granularity == granularity
    ensures forall i :: 0 <= i < |w.buckets| ==> w.buckets[i] == multiset{}
    ensures |Merged(w)| == 0
  {
    var w := Window(seq(BucketCount(window, granularity), _ => multiset{}), 0, now, granularity);
    SumOfEmpty(w.buckets);
    w
  }

  /** `WindowedHistogram::upkeep`: once a granularity step has passed since the
      last rotation, move to the next bucket (wrapping) and clear it; the
      values dropped are exactly those of that oldest bucket. */
  function UpkeepWindow(w: Window, at: nat): (r: Window)
    requires ValidWindow(w)
    ensures ValidWindow(r)
    ensures |r.buckets| == |w.buckets| && r.granularity == w.granularity
    ensures at < w.lastUpkeep + w.granularity ==> r == w
    ensures at >= w.lastUpkeep + w.granularity ==>
              && r.index == (if w.index + 1 < |w.buckets| then w.index + 1 else 0)
              && r.buckets[r.index] == multiset{}
              && (forall i :: 0 <= i < |w.buckets| && i != r.index ==> r.buckets[i] == w.buckets[i])
              && r.lastUpkeep == at
  {
    if at >= w.lastUpkeep + w.granularity then
      var next := (w.index + 1) % |w.buckets|;
      NextIndex(w.index, |w.buckets|);
      Window(w.buckets[next := multiset{}], next, at, w.granularity)
    else
      w
  }

  /** A rotation drops from the merged view exactly the values of the bucket
      it lands on, the oldest one. */
  lemma UpkeepDropsOldest(w: Window, at: nat)
    requires ValidWindow(w) && at >= w.lastUpkeep + w.granularity
    ensures Merged(UpkeepWindow(w, at)) + w.buckets[UpkeepWindow(w, at).index] == Merged(w)
  {
    SumClear(w.buckets, UpkeepWindow(w, at).index);
  }

  /** `WindowedHistogram::update`: records into the current bucket only. */
  function Record(w: Window, value: U64): (r: Window)
    requires ValidWindow(w)
    ensures ValidWindow(r)
    ensures r.index == w.index && r.lastUpkeep == w.lastUpkeep && r.granularity == w.granularity
    ensures |r.buckets| == |w.buckets|
    ensures r.buckets[w.index] == w.buckets[w.index] + multiset{value}
    ensures forall i :: 0 <= i < |w.buckets| && i != w.index ==> r.buckets[i] == w.buckets[i]
    ensures Merged(r) == Merged(w) + multiset{value}
    ensures |Merged(r)| == |Merged(w)| + 1
  {
    SumAdd(w.buckets, w.index, multiset{value});
    Window(w.buckets[w.index := w.buckets[w.index] + multiset{value}], w.index, w.lastUpkeep, w.granularity)
  }

  /** `WindowedHistogram::merged`: every bucket added into an empty histogram;
      its length is the sum of the bucket lengths. */
  function Merged(w: Window): (r: Hdr)
    ensures |r| == CountSum(w.buckets)
  {
    Sum(w.buckets)
  }

  /** One rotation, as a timer tick exactly one granularity step later makes. */
  function Tick(w: Window): (r: Window)
    requires ValidWindow(w)
    ensures ValidWindow(r) && |r.buckets| == |w.buckets|
  {
    UpkeepWindow(w, w.lastUpkeep + w.granularity)
  }

  /** `k` successive rotations. */
  function Ticks(w: Window, k: nat): (r: Window)
    requires ValidWindow(w)
    ensures ValidWindow(r) && |r.buckets| == |w.buckets|
    decreases k
  {
    if k == 0 then w else Tick(Ticks(w, k - 1))
  }

  /** How many rotations it takes to move from bucket `from` to bucket `to`
      (a full turn, `n`, when they are the same bucket). */
  function Distance(from: nat, to: nat, n: nat): nat
    requires from < n && to < n
  {
    if to > from then to - from else to + n - from
  }

  /** After `k <= num_buckets` rotations, exactly the `k` buckets following the
      starting index have been cleared and every other bucket is untouched. */
  lemma {:induction false} TicksClear(w: Window, k: nat)
    requires ValidWindow(w) && k <= |w.buckets|
    ensures Ticks(w, k).index == (if w.index + k < |w.buckets| then w.index + k else w.index + k - |w.buckets|)
    ensures forall i :: 0 <= i < |w.buckets| ==>
              Ticks(w, k).buckets[i] == (if Distance(w.index, i, |w.buckets|) <= k then multiset{} else w.buckets[i])
    decreases k
  {
    if k > 0 {
      var n := |w.buckets|;
      var p := Ticks(w, k - 1);
      TicksClear(w, k - 1);
      var r := UpkeepWindow(p, p.lastUpkeep + p.granularity);
      assert Ticks(w, k) == r;
      forall i | 0 <= i < n
        ensures r.buckets[i] == (if Distance(w.index, i, n) <= k then multiset{} else w.buckets[i])
      {
        if i == r.index {
          assert Distance(w.index, i, n) == k;
        } else {
          assert Distance(w.index, i, n) != k;
        }
      }
    }
  }

  /** A value recorded into the current bucket stays in the merged view for
      the next `num_buckets - 1` rotations (the rollover test's "should still
      have everything"). */
  lemma RecordedValueSurvives(w: Window, value: U64, k: nat)
    requires ValidWindow(w) && k < |w.buckets|
    ensures value in Merged(Ticks(Record(w, value), k))
  {
    var w' := Record(w, value);
    TicksClear(w', k);
    assert Ticks(w', k).buckets[w.index] == w'.buckets[w.index];
    SumContains(Ticks(w', k).buckets, w.index);
  }

  /** The rotation that wraps the index back onto the bucket a value was
      recorded in clears that bucket. */
  lemma RecordedValueExpires(w: Window, value: U64)
    requires ValidWindow(w)
    ensures Ticks(Record(w, value), |w.buckets|).buckets[w.index] == multiset{}
  {
    TicksClear(Record(w, value), |w.buckets|);
  }

  /** After a full turn of rotations with nothing recorded, the window is
      empty. */
  lemma FullTurnEmptiesWindow(w: Window)
    requires ValidWindow(w)
    ensures |Merged(Ticks(w, |w.buckets|))| == 0
  {
    var r := Ticks(w, |w.buckets|);
    TicksClear(w, |w.buckets|);
    SumOfEmpty(r.buckets);
  }

  /** The first half of the rollover unit test: a 5s window at 1s
      granularity, two values, three rotations. */
  method RolloverFirstHalf(t0: nat) returns (w: Window, lens: seq<nat>)
    ensures ValidWindow(w) && |w.buckets| == 6 && w.granularity == 1_000_000_000
    ensures w.index == 3 && w.lastUpkeep == t0 + 3_000_000_000
    ensures |w.buckets[0]| == 2 && |Merged(w)| == 2
    ensures forall i :: 1 <= i < 6 ==> |w.buckets[i]| == 0
    ensures lens == [0, 2, 2, 2, 2]
  {
    var sec := 1_000_000_000;
    var w0 := NewWindow(5 * sec, sec, t0);
    assert |w0.buckets| == 6;
    var w1 := Record(Record(w0, 1), 2);
    assert |w1.buckets[0]| == 2;
    var w2 := UpkeepWindow(w1, t0 + sec);
    UpkeepDropsOldest(w1, t0 + sec);
    var w3 := UpkeepWindow(w2, t0 + 2 * sec);
    UpkeepDropsOldest(w2, t0 + 2 * sec);
    w := UpkeepWindow(w3, t0 + 3 * sec);
    UpkeepDropsOldest(w3, t0 + 3 * sec);
    lens := [|Merged(w0)|, |Merged(w1)|, |Merged(w2)|, |Merged(w3)|, |Merged(w)|];
  }

  /** The rollover unit test: after the first half, three more values and
      three more rotations. `lens` holds the merged length at each check, in
      order; the first two values are gone after the sixth rotation, not the
      fifth, because the spare bucket keeps one extra granularity step of
      history. */
  method RolloverTest(t0: nat) returns (lens: seq<nat>)
    ensures lens == [0, 2, 2, 2, 2, 5, 5, 5, 3]
  {
    var sec := 1_000_000_000;
    var w4, first := RolloverFirstHalf(t0);
    var w5 := Record(Record(Record(w4, 3), 4), 5);
    assert |Merged(w5)| == 5;
    assert w5.index == 3 && |w5.buckets[0]| == 2 && |w5.buckets[4]| == 0 && |w5.buckets[5]| == 0;
    var w6 := UpkeepWindow(w5, t0 + 4 * sec);
    UpkeepDropsOldest(w5, t0 + 4 * sec);
    assert |Merged(w6)| == 5;
    assert w6.index == 4 && |w6.buckets[0]| == 2 && |w6.buckets[5]| == 0;
    var w7 := UpkeepWindow(w6, t0 + 5 * sec);
    UpkeepDropsOldest(w6, t0 + 5 * sec);
    assert |Merged(w7)| == 5;
    assert w7.index == 5 && |w7.buckets[0]| == 2;
    var w8 := UpkeepWindow(w7, t0 + 6 * sec);
    UpkeepDropsOldest(w7, t0 + 6 * sec);
    assert |Merged(w8)| == 3;
    lens := first + [|Merged(w5)|, |Merged(w6)|, |Merged(w7)|, |Merged(w8)|];
  }

  /** `Histogram<T>`: one window per metric key, all with the same span. */
  datatype Histogram<K> = Histogram(window: nat, granularity: nat, data: map<K, Window>)

  predicate Valid<K>(h: Histogram<K>) {
    && h.granularity > 0
    && forall k :: k in h.data ==> ValidWindow(h.data[k])
  }

  /** `Histogram::new`. */
  function New<K(==)>(window: nat, granularity: nat): (h: Histogram<K>)
    ensures h.data.Keys == {} && h.window == window && h.granularity == granularity
    ensures granularity > 0 ==> Valid(h)
  {
    Histogram(window, granularity, map[])
  }

  /** `Histogram::update`: records into the key's window, creating a fresh
      window (started at `now`) for a new key; other keys are untouched. */
  function Update<K(==)>(h: Histogram<K>, key: K, value: U64, now: nat): (r: Histogram<K>)
    requires Valid(h)
    ensures Valid(r)
    ensures r.window == h.window && r.granularity == h.granularity
    ensures r.data.Keys == h.data.Keys + {key}
    ensures forall k :: k in h.data && k != key ==> r.data[k] == h.data[k]
    ensures key in h.data ==> Merged(r.data[key]) == Merged(h.data[key]) + multiset{value}
    ensures key !in h.data ==> Merged(r.data[key]) == multiset{value}
    ensures key !in h.data ==> |r.data[key].buckets| == BucketCount(h.window, h.granularity)
  {
    if key in h.data then
      Histogram(h.window, h.granularity, h.data[key := Record(h.data[key], value)])
    else
      var started := NewWindow(h.window, h.granularity, now);
      assert Merged(started) == multiset{};
      Histogram(h.window, h.granularity, h.data[key := Record(started, value)])
  }

  /** `Histogram::upkeep`: rotates every window against the same instant. */
  function Upkeep<K(==)>(h: Histogram<K>, at: nat): (r: Histogram<K>)
    requires Valid(h)
    ensures Valid(r)
    ensures r.window == h.window && r.granularity == h.granularity
    ensures r.data.Keys == h.data.Keys
    ensures forall k :: k in h.data ==> r.data[k] == UpkeepWindow(h.data[k], at)
  {
    Histogram(h.window, h.granularity, map k | k in h.data :: UpkeepWindow(h.data[k], at))
  }

  /** `Histogram::values`: one (key, merged window) pair per key. */
  function Values<K(==)>(h: Histogram<K>): (r: set<(K, Hdr)>)
    ensures forall e :: e in r ==> e.0 in h.data && e.1 == Merged(h.data[e.0])
    ensures forall k :: k in h.data ==> (k, Merged(h.data[k])) in r
    ensures |r| == |h.data|
  {
    var merged := map k | k in h.data :: Merged(h.data[k]);
    assert merged.Keys == h.data.Keys;
    Entries(merged)
  }

  /** The merged window of one key, or None when the key never recorded a
      value: what the receiver reads when it builds a snapshot. */
  function Lookup<K(==)>(h: Histogram<K>, key: K): (r: Option<Hdr>)
    ensures r.Some? <==> key in h.data
    ensures r.Some? ==> r.value == Merged(h.data[key])
  {
    if key in h.data then Some(Merged(h.data[key])) else None
  }
}
