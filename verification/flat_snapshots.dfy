/** `Snapshot` and `SnapshotBuilder` of `src/data/mod.rs`: two flat stores
    keyed by rendered metric name, one for signed values (counters) and one for
    unsigned values (gauges and histogram percentiles).

    The histogram is a multiset of recorded values and `value_at_percentile`
    is the parameter `quantile`, about which nothing is assumed. Counter values
    are mathematical integers, as in the counter model. */
module FlatSnapshots {
  import opened Base
  import opened Percentiles
  import Histograms

  datatype Snapshot = Snapshot(signed: map<string, int>, unsigned: map<string, U64>)

  /** `SnapshotBuilder::new`: both stores empty. */
  function Empty(): (s: Snapshot)
    ensures s.signed.Keys == {} && s.unsigned.Keys == {}
    ensures FieldCount(s) == 0
  {
    Snapshot(map[], map[])
  }

  /** `Snapshot::count`. */
  function Count(s: Snapshot, key: string): (r: Option<int>)
    ensures r.Some? <==> key in s.signed
    ensures r.Some? ==> r.value == s.signed[key]
  {
    Get(s.signed, key)
  }

  /** `Snapshot::gauge`. */
  function Gauge(s: Snapshot, key: string): (r: Option<U64>)
    ensures r.Some? <==> key in s.unsigned
    ensures r.Some? ==> r.value == s.unsigned[key]
  {
    Get(s.unsigned, key)
  }

  /** The store key of a timing percentile: `key_ns_label`. */
  function TimingBase(key: string): string {
    key + "_ns_"
  }

  /** The store key of a value percentile: `key_label`. */
  function ValueBase(key: string): string {
    key + "_"
  }

  /** `Snapshot::timing_histogram`: the requested percentile is normalised by
      `Percentile::from` and looked up by its label. */
  function TimingHistogram(s: Snapshot, key: string, p: Decimal): (r: Option<U64>)
    ensures r.Some? <==> TimingBase(key) + From(p).name in s.unsigned
    ensures r.Some? ==> r.value == s.unsigned[TimingBase(key) + From(p).name]
  {
    Get(s.unsigned, TimingBase(key) + From(p).name)
  }

  /** `Snapshot::value_histogram`. */
  function ValueHistogram(s: Snapshot, key: string, p: Decimal): (r: Option<U64>)
    ensures r.Some? <==> ValueBase(key) + From(p).name in s.unsigned
    ensures r.Some? ==> r.value == s.unsigned[ValueBase(key) + From(p).name]
  {
    Get(s.unsigned, ValueBase(key) + From(p).name)
  }

  /** `Snapshot::get_signed_data`. */
  function SignedData(s: Snapshot): (r: set<(string, int)>)
    ensures forall e :: e in r ==> Count(s, e.0) == Some(e.1)
    ensures forall k :: k in s.signed ==> (k, s.signed[k]) in r
    ensures |r| == |s.signed|
  {
    Entries(s.signed)
  }

  /** `Snapshot::get_unsigned_data`. */
  function UnsignedData(s: Snapshot): (r: set<(string, U64)>)
    ensures forall e :: e in r ==> Gauge(s, e.0) == Some(e.1)
    ensures forall k :: k in s.unsigned ==> (k, s.unsigned[k]) in r
    ensures |r| == |s.unsigned|
  {
    Entries(s.unsigned)
  }

  /** The size announced to the serializer. */
  function FieldCount(s: Snapshot): nat {
    |s.signed| + |s.unsigned|
  }

  /** The announced size is the number of entries the serializer then writes:
      every signed entry followed by every unsigned one. */
  lemma FieldCountMatchesEntries(s: Snapshot)
    ensures FieldCount(s) == |SignedData(s)| + |UnsignedData(s)|
  {
  }

  /** `SnapshotBuilder::set_count`: writes the signed store only. */
  function SetCount(s: Snapshot, key: string, value: int): (r: Snapshot)
    ensures Count(r, key) == Some(value)
    ensures r.signed.Keys == s.signed.Keys + {key}
    ensures forall k :: k in s.signed && k != key ==> r.signed[k] == s.signed[k]
    ensures r.unsigned == s.unsigned
  {
    Snapshot(s.signed[key := value], s.unsigned)
  }

  /** `SnapshotBuilder::set_gauge`: writes the unsigned store only. */
  function SetGauge(s: Snapshot, key: string, value: U64): (r: Snapshot)
    ensures Gauge(r, key) == Some(value)
    ensures r.unsigned.Keys == s.unsigned.Keys + {key}
    ensures forall k :: k in s.unsigned && k != key ==> r.unsigned[k] == s.unsigned[k]
    ensures r.signed == s.signed
  {
    Snapshot(s.signed, s.unsigned[key := value])
  }

  /** The store keys one percentile loop writes. */
  function PercentileKeys(base: string, ps: seq<Percentile>): set<string> {
    set i | 0 <= i < |ps| :: base + ps[i].name
  }

  /** Reference definition: the last percentile in `ps` carrying `name`, the
      one whose value a loop over `ps` leaves in the store. */
  function LastNamed(ps: seq<Percentile>, name: string): (r: Option<Percentile>)
    ensures r.Some? ==> r.value in ps && r.value.name == name
    ensures r.None? <==> forall i :: 0 <= i < |ps| ==> ps[i].name != name
    decreases |ps|
  {
    if |ps| == 0 then None
    else if ps[|ps| - 1].name == name then Some(ps[|ps| - 1])
    else LastNamed(ps[..|ps| - 1], name)
  }

  /** The loop shared by `set_timing_histogram` and `set_value_histogram`: for
      each percentile in order, store the histogram's value at it under
      `base + label`. */
  function SetPercentiles(s: Snapshot, base: string, h: Histograms.Hdr, ps: seq<Percentile>,
                          quantile: (Histograms.Hdr, Decimal) -> U64): (r: Snapshot)
    ensures r.signed == s.signed
    ensures r.unsigned.Keys == s.unsigned.Keys + PercentileKeys(base, ps)
    ensures forall k :: k in s.unsigned && k !in PercentileKeys(base, ps) ==> r.unsigned[k] == s.unsigned[k]
    decreases |ps|
  {
    if |ps| == 0 then
      assert PercentileKeys(base, ps) == {};
      s
    else
      var front := ps[..|ps| - 1];
      var p := ps[|ps| - 1];
      assert PercentileKeys(base, ps) == PercentileKeys(base, front) + {base + p.name} by {
        forall k | k in PercentileKeys(base, ps)
          ensures k in PercentileKeys(base, front) + {base + p.name}
        {
          var i :| 0 <= i < |ps| && k == base + ps[i].name;
          if i < |ps| - 1 {
            assert ps[i] == front[i];
          }
        }
      }
      var r := SetPercentiles(s, base, h, front, quantile);
      Snapshot(r.signed, r.unsigned[base + p.name := quantile(h, p.value)])
  }

  /** What one percentile loop leaves under `base + name`: the value at the
      last percentile labelled `name`, or the previous entry when no
      percentile has that label. */
  lemma {:induction false} SetPercentilesValue(s: Snapshot, base: string, h: Histograms.Hdr, ps: seq<Percentile>,
                                             quantile: (Histograms.Hdr, Decimal) -> U64, name: string)
    ensures LastNamed(ps, name).Some? ==>
      SetPercentiles(s, base, h, ps, quantile).unsigned[base + name] == quantile(h, LastNamed(ps, name).value.value)
    ensures LastNamed(ps, name).None? ==>
      Get(SetPercentiles(s, base, h, ps, quantile).unsigned, base + name) == Get(s.unsigned, base + name)
    decreases |ps|
  {
    if |ps| > 0 {
      var front := ps[..|ps| - 1];
      var p := ps[|ps| - 1];
      SetPercentilesValue(s, base, h, front, quantile, name);
      if p.name != name {
        if base + p.name == base + name {
          PrefixCancel(base, p.name, name);
        }
      }
    }
  }

  /** Every key a percentile loop writes holds the histogram's value at the
      last percentile with that key's label. */
  lemma SetPercentilesWritten(s: Snapshot, base: string, h: Histograms.Hdr, ps: seq<Percentile>,
                              quantile: (Histograms.Hdr, Decimal) -> U64)
    ensures forall i :: 0 <= i < |ps| ==>
      Gauge(SetPercentiles(s, base, h, ps, quantile), base + ps[i].name)
        == Some(quantile(h, LastNamed(ps, ps[i].name).value.value))
  {
    forall i | 0 <= i < |ps|
      ensures Gauge(SetPercentiles(s, base, h, ps, quantile), base + ps[i].name)
        == Some(quantile(h, LastNamed(ps, ps[i].name).value.value))
    {
      SetPercentilesValue(s, base, h, ps, quantile, ps[i].name);
    }
  }

  /** `SnapshotBuilder::set_timing_histogram`: for each configured
      percentile, the histogram's value at it under `key_ns_label`; every
      other entry is kept. */
  function SetTimingHistogram(s: Snapshot, key: string, h: Histograms.Hdr, ps: seq<Percentile>,
                              quantile: (Histograms.Hdr, Decimal) -> U64): (r: Snapshot)
    ensures r.signed == s.signed
    ensures r.unsigned.Keys == s.unsigned.Keys + PercentileKeys(TimingBase(key), ps)
    ensures forall k :: k in s.unsigned && k !in PercentileKeys(TimingBase(key), ps) ==> r.unsigned[k] == s.unsigned[k]
    ensures forall i :: 0 <= i < |ps| ==>
      Gauge(r, TimingBase(key) + ps[i].name) == Some(quantile(h, LastNamed(ps, ps[i].name).value.value))
  {
    SetPercentilesWritten(s, TimingBase(key), h, ps, quantile);
    SetPercentiles(s, TimingBase(key), h, ps, quantile)
  }

  /** `SnapshotBuilder::set_value_histogram`: the same under `key_label`. */
  function SetValueHistogram(s: Snapshot, key: string, h: Histograms.Hdr, ps: seq<Percentile>,
                             quantile: (Histograms.Hdr, Decimal) -> U64): (r: Snapshot)
    ensures r.signed == s.signed
    ensures r.unsigned.Keys == s.unsigned.Keys + PercentileKeys(ValueBase(key), ps)
    ensures forall k :: k in s.unsigned && k !in PercentileKeys(ValueBase(key), ps) ==> r.unsigned[k] == s.unsigned[k]
    ensures forall i :: 0 <= i < |ps| ==>
      Gauge(r, ValueBase(key) + ps[i].name) == Some(quantile(h, LastNamed(ps, ps[i].name).value.value))
  {
    SetPercentilesWritten(s, ValueBase(key), h, ps, quantile);
    SetPercentiles(s, ValueBase(key), h, ps, quantile)
  }

  /** On a fresh builder, a timing lookup succeeds exactly when some stored
      percentile has the label of the requested one, and then yields the
      histogram's value at the last such percentile. */
  lemma TimingLookup(key: string, h: Histograms.Hdr, ps: seq<Percentile>,
                     quantile: (Histograms.Hdr, Decimal) -> U64, p: Decimal)
    ensures TimingHistogram(SetTimingHistogram(Empty(), key, h, ps, quantile), key, p).Some?
      <==> exists i :: 0 <= i < |ps| && ps[i].name == From(p).name
    ensures LastNamed(ps, From(p).name).Some? ==>
      TimingHistogram(SetTimingHistogram(Empty(), key, h, ps, quantile), key, p)
        == Some(quantile(h, LastNamed(ps, From(p).name).value.value))
  {
    var name := From(p).name;
    SetPercentilesValue(Empty(), TimingBase(key), h, ps, quantile, name);
  }

  /** The same for value percentiles. */
  lemma ValueLookup(key: string, h: Histograms.Hdr, ps: seq<Percentile>,
                    quantile: (Histograms.Hdr, Decimal) -> U64, p: Decimal)
    ensures ValueHistogram(SetValueHistogram(Empty(), key, h, ps, quantile), key, p).Some?
      <==> exists i :: 0 <= i < |ps| && ps[i].name == From(p).name
    ensures LastNamed(ps, From(p).name).Some? ==>
      ValueHistogram(SetValueHistogram(Empty(), key, h, ps, quantile), key, p)
        == Some(quantile(h, LastNamed(ps, From(p).name).value.value))
  {
    var name := From(p).name;
    SetPercentilesValue(Empty(), ValueBase(key), h, ps, quantile, name);
  }

  /** A counter and a gauge stored under the same key are both retrievable. */
  lemma CountAndGaugeCoexist(s: Snapshot, key: string, count: int, gauge: U64)
    ensures Count(SetGauge(SetCount(s, key, count), key, gauge), key) == Some(count)
    ensures Gauge(SetGauge(SetCount(s, key, count), key, gauge), key) == Some(gauge)
  {
  }

  /** A stored percentile is found again by looking up its own value. */
  lemma StoredPercentileFound(key: string, h: Histograms.Hdr, ps: seq<Percentile>,
                              quantile: (Histograms.Hdr, Decimal) -> U64, i: nat, x: Decimal)
    requires i < |ps| && ps[i] == From(x)
    ensures TimingHistogram(SetTimingHistogram(Empty(), key, h, ps, quantile), key, ps[i].value).Some?
    ensures ValueHistogram(SetValueHistogram(Empty(), key, h, ps, quantile), key, ps[i].value).Some?
  {
    FromIdempotent(x);
    TimingLookup(key, h, ps, quantile, ps[i].value);
    ValueLookup(key, h, ps, quantile, ps[i].value);
  }

  /** The snapshot unit test, first half: each of the min/p50/p99/max
      percentiles stored from a histogram is found by its value. */
  lemma StoredExample(h: Histograms.Hdr, quantile: (Histograms.Hdr, Decimal) -> U64, i: nat)
    requires i < |UnitTestPercentiles()|
    ensures TimingHistogram(SetTimingHistogram(Empty(), "ok", h, UnitTestPercentiles(), quantile), "ok", UnitTestPercentiles()[i].value).Some?
    ensures ValueHistogram(SetValueHistogram(Empty(), "ok", h, UnitTestPercentiles(), quantile), "ok", UnitTestPercentiles()[i].value).Some?
  {
    var xs := [Decimal(false, 0, []), Decimal(false, 50, []), Decimal(false, 99, []), Decimal(false, 100, [])];
    StoredPercentileFound("ok", h, UnitTestPercentiles(), quantile, i, xs[i]);
  }

  /** The snapshot unit test, second half: the 63rd percentile, never stored,
      is not found. */
  lemma MissingExample(h: Histograms.Hdr, quantile: (Histograms.Hdr, Decimal) -> U64)
    ensures TimingHistogram(SetTimingHistogram(Empty(), "ok", h, UnitTestPercentiles(), quantile), "ok", Decimal(false, 63, [])).None?
    ensures ValueHistogram(SetValueHistogram(Empty(), "ok", h, UnitTestPercentiles(), quantile), "ok", Decimal(false, 63, [])).None?
  {
    NotP63(UnitTestPercentiles());
    TimingLookup("ok", h, UnitTestPercentiles(), quantile, Decimal(false, 63, []));
    ValueLookup("ok", h, UnitTestPercentiles(), quantile, Decimal(false, 63, []));
  }
}
