/** `src/data/snapshot.rs`: a snapshot as an ordered list of typed
    measurements, its conversion into one map per measurement kind, and the
    percentile summary of a histogram. */
module TypedSnapshots {
  import opened Base
  import opened Percentiles
  import Histograms

  /** `SummarizedHistogram`: the number of recorded values and the value at
      each requested percentile. */
  datatype Summary = Summary(count: nat, measurements: map<Percentile, U64>)

  /** The percentile loop of `from_histogram`. */
  function Measure(h: Histograms.Hdr, ps: seq<Percentile>,
                   quantile: (Histograms.Hdr, Decimal) -> U64): (r: map<Percentile, U64>)
    ensures r.Keys == set i | 0 <= i < |ps| :: ps[i]
    ensures forall p :: p in r ==> r[p] == quantile(h, p.value)
    decreases |ps|
  {
    if |ps| == 0 then map[]
    else
      var front := ps[..|ps| - 1];
      var p := ps[|ps| - 1];
      assert (set i | 0 <= i < |ps| :: ps[i]) == (set i | 0 <= i < |front| :: front[i]) + {p} by {
        forall i | 0 <= i < |ps|
          ensures ps[i] in (set j | 0 <= j < |front| :: front[j]) + {p}
        {
          if i < |front| {
            assert front[i] == ps[i];
          }
        }
      }
      Measure(h, front, quantile)[p := quantile(h, p.value)]
  }

  /** `SummarizedHistogram::from_histogram`: the count is the histogram's
      length and the measured percentiles are exactly the requested ones. */
  function FromHistogram(h: Histograms.Hdr, ps: seq<Percentile>,
                         quantile: (Histograms.Hdr, Decimal) -> U64): (r: Summary)
    ensures r.count == |h|
    ensures forall p :: p in r.measurements <==> p in ps
    ensures forall p :: p in r.measurements ==> r.measurements[p] == quantile(h, p.value)
  {
    var m := Measure(h, ps, quantile);
    assert forall p :: p in m <==> p in ps by {
      forall p | p in ps
        ensures p in m
      {
        var i :| 0 <= i < |ps| && ps[i] == p;
      }
    }
    Summary(|h|, m)
  }

  datatype Kind = CounterKind | GaugeKind | TimingKind | ValueKind

  datatype TypedMeasurement =
    | Counter(key: string, count: int)
    | Gauge(key: string, level: U64)
    | TimingHistogram(key: string, summary: Summary)
    | ValueHistogram(key: string, summary: Summary)

  function KindOf(m: TypedMeasurement): Kind {
    match m
    case Counter(_, _) => CounterKind
    case Gauge(_, _) => GaugeKind
    case TimingHistogram(_, _) => TimingKind
    case ValueHistogram(_, _) => ValueKind
  }

  datatype Snapshot = Snapshot(measurements: seq<TypedMeasurement>)

  /** `Snapshot::set_count`. */
  function SetCount(s: Snapshot, key: string, value: int): (r: Snapshot)
    ensures |r.measurements| == |s.measurements| + 1
    ensures r.measurements[..|s.measurements|] == s.measurements
    ensures r.measurements[|s.measurements|] == Counter(key, value)
  {
    Snapshot(s.measurements + [Counter(key, value)])
  }

  /** `Snapshot::set_gauge`. */
  function SetGauge(s: Snapshot, key: string, value: U64): (r: Snapshot)
    ensures |r.measurements| == |s.measurements| + 1
    ensures r.measurements[..|s.measurements|] == s.measurements
    ensures r.measurements[|s.measurements|] == Gauge(key, value)
  {
    Snapshot(s.measurements + [Gauge(key, value)])
  }

  /** `Snapshot::set_timing_histogram`: appends the histogram's summary. */
  function SetTimingHistogram(s: Snapshot, key: string, h: Histograms.Hdr, ps: seq<Percentile>,
                              quantile: (Histograms.Hdr, Decimal) -> U64): (r: Snapshot)
    ensures |r.measurements| == |s.measurements| + 1
    ensures r.measurements[..|s.measurements|] == s.measurements
    ensures r.measurements[|s.measurements|] == TimingHistogram(key, FromHistogram(h, ps, quantile))
  {
    Snapshot(s.measurements + [TimingHistogram(key, FromHistogram(h, ps, quantile))])
  }

  /** `Snapshot::set_value_histogram`. */
  function SetValueHistogram(s: Snapshot, key: string, h: Histograms.Hdr, ps: seq<Percentile>,
                             quantile: (Histograms.Hdr, Decimal) -> U64): (r: Snapshot)
    ensures |r.measurements| == |s.measurements| + 1
    ensures r.measurements[..|s.measurements|] == s.measurements
    ensures r.measurements[|s.measurements|] == ValueHistogram(key, FromHistogram(h, ps, quantile))
  {
    Snapshot(s.measurements + [ValueHistogram(key, FromHistogram(h, ps, quantile))])
  }

  /** `Snapshot::into_vec`. */
  function IntoVec(s: Snapshot): seq<TypedMeasurement> {
    s.measurements
  }

  /** The unit test of `into_vec`: measurements come back in call order. */
  lemma IntoVecExample()
    ensures IntoVec(SetGauge(SetCount(Snapshot([]), "ok", 1), "ok", 42)) == [Counter("ok", 1), Gauge("ok", 42)]
  {
  }

  /** `SimpleSnapshot`: one map per measurement kind. */
  datatype SimpleSnapshot = SimpleSnapshot(
    counters: map<string, int>,
    gauges: map<string, U64>,
    timings: map<string, Summary>,
    values: map<string, Summary>)

  /** One turn of the `from_snapshot` loop: the measurement goes into the map of
      its kind, replacing an entry under the same key. */
  function Insert(ss: SimpleSnapshot, m: TypedMeasurement): SimpleSnapshot {
    match m
    case Counter(key, value) => ss.(counters := ss.counters[key := value])
    case Gauge(key, value) => ss.(gauges := ss.gauges[key := value])
    case TimingHistogram(key, value) => ss.(timings := ss.timings[key := value])
    case ValueHistogram(key, value) => ss.(values := ss.values[key := value])
  }

  /** The `from_snapshot` loop over a prefix of the measurements. */
  function FromMeasurements(ms: seq<TypedMeasurement>): SimpleSnapshot
    decreases |ms|
  {
    if |ms| == 0 then SimpleSnapshot(map[], map[], map[], map[])
    else Insert(FromMeasurements(ms[..|ms| - 1]), ms[|ms| - 1])
  }

  /** `SimpleSnapshot::from_snapshot`. */
  function FromSnapshot(s: Snapshot): SimpleSnapshot {
    FromMeasurements(IntoVec(s))
  }

  /** Reference definition: the last measurement of a kind under a key. */
  function Last(ms: seq<TypedMeasurement>, kind: Kind, key: string): (r: Option<TypedMeasurement>)
    ensures r.Some? ==> KindOf(r.value) == kind && r.value.key == key && r.value in ms
    ensures r.None? <==> forall i :: 0 <= i < |ms| ==> !(KindOf(ms[i]) == kind && ms[i].key == key)
    decreases |ms|
  {
    if |ms| == 0 then None
    else if KindOf(ms[|ms| - 1]) == kind && ms[|ms| - 1].key == key then Some(ms[|ms| - 1])
    else Last(ms[..|ms| - 1], kind, key)
  }

  /** Each map of the converted snapshot holds, for every key, the last
      measurement of its kind under that key, and nothing else: later
      measurements overwrite earlier ones, and kinds never interfere. */
  lemma {:induction false} FromMeasurementsLast(ms: seq<TypedMeasurement>, key: string)
    ensures key in FromMeasurements(ms).counters <==> Last(ms, CounterKind, key).Some?
    ensures key in FromMeasurements(ms).counters ==>
      FromMeasurements(ms).counters[key] == Last(ms, CounterKind, key).value.count
    ensures key in FromMeasurements(ms).gauges <==> Last(ms, GaugeKind, key).Some?
    ensures key in FromMeasurements(ms).gauges ==>
      FromMeasurements(ms).gauges[key] == Last(ms, GaugeKind, key).value.level
    ensures key in FromMeasurements(ms).timings <==> Last(ms, TimingKind, key).Some?
    ensures key in FromMeasurements(ms).timings ==>
      FromMeasurements(ms).timings[key] == Last(ms, TimingKind, key).value.summary
    ensures key in FromMeasurements(ms).values <==> Last(ms, ValueKind, key).Some?
    ensures key in FromMeasurements(ms).values ==>
      FromMeasurements(ms).values[key] == Last(ms, ValueKind, key).value.summary
    decreases |ms|
  {
    if |ms| > 0 {
      FromMeasurementsLast(ms[..|ms| - 1], key);
    }
  }

  /** `SimpleSnapshot::count`. */
  function Count(ss: SimpleSnapshot, key: string): Option<int> {
    Get(ss.counters, key)
  }

  /** `SimpleSnapshot::gauge`. */
  function GaugeOf(ss: SimpleSnapshot, key: string): Option<U64> {
    Get(ss.gauges, key)
  }

  /** The percentile lookup shared by `timing_histogram` and
      `value_histogram`: the requested percentile is normalised by
      `Percentile::from` and looked up in the key's summary. */
  function LookupPercentile(m: map<string, Summary>, key: string, p: Decimal): (r: Option<U64>)
    ensures r.Some? <==> key in m && From(p) in m[key].measurements
    ensures r.Some? ==> r.value == m[key].measurements[From(p)]
  {
    if key in m && From(p) in m[key].measurements then Some(m[key].measurements[From(p)]) else None
  }

  /** `SimpleSnapshot::timing_histogram`. */
  function TimingPercentile(ss: SimpleSnapshot, key: string, p: Decimal): Option<U64> {
    LookupPercentile(ss.timings, key, p)
  }

  /** `SimpleSnapshot::value_histogram`. */
  function ValuePercentile(ss: SimpleSnapshot, key: string, p: Decimal): Option<U64> {
    LookupPercentile(ss.values, key, p)
  }

  /** `count` is None exactly when no counter measurement had the key, and
      otherwise the last such measurement's value; likewise `gauge`. */
  lemma CountAndGaugeLookup(s: Snapshot, key: string)
    ensures Count(FromSnapshot(s), key).None? <==>
      forall i :: 0 <= i < |s.measurements| ==> !(s.measurements[i].Counter? && s.measurements[i].key == key)
    ensures Count(FromSnapshot(s), key).Some? ==>
      Count(FromSnapshot(s), key).value == Last(s.measurements, CounterKind, key).value.count
    ensures GaugeOf(FromSnapshot(s), key).None? <==>
      forall i :: 0 <= i < |s.measurements| ==> !(s.measurements[i].Gauge? && s.measurements[i].key == key)
    ensures GaugeOf(FromSnapshot(s), key).Some? ==>
      GaugeOf(FromSnapshot(s), key).value == Last(s.measurements, GaugeKind, key).value.level
  {
    FromMeasurementsLast(s.measurements, key);
    assert forall m: TypedMeasurement :: m.Counter? <==> KindOf(m) == CounterKind;
    assert forall m: TypedMeasurement :: m.Gauge? <==> KindOf(m) == GaugeKind;
  }

  /** A counter and a gauge under the same key both survive conversion. */
  lemma CountAndGaugeCoexist(key: string, count: int, level: U64)
    ensures Count(FromSnapshot(SetGauge(SetCount(Snapshot([]), key, count), key, level)), key) == Some(count)
    ensures GaugeOf(FromSnapshot(SetGauge(SetCount(Snapshot([]), key, count), key, level)), key) == Some(level)
  {
    var ms := [Counter(key, count), Gauge(key, level)];
    assert IntoVec(SetGauge(SetCount(Snapshot([]), key, count), key, level)) == ms;
    FromMeasurementsLast(ms, key);
  }

  /** After storing one timing histogram, a percentile lookup on its key
      succeeds exactly for the requested percentiles and yields the
      histogram's value there; a lookup on any other key finds nothing. */
  lemma TimingLookup(key: string, h: Histograms.Hdr, ps: seq<Percentile>,
                     quantile: (Histograms.Hdr, Decimal) -> U64, other: string, p: Decimal)
    ensures TimingPercentile(FromSnapshot(SetTimingHistogram(Snapshot([]), key, h, ps, quantile)), key, p).Some?
      <==> From(p) in ps
    ensures From(p) in ps ==>
      TimingPercentile(FromSnapshot(SetTimingHistogram(Snapshot([]), key, h, ps, quantile)), key, p)
        == Some(quantile(h, Clamp(p)))
    ensures other != key ==>
      TimingPercentile(FromSnapshot(SetTimingHistogram(Snapshot([]), key, h, ps, quantile)), other, p).None?
  {
    var ms := [TimingHistogram(key, FromHistogram(h, ps, quantile))];
    assert IntoVec(SetTimingHistogram(Snapshot([]), key, h, ps, quantile)) == ms;
    FromMeasurementsLast(ms, key);
    FromMeasurementsLast(ms, other);
  }

  /** The summary unit test: its count is the four recorded values, each
      stored percentile is measured and the 63rd is not. */
  lemma SummaryExample(quantile: (Histograms.Hdr, Decimal) -> U64)
    ensures FromHistogram(multiset{500_000, 750_000, 1_000_000, 1_250_000}, UnitTestPercentiles(), quantile).count == 4
    ensures forall i :: 0 <= i < |UnitTestPercentiles()| ==>
      UnitTestPercentiles()[i] in FromHistogram(multiset{500_000, 750_000, 1_000_000, 1_250_000}, UnitTestPercentiles(), quantile).measurements
    ensures From(Decimal(false, 63, [])) !in
      FromHistogram(multiset{500_000, 750_000, 1_000_000, 1_250_000}, UnitTestPercentiles(), quantile).measurements
  {
    NotP63(UnitTestPercentiles());
  }
}
