/** The receiver of `src/receiver.rs` as a step function over an explicit
    state: it aggregates data frames, keeps the scope registry and the facet
    set, and answers snapshot requests.

    The clock's conversion of a timing's start and end into a duration is the
    parameter `delta`, the instant used to start a new histogram window is
    `now`, and the histogram's `value_at_percentile` is `quantile`. Facet
    registration with the aggregators (`register`/`deregister`) is defined
    outside the modelled files, whose aggregators have no such methods; it is
    taken to leave the aggregators' data alone, and an aggregator read for a key with no data
    yields 0. The facet set's iteration order is the order of insertion. */
module Receivers {
  import opened Base
  import opened Data
  import opened Channels
  import opened Percentiles
  import Counters
  import Gauges
  import Histograms
  import FlatSnapshots
  import Configurations
  import Sinks

  type Key = ScopedKey<string>

  datatype Receiver = Receiver(
    capacity: U64,
    facets: seq<Facet<Key>>,
    counter: Counters.Counter<Key>,
    gauge: Gauges.Gauge<Key>,
    histogram: Histograms.Histogram<Key>,
    percentiles: seq<Percentile>,
    scopes: map<U64, string>)

  /** The facet set has no duplicates and every histogram window is well formed. */
  predicate Valid(r: Receiver) {
    Distinct(r.facets) && Histograms.Valid(r.histogram)
  }

  /** An empty receiver with the given histogram span and percentiles. */
  function Start(capacity: U64, window: nat, granularity: nat, percentiles: seq<Percentile>): (r: Receiver)
    ensures r.facets == [] && r.scopes == map[] && r.percentiles == percentiles
    ensures r.counter.data == map[] && r.gauge.data == map[] && r.histogram.data == map[]
    ensures r.histogram.window == window && r.histogram.granularity == granularity
    ensures granularity > 0 ==> Valid(r)
  {
    Receiver(capacity, [], Counters.New(), Gauges.New(), Histograms.New(window, granularity), percentiles, map[])
  }

  /** `Receiver::from_config` as written: it sizes the data channel from the
      configuration but hard-codes a 10 s window at 1 s granularity and the
      default percentiles, whatever the configuration says. */
  function FromConfigAsWritten(conf: Configurations.Configuration): (r: Receiver)
    ensures Valid(r) && r.capacity == conf.capacity
    ensures r.histogram.window == 10 * Configurations.SECOND && r.histogram.granularity == Configurations.SECOND
    ensures r.percentiles == Configurations.DefaultPercentiles()
  {
    Start(conf.capacity, 10 * Configurations.SECOND, Configurations.SECOND, Configurations.DefaultPercentiles())
  }

  /** A configuration asking for a 5 s window and only the median gets 11
      buckets per histogram instead of 6, and six percentiles instead of one. */
  lemma ConfigIgnored()
    ensures var conf := Configurations.SetPercentiles(
              Configurations.SetHistogram(Configurations.Default(), 5 * Configurations.SECOND, Configurations.SECOND),
              [Decimal(false, 50, [])]);
      && Histograms.BucketCount(conf.histogramWindow, conf.histogramGranularity) == 6
      && Histograms.BucketCount(FromConfigAsWritten(conf).histogram.window, FromConfigAsWritten(conf).histogram.granularity) == 11
      && |conf.percentiles| == 1
      && |FromConfigAsWritten(conf).percentiles| == 6
  {
  }

  /** `Receiver::from_config` as the builder's documentation intends: the
      histogram span and the percentiles come from the configuration. */
  function FromConfig(conf: Configurations.Configuration): (r: Receiver)
    ensures r.capacity == conf.capacity
    ensures r.histogram.window == conf.histogramWindow && r.histogram.granularity == conf.histogramGranularity
    ensures r.percentiles == conf.percentiles
    ensures conf.histogramGranularity > 0 ==> Valid(r)
  {
    Start(conf.capacity, conf.histogramWindow, conf.histogramGranularity, conf.percentiles)
  }

  /** Built from an unchanged default configuration, the corrected receiver is
      the one the code builds. */
  lemma FromDefaultAgrees()
    ensures FromConfig(Configurations.Default()) == FromConfigAsWritten(Configurations.Default())
  {
  }

  /** `Receiver::get_sink`: the root sink, scope "" with the reserved id 0. */
  function GetSink(data: Channel<Sinks.Frame>): (r: (Sinks.Sink, Channel<Sinks.Frame>))
    ensures r.0.scope == "" && r.0.scopeId == 0
    ensures data.connected ==> r.1.items == data.items + [ScopeFrame(0, "")]
  {
    Sinks.New(data, "", 0)
  }

  /** `get_string_scope`: id 0 is the root scope, a registered id its text,
      and an unregistered id nothing. */
  function GetStringScope(r: Receiver, key: Key): (s: Option<StringScopedKey<string>>)
    ensures key.scopeId == 0 ==> s == Some(StringScopedKey("", key.name))
    ensures key.scopeId != 0 ==> (s.Some? <==> key.scopeId in r.scopes)
    ensures key.scopeId != 0 && s.Some? ==> s.value == StringScopedKey(r.scopes[key.scopeId], key.name)
  {
    if key.scopeId == 0 then Some(IntoStringScoped(key, ""))
    else if key.scopeId in r.scopes then Some(IntoStringScoped(key, r.scopes[key.scopeId]))
    else None
  }

  /** The rendered name of a key whose scope resolves. */
  function Name(r: Receiver, key: Key): Option<string> {
    match GetStringScope(r, key)
    case Some(k) => Some(Render(k))
    case None => None
  }

  /** Whether facet `f` writes `name` into the signed store. */
  predicate SignedFrom(r: Receiver, f: Facet<Key>, name: string) {
    f.CountFacet? && Name(r, f.key) == Some(name)
  }

  /** Whether facet `f` writes `name` into the unsigned store. */
  predicate UnsignedFrom(r: Receiver, f: Facet<Key>, name: string) {
    match f
    case CountFacet(_) => false
    case GaugeFacet(key) => Name(r, key) == Some(name)
    case TimingPercentile(key) =>
      && Histograms.Lookup(r.histogram, key).Some? && Name(r, key).Some?
      && name in FlatSnapshots.PercentileKeys(FlatSnapshots.TimingBase(Name(r, key).value), r.percentiles)
    case ValuePercentile(key) =>
      && Histograms.Lookup(r.histogram, key).Some? && Name(r, key).Some?
      && name in FlatSnapshots.PercentileKeys(FlatSnapshots.ValueBase(Name(r, key).value), r.percentiles)
  }

  /** One turn of the `get_snapshot` loop: a facet whose scope resolves
      contributes its aggregator's reading; histogram facets also need
      recorded data. */
  function SnapshotStep(r: Receiver, snap: FlatSnapshots.Snapshot, f: Facet<Key>,
                        quantile: (Histograms.Hdr, Decimal) -> U64): (out: FlatSnapshots.Snapshot)
    ensures forall name :: name in out.signed <==> name in snap.signed || SignedFrom(r, f, name)
    ensures forall name :: name in out.signed ==>
      out.signed[name] == if SignedFrom(r, f, name) then Counters.ValueOrZero(r.counter, f.key) else snap.signed[name]
    ensures forall name :: name in out.unsigned <==> name in snap.unsigned || UnsignedFrom(r, f, name)
    ensures f.GaugeFacet? && Name(r, f.key).Some? ==>
      FlatSnapshots.Gauge(out, Name(r, f.key).value) == Some(Gauges.Value(r.gauge, f.key).GetOr(0))
    ensures f.CountFacet? || Name(r, f.key).None? ==> out.unsigned == snap.unsigned
    ensures forall name :: name in snap.unsigned && !UnsignedFrom(r, f, name) ==> out.unsigned[name] == snap.unsigned[name]
    ensures f.TimingPercentile? && Histograms.Lookup(r.histogram, f.key).Some? && Name(r, f.key).Some? ==>
      forall i :: 0 <= i < |r.percentiles| ==>
        FlatSnapshots.Gauge(out, FlatSnapshots.TimingBase(Name(r, f.key).value) + r.percentiles[i].name)
          == Some(quantile(Histograms.Lookup(r.histogram, f.key).value,
                           FlatSnapshots.LastNamed(r.percentiles, r.percentiles[i].name).value.value))
    ensures f.ValuePercentile? && Histograms.Lookup(r.histogram, f.key).Some? && Name(r, f.key).Some? ==>
      forall i :: 0 <= i < |r.percentiles| ==>
        FlatSnapshots.Gauge(out, FlatSnapshots.ValueBase(Name(r, f.key).value) + r.percentiles[i].name)
          == Some(quantile(Histograms.Lookup(r.histogram, f.key).value,
                           FlatSnapshots.LastNamed(r.percentiles, r.percentiles[i].name).value.value))
  {
    match f
    case CountFacet(key) =>
      if Name(r, key).Some? then FlatSnapshots.SetCount(snap, Name(r, key).value, Counters.ValueOrZero(r.counter, key))
      else snap
    case GaugeFacet(key) =>
      if Name(r, key).Some? then FlatSnapshots.SetGauge(snap, Name(r, key).value, Gauges.Value(r.gauge, key).GetOr(0))
      else snap
    case TimingPercentile(key) =>
      (match Histograms.Lookup(r.histogram, key)
       case Some(hs) =>
         if Name(r, key).Some? then FlatSnapshots.SetTimingHistogram(snap, Name(r, key).value, hs, r.percentiles, quantile)
         else snap
       case None => snap)
    case ValuePercentile(key) =>
      match Histograms.Lookup(r.histogram, key)
      case Some(hs) =>
        if Name(r, key).Some? then FlatSnapshots.SetValueHistogram(snap, Name(r, key).value, hs, r.percentiles, quantile)
        else snap
      case None => snap
  }

  /** The `get_snapshot` loop over a sequence of facets. */
  function SnapshotOver(r: Receiver, fs: seq<Facet<Key>>, quantile: (Histograms.Hdr, Decimal) -> U64): FlatSnapshots.Snapshot
    decreases |fs|
  {
    if |fs| == 0 then FlatSnapshots.Empty()
    else SnapshotStep(r, SnapshotOver(r, fs[..|fs| - 1], quantile), fs[|fs| - 1], quantile)
  }

  /** `get_snapshot`. */
  function GetSnapshot(r: Receiver, quantile: (Histograms.Hdr, Decimal) -> U64): FlatSnapshots.Snapshot {
    SnapshotOver(r, r.facets, quantile)
  }

  /** A snapshot holds an entry exactly for what the registered facets whose
      scope resolves contribute: a metric without a facet, or whose scope
      was never registered, does not appear. */
  lemma {:induction false} SnapshotKeys(r: Receiver, fs: seq<Facet<Key>>, quantile: (Histograms.Hdr, Decimal) -> U64, name: string)
    ensures name in SnapshotOver(r, fs, quantile).signed <==> exists i :: 0 <= i < |fs| && SignedFrom(r, fs[i], name)
    ensures name in SnapshotOver(r, fs, quantile).unsigned <==> exists i :: 0 <= i < |fs| && UnsignedFrom(r, fs[i], name)
    decreases |fs|
  {
    if |fs| > 0 {
      var front := fs[..|fs| - 1];
      SnapshotKeys(r, front, quantile, name);
      assert forall i :: 0 <= i < |front| ==> front[i] == fs[i];
    }
  }

  /** Every counter entry of a snapshot is the value of a registered counter
      facet rendering to that name. */
  lemma {:induction false} SnapshotCounts(r: Receiver, fs: seq<Facet<Key>>, quantile: (Histograms.Hdr, Decimal) -> U64, name: string)
    requires name in SnapshotOver(r, fs, quantile).signed
    ensures exists i :: 0 <= i < |fs| && SignedFrom(r, fs[i], name) &&
                        SnapshotOver(r, fs, quantile).signed[name] == Counters.ValueOrZero(r.counter, fs[i].key)
    decreases |fs|
  {
    var front := fs[..|fs| - 1];
    var last := |fs| - 1;
    if SignedFrom(r, fs[last], name) {
      assert SnapshotOver(r, fs, quantile).signed[name] == Counters.ValueOrZero(r.counter, fs[last].key);
    } else {
      SnapshotCounts(r, front, quantile, name);
      var i :| 0 <= i < |front| && SignedFrom(r, front[i], name)
        && SnapshotOver(r, front, quantile).signed[name] == Counters.ValueOrZero(r.counter, front[i].key);
      assert fs[i] == front[i];
    }
  }

  /** `HashSet::insert` on the facet set. */
  function InsertFacet(fs: seq<Facet<Key>>, f: Facet<Key>): (r: seq<Facet<Key>>)
    ensures forall g :: g in r <==> g in fs || g == f
    ensures Distinct(fs) ==> Distinct(r)
  {
    if f in fs then fs else fs + [f]
  }

  /** `HashSet::remove` on the facet set. */
  function RemoveFacet(fs: seq<Facet<Key>>, f: Facet<Key>): (r: seq<Facet<Key>>)
    ensures forall g :: g in r <==> g in fs && g != f
    ensures Distinct(fs) ==> Distinct(r)
    decreases |fs|
  {
    if |fs| == 0 then []
    else
      var front := fs[..|fs| - 1];
      var rest := RemoveFacet(front, f);
      assert Distinct(fs) ==> Distinct(front) && fs[|fs| - 1] !in front by {
        if Distinct(fs) {
          forall k | 0 <= k < |front| ensures front[k] != fs[|fs| - 1] {
            assert front[k] == fs[k];
          }
        }
      }
      if fs[|fs| - 1] == f then rest else rest + [fs[|fs| - 1]]
  }

  /** Adding then removing a facet leaves the other facets as they were, and
      adding twice is adding once. */
  lemma FacetSetLaws(fs: seq<Facet<Key>>, f: Facet<Key>)
    ensures forall g :: g in RemoveFacet(InsertFacet(fs, f), f) <==> g in RemoveFacet(fs, f)
    ensures InsertFacet(InsertFacet(fs, f), f) == InsertFacet(fs, f)
  {
  }

  /** `process_data_msg`. A sample touches only the aggregator of its kind
      (a timing is first turned into a value by the clock); a scope frame
      registers its id unless the id is already known, so the first
      registration wins. */
  function ProcessData(r: Receiver, frame: DataFrame<Key>, delta: (U64, U64) -> U64, now: nat): (out: Receiver)
    requires Valid(r)
    ensures Valid(out)
    ensures out.facets == r.facets && out.percentiles == r.percentiles && out.capacity == r.capacity
    ensures frame.SampleFrame? ==> out.scopes == r.scopes
    ensures frame.ScopeFrame? ==> out == r.(scopes := out.scopes)
    ensures frame.ScopeFrame? && frame.id in r.scopes ==> out.scopes == r.scopes
    ensures frame.ScopeFrame? && frame.id !in r.scopes ==> out.scopes == r.scopes[frame.id := frame.name]
    ensures frame.SampleFrame? && frame.sample.Count? ==>
      out == r.(counter := Counters.Update(r.counter, frame.sample.key, frame.sample.delta))
    ensures frame.SampleFrame? && frame.sample.Gauge? ==>
      out == r.(gauge := Gauges.Update(r.gauge, frame.sample.key, frame.sample.value))
    ensures frame.SampleFrame? && frame.sample.TimingHistogram? ==>
      out == r.(histogram := Histograms.Update(r.histogram, frame.sample.key, delta(frame.sample.start, frame.sample.end), now))
    ensures frame.SampleFrame? && frame.sample.ValueHistogram? ==>
      out == r.(histogram := Histograms.Update(r.histogram, frame.sample.key, frame.sample.value, now))
  {
    match frame
    case SampleFrame(sample) =>
      (match sample
       case Count(key, d) => r.(counter := Counters.Update(r.counter, key, d))
       case Gauge(key, value) => r.(gauge := Gauges.Update(r.gauge, key, value))
       case TimingHistogram(key, start, end, _) =>
         r.(histogram := Histograms.Update(r.histogram, key, delta(start, end), now))
       case ValueHistogram(key, value) => r.(histogram := Histograms.Update(r.histogram, key, value, now)))
    case ScopeFrame(id, name) =>
      if id in r.scopes then r else r.(scopes := r.scopes[id := name])
  }

  /** `process_control_msg`: facet changes update the set; a snapshot request
      is answered from the current state. */
  function ProcessControl(r: Receiver, msg: ControlMessage<Key>, quantile: (Histograms.Hdr, Decimal) -> U64)
    : (out: (Receiver, Option<FlatSnapshots.Snapshot>))
    requires Valid(r)
    ensures Valid(out.0)
    ensures msg.SnapshotRequest? ==> out.0 == r && out.1 == Some(GetSnapshot(r, quantile))
    ensures !msg.SnapshotRequest? ==> out.1.None? && out.0 == r.(facets := out.0.facets)
    ensures msg.AddFacet? ==> forall g :: g in out.0.facets <==> g in r.facets || g == msg.facet
    ensures msg.RemoveFacet? ==> forall g :: g in out.0.facets <==> g in r.facets && g != msg.facet
  {
    match msg
    case AddFacet(f) => (r.(facets := InsertFacet(r.facets, f)), None)
    case RemoveFacet(f) => (r.(facets := RemoveFacet(r.facets, f)), None)
    case SnapshotRequest(_) => (r, Some(GetSnapshot(r, quantile)))
  }

  /** A scope id keeps the name it was first registered with. */
  lemma FirstScopeWins(r: Receiver, id: U64, first: string, second: string, delta: (U64, U64) -> U64, now: nat)
    requires Valid(r) && id !in r.scopes
    ensures ProcessData(ProcessData(r, ScopeFrame(id, first), delta, now), ScopeFrame(id, second), delta, now).scopes[id] == first
  {
  }

  /** What the receiver consumes: a data frame (with the instant it is
      processed), a control message, or a histogram upkeep tick. */
  datatype Event =
    | DataEvent(frame: DataFrame<Key>, now: nat)
    | ControlEvent(msg: ControlMessage<Key>)
    | UpkeepEvent(at: nat)

  datatype Outcome = Outcome(state: Receiver, replies: seq<FlatSnapshots.Snapshot>)

  function Step(r: Receiver, e: Event, delta: (U64, U64) -> U64, quantile: (Histograms.Hdr, Decimal) -> U64): (out: Outcome)
    requires Valid(r)
    ensures Valid(out.state)
  {
    match e
    case DataEvent(frame, now) => Outcome(ProcessData(r, frame, delta, now), [])
    case ControlEvent(msg) =>
      var (r', reply) := ProcessControl(r, msg, quantile);
      Outcome(r', if reply.Some? then [reply.value] else [])
    case UpkeepEvent(at) => Outcome(r.(histogram := Histograms.Upkeep(r.histogram, at)), [])
  }

  /** Processes events in order, collecting the snapshot replies. */
  function Run(r: Receiver, events: seq<Event>, delta: (U64, U64) -> U64, quantile: (Histograms.Hdr, Decimal) -> U64): (out: Outcome)
    requires Valid(r)
    ensures Valid(out.state)
    decreases |events|
  {
    if |events| == 0 then Outcome(r, [])
    else
      var before := Run(r, events[..|events| - 1], delta, quantile);
      var after := Step(before.state, events[|events| - 1], delta, quantile);
      Outcome(after.state, before.replies + after.replies)
  }

  lemma {:induction false} RunConcat(r: Receiver, a: seq<Event>, b: seq<Event>, delta: (U64, U64) -> U64,
                                     quantile: (Histograms.Hdr, Decimal) -> U64)
    requires Valid(r)
    ensures Run(r, a + b, delta, quantile).state == Run(Run(r, a, delta, quantile).state, b, delta, quantile).state
    ensures Run(r, a + b, delta, quantile).replies
      == Run(r, a, delta, quantile).replies + Run(Run(r, a, delta, quantile).state, b, delta, quantile).replies
    decreases |b|
  {
    if |b| == 0 {
      assert a + b == a;
    } else {
      assert (a + b)[..|a + b| - 1] == a + b[..|b| - 1];
      assert (a + b)[|a + b| - 1] == b[|b| - 1];
      RunConcat(r, a, b[..|b| - 1], delta, quantile);
    }
  }

  /** A snapshot request is answered from the state at the moment it is
      processed: the reply reflects every event before the request and none
      after it. */
  lemma PointInTime(r: Receiver, a: seq<Event>, token: nat, b: seq<Event>, delta: (U64, U64) -> U64,
                    quantile: (Histograms.Hdr, Decimal) -> U64)
    requires Valid(r)
    ensures |Run(r, a, delta, quantile).replies| < |Run(r, a + [ControlEvent(SnapshotRequest(token))] + b, delta, quantile).replies|
    ensures Run(r, a + [ControlEvent(SnapshotRequest(token))] + b, delta, quantile).replies[|Run(r, a, delta, quantile).replies|]
      == GetSnapshot(Run(r, a, delta, quantile).state, quantile)
  {
    var request := [ControlEvent(SnapshotRequest(token))];
    RunConcat(r, a + request, b, delta, quantile);
    assert (a + request)[..|a + request| - 1] == a;
  }

  /** The counter updates an event sequence carries, in order. */
  function CountUpdates(events: seq<Event>): seq<(Key, int)>
    decreases |events|
  {
    if |events| == 0 then []
    else
      var e := events[|events| - 1];
      CountUpdates(events[..|events| - 1])
        + if e.DataEvent? && e.frame.SampleFrame? && e.frame.sample.Count? then [(e.frame.sample.key, e.frame.sample.delta as int)] else []
  }

  /** The counter after any run is the counter model applied to exactly the
      count samples of the run, in order; by counter additivity any
      reordering of those samples gives the same counter. */
  lemma {:induction false} RunCounter(r: Receiver, events: seq<Event>, delta: (U64, U64) -> U64,
                                      quantile: (Histograms.Hdr, Decimal) -> U64)
    requires Valid(r)
    ensures Run(r, events, delta, quantile).state.counter == Counters.Apply(r.counter, CountUpdates(events))
    decreases |events|
  {
    if |events| > 0 {
      var front := events[..|events| - 1];
      var e := events[|events| - 1];
      RunCounter(r, front, delta, quantile);
      if e.DataEvent? && e.frame.SampleFrame? && e.frame.sample.Count? {
        var u := (e.frame.sample.key, e.frame.sample.delta as int);
        Counters.ApplyConcat(r.counter, CountUpdates(front), [u]);
      } else {
        assert CountUpdates(events) == CountUpdates(front);
      }
    }
  }

  /** The gauge updates an event sequence carries, in order. */
  function GaugeUpdates(events: seq<Event>): seq<(Key, U64)>
    decreases |events|
  {
    if |events| == 0 then []
    else
      var e := events[|events| - 1];
      GaugeUpdates(events[..|events| - 1])
        + if e.DataEvent? && e.frame.SampleFrame? && e.frame.sample.Gauge? then [(e.frame.sample.key, e.frame.sample.value)] else []
  }

  /** The gauge after any run is the gauge model applied to exactly the gauge
      samples of the run, so each key holds the last value sent for it. */
  lemma {:induction false} RunGauge(r: Receiver, events: seq<Event>, delta: (U64, U64) -> U64,
                                    quantile: (Histograms.Hdr, Decimal) -> U64)
    requires Valid(r)
    ensures Run(r, events, delta, quantile).state.gauge == Gauges.Apply(r.gauge, GaugeUpdates(events))
    decreases |events|
  {
    if |events| > 0 {
      var front := events[..|events| - 1];
      var e := events[|events| - 1];
      RunGauge(r, front, delta, quantile);
      if e.DataEvent? && e.frame.SampleFrame? && e.frame.sample.Gauge? {
        var u := (e.frame.sample.key, e.frame.sample.value);
        assert GaugeUpdates(events) == GaugeUpdates(front) + [u];
        assert (GaugeUpdates(front) + [u])[..|GaugeUpdates(front)|] == GaugeUpdates(front);
      } else {
        assert GaugeUpdates(events) == GaugeUpdates(front);
      }
    }
  }
}
