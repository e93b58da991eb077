/** The receiver configuration builder of `src/configuration.rs`. Durations
    are whole nanoseconds. */
module Configurations {
  import opened Base
  import opened Percentiles

  const SECOND: nat := 1_000_000_000

  datatype Configuration = Configuration(
    capacity: U64,
    batchSize: U64,
    histogramWindow: nat,
    histogramGranularity: nat,
    percentiles: seq<Percentile>)

  /** `default_percentiles`: min, p50, p95, p99, p999 and max, in that order. */
  function DefaultPercentiles(): seq<Percentile> {
    [From(Decimal(false, 0, [])), From(Decimal(false, 50, [])), From(Decimal(false, 95, [])),
     From(Decimal(false, 99, [])), From(Decimal(false, 99, [9])), From(Decimal(false, 100, []))]
  }

  /** The default list holds the percentiles 0, 50, 95, 99, 99.9 and 100,
      labelled as the builder's documentation promises. */
  lemma DefaultPercentileLabels()
    ensures |DefaultPercentiles()| == 6
    ensures DefaultPercentiles()[0] == Percentile("min", Decimal(false, 0, []))
    ensures DefaultPercentiles()[1] == Percentile("p50", Decimal(false, 50, []))
    ensures DefaultPercentiles()[2] == Percentile("p95", Decimal(false, 95, []))
    ensures DefaultPercentiles()[3] == Percentile("p99", Decimal(false, 99, []))
    ensures DefaultPercentiles()[4] == Percentile("p999", Decimal(false, 99, [9]))
    ensures DefaultPercentiles()[5] == Percentile("max", Decimal(false, 100, []))
  {
    LabelExamplesBounds();
    WholeLabel(50);
    WholeLabel(95);
    WholeLabel(99);
    assert NatToString(50) == "50";
    assert NatToString(95) == "95";
    assert NatToString(99) == "99";
    LabelExample999();
    assert Clamp(Decimal(false, 99, [9])) == Decimal(false, 99, [9]) by {
      assert FracValue([9]) == 0.9 by {
        assert [9][1..] == [];
      }
      assert StripZeros([9]) == [9];
    }
  }

  /** `Configuration::default`. */
  function Default(): (c: Configuration)
    ensures c.capacity == 512 && c.batchSize == 64
    ensures c.histogramWindow == 10 * SECOND && c.histogramGranularity == SECOND
    ensures c.percentiles == DefaultPercentiles()
  {
    Configuration(512, 64, 10 * SECOND, SECOND, DefaultPercentiles())
  }

  /** `Configuration::capacity`: changes the capacity only. */
  function SetCapacity(c: Configuration, capacity: U64): (r: Configuration)
    ensures r.capacity == capacity
    ensures r.batchSize == c.batchSize && r.histogramWindow == c.histogramWindow
    ensures r.histogramGranularity == c.histogramGranularity && r.percentiles == c.percentiles
  {
    c.(capacity := capacity)
  }

  /** `Configuration::batch_size`: changes the batch size only. */
  function SetBatchSize(c: Configuration, batchSize: U64): (r: Configuration)
    ensures r.batchSize == batchSize
    ensures r.capacity == c.capacity && r.histogramWindow == c.histogramWindow
    ensures r.histogramGranularity == c.histogramGranularity && r.percentiles == c.percentiles
  {
    c.(batchSize := batchSize)
  }

  /** `Configuration::histogram`: changes the window and granularity only. */
  function SetHistogram(c: Configuration, window: nat, granularity: nat): (r: Configuration)
    ensures r.histogramWindow == window && r.histogramGranularity == granularity
    ensures r.capacity == c.capacity && r.batchSize == c.batchSize && r.percentiles == c.percentiles
  {
    c.(histogramWindow := window, histogramGranularity := granularity)
  }

  /** `Configuration::percentiles`: replaces the list by the inputs passed
      through `Percentile::from`, keeping their number and order. */
  function SetPercentiles(c: Configuration, ps: seq<Decimal>): (r: Configuration)
    ensures |r.percentiles| == |ps|
    ensures forall i :: 0 <= i < |ps| ==> r.percentiles[i] == From(ps[i])
    ensures r.capacity == c.capacity && r.batchSize == c.batchSize
    ensures r.histogramWindow == c.histogramWindow && r.histogramGranularity == c.histogramGranularity
    decreases |ps|
  {
    if |ps| == 0 then c.(percentiles := [])
    else
      var r := SetPercentiles(c, ps[..|ps| - 1]);
      r.(percentiles := r.percentiles + [From(ps[|ps| - 1])])
  }

  /** Every configured percentile is already clamped into [0, 100]. */
  lemma ConfiguredPercentilesClamped(c: Configuration, ps: seq<Decimal>)
    ensures forall i :: 0 <= i < |ps| ==>
      0.0 <= Value(SetPercentiles(c, ps).percentiles[i].value) <= 100.0
  {
  }

  /** Setters on distinct fields commute. */
  lemma SettersCommute(c: Configuration, capacity: U64, batchSize: U64, window: nat, granularity: nat)
    ensures SetBatchSize(SetCapacity(c, capacity), batchSize) == SetCapacity(SetBatchSize(c, batchSize), capacity)
    ensures SetHistogram(SetCapacity(c, capacity), window, granularity)
      == SetCapacity(SetHistogram(c, window, granularity), capacity)
  {
  }
}
