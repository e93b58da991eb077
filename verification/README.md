# hotmic metrics core in Dafny

This project models the sequential bookkeeping of hotmic, a Rust metrics
library, and proves properties of it. Producers (a `Sink`, or a
batching `Source`) tag samples with a scope id and push them over
channels. A single `Receiver` then aggregates them:

- counters keep a running signed sum per key;
- gauges keep the last value written per key;
- histograms keep a rolling window of buckets.

On request, the receiver assembles a snapshot of the metrics whose facets
are registered. Crossbeam channels are modelled as FIFO sequences with a
`connected` flag, the bounded senders of `src/channel.rs` as FIFO sequences
with a bound, and every operation is a pure function over an explicit
state.

| file | module | models |
|---|---|---|
| base.dfy | Base | `Option`, `Result`, 64-bit bounds, map entries, duplicate-free sequences |
| counters.dfy | Counters | `src/data/counter.rs` |
| gauges.dfy | Gauges | `src/data/gauge.rs` |
| histograms.dfy | Histograms | `src/data/histogram.rs`; an HdrHistogram is a multiset of `u64` |
| percentiles.dfy | Percentiles | `Percentile::from` in `src/data/mod.rs`; an `f64` is a sign, a whole part and fraction digits |
| data.dfy | Data | samples, scoped keys, facets, frames and key rendering in `src/data/mod.rs` |
| flat_snapshots.dfy | FlatSnapshots | `Snapshot` and `SnapshotBuilder` in `src/data/mod.rs` |
| typed_snapshots.dfy | TypedSnapshots | `src/data/snapshot.rs` |
| channels.dfy | Channels | the crossbeam FIFO behaviour the sink and receiver rely on, and the bounded sender of `src/channel.rs` |
| sources.dfy | Sources | `src/source.rs` |
| scope_ids.dfy | ScopeIds | `get_scope_id` in `src/receiver.rs` |
| sinks.dfy | Sinks | `src/sink.rs` |
| configurations.dfy | Configurations | `src/configuration.rs` |
| receivers.dfy | Receivers | the receiver's step functions in `src/receiver.rs` |

The modelled files come from different revisions of the crate, and each module
follows its own file's signatures. The receiver's revision differs from the
others in four ways:

- It converts a timing sample into a plain value with the clock, then feeds
  that value to the histogram.
- It reads aggregators through `value`/`snapshot` accessors.
- It registers facets with the aggregators.
- It calls `set_value` for gauge facets.

The model joins the revisions at the level of meaning:

- The counter read is the running sum, or 0 for a key with no data.
- The gauge read is the last value, or 0 for a key with no data.
- The histogram read is the merged window of a key that has data, and
  nothing for a key that has none.
- Facet registration leaves the aggregators alone.
- A gauge is stored with the gauge setter.

Where the crate's stated design and its code differ, the model follows the
code: a source never returns buffers to the pool, so the pool only ever
shrinks.

## Model

| member | source | states |
|---|---|---|
| Base.Get | src/data/mod.rs:128 | a map lookup is present exactly when the key is stored, and then yields the stored value |
| Base.Entries | src/data/mod.rs:154-161 | the entry list of a map holds exactly the stored pairs, one per key |
| Counters.New | src/data/counter.rs:10-14 | a new counter has no keys and no values |
| Counters.Update | src/data/counter.rs:16-19 | an absent key starts at the delta; a present key gains the delta, so a negative delta decreases it; the key set grows by the key; every other key is unchanged |
| Counters.Values | src/data/counter.rs:21-23 | one entry per stored key, each carrying that key's value |
| Counters.ApplyValue | src/data/counter.rs:16-19 | after any sequence of updates, a key's value is its starting value plus the sum of that key's deltas |
| Counters.ApplyKeys | src/data/counter.rs:21-23 | after a sequence of updates, the keys are the starting keys plus every key that was updated |
| Counters.ApplyConcat | src/data/counter.rs:16-19 | applying two update sequences in turn is applying their concatenation, however the sequence is split |
| Counters.SumForPermutation | src/data/counter.rs:17-18 | a key's total delta does not depend on the order of the updates |
| Counters.OrderIndependent | src/data/counter.rs:16-19 | any reordering of the same updates yields the same counter, interleaved keys included |
| Gauges.New | src/data/gauge.rs:10-14 | a new gauge has no keys and no values |
| Gauges.Update | src/data/gauge.rs:16-19 | after an update the key holds exactly the new value, whatever it held before; other keys are unchanged |
| Gauges.Values | src/data/gauge.rs:21 | one entry per stored key, each carrying that key's value |
| Gauges.ApplyValue | src/data/gauge.rs:16-19 | after a sequence of updates, a key holds the last value written to it, or its old value when never written |
| Gauges.UpdateIdempotent | src/data/gauge.rs:16-19 | writing the same value twice is writing it once |
| Gauges.UpdatesCommute | src/data/gauge.rs:16-19 | updates to different keys commute |
| Histograms.NewWindow | src/data/histogram.rs:55-71 | a new window has window/granularity + 1 empty buckets, index 0, and an empty merged view |
| Histograms.UpkeepWindow | src/data/histogram.rs:73-80 | before one granularity has passed nothing changes; otherwise the index advances by one modulo the bucket count, only that bucket is cleared, and the last-upkeep instant becomes the given one; the index stays in range |
| Histograms.UpkeepDropsOldest | src/data/histogram.rs:73-80 | a rotation removes from the merged view exactly the contents of the bucket it lands on |
| Histograms.Record | src/data/histogram.rs:82 | a value goes into the current bucket only, so the merged view gains exactly that value and its count grows by one |
| Histograms.Merged | src/data/histogram.rs:84-91 | the merged count is the sum of the bucket counts |
| Histograms.SumContains | src/data/histogram.rs:84-91 | every bucket is contained in the merged view |
| Histograms.TicksClear | src/data/histogram.rs:73-80 | after k rotations, k at most the bucket count, exactly the buckets within k steps ahead of the old index are empty and the rest are untouched |
| Histograms.RecordedValueSurvives | src/data/histogram.rs:151-170 | a recorded value stays in the merged view for fewer than bucket-count rotations |
| Histograms.RecordedValueExpires | src/data/histogram.rs:151-170 | the bucket a value was recorded in is empty again after bucket-count rotations |
| Histograms.FullTurnEmptiesWindow | src/data/histogram.rs:73-80 | a full turn of rotations empties the merged view |
| Histograms.RolloverTest | src/data/histogram.rs:114-171 | a 5 s window at 1 s granularity, driven through the rollover scenario, yields merged counts 0, 2, 2, 2, 2, 5, 5, 5, 3 at the checkpoints |
| Histograms.New | src/data/histogram.rs:17-23 | a new histogram has no keys and keeps the span it was given |
| Histograms.Update | src/data/histogram.rs:25-33 | a new key gets a fresh window holding just the value; a present key's merged view gains the value; other keys' windows are untouched |
| Histograms.Upkeep | src/data/histogram.rs:35-39 | every key's window is rotated with the same instant and no key is added or lost |
| Histograms.Values | src/data/histogram.rs:41-43 | one entry per key, carrying that key's merged view |
| Histograms.Lookup | src/receiver.rs:142 | a key's merged view is available exactly when the key has a window |
| Percentiles.Clamp | src/data/mod.rs:99-101 | the result lies in [0, 100], equals the input inside that range, and is 0 below it and 100 above it |
| Percentiles.From | src/data/mod.rs:97-115 | the stored value is the clamped input; the label is `min` exactly for 0 and `max` exactly for 100, and otherwise `p` followed by the decimal digits without the point |
| Percentiles.FormatLabel | src/data/mod.rs:103-111 | the printed text of a clamped value is "0" exactly for 0 and "100" exactly for 100, and removing dots from `p` plus the text keeps every digit |
| Percentiles.FromIdempotent | src/data/mod.rs:97-115 | converting a converted percentile's value again gives the same percentile |
| Percentiles.LabelExamplesBounds | src/data/mod.rs:317-341 | 0 gives `min`, 100 gives `max`, -20 gives `min` at 0, 1442 gives `max` at 100 |
| Percentiles.LabelExample99 | src/data/mod.rs:317-341 | 99 is labelled `p99` |
| Percentiles.LabelExample999 | src/data/mod.rs:317-341 | 99.9 is labelled `p999` |
| Percentiles.LabelExample9999 | src/data/mod.rs:317-341 | 99.99 is labelled `p9999` |
| Percentiles.WholeLabel | src/data/mod.rs:103-111 | a whole percentile strictly between 0 and 100 is labelled `p` followed by its decimal digits |
| Percentiles.LabelCollision | src/data/mod.rs:108-109 | 1.5 and 15 receive the same label though their values differ |
| Percentiles.NatToStringInjective | src/data/mod.rs:103 | distinct whole numbers print differently |
| Data.IntoStringScoped | src/data/mod.rs:60 | the string-scoped key keeps the inner key and takes the given scope |
| Data.IntoScoped | src/data/mod.rs:78-87 | the variant is preserved and the key is wrapped with the given scope id |
| Data.ScopedRoundTrip | src/data/mod.rs:78-87 | stripping the scope from a scoped sample gives back the sample with every payload, and re-scoping a stripped sample with its own id gives it back |
| Data.FacetIntoScoped | src/sink.rs:106-115 | a facet keeps its kind and its key is wrapped with the scope id |
| Data.RenderSplit | src/data/mod.rs:67-75 | splitting a rendered name at its last dot and rendering again gives the same text |
| Data.SplitRender | src/data/mod.rs:67-75 | a key whose name has no dot is recovered from its rendering, the empty scope included |
| Data.JoinAssociative | src/sink.rs:80-84 | qualifying a name with a nested scope is qualifying it step by step |
| FlatSnapshots.Empty | src/data/mod.rs:118-122 | a new snapshot has no entries and a field count of 0 |
| FlatSnapshots.Count | src/data/mod.rs:128 | a counter lookup is present exactly when the signed store holds the key, and then yields the stored value |
| FlatSnapshots.Gauge | src/data/mod.rs:133 | a gauge lookup is present exactly when the unsigned store holds the key, and then yields the stored value |
| FlatSnapshots.TimingHistogram | src/data/mod.rs:138-142 | a timing lookup is present exactly when `key_ns_label` is stored, the label coming from the percentile conversion, and then yields the stored value |
| FlatSnapshots.ValueHistogram | src/data/mod.rs:147-151 | a value lookup is present exactly when `key_label` is stored, and then yields the stored value |
| FlatSnapshots.SignedData | src/data/mod.rs:154-156 | the signed entries are exactly the stored counter pairs |
| FlatSnapshots.UnsignedData | src/data/mod.rs:159-161 | the unsigned entries are exactly the stored gauge and percentile pairs |
| FlatSnapshots.FieldCountMatchesEntries | src/data/mod.rs:169-177 | the serialized field count is the number of signed entries plus the number of unsigned entries |
| FlatSnapshots.SetCount | src/data/mod.rs:198-201 | the counter becomes retrievable with its value, only the signed store changes, and other keys keep their values |
| FlatSnapshots.SetGauge | src/data/mod.rs:204-207 | the gauge becomes retrievable with its value, only the unsigned store changes, and other keys keep their values |
| FlatSnapshots.SetPercentilesValue | src/data/mod.rs:212-229 | a derived key holds the quantile of the last requested percentile with that label, and any other key keeps its old value |
| FlatSnapshots.SetPercentilesWritten | src/data/mod.rs:212-229 | every derived key of a requested percentile holds the quantile of the last requested percentile with that label |
| FlatSnapshots.SetTimingHistogram | src/data/mod.rs:212-218 | exactly the keys `key_ns_label` for the requested percentiles are added, each holding the histogram's value at its percentile; every other entry keeps its value, and the signed store is untouched |
| FlatSnapshots.SetValueHistogram | src/data/mod.rs:223-229 | exactly the keys `key_label` for the requested percentiles are added, each holding the histogram's value at its percentile; every other entry keeps its value, and the signed store is untouched |
| FlatSnapshots.TimingLookup | src/data/mod.rs:138-142 | after storing timing percentiles, a lookup succeeds exactly when some requested percentile has the same label, and yields the quantile at the last such one |
| FlatSnapshots.ValueLookup | src/data/mod.rs:147-151 | the same for value percentiles |
| FlatSnapshots.CountAndGaugeCoexist | src/data/mod.rs:240-250 | a counter and a gauge under the same key are both retrievable |
| FlatSnapshots.StoredExample | src/data/mod.rs:252-315 | every percentile of the test's list is retrievable for both histogram kinds |
| FlatSnapshots.MissingExample | src/data/mod.rs:276-282 | percentile 63, never requested, is absent for both histogram kinds |
| TypedSnapshots.FromHistogram | src/data/snapshot.rs:148-158 | the count is the number of recorded values, the measurement keys are exactly the requested percentiles, and each maps to the quantile at its value |
| TypedSnapshots.SetCount | src/data/snapshot.rs:22-28 | exactly one counter measurement is appended after the existing ones |
| TypedSnapshots.SetGauge | src/data/snapshot.rs:31-36 | exactly one gauge measurement is appended after the existing ones |
| TypedSnapshots.SetTimingHistogram | src/data/snapshot.rs:41-48 | exactly one timing measurement, carrying the summary, is appended |
| TypedSnapshots.SetValueHistogram | src/data/snapshot.rs:53-60 | exactly one value measurement, carrying the summary, is appended |
| TypedSnapshots.IntoVecExample | src/data/snapshot.rs:71-73 | the measurement list comes back in call order, unchanged |
| TypedSnapshots.FromMeasurementsLast | src/data/snapshot.rs:89-108 | each kind's map holds a key exactly when a measurement of that kind and key exists, and holds the last one's value |
| TypedSnapshots.CountAndGaugeLookup | src/data/snapshot.rs:113-122 | a counter or gauge lookup is absent exactly when no measurement of that kind and key exists, and otherwise yields the last one |
| TypedSnapshots.CountAndGaugeCoexist | src/data/snapshot.rs:93-98 | a counter and a gauge with the same key coexist after conversion |
| TypedSnapshots.TimingLookup | src/data/snapshot.rs:127-130 | a timing percentile lookup succeeds exactly when the converted percentile was requested, yields the quantile at the clamped value, and fails for any other key |
| TypedSnapshots.LookupPercentile | src/data/snapshot.rs:127-138 | a percentile lookup succeeds exactly when the key is present and its summary holds the converted percentile |
| TypedSnapshots.SummaryExample | src/data/snapshot.rs:187-268 | the four-value test histogram summarises to count 4, with every requested percentile stored and 63 absent |
| Channels.Send | src/sink.rs:99-103 | a send succeeds exactly on a connected channel and appends the item |
| Channels.Recv | src/source.rs:43-44 | a receive yields the oldest item when there is one, and fails only on an empty disconnected channel |
| Channels.Offer | src/channel.rs:74-83 | a bounded send is refused exactly when the channel holds `bound` items; otherwise the item is appended and the bound kept |
| Channels.OfferIgnoringError | src/channel.rs:74-83 | a send whose error is discarded appends the item when there is room and changes nothing when the channel is full |
| Sources.New | src/source.rs:24-37 | a new source holds no buffer and keeps the batch size |
| Sources.Send | src/source.rs:40-58 | without a held buffer exactly one buffer is taken from the pool; an empty closed pool gives an error and changes nothing; at most one batch is forwarded; a forward fails only on a full data channel, and then drops the buffer |
| Sources.Push | src/source.rs:49-55 | the sample goes at the end of the buffer; a buffer reaching the batch size is forwarded whole when the data channel has room and fails with the buffer dropped when it is full; a shorter one is kept |
| Sources.SendConserves | src/source.rs:40-58 | when the data channel is not full, a send does not fail to forward, and forwarded samples then held samples are the old held samples then the accepted sample |
| Sources.RunConserves | src/source.rs:40-58 | with empty pool buffers and a data channel that never fills, the forwarded batches then the held buffer are exactly the accepted samples in submission order |
| Sources.RunBatchSizes | src/source.rs:50-52 | every forwarded batch holds max(batch size, 1) samples |
| Sources.AddFacet | src/source.rs:61-63 | the registration message is appended to the control channel when it has room and dropped when it is full; the held buffer is untouched |
| Sources.RemoveFacet | src/source.rs:66-68 | the deregistration message is appended to the control channel when it has room and dropped when it is full; the held buffer is untouched |
| ScopeIds.NextId | src/receiver.rs:22-30 | a drawn id is never 0 |
| ScopeIds.GetScopeId | src/receiver.rs:22-30 | the retry loop ends with a nonzero id, the one the allocator function gives |
| ScopeIds.AllocateNonZero | src/receiver.rs:22-30 | no id in any sequence of draws is 0 |
| ScopeIds.AllocateIncreasing | src/receiver.rs:24 | without wrap-around, successive draws are consecutive and strictly increasing |
| ScopeIds.WrapSkipsZero | src/receiver.rs:24-28 | at the 64-bit wrap the draw after the largest id skips 0 |
| Sinks.New | src/sink.rs:31-52 | the sink keeps its scope and id, and its scope frame is queued on the data channel first |
| Sinks.Scoped | src/sink.rs:75-93 | an empty segment is refused with `InvalidScope`; otherwise the child's scope is the joined text and its id is a nonzero newly drawn one |
| Sinks.ScopedNames | src/sink.rs:80-84 | from the root the child's scope is the bare segment, otherwise `parent.segment` |
| Sinks.NestedRendering | src/sink.rs:71-73 | a key sent through a child renders as the parent's rendering of the segment-qualified key |
| Sinks.Send | src/sink.rs:99-103 | a send fails exactly on a disconnected channel; otherwise the sample is queued tagged with the sink's id |
| Sinks.AddFacet | src/sink.rs:106-109 | the registration is queued with the facet tagged by the sink's id |
| Sinks.RemoveFacet | src/sink.rs:112-115 | the deregistration is queued with the facet tagged by the sink's id |
| Sinks.Clone | src/sink.rs:118-127 | a clone has the same scope and id |
| Sinks.CloneSendsAlike | src/sink.rs:118-127 | a clone queues exactly what the original queues |
| Sinks.ScopeFrameFirst | src/sink.rs:35-43 | a new sink's scope frame precedes all its samples, which follow in order, each tagged with its id |
| Configurations.Default | src/configuration.rs:15-26 | capacity 512, batch size 64, a 10 s window at 1 s granularity, and the default percentiles |
| Configurations.DefaultPercentileLabels | src/configuration.rs:108-117 | the defaults are min, p50, p95, p99, p999, max at 0, 50, 95, 99, 99.9, 100, in that order |
| Configurations.SetCapacity | src/configuration.rs:48-51 | only the capacity changes |
| Configurations.SetBatchSize | src/configuration.rs:63-66 | only the batch size changes |
| Configurations.SetHistogram | src/configuration.rs:83-87 | only the window and granularity change |
| Configurations.SetPercentiles | src/configuration.rs:96-99 | the list is replaced by the inputs converted one by one, keeping length and order |
| Configurations.SettersCommute | src/configuration.rs:48-87 | setters of different fields commute |
| Receivers.FromConfigAsWritten | src/receiver.rs:52-70 | the capacity comes from the configuration, but the window is 10 s, the granularity 1 s and the percentiles the defaults, whatever was configured |
| Receivers.ConfigIgnored | src/receiver.rs:65-66 | a configuration asking for 6 buckets and one percentile yields a receiver with 11 buckets and six percentiles |
| Receivers.FromConfig | src/configuration.rs:68-99 | the corrected receiver takes capacity, window, granularity and percentiles from the configuration, and is well formed for a positive granularity |
| Receivers.FromDefaultAgrees | src/receiver.rs:52-70 | on the default configuration the corrected and as-written receivers coincide |
| Receivers.GetSink | src/receiver.rs:76-84 | the root sink has scope "" and id 0 and registers itself on the data channel |
| Receivers.GetStringScope | src/receiver.rs:115-124 | id 0 resolves to the empty scope, a registered id to its name, and an unregistered id to nothing |
| Receivers.SnapshotStep | src/receiver.rs:129-155 | a facet adds entries only when its scope resolves (and, for histograms, data exists); a counter entry carries the counter's value, a gauge entry the gauge's last value, and a histogram entry the merged window's value at its configured percentile; a counter facet leaves the unsigned store alone; every entry the facet does not write keeps its value |
| Receivers.SnapshotKeys | src/receiver.rs:127-159 | a snapshot holds a name exactly when some registered facet whose scope resolves contributes it |
| Receivers.SnapshotCounts | src/receiver.rs:131-135 | every counter entry of a snapshot is the value of a registered counter facet rendering to that name |
| Receivers.InsertFacet | src/receiver.rs:197-206 | the facet set afterwards is the old set plus the facet, still without duplicates |
| Receivers.RemoveFacet | src/receiver.rs:209-218 | the facet set afterwards is the old set minus the facet, still without duplicates |
| Receivers.FacetSetLaws | src/receiver.rs:197-218 | adding then removing a facet leaves the others as they were, and adding twice is adding once |
| Receivers.ProcessData | src/receiver.rs:174-194 | a counter, gauge or value sample changes only its aggregator; a timing sample records the clock's duration in the histogram; a scope frame registers its name only for an unknown id |
| Receivers.FirstScopeWins | src/receiver.rs:190-192 | a second registration of the same id keeps the first name |
| Receivers.ProcessControl | src/receiver.rs:162-171 | facet messages change only the facet set; a snapshot request changes nothing and is answered with the snapshot of the current state |
| Receivers.RunConcat | src/receiver.rs:99-107 | processing two event sequences in turn is processing their concatenation, replies included |
| Receivers.PointInTime | src/receiver.rs:162-171 | a request's reply is the snapshot of the state after exactly the events before it |
| Receivers.RunCounter | src/receiver.rs:186 | the receiver's counter is the counter model applied to exactly the run's count samples, in order |
| Receivers.RunGauge | src/receiver.rs:187 | the receiver's gauge is the gauge model applied to exactly the run's gauge samples, so each key holds its last value |

## Left out

- `src/channel.rs`: the readiness wake-up between threads and the receiving half are not modelled. Its sender is a FIFO sequence with a bound that refuses an item when full; it never reports a disconnected receiver.
- Blocking: a crossbeam `send` or `recv` that would wait is not modelled. Sources.Send requires a held buffer or a ready pool (CanSend), which leaves out the wait on an empty connected pool.
- Facet registration: every data sample is aggregated whether or not its facet is registered, because the modelled aggregators have no registration; facets only filter what a snapshot contains.
- `src/control.rs`: the snapshot reply channel is reduced to a token. Its error mapping is not modelled.
- The receiver's run loop (`src/receiver.rs:90-109`): the timer and polling are not modelled. Its per-message steps are modelled as events of a run.
- Clocks: `Clock::delta` is the parameter `delta`, and the instants fed to upkeep and to new windows are parameters.
- HdrHistogram: precision, `saturating_record` bounds and `value_at_percentile` belong to an external crate. A histogram is a multiset of values and the quantile is the parameter `quantile`.
- The `f64` arithmetic of `Percentile::from` is not modelled: a percentile is an exact decimal (sign, whole part, fraction digits), and Rust's `{}` printing is the whole part, a point and the fraction digits without trailing zeros.
- The bucket count at `src/data/histogram.rs:56` is integer division, and a zero granularity (which the source divides by) is excluded from the well-formedness invariant.
- Counters.Update: does not model `i64` overflow of the running sum; the sum is a mathematical integer, a departure from the source's `i64` arithmetic, because the source defines no overflow policy.
- Concurrency of `get_scope_id`: the atomic increment is a sequential allocator.
- Serialization beyond the field count, `examples/benchmark.rs`, `src/lib.rs` and `src/helper.rs`: not part of this model.
- `Facet` and `DataFrame` are defined outside the modelled files; their shape is taken from their uses in `src/sink.rs` and `src/receiver.rs`.
- The aggregators' `register`/`deregister`, `value` and `snapshot` accessors called by `src/receiver.rs` are defined outside the modelled files; the assumptions about them are stated above.
- TypedSnapshots.FromHistogram and TypedSnapshots.LookupPercentile key a summary's measurements by `Percentile` compared structurally (same label and same exact value), because the `Hash`/`Eq` of `Percentile` is defined outside the modelled files; under a label-only equality a lookup of 15 in a summary of 1.5 would succeed instead of failing.
- The sink's clock accessor (`src/sink.rs:96`), `Receiver::builder` and `get_controller`: accessors without logic.
- Percentiles.RemoveDots: states only that no dot remains; its exact effect is used through RemoveDotsConcat and NoDots.
- The iteration order of the facet set is insertion order; for the flat snapshot, the key sets do not depend on it.

## Findings

| source | as written | input that shows it | evidently intended | confidence | as-written member | corrected member |
|---|---|---|---|---|---|---|
| src/receiver.rs:65-66 | `from_config` hard-codes a 10 s window at 1 s granularity and the default percentiles, and reads only the capacity from the configuration | a configuration built with `histogram(5 s, 1 s)` and `percentiles(&[50.0])` gives 11 buckets and six percentiles | the receiver uses the configured window, granularity and percentiles, as the builder's documentation (`src/configuration.rs:68-99`) describes; that file comes from a different revision than `src/receiver.rs`, so the mismatch may be one between revisions | not executed | Receivers.ConfigIgnored | Receivers.FromConfig |
