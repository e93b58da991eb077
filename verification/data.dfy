/** The sample, key, facet and frame types of `src/data/mod.rs`, and the
    rendering of a scope-qualified key as text.

    `Facet` and `DataFrame` are defined outside the modelled files; their
    shape is taken from their uses in `src/sink.rs` and `src/receiver.rs`. Metric keys that get rendered are strings
    (the source only needs them to implement `Display`). */
module Data {
  import opened Base

  /** A measurement submitted by a producer. */
  datatype Sample<K> =
    | Count(key: K, delta: I64)
    | Gauge(key: K, value: U64)
    | TimingHistogram(key: K, start: U64, end: U64, count: U64)
    | ValueHistogram(key: K, value: U64)

  /** A metric key tagged with the integer id of the scope it was sent under. */
  datatype ScopedKey<K> = ScopedKey(scopeId: U64, name: K)

  /** A metric key tagged with the text of its scope. */
  datatype StringScopedKey<K> = StringScopedKey(scope: string, name: K)

  /** `ScopedKey::into_string_scoped`: swaps the id for the scope's text and
      keeps the inner key. */
  function IntoStringScoped<K>(key: ScopedKey<K>, scope: string): (r: StringScopedKey<K>)
    ensures r.scope == scope && r.name == key.name
  {
    StringScopedKey(scope, key.name)
  }

  /** `Sample::into_scoped`: wraps the key with the scope id and keeps the
      variant and every numeric field. */
  function IntoScoped<K>(s: Sample<K>, scopeId: U64): (r: Sample<ScopedKey<K>>)
    ensures r.key == ScopedKey(scopeId, s.key)
    ensures r.Count? <==> s.Count?
    ensures r.Gauge? <==> s.Gauge?
    ensures r.TimingHistogram? <==> s.TimingHistogram?
    ensures r.ValueHistogram? <==> s.ValueHistogram?
  {
    match s
    case Count(key, delta) => Count(ScopedKey(scopeId, key), delta)
    case Gauge(key, value) => Gauge(ScopedKey(scopeId, key), value)
    case TimingHistogram(key, start, end, count) => TimingHistogram(ScopedKey(scopeId, key), start, end, count)
    case ValueHistogram(key, value) => ValueHistogram(ScopedKey(scopeId, key), value)
  }

  /** Reference inverse of `IntoScoped`: forgets the scope id. */
  function Unscoped<K>(s: Sample<ScopedKey<K>>): Sample<K> {
    match s
    case Count(key, delta) => Count(key.name, delta)
    case Gauge(key, value) => Gauge(key.name, value)
    case TimingHistogram(key, start, end, count) => TimingHistogram(key.name, start, end, count)
    case ValueHistogram(key, value) => ValueHistogram(key.name, value)
  }

  /** Scoping loses nothing: dropping the id gives the original sample back,
      and a scoped sample is the scoping of its unscoped form under its own id. */
  lemma ScopedRoundTrip<K>(s: Sample<K>, scopeId: U64, t: Sample<ScopedKey<K>>)
    ensures Unscoped(IntoScoped(s, scopeId)) == s
    ensures IntoScoped(Unscoped(t), t.key.scopeId) == t
  {
  }

  /** Metric facets: the per-key registrations that select what a snapshot
      reports. */
  datatype Facet<K> =
    | CountFacet(key: K)
    | GaugeFacet(key: K)
    | TimingPercentile(key: K)
    | ValuePercentile(key: K)

  /** `Facet::into_scoped`: the same kind of facet, for the scoped key. */
  function FacetIntoScoped<K>(f: Facet<K>, scopeId: U64): (r: Facet<ScopedKey<K>>)
    ensures r.key == ScopedKey(scopeId, f.key)
    ensures r.CountFacet? <==> f.CountFacet?
    ensures r.GaugeFacet? <==> f.GaugeFacet?
    ensures r.TimingPercentile? <==> f.TimingPercentile?
    ensures r.ValuePercentile? <==> f.ValuePercentile?
  {
    match f
    case CountFacet(key) => CountFacet(ScopedKey(scopeId, key))
    case GaugeFacet(key) => GaugeFacet(ScopedKey(scopeId, key))
    case TimingPercentile(key) => TimingPercentile(ScopedKey(scopeId, key))
    case ValuePercentile(key) => ValuePercentile(ScopedKey(scopeId, key))
  }

  /** What travels on the shared data channel: a sample, or the registration of
      a scope id with its text. */
  datatype DataFrame<K> = SampleFrame(sample: Sample<K>) | ScopeFrame(id: U64, name: string)

  /** What travels on the control channel. A snapshot request carries the
      reply channel in the source; here it carries an opaque token. */
  datatype ControlMessage<K> = AddFacet(facet: Facet<K>) | RemoveFacet(facet: Facet<K>) | SnapshotRequest(reply: nat)

  /** Appends `name` to a scope: the bare name under the root (empty) scope,
      otherwise the two joined by a `.`. Both key rendering and nested sink
      scopes use this. */
  function Join(scope: string, name: string): string {
    if |scope| == 0 then name else scope + "." + name
  }

  /** The `Display` of a `StringScopedKey`. */
  function Render(k: StringScopedKey<string>): string {
    Join(k.scope, k.name)
  }

  predicate NoDot(s: string) {
    forall i :: 0 <= i < |s| ==> s[i] != '.'
  }

  /** The index of the last `.` in `s`, if there is one. */
  function LastDot(s: string): (r: Option<nat>)
    ensures r.Some? ==> r.value < |s| && s[r.value] == '.' && NoDot(s[r.value + 1..])
    ensures r.None? ==> NoDot(s)
    decreases |s|
  {
    if |s| == 0 then None
    else if s[|s| - 1] == '.' then Some(|s| - 1)
    else
      var r := LastDot(s[..|s| - 1]);
      if r.Some? then
        assert s[r.value + 1..] == s[..|s| - 1][r.value + 1..] + [s[|s| - 1]];
        r
      else
        None
  }

  /** Reference parser for rendered keys: the text after the last `.` is the
      key, everything before it the scope. A leading `.` cannot separate an
      empty scope, which renders without one. */
  function Split(s: string): StringScopedKey<string> {
    match LastDot(s)
    case None => StringScopedKey("", s)
    case Some(i) => if i == 0 then StringScopedKey("", s) else StringScopedKey(s[..i], s[i + 1..])
  }

  /** Any text is the rendering of its own split. */
  lemma RenderSplit(s: string)
    ensures Render(Split(s)) == s
  {
    var i := LastDot(s);
    if i.Some? && i.value > 0 {
      assert s == s[..i.value] + "." + s[i.value + 1..];
    }
  }

  lemma {:induction false} LastDotAfter(scope: string, name: string)
    requires NoDot(name)
    ensures LastDot(scope + "." + name) == Some(|scope|)
    decreases |name|
  {
    var s := scope + "." + name;
    if |name| > 0 {
      var front := scope + "." + name[..|name| - 1];
      assert s[..|s| - 1] == front;
      LastDotAfter(scope, name[..|name| - 1]);
    }
  }

  /** A key whose name has no `.` is recovered from its rendering, so such
      keys render injectively. */
  lemma SplitRender(k: StringScopedKey<string>)
    requires NoDot(k.name)
    ensures Split(Render(k)) == k
  {
    if |k.scope| > 0 {
      LastDotAfter(k.scope, k.name);
      assert (k.scope + "." + k.name)[..|k.scope|] == k.scope;
      assert (k.scope + "." + k.name)[|k.scope| + 1..] == k.name;
    }
  }

  /** Qualifying in two steps equals qualifying by the joined scope: a key
      sent by a sink scoped `a` then `b` renders like a key of scope `a.b`. */
  lemma JoinAssociative(a: string, b: string, name: string)
    requires |b| > 0
    ensures Join(Join(a, b), name) == Join(a, Join(b, name))
  {
    if |a| > 0 {
      assert a + "." + b + "." + name == a + "." + (b + "." + name);
    }
  }
}
