/** The producer handle of `src/sink.rs`: a sink knows its scope's text and
    id, tags every sample and facet with the id, and creates nested scopes.
    The clock a sink carries is not modelled. */
module Sinks {
  import opened Base
  import opened Channels
  import opened Data
  import ScopeIds

  datatype Sink = Sink(scope: string, scopeId: U64)

  datatype SinkError = InvalidScope | SendFailed

  type Frame = DataFrame<ScopedKey<string>>
  type Control = ControlMessage<ScopedKey<string>>

  /** `Sink::new`: registers the scope by queueing its frame on the data
      channel, ahead of anything the sink will send; a failure to queue it is
      ignored. */
  function New(data: Channel<Frame>, scope: string, scopeId: U64): (r: (Sink, Channel<Frame>))
    ensures r.0.scope == scope && r.0.scopeId == scopeId
    ensures data.connected ==> r.1.items == data.items + [ScopeFrame(scopeId, scope)]
    ensures !data.connected ==> r.1 == data
  {
    (Sink(scope, scopeId), SendIgnoringError(data, ScopeFrame(scopeId, scope)))
  }

  /** `Sink::scoped`: an empty segment is refused; otherwise the child's scope
      is the segment appended to this scope, under a newly drawn id. */
  function Scoped(s: Sink, ids: ScopeIds.Allocator, data: Channel<Frame>, segment: string)
    : (r: Result<(Sink, ScopeIds.Allocator, Channel<Frame>), SinkError>)
    ensures r.Err? <==> |segment| == 0
    ensures r.Err? ==> r.error == InvalidScope
    ensures r.Ok? ==> r.value.0.scope == Join(s.scope, segment)
    ensures r.Ok? ==> r.value.0.scopeId != 0 && (r.value.0.scopeId, r.value.1) == ScopeIds.NextId(ids)
    ensures r.Ok? && data.connected ==>
      r.value.2.items == data.items + [ScopeFrame(r.value.0.scopeId, r.value.0.scope)]
  {
    if |segment| == 0 then Err(InvalidScope)
    else
      var (id, ids') := ScopeIds.NextId(ids);
      var (child, data') := New(data, Join(s.scope, segment), id);
      Ok((child, ids', data'))
  }

  /** The child of a root sink is scoped by the bare segment; the child of a
      scoped sink by `parent.segment`. */
  lemma ScopedNames(s: Sink, ids: ScopeIds.Allocator, data: Channel<Frame>, segment: string)
    requires |segment| > 0
    ensures |s.scope| == 0 ==> Scoped(s, ids, data, segment).value.0.scope == segment
    ensures |s.scope| > 0 ==> Scoped(s, ids, data, segment).value.0.scope == s.scope + "." + segment
  {
  }

  /** A key sent through a child sink renders as the parent's rendering of the
      segment-qualified key, so scopes nest. */
  lemma NestedRendering(s: Sink, ids: ScopeIds.Allocator, data: Channel<Frame>, segment: string, key: string)
    requires |segment| > 0
    ensures Render(StringScopedKey(Scoped(s, ids, data, segment).value.0.scope, key))
      == Render(StringScopedKey(s.scope, Render(StringScopedKey(segment, key))))
  {
    JoinAssociative(s.scope, segment, key);
  }

  /** `Sink::send`: queues the sample tagged with this sink's id. */
  function Send(s: Sink, data: Channel<Frame>, sample: Sample<string>): (r: Result<Channel<Frame>, SinkError>)
    ensures r.Err? <==> !data.connected
    ensures r.Err? ==> r.error == SendFailed
    ensures r.Ok? ==> r.value.items == data.items + [SampleFrame(IntoScoped(sample, s.scopeId))]
  {
    match Channels.Send(data, SampleFrame(IntoScoped(sample, s.scopeId)))
    case Some(data') => Ok(data')
    case None => Err(SendFailed)
  }

  /** `Sink::add_facet`: queues the facet tagged with this sink's id. */
  function AddFacet(s: Sink, control: Channel<Control>, facet: Facet<string>): (r: Channel<Control>)
    ensures control.connected ==> r.items == control.items + [ControlMessage.AddFacet(FacetIntoScoped(facet, s.scopeId))]
    ensures !control.connected ==> r == control
  {
    SendIgnoringError(control, ControlMessage.AddFacet(FacetIntoScoped(facet, s.scopeId)))
  }

  /** `Sink::remove_facet`. */
  function RemoveFacet(s: Sink, control: Channel<Control>, facet: Facet<string>): (r: Channel<Control>)
    ensures control.connected ==> r.items == control.items + [ControlMessage.RemoveFacet(FacetIntoScoped(facet, s.scopeId))]
    ensures !control.connected ==> r == control
  {
    SendIgnoringError(control, ControlMessage.RemoveFacet(FacetIntoScoped(facet, s.scopeId)))
  }

  /** `Sink::clone`: the same scope text and id. */
  function Clone(s: Sink): (r: Sink)
    ensures r.scope == s.scope && r.scopeId == s.scopeId
  {
    Sink(s.scope, s.scopeId)
  }

  /** A clone is indistinguishable from the original to the receiver. */
  lemma CloneSendsAlike(s: Sink, data: Channel<Frame>, control: Channel<Control>, sample: Sample<string>, facet: Facet<string>)
    ensures Send(Clone(s), data, sample) == Send(s, data, sample)
    ensures AddFacet(Clone(s), control, facet) == AddFacet(s, control, facet)
    ensures RemoveFacet(Clone(s), control, facet) == RemoveFacet(s, control, facet)
  {
  }

  /** The frames of a sequence of sends on a live channel. */
  function SendAll(s: Sink, data: Channel<Frame>, samples: seq<Sample<string>>): (r: Channel<Frame>)
    requires data.connected
    ensures r.connected
    decreases |samples|
  {
    if |samples| == 0 then data
    else SendAll(s, Send(s, data, samples[0]).value, samples[1..])
  }

  /** Tagging every sample with the id, in order. */
  function Tagged(scopeId: U64, samples: seq<Sample<string>>): (r: seq<Frame>)
    ensures |r| == |samples|
    ensures forall i :: 0 <= i < |samples| ==> r[i] == SampleFrame(IntoScoped(samples[i], scopeId))
  {
    seq(|samples|, i requires 0 <= i < |samples| => SampleFrame(IntoScoped(samples[i], scopeId)))
  }

  lemma {:induction false} SendAllFrames(s: Sink, data: Channel<Frame>, samples: seq<Sample<string>>)
    requires data.connected
    ensures SendAll(s, data, samples).items == data.items + Tagged(s.scopeId, samples)
    decreases |samples|
  {
    if |samples| > 0 {
      var data' := Send(s, data, samples[0]).value;
      SendAllFrames(s, data', samples[1..]);
      assert Tagged(s.scopeId, samples) == [SampleFrame(IntoScoped(samples[0], s.scopeId))] + Tagged(s.scopeId, samples[1..]);
    }
  }

  /** A new sink's scope registration reaches the receiver before any of its
      samples, and the samples follow in order, each tagged with the id. */
  lemma ScopeFrameFirst(data: Channel<Frame>, scope: string, scopeId: U64, samples: seq<Sample<string>>)
    requires data.connected
    ensures SendAll(New(data, scope, scopeId).0, New(data, scope, scopeId).1, samples).items
      == data.items + [ScopeFrame(scopeId, scope)] + Tagged(scopeId, samples)
  {
    SendAllFrames(New(data, scope, scopeId).0, New(data, scope, scopeId).1, samples);
  }
}
