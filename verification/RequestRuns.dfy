/** A stream sent as requests: how the audio is cut into CMD_INPUT messages does not change what the
    server answers. */
module RequestRuns {
  import opened Bytes
  import opened Memory
  import opened Protocol
  import opened SampleLoops
  import opened ResampleClock
  import opened ResampleWindow
  import opened ResampleStream
  import opened ResampleRuns
  import opened Pipeline
  import opened Requests

  /** The mixed input of each request. */
  function Mixes(s: Settings, requests: seq<seq<Buffer>>): (ms: seq<seq<int16>>)
    requires s.channels > 0
  {
    if requests == [] then [] else [MixOf(s, requests[0])] + Mixes(s, requests[1..])
  }

  predicate AllRequestsAligned(s: Settings, requests: seq<seq<Buffer>>) {
    forall bs :: bs in requests ==> AlignedBuffers(s, bs)
  }

  /** The answers to a sequence of requests, the resampler carrying its state across. */
  function Answers(s: Settings, st: Resampler, requests: seq<seq<Buffer>>): seq<byte>
    requires Defined(s) && |st.history| == HISTORY && AllRequestsAligned(s, requests)
    decreases |requests|
  {
    if requests == [] then []
    else Answer(s, st, requests[0]) + Answers(s, AfterResample(s, st, MixOf(s, requests[0])), requests[1..])
  }

  /** The outputs of the frames, one after another. */
  function FramesOutputs(s: Settings, st: Resampler, ms: seq<seq<int16>>): seq<int16>
    requires Defined(s) && |st.history| == HISTORY
  {
    if s.resample.Some? then Outputs(s.resample.value, st, ms) else Flatten(ms)
  }

  /** y is x at the output rate: all its outputs, each that of the uncut stream x, made as the cutting ms
      makes it. */
  predicate IsResampled(s: Settings, y: seq<int16>, x: seq<int16>, ms: seq<seq<int16>>)
    requires Defined(s)
  {
    if s.resample.None? then y == x
    else
      var c := s.resample.value;
      |y| * c.rates.input == |x| * c.rates.output && Follows(c, y, x, Plan(c, 0, ms))
  }

  lemma {:induction false} SampleBytesAppend(a: seq<int16>, b: seq<int16>)
    ensures SampleBytesOf(a + b) == SampleBytesOf(a) + SampleBytesOf(b)
    decreases |a|
  {
    hide LowByte, HighByte;
    if a == [] {
      assert a + b == b;
    } else {
      assert (a + b)[0] == a[0] && (a + b)[1..] == a[1..] + b;
      SampleBytesAppend(a[1..], b);
      SampleBytesCons(a);
      SampleBytesCons(a + b);
    }
  }

  lemma SampleBytesCons(a: seq<int16>)
    requires a != []
    ensures SampleBytesOf(a) == [LowByte(a[0]), HighByte(a[0])] + SampleBytesOf(a[1..])
  {
    hide LowByte, HighByte;
  }

  /** Encoding sample by sample does not see where a stream is cut. */
  lemma EncodeAppend(s: Settings, a: seq<int16>, b: seq<int16>)
    ensures EncodeOutput(s, a + b) == EncodeOutput(s, a) + EncodeOutput(s, b)
  {
    hide SampleBytesOf, SwapSample;
    if !IsLaw(s.outType) {
      SampleBytesAppend(a, b);
      SampleBytesAppend(SwapAll(a), SwapAll(b));
      assert SwapAll(a + b) == SwapAll(a) + SwapAll(b);
    } else {
      var law := LawOf(s.outType);
      assert EncodeAll(law, a + b) == EncodeAll(law, a) + EncodeAll(law, b);
    }
  }

  lemma EncodeNothing(s: Settings)
    ensures EncodeOutput(s, []) == []
  {
  }

  /** The answers together are the encoding of all outputs. */
  lemma {:induction false} AnswersAreOutputs(s: Settings, st: Resampler, requests: seq<seq<Buffer>>)
    requires Defined(s) && |st.history| == HISTORY && AllRequestsAligned(s, requests)
    ensures Answers(s, st, requests) == EncodeOutput(s, FramesOutputs(s, st, Mixes(s, requests)))
    decreases |requests|
  {
    hide EncodeOutput, MixOf, FrameOutputs, AfterFrame, AlignedBuffers;
    var ms := Mixes(s, requests);
    if requests == [] {
      EncodeNothing(s);
    } else {
      var mix := MixOf(s, requests[0]);
      assert ms[0] == mix && ms[1..] == Mixes(s, requests[1..]);
      assert requests[0] in requests && forall bs :: bs in requests[1..] ==> bs in requests;
      AnswersAreOutputs(s, AfterResample(s, st, mix), requests[1..]);
      EncodeAppend(s, Resampled(s, st, mix), FramesOutputs(s, AfterResample(s, st, mix), ms[1..]));
    }
  }

  /** Exact requests from the start, or no resampling at all. */
  predicate ExactStream(s: Settings, st: Resampler, ms: seq<seq<int16>>)
    requires Defined(s)
  {
    s.resample.Some? ==>
      var c := s.resample.value;
      st == Start(c) && Exact(c, ms) && Total(c, ms) <= MAX_OUTPUTS
  }

  /** The answers to a stream of exact requests are the encoding of the uncut stream at the output rate:
      of every output the whole stream calls for, each read from the whole stream. */
  lemma AnswersAreStream(s: Settings, st: Resampler, requests: seq<seq<Buffer>>) returns (y: seq<int16>)
    requires Defined(s) && |st.history| == HISTORY && AllRequestsAligned(s, requests)
    requires ExactStream(s, st, Mixes(s, requests))
    ensures IsResampled(s, y, Flatten(Mixes(s, requests)), Mixes(s, requests))
    ensures Answers(s, st, requests) == EncodeOutput(s, y)
  {
    hide Mixes, EncodeOutput, Outputs, Exact, Total, Start, Follows, Plan, Answers, AllRequestsAligned;
    AnswersAreOutputs(s, st, requests);
    y := FramesOutputs(s, st, Mixes(s, requests));
    if s.resample.Some? {
      ExactRun(s.resample.value, Mixes(s, requests));
    }
  }

  /** Two ways of sending one stream in exact frames to a resampling session get the same answer
      bytes; without resampling, any two ways do. */
  lemma RequestCutIndependence(s: Settings, st: Resampler, requests1: seq<seq<Buffer>>, requests2: seq<seq<Buffer>>)
    requires Defined(s) && |st.history| == HISTORY && Flatten(Mixes(s, requests1)) == Flatten(Mixes(s, requests2))
    requires AllRequestsAligned(s, requests1) && AllRequestsAligned(s, requests2)
    requires ExactStream(s, st, Mixes(s, requests1)) && ExactStream(s, st, Mixes(s, requests2))
    requires s.resample.Some? ==> Alike(s.resample.value, Mixes(s, requests1), Mixes(s, requests2))
    ensures Answers(s, st, requests1) == Answers(s, st, requests2)
  {
    hide Mixes, EncodeOutput, Outputs, Exact, Alike, Total, Start, Answers, AllRequestsAligned;
    AnswersAreOutputs(s, st, requests1);
    AnswersAreOutputs(s, st, requests2);
    if s.resample.Some? {
      FrameCutIndependence(s.resample.value, Mixes(s, requests1), Mixes(s, requests2));
    }
  }

  /** What an upsampling session needs before each request. */
  predicate ReachesNow(s: Settings, st: Resampler) {
    s.resample.Some? && s.resample.value.rates.Up() ==> Floor(st.pos) - CENTER >= -HISTORY
  }

  /** and has, throughout a conversation. */
  predicate Steady(s: Settings, st: Resampler, ms: seq<seq<int16>>)
    requires Defined(s) && |st.history| == HISTORY
    decreases |ms|
  {
    ms == [] || (ReachesNow(s, st) && Steady(s, AfterResample(s, st, ms[0]), ms[1..]))
  }

  lemma {:induction false} PacedIsSteady(s: Settings, st: Resampler, stream: seq<int16>, produced: nat,
      ms: seq<seq<int16>>)
    requires Defined(s) && s.resample.Some? && |st.history| == HISTORY
    requires Tracks(s.resample.value, st, stream, produced) && Paced(s.resample.value, stream, produced, ms)
    ensures Steady(s, st, ms)
    decreases |ms|
  {
    var c := s.resample.value;
    if ms != [] {
      PacedReaches(c, st, stream, produced);
      hide OutCount, AfterFrame, Tracks, Reaches, Rates.Valid, ReachesNow;
      FrameTracks(c, st, stream, produced, ms[0]);
      PacedIsSteady(s, AfterFrame(c, st, ms[0]), stream + ms[0], produced + OutCount(c.rates, |ms[0]|), ms[1..]);
    }
  }

  lemma PacedReaches(c: Config, st: Resampler, stream: seq<int16>, produced: nat)
    requires c.rates.Valid() && |st.history| == HISTORY && Tracks(c, st, stream, produced) &&
             Reaches(c, stream, produced)
    ensures c.rates.Up() ==> Floor(st.pos) - CENTER >= -HISTORY
  {
    hide Position, Lag, HistoryReaches, Floor;
    LaterKept(c.rates, produced, |stream|, produced);
  }

  lemma ExactIsSteady(s: Settings, st: Resampler, ms: seq<seq<int16>>)
    requires Defined(s) && |st.history| == HISTORY && ExactStream(s, st, ms)
    ensures Steady(s, st, ms)
  {
    if s.resample.Some? {
      var c := s.resample.value;
      StartTracks(c);
      hide Start, Tracks, Exact, Total, Paced, Steady, Step;
      ExactIsPaced(c, [], 0, ms);
      PacedIsSteady(s, st, [], 0, ms);
    } else {
      SameRateSteady(s, st, ms);
    }
  }

  lemma {:induction false} SameRateSteady(s: Settings, st: Resampler, ms: seq<seq<int16>>)
    requires Defined(s) && s.resample.None? && |st.history| == HISTORY
    ensures Steady(s, st, ms)
    decreases |ms|
  {
    if ms != [] {
      SameRateSteady(s, st, ms[1..]);
    }
  }
}
