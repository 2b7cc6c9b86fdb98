/** The voice-activity recurrence in real arithmetic (src/processing/vad_gru.c:45-103, 315-366).
    Weights are parameters; sigmoid, tanh and the log feature are functions known by their range. */
module Vad {
  import opened Bytes

  const FEATURES := 20
  const HIDDEN := 24
  const FRAME := 320
  const SEGMENT := 16
  const VAD_RATE := 16000

  datatype Network = Network(wInput: (nat, nat) -> real, bInput: nat -> real,
                             wRecurrent: (nat, nat) -> real, bRecurrent: nat -> real,
                             wOut: (nat, nat) -> real, bOut: real,
                             sigmoid: real -> real, tanh: real -> real, feature: real -> real)

  ghost predicate Bounded(n: Network) {
    && (forall x :: 0.0 <= n.sigmoid(x) <= 1.0)
    && (forall x :: -1.0 <= n.tanh(x) <= 1.0)
  }

  // ---------------------------------------------------------------- one frame of features

  /** Sum of w(row, j) * x[j] for the first k columns. */
  function Dot(w: (nat, nat) -> real, row: nat, x: seq<real>, k: nat): real
    requires k <= |x|
  {
    if k == 0 then 0.0 else Dot(w, row, x, k - 1) + w(row, k - 1) * x[k - 1]
  }

  function InputProjection(n: Network, features: seq<real>, row: nat): real
    requires |features| == FEATURES
  {
    Dot(n.wInput, row, features, FEATURES) + n.bInput(row)
  }

  function RecurrentProjection(n: Network, h: seq<real>, row: nat): real
    requires |h| == HIDDEN
  {
    Dot(n.wRecurrent, row, h, HIDDEN) + n.bRecurrent(row)
  }

  /** One hidden value from its three gates. */
  function Gate(n: Network, input: seq<real>, recurrent: seq<real>, h: seq<real>, k: nat): real
    requires |input| == 72 && |recurrent| == 72 && |h| == HIDDEN && k < HIDDEN
  {
    var r := n.sigmoid(input[k] + recurrent[k]);
    var z := n.sigmoid(input[24 + k] + recurrent[24 + k]);
    var c := n.tanh(Gated(input[48 + k], r, recurrent[48 + k]));
    Blend(z, c, h[k])
  }

  function Inputs(n: Network, features: seq<real>): (p: seq<real>)
    requires |features| == FEATURES
    ensures |p| == 72
  {
    seq(72, i requires 0 <= i < 72 => InputProjection(n, features, i))
  }

  function Recurrents(n: Network, h: seq<real>): (p: seq<real>)
    requires |h| == HIDDEN
    ensures |p| == 72
  {
    seq(72, i requires 0 <= i < 72 => RecurrentProjection(n, h, i))
  }

  function NextHidden(n: Network, h: seq<real>, features: seq<real>): (next: seq<real>)
    requires |h| == HIDDEN && |features| == FEATURES
    ensures |next| == HIDDEN
  {
    seq(HIDDEN, k requires 0 <= k < HIDDEN => Gate(n, Inputs(n, features), Recurrents(n, h), h, k))
  }

  /** The output layer on a hidden state. */
  function Probability(n: Network, h: seq<real>): real
    requires |h| == HIDDEN
  {
    n.sigmoid(Dot(n.wOut, 0, h, HIDDEN) + n.bOut)
  }

  predicate InRange(h: seq<real>) {
    forall k :: 0 <= k < |h| ==> -1.0 <= h[k] <= 1.0
  }

  /** The reset gate scales the recurrent part. */
  function Gated(input: real, r: real, recurrent: real): real { input + r * recurrent }

  /** z weighs the old value against the new one. */
  function Blend(z: real, new_: real, old_: real): real {
    (1.0 - z) * new_ + z * old_
  }

  lemma BlendInRange(z: real, a: real, b: real)
    requires 0.0 <= z <= 1.0 && -1.0 <= a <= 1.0 && -1.0 <= b <= 1.0
    ensures -1.0 <= Blend(z, a, b) <= 1.0
  {
    Convex(1.0 - z, z, a, b);
  }

  lemma Convex(u: real, z: real, a: real, b: real)
    requires 0.0 <= u && 0.0 <= z && u + z == 1.0 && -1.0 <= a <= 1.0 && -1.0 <= b <= 1.0
    ensures -1.0 <= u * a + z * b <= 1.0
  {
    var x := Scaled(u, a);
    var y := Scaled(z, b);
    SumInRange(u, z, x, y);
  }

  lemma SumInRange(u: real, z: real, x: real, y: real)
    requires u + z == 1.0 && -u <= x <= u && -z <= y <= z
    ensures -1.0 <= x + y <= 1.0
  {
  }

  lemma Scaled(z: real, a: real) returns (p: real)
    requires 0.0 <= z && -1.0 <= a <= 1.0
    ensures p == z * a && -z <= p <= z
  {
    p := z * a;
    assert z * (1.0 - a) >= 0.0 && z * (1.0 + a) >= 0.0;
  }

  /** The hidden state never leaves [-1, 1]. */
  lemma HiddenStaysInRange(n: Network, h: seq<real>, features: seq<real>)
    requires Bounded(n) && |h| == HIDDEN && |features| == FEATURES && InRange(h)
    ensures InRange(NextHidden(n, h, features))
  {
    hide Inputs, Recurrents, Blend, Gated;
    var input, recurrent := Inputs(n, features), Recurrents(n, h);
    forall k | 0 <= k < HIDDEN ensures -1.0 <= Gate(n, input, recurrent, h, k) <= 1.0 {
      var r := n.sigmoid(input[k] + recurrent[k]);
      var z := n.sigmoid(input[24 + k] + recurrent[24 + k]);
      BlendInRange(z, n.tanh(Gated(input[48 + k], r, recurrent[48 + k])), h[k]);
    }
  }

  // ---------------------------------------------------------------- frames of samples

  /** Sum of the channels of one sample instant. */
  function ChannelSum(pcm: seq<int16>, at: nat, channels: nat): real
    requires at + channels <= |pcm|
    decreases channels
  {
    if channels == 0 then 0.0 else ChannelSum(pcm, at, channels - 1) + pcm[at + channels - 1] as int as real
  }

  function Abs(x: real): real { if x < 0.0 then -x else x }

  function Loudness(pcm: seq<int16>, at: nat, channels: nat): real
    requires channels > 0 && at + channels <= |pcm|
  {
    Abs(ChannelSum(pcm, at, channels) / channels as real) / 32768.0
  }

  /** Energy of the first s sample instants of a segment. */
  function Energy(frame: seq<int16>, g: nat, channels: nat, s: nat): real
    requires channels > 0 && |frame| == FRAME * channels && g < FEATURES && s <= SEGMENT
  {
    if s == 0 then 0.0
    else
      FrameIndex(g, s - 1, channels);
      Energy(frame, g, channels, s - 1) + Loudness(frame, SampleIndex(channels, g, s - 1, 0), channels)
  }

  lemma FrameIndex(g: nat, s: nat, channels: nat)
    requires g < FEATURES && s < SEGMENT
    ensures (g * SEGMENT + s) * channels + channels <= FRAME * channels
  {
    assert (g * SEGMENT + s + 1) * channels == (g * SEGMENT + s) * channels + channels;
    MulLe(g * SEGMENT + s + 1, FRAME, channels);
  }

  lemma MulLe(a: nat, b: nat, c: nat)
    requires a <= b
    ensures a * c <= b * c
  {
  }

  /** Where sample c of instant s of segment g lies in a frame. */
  function SampleIndex(channels: nat, g: nat, s: nat, c: nat): nat { (g * SEGMENT + s) * channels + c }

  /** Every sample of a frame is read for some segment, */
  lemma EachSampleRead(channels: nat, i: nat) returns (g: nat, s: nat, c: nat)
    requires channels > 0 && i < FRAME * channels
    ensures g < FEATURES && s < SEGMENT && c < channels && SampleIndex(channels, g, s, c) == i
  {
    var q: nat := i / channels;
    assert i == q * channels + i % channels;
    if q >= FRAME {
      MulLe(FRAME, q, channels);
    }
    g, s, c := q / SEGMENT, q % SEGMENT, i % channels;
    assert g * SEGMENT + s == q;
  }

  /** and only once. */
  lemma SampleReadOnce(channels: nat, g: nat, s: nat, c: nat, g': nat, s': nat, c': nat)
    requires s < SEGMENT && s' < SEGMENT && c < channels && c' < channels
    requires SampleIndex(channels, g, s, c) == SampleIndex(channels, g', s', c')
    ensures g == g' && s == s' && c == c'
  {
    SameDigits(g * SEGMENT + s, c, g' * SEGMENT + s', c', channels);
  }

  lemma SameDigits(a: nat, b: nat, c: nat, d: nat, base: nat)
    requires b < base && d < base && a * base + b == c * base + d
    ensures a == c && b == d
  {
    if a < c {
      MulLe(a + 1, c, base);
    } else if c < a {
      MulLe(c + 1, a, base);
    }
  }

  /** The features of a frame, one per segment. */
  function Features(n: Network, frame: seq<int16>, channels: nat): (f: seq<real>)
    requires channels > 0 && |frame| == FRAME * channels
    ensures |f| == FEATURES
  {
    seq(FEATURES, g requires 0 <= g < FEATURES => n.feature(1.0 + Energy(frame, g, channels, SEGMENT) / 16.0 * 10.0))
  }

  /** The complete frames of a buffer, in order; a last incomplete one is dropped. */
  function Frames(pcm: seq<int16>, size: nat): (fs: seq<seq<int16>>)
    requires size > 0
    ensures |fs| == |pcm| / size
    ensures forall f :: f in fs ==> |f| == size
    decreases |pcm|
  {
    if |pcm| < size then [] else
      FrameCount(|pcm|, size);
      [pcm[..size]] + Frames(pcm[size..], size)
  }

  lemma FrameCount(n: nat, size: nat)
    requires 0 < size <= n
    ensures n / size == 1 + (n - size) / size
  {
    var q, m := (n - size) / size, (n - size) % size;
    assert n == (q + 1) * size + m;
    if n / size > q + 1 {
      MulLe(q + 2, n / size, size);
    } else if n / size < q + 1 {
      MulLe(n / size + 1, q + 1, size);
    }
  }

  /** The state after some frames, and the largest probability seen. */
  function AfterFrames(n: Network, h: seq<real>, frames: seq<seq<int16>>, channels: nat): (next: seq<real>)
    requires |h| == HIDDEN && channels > 0 && forall f :: f in frames ==> |f| == FRAME * channels
    ensures |next| == HIDDEN
    decreases |frames|
  {
    if frames == [] then h else AfterFrames(n, NextHidden(n, h, Features(n, frames[0], channels)), frames[1..],
      channels)
  }

  function MaxProbability(n: Network, h: seq<real>, frames: seq<seq<int16>>, channels: nat, sofar: real): real
    requires |h| == HIDDEN && channels > 0 && forall f :: f in frames ==> |f| == FRAME * channels
    decreases |frames|
  {
    if frames == [] then sofar
    else
      var next := NextHidden(n, h, Features(n, frames[0], channels));
      var p := Probability(n, next);
      MaxProbability(n, next, frames[1..], channels, if p > sofar then p else sofar)
  }

  /** Over any number of frames the state stays in [-1, 1] and the result in [0, 1]. */
  lemma {:induction false} PassInRange(n: Network, h: seq<real>, frames: seq<seq<int16>>, channels: nat, sofar: real)
    requires Bounded(n) && |h| == HIDDEN && channels > 0 && forall f :: f in frames ==> |f| == FRAME * channels
    requires InRange(h) && 0.0 <= sofar <= 1.0
    ensures InRange(AfterFrames(n, h, frames, channels))
    ensures 0.0 <= MaxProbability(n, h, frames, channels, sofar) <= 1.0
    decreases |frames|
  {
    hide InRange, NextHidden, Features;
    if frames != [] {
      assert frames[0] in frames && forall f :: f in frames[1..] ==> f in frames;
      var features := Features(n, frames[0], channels);
      var next := NextHidden(n, h, features);
      HiddenStaysInRange(n, h, features);
      var p := Probability(n, next);
      PassInRange(n, next, frames[1..], channels, if p > sofar then p else sofar);
    }
  }

  /** Over every run of passes, each over any complete frames, all hidden values stay in [-1, 1]. */
  lemma {:induction false} RunInRange(n: Network, h: seq<real>, passes: seq<seq<seq<int16>>>, channels: nat)
    requires Bounded(n) && |h| == HIDDEN && channels > 0 && InRange(h)
    requires forall p, f :: p in passes && f in p ==> |f| == FRAME * channels
    ensures InRange(AfterPasses(n, h, passes, channels))
    decreases |passes|
  {
    hide InRange, AfterFrames;
    if passes != [] {
      assert passes[0] in passes;
      PassInRange(n, h, passes[0], channels, 0.0);
      RunInRange(n, AfterFrames(n, h, passes[0], channels), passes[1..], channels);
    }
  }

  function AfterPasses(n: Network, h: seq<real>, passes: seq<seq<seq<int16>>>, channels: nat): seq<real>
    requires |h| == HIDDEN && channels > 0
    requires forall p, f :: p in passes && f in p ==> |f| == FRAME * channels
    decreases |passes|
  {
    if passes == [] then h else AfterPasses(n, AfterFrames(n, h, passes[0], channels), passes[1..], channels)
  }

  // ---------------------------------------------------------------- the mutable state

  class VadGru {
    const network: Network
    const hidden: array<real>

    ghost predicate Valid()
      reads hidden
    {
      Bounded(network) && hidden.Length == HIDDEN && InRange(hidden[..])
    }

    /** vad_gru_init and vad_gru_reset: all zero. */
    constructor (network: Network)
      requires Bounded(network)
      ensures Valid() && this.network == network && fresh(hidden)
      ensures hidden[..] == seq(HIDDEN, _ => 0.0)
    {
      this.network := network;
      hidden := new real[HIDDEN](_ => 0.0);
    }

    /** vad_gru_process_frame_c. */
    method ProcessFrame(features: seq<real>) returns (p: real)
      requires Valid() && |features| == FEATURES
      modifies hidden
      ensures Valid() && hidden[..] == NextHidden(network, old(hidden[..]), features)
      ensures p == Probability(network, hidden[..]) && 0.0 <= p <= 1.0
    {
      hide Gate;
      ghost var h := hidden[..];
      var inputProj := new real[72];
      var recProj := new real[72];
      for i := 0 to 72
        invariant fresh(inputProj) && fresh(recProj) && hidden[..] == h
        invariant forall j :: 0 <= j < i ==>
                    inputProj[j] == InputProjection(network, features, j) &&
                    recProj[j] == RecurrentProjection(network, h, j)
      {
        var inSum := 0.0;
        for j := 0 to FEATURES
          invariant inSum == Dot(network.wInput, i, features, j)
        {
          inSum := inSum + network.wInput(i, j) * features[j];
        }
        var recSum := 0.0;
        for j := 0 to HIDDEN
          invariant recSum == Dot(network.wRecurrent, i, h, j)
        {
          recSum := recSum + network.wRecurrent(i, j) * hidden[j];
        }
        inputProj[i] := inSum + network.bInput(i);
        recProj[i] := recSum + network.bRecurrent(i);
      }
      assert inputProj[..] == Inputs(network, features) && recProj[..] == Recurrents(network, h);
      UpdateHidden(inputProj[..], recProj[..]);
      HiddenStaysInRange(network, h, features);
      p := Output();
    }

    /** The gates write a fresh array, copied back at the end. */
    method UpdateHidden(input: seq<real>, recurrent: seq<real>)
      requires hidden.Length == HIDDEN && |input| == 72 && |recurrent| == 72
      modifies hidden
      ensures hidden[..] == seq(HIDDEN, k requires 0 <= k < HIDDEN => Gate(network, input, recurrent, old(hidden[..]),
              k))
    {
      hide Blend, Gated;
      ghost var h := hidden[..];
      var hNew := new real[HIDDEN];
      for k := 0 to HIDDEN
        invariant fresh(hNew) && hidden[..] == h
        invariant forall j :: 0 <= j < k ==> hNew[j] == Gate(network, input, recurrent, h, j)
      {
        var r := network.sigmoid(input[k] + recurrent[k]);
        var z := network.sigmoid(input[24 + k] + recurrent[24 + k]);
        var n := network.tanh(Gated(input[48 + k], r, recurrent[48 + k]));
        hNew[k] := Blend(z, n, hidden[k]);
      }
      forall k | 0 <= k < HIDDEN {
        hidden[k] := hNew[k];
      }
    }

    method Output() returns (p: real)
      requires hidden.Length == HIDDEN
      ensures p == Probability(network, hidden[..])
    {
      var fcSum := 0.0;
      for k := 0 to HIDDEN
        invariant fcSum == Dot(network.wOut, 0, hidden[..], k)
      {
        fcSum := fcSum + network.wOut(0, k) * hidden[k];
      }
      p := network.sigmoid(fcSum + network.bOut);
    }

    /** vad_gru_process_pcm: -1 for unusable input, else the largest probability over the complete
        frames, each of which advances the state once. */
    method ProcessPcm(pcm: seq<int16>, samples: nat, rate: nat, channels: nat) returns (p: real)
      requires Valid() && |pcm| == samples * channels
      modifies hidden
      ensures Valid()
      ensures if samples == 0 || channels == 0 || rate != VAD_RATE then p == -1.0 && hidden[..] == old(hidden[..])
              else
                var frames := Frames(pcm, FRAME * channels);
                && hidden[..] == AfterFrames(network, old(hidden[..]), frames, channels)
                && p == MaxProbability(network, old(hidden[..]), frames, channels, 0.0)
                && 0.0 <= p <= 1.0
    {
      if samples < 1 || channels <= 0 || rate != VAD_RATE {
        return -1.0;
      }
      hide NextHidden, Features, Probability, InRange;
      ghost var h, frames := hidden[..], Frames(pcm, FRAME * channels);
      p := 0.0;
      var offset := 0;
      assert pcm[0..] == pcm;
      while offset + FRAME <= samples
        invariant offset <= samples && offset * channels <= |pcm| && Valid() && 0.0 <= p <= 1.0
        invariant AfterFrames(network, hidden[..], Frames(pcm[offset * channels..], FRAME * channels), channels) ==
                  AfterFrames(network, h, frames, channels)
        invariant MaxProbability(network, hidden[..], Frames(pcm[offset * channels..], FRAME * channels), channels,
                  p) ==
                  MaxProbability(network, h, frames, channels, 0.0)
      {
        NextFrame(pcm, samples, channels, offset);
        var frame := pcm[offset * channels..(offset + FRAME) * channels];
        var features := Extract(frame, channels);
        var prob := ProcessFrame(features);
        if prob > p {
          p := prob;
        }
        offset := offset + FRAME;
      }
      NoMoreFrames(pcm, samples, channels, offset);
    }

    /** The feature loops over segments, samples and channels. */
    method Extract(frame: seq<int16>, channels: nat) returns (features: seq<real>)
      requires channels > 0 && |frame| == FRAME * channels
      ensures features == Features(network, frame, channels)
    {
      features := [];
      for g := 0 to FEATURES
        invariant |features| == g
        invariant forall i :: 0 <= i < g ==> features[i] == Features(network, frame, channels)[i]
      {
        var energy := 0.0;
        for s := 0 to SEGMENT
          invariant energy == Energy(frame, g, channels, s)
        {
          FrameIndex(g, s, channels);
          var at := SampleIndex(channels, g, s, 0);
          var val := 0.0;
          for c := 0 to channels
            invariant val == ChannelSum(frame, at, c)
          {
            val := val + frame[at + c] as int as real;
          }
          energy := energy + Abs(val / channels as real) / 32768.0;
        }
        features := features + [network.feature(1.0 + energy / 16.0 * 10.0)];
      }
    }
  }

  lemma NextFrame(pcm: seq<int16>, samples: nat, channels: nat, offset: nat)
    requires channels > 0 && |pcm| == samples * channels && offset + FRAME <= samples
    ensures offset * channels <= (offset + FRAME) * channels <= |pcm|
    ensures (offset + FRAME) * channels - offset * channels == FRAME * channels
    ensures Frames(pcm[offset * channels..], FRAME * channels) ==
            [pcm[offset * channels..(offset + FRAME) * channels]] + Frames(pcm[(offset + FRAME) * channels..],
              FRAME * channels)
  {
    MulLe(offset + FRAME, samples, channels);
    assert (offset + FRAME) * channels == offset * channels + FRAME * channels;
    var rest, size := pcm[offset * channels..], FRAME * channels;
    assert rest[..size] == pcm[offset * channels..(offset + FRAME) * channels];
    assert rest[size..] == pcm[(offset + FRAME) * channels..];
  }

  lemma NoMoreFrames(pcm: seq<int16>, samples: nat, channels: nat, offset: nat)
    requires channels > 0 && |pcm| == samples * channels && offset <= samples < offset + FRAME &&
             offset * channels <= |pcm|
    ensures Frames(pcm[offset * channels..], FRAME * channels) == []
  {
    assert (samples - offset) * channels == samples * channels - offset * channels;
    assert (samples - offset) * channels < FRAME * channels;
  }
}
