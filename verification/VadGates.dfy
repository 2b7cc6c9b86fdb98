/** What the recurrence of the voice-activity network does, gate by gate, and what its features and its result
    mean (src/processing/vad_gru.c:62-103, 334-365). */
module VadGates {
  import opened Bytes
  import opened Vad
  import opened Pipeline
  import opened RequestState

  // ---------------------------------------------------------------- a layer, independently of the loops

  /** bias + w[row] . x, from column j on. */
  function Neuron(w: (nat, nat) -> real, bias: real, row: nat, x: seq<real>, j: nat): real
    requires j <= |x|
    decreases |x| - j
  {
    if j == |x| then bias else w(row, j) * x[j] + Neuron(w, bias, row, x, j + 1)
  }

  lemma {:induction false} DotIsNeuron(w: (nat, nat) -> real, bias: real, row: nat, x: seq<real>, j: nat)
    requires j <= |x|
    ensures Dot(w, row, x, j) + Neuron(w, bias, row, x, j) == Neuron(w, bias, row, x, 0)
    decreases j
  {
    if j > 0 {
      DotIsNeuron(w, bias, row, x, j - 1);
    }
  }

  /** The weighted input of row i, and the weighted old state. */
  function FromInput(n: Network, f: seq<real>, i: nat): real { Neuron(n.wInput, n.bInput(i), i, f, 0) }

  function FromState(n: Network, h: seq<real>, i: nat): real { Neuron(n.wRecurrent, n.bRecurrent(i), i, h, 0) }

  /** Rows 0 to 23 make the reset gates, rows 24 to 47 the update gates. */
  function ResetGate(n: Network, h: seq<real>, f: seq<real>, k: nat): real {
    n.sigmoid(FromInput(n, f, k) + FromState(n, h, k))
  }

  function UpdateGate(n: Network, h: seq<real>, f: seq<real>, k: nat): real {
    n.sigmoid(FromInput(n, f, 24 + k) + FromState(n, h, 24 + k))
  }

  predicate Shaped(h: seq<real>, f: seq<real>, k: nat) { |h| == 24 && |f| == 20 && k < 24 }

  lemma Rows(n: Network, h: seq<real>, f: seq<real>, i: nat)
    requires |h| == 24 && |f| == 20 && i < 72
    ensures Inputs(n, f)[i] == FromInput(n, f, i) && Recurrents(n, h)[i] == FromState(n, h, i)
  {
    DotIsNeuron(n.wInput, n.bInput(i), i, f, |f|);
    DotIsNeuron(n.wRecurrent, n.bRecurrent(i), i, h, |h|);
  }

  /** One step, from the gates and from what comes in through row 48 + k. */
  lemma StepTerms(n: Network, h: seq<real>, f: seq<real>, k: nat)
    requires Shaped(h, f, k)
    ensures NextHidden(n, h, f)[k] ==
            Blend(UpdateGate(n, h, f, k), Candidate(n, h, f, k), h[k])
  {
    hide Inputs, Recurrents, FromInput, FromState, Blend, Gated;
    Rows(n, h, f, k);
    Rows(n, h, f, 24 + k);
    Rows(n, h, f, 48 + k);
  }

  function Candidate(n: Network, h: seq<real>, f: seq<real>, k: nat): real {
    n.tanh(Gated(FromInput(n, f, 48 + k), ResetGate(n, h, f, k), FromState(n, h, 48 + k)))
  }

  /** The ends of both. */
  lemma GatedEnds(a: real, b: real)
    ensures Gated(a, 0.0, b) == a && Gated(a, 1.0, b) == a + b
  {
  }

  lemma BlendEnds(c: real, o: real)
    ensures Blend(0.0, c, o) == c && Blend(1.0, c, o) == o
  {
  }

  /** A share of a step from some value on. */
  function Along(start: real, share: real, step: real): real { start + share * step }

  /** In between they are straight lines: the step as one formula. */
  lemma StepIs(n: Network, h: seq<real>, f: seq<real>, k: nat)
    requires Shaped(h, f, k)
    ensures var c := n.tanh(Along(FromInput(n, f, 48 + k), ResetGate(n, h, f, k), FromState(n, h, 48 + k)));
            NextHidden(n, h, f)[k] == Along(c, UpdateGate(n, h, f, k), h[k] - c)
  {
    StepTerms(n, h, f, k);
    hide UpdateGate, ResetGate, NextHidden, FromInput, FromState, Blend, Gated, Along;
    GatedIs(FromInput(n, f, 48 + k), ResetGate(n, h, f, k), FromState(n, h, 48 + k));
    BlendIs(UpdateGate(n, h, f, k), Candidate(n, h, f, k), h[k]);
  }

  lemma GatedIs(a: real, r: real, b: real)
    ensures Gated(a, r, b) == Along(a, r, b)
  {
  }

  lemma BlendIs(z: real, c: real, o: real)
    ensures Blend(z, c, o) == Along(c, z, o - c)
  {
  }

  // ---------------------------------------------------------------- the update gate

  /** An update gate of 1 keeps the old value. */
  lemma Kept(n: Network, h: seq<real>, f: seq<real>, k: nat)
    requires Shaped(h, f, k) && UpdateGate(n, h, f, k) == 1.0
    ensures NextHidden(n, h, f)[k] == h[k]
  {
    StepTerms(n, h, f, k);
    hide *;
    BlendEnds(Candidate(n, h, f, k), h[k]);
  }

  /** An update gate of 0 takes the candidate: with the reset gate at 1, tanh of all that comes in; with the
      reset gate at 0, tanh of the input alone. */
  lemma Replaced(n: Network, h: seq<real>, f: seq<real>, k: nat)
    requires Shaped(h, f, k) && UpdateGate(n, h, f, k) == 0.0
    ensures ResetGate(n, h, f, k) == 1.0 ==>
              NextHidden(n, h, f)[k] == n.tanh(FromInput(n, f, 48 + k) + FromState(n, h, 48 + k))
    ensures ResetGate(n, h, f, k) == 0.0 ==> NextHidden(n, h, f)[k] == n.tanh(FromInput(n, f, 48 + k))
  {
    StepTerms(n, h, f, k);
    hide UpdateGate, ResetGate, NextHidden, FromInput, FromState, Blend, Gated;
    BlendEnds(Candidate(n, h, f, k), h[k]);
    GatedEnds(FromInput(n, f, 48 + k), FromState(n, h, 48 + k));
  }

  /** Between them: the new value lies between the old one and the candidate, and the larger the gate, the
      nearer to the old one. The candidate is what another network gives whose update gate is 0 and that is the
      same otherwise. */
  lemma Between(n: Network, n0: Network, n1: Network, h: seq<real>, f: seq<real>, k: nat)
    requires Shaped(h, f, k) && SameBut(n, n0, 24 + k) && SameBut(n, n1, 24 + k)
    requires 0.0 == UpdateGate(n0, h, f, k) <= UpdateGate(n, h, f, k) <= UpdateGate(n1, h, f, k) <= 1.0
    ensures var c, now, later := NextHidden(n0, h, f)[k], NextHidden(n, h, f)[k], NextHidden(n1, h, f)[k];
            if c <= h[k] then c <= now <= later <= h[k] else h[k] <= later <= now <= c
  {
    assert |h| == 24 && k < 24;
    hide *;
    SameCandidate(n, n0, h, f, k);
    SameCandidate(n, n1, h, f, k);
    StepTerms(n, h, f, k);
    StepTerms(n0, h, f, k);
    StepTerms(n1, h, f, k);
    BlendBetween(UpdateGate(n, h, f, k), UpdateGate(n1, h, f, k), Candidate(n, h, f, k), h[k]);
  }

  lemma BlendBetween(z1: real, z2: real, c: real, o: real)
    requires 0.0 <= z1 <= z2 <= 1.0
    ensures Blend(0.0, c, o) == c
    ensures if c <= o then c <= Blend(z1, c, o) <= Blend(z2, c, o) <= o
            else o <= Blend(z2, c, o) <= Blend(z1, c, o) <= c
  {
    BlendEnds(c, o);
    BlendIs(z1, c, o);
    BlendIs(z2, c, o);
    hide Blend;
    Slope(z1, z2, o - c);
  }

  lemma SameCandidate(n: Network, m: Network, h: seq<real>, f: seq<real>, k: nat)
    requires Shaped(h, f, k) && SameBut(n, m, 24 + k)
    ensures Candidate(n, h, f, k) == Candidate(m, h, f, k)
  {
    OtherRows(n, m, h, f, 24 + k, k);
    OtherRows(n, m, h, f, 24 + k, 48 + k);
    hide FromInput, FromState, Gated;
  }

  lemma Slope(a: real, b: real, d: real)
    requires 0.0 <= a <= b <= 1.0
    ensures if d >= 0.0 then 0.0 <= a * d <= b * d <= d else d <= b * d <= a * d <= 0.0
  {
    assert d >= 0.0 ==> (b - a) * d >= 0.0 && (1.0 - b) * d >= 0.0;
    assert d < 0.0 ==> (b - a) * d <= 0.0 && (1.0 - b) * d <= 0.0;
  }

  // ---------------------------------------------------------------- the reset gate

  /** Two networks that differ in one row of each layer at most. */
  ghost predicate SameBut(n: Network, m: Network, row: nat) {
    && n.sigmoid == m.sigmoid && n.tanh == m.tanh
    && (forall i, j {:trigger n.wInput(i, j)} :: i != row ==> n.wInput(i, j) == m.wInput(i, j))
    && (forall i, j {:trigger n.wRecurrent(i, j)} :: i != row ==> n.wRecurrent(i, j) == m.wRecurrent(i, j))
    && (forall i :: i != row ==> n.bInput(i) == m.bInput(i))
    && (forall i :: i != row ==> n.bRecurrent(i) == m.bRecurrent(i))
  }

  lemma {:induction false} SameNeuron(w: (nat, nat) -> real, v: (nat, nat) -> real, bias: real, row: nat, x: seq<real>,
      j: nat)
    requires j <= |x| && forall c :: w(row, c) == v(row, c)
    ensures Neuron(w, bias, row, x, j) == Neuron(v, bias, row, x, j)
    decreases |x| - j
  {
    if j < |x| {
      SameNeuron(w, v, bias, row, x, j + 1);
    }
  }

  lemma OtherRows(n: Network, m: Network, h: seq<real>, f: seq<real>, row: nat, i: nat)
    requires SameBut(n, m, row) && i != row
    ensures FromInput(n, f, i) == FromInput(m, f, i) && FromState(n, h, i) == FromState(m, h, i)
  {
    SameNeuron(n.wInput, m.wInput, n.bInput(i), i, f, 0);
    SameNeuron(n.wRecurrent, m.wRecurrent, n.bRecurrent(i), i, h, 0);
  }

  /** A reset gate of 0 forgets the state: the recurrent weights and bias of the candidate's row do not matter. */
  lemma Forgotten(n: Network, m: Network, h: seq<real>, f: seq<real>, k: nat)
    requires Shaped(h, f, k) && SameBut(n, m, 48 + k) && ResetGate(n, h, f, k) == 0.0
    requires FromInput(n, f, 48 + k) == FromInput(m, f, 48 + k)
    ensures NextHidden(n, h, f)[k] == NextHidden(m, h, f)[k]
  {
    StepTerms(n, h, f, k);
    StepTerms(m, h, f, k);
    OtherRows(n, m, h, f, 48 + k, k);
    OtherRows(n, m, h, f, 48 + k, 24 + k);
    GatedEnds(FromInput(n, f, 48 + k), FromState(n, h, 48 + k));
    GatedEnds(FromInput(m, f, 48 + k), FromState(m, h, 48 + k));
    hide NextHidden, FromInput, FromState, Blend, Gated;
  }

  /** A reset gate of 1 keeps all of it: what comes in through the state counts as what comes in through the
      input. */
  lemma Remembered(n: Network, m: Network, h: seq<real>, f: seq<real>, k: nat)
    requires Shaped(h, f, k) && SameBut(n, m, 48 + k) && ResetGate(n, h, f, k) == 1.0
    requires FromInput(n, f, 48 + k) + FromState(n, h, 48 + k) == FromInput(m, f, 48 + k) + FromState(m, h, 48 + k)
    ensures NextHidden(n, h, f)[k] == NextHidden(m, h, f)[k]
  {
    StepTerms(n, h, f, k);
    StepTerms(m, h, f, k);
    OtherRows(n, m, h, f, 48 + k, k);
    OtherRows(n, m, h, f, 48 + k, 24 + k);
    GatedEnds(FromInput(n, f, 48 + k), FromState(n, h, 48 + k));
    GatedEnds(FromInput(m, f, 48 + k), FromState(m, h, 48 + k));
    hide NextHidden, FromInput, FromState, Blend, Gated;
  }

  // ---------------------------------------------------------------- the result of a pass

  /** The probability after each frame. */
  function Probabilities(n: Network, h: seq<real>, frames: seq<seq<int16>>, channels: nat): (ps: seq<real>)
    requires |h| == HIDDEN && channels > 0 && forall f :: f in frames ==> |f| == FRAME * channels
    ensures |ps| == |frames|
    decreases |frames|
  {
    if frames == [] then []
    else
      var next := NextHidden(n, h, Features(n, frames[0], channels));
      [n.sigmoid(Neuron(n.wOut, n.bOut, 0, next, 0))] + Probabilities(n, next, frames[1..], channels)
  }

  lemma OutputIs(n: Network, h: seq<real>)
    requires |h| == HIDDEN
    ensures Probability(n, h) == n.sigmoid(Neuron(n.wOut, n.bOut, 0, h, 0))
  {
    DotIsNeuron(n.wOut, n.bOut, 0, h, HIDDEN);
  }

  /** p is at least all of these and one of them. */
  predicate Largest(start: real, ps: seq<real>, p: real) {
    start <= p && (forall q :: q in ps ==> q <= p) && (p == start || p in ps)
  }

  /** The result is at least every frame's probability and the start value, and it is one of them. */
  lemma {:induction false} ResultIsLargest(n: Network, h: seq<real>, frames: seq<seq<int16>>, channels: nat,
      sofar: real)
    requires |h| == HIDDEN && channels > 0 && forall f :: f in frames ==> |f| == FRAME * channels
    ensures Largest(sofar, Probabilities(n, h, frames, channels), MaxProbability(n, h, frames, channels, sofar))
    decreases |frames|
  {
    if frames == [] {
      assert Largest(sofar, [], sofar);
    } else {
      hide NextHidden, Features, Neuron, Probability, Largest;
      assert frames[0] in frames && forall f :: f in frames[1..] ==> f in frames;
      var next := NextHidden(n, h, Features(n, frames[0], channels));
      OutputIs(n, next);
      var q := Probability(n, next);
      var start := if q > sofar then q else sofar;
      ResultIsLargest(n, next, frames[1..], channels, start);
      LargestOf(q, Probabilities(n, next, frames[1..], channels), sofar,
        MaxProbability(n, next, frames[1..], channels, start));
    }
  }

  lemma LargestOf(q: real, ps: seq<real>, sofar: real, p: real)
    requires Largest(if q > sofar then q else sofar, ps, p)
    ensures Largest(sofar, [q] + ps, p)
  {
    assert q in [q] + ps && forall x :: x in [q] + ps <==> x == q || x in ps;
  }

  // ---------------------------------------------------------------- the features

  /** Energies: the mean over the channels of the magnitude, in units of full scale, summed over the sixteen
      instants of a segment. A frame with the same value everywhere shows all of it. */
  lemma {:induction false} FlatEnergy(frame: seq<int16>, channels: nat, g: nat, s: nat, v: int16)
    requires channels > 0 && |frame| == FRAME * channels && g < FEATURES && s <= SEGMENT
    requires forall i :: 0 <= i < |frame| ==> frame[i] == v
    ensures Energy(frame, g, channels, s) == s as real * (Abs(v as int as real) / 32768.0)
    decreases s
  {
    hide Loudness;
    if s > 0 {
      FrameIndex(g, s - 1, channels);
      FlatEnergy(frame, channels, g, s - 1, v);
      FlatLoudness(frame, SampleIndex(channels, g, s - 1, 0), channels, v);
    }
  }

  lemma FlatLoudness(frame: seq<int16>, at: nat, channels: nat, v: int16)
    requires channels > 0 && at + channels <= |frame| && forall i :: 0 <= i < |frame| ==> frame[i] == v
    ensures Loudness(frame, at, channels) == Abs(v as int as real) / 32768.0
  {
    hide ChannelSum, Abs;
    FlatSum(frame, at, channels, v);
    Quotient(ChannelSum(frame, at, channels), channels as real, v as int as real);
  }

  lemma {:induction false} FlatSum(frame: seq<int16>, at: nat, channels: nat, v: int16)
    requires at + channels <= |frame| && forall i :: 0 <= i < |frame| ==> frame[i] == v
    ensures ChannelSum(frame, at, channels) == channels as real * v as int as real
    decreases channels
  {
    if channels > 0 {
      FlatSum(frame, at, channels - 1, v);
    }
  }

  lemma Quotient(sum: real, n: real, v: real)
    requires n > 0.0 && sum == n * v
    ensures sum / n == v
  {
  }

  /** Every feature of a flat frame: the logarithm's argument is 1 + 10 * |v| / 32768. */
  lemma FlatFeatures(n: Network, frame: seq<int16>, channels: nat, v: int16, g: nat)
    requires channels > 0 && |frame| == FRAME * channels && g < FEATURES
    requires forall i :: 0 <= i < |frame| ==> frame[i] == v
    ensures Features(n, frame, channels)[g] == n.feature(1.0 + 10.0 * (Abs(v as int as real) / 32768.0))
  {
    hide Energy, Abs;
    FlatEnergy(frame, channels, g, SEGMENT, v);
    assert 16 as real * (Abs(v as int as real) / 32768.0) / 16.0 * 10.0 == 10.0 * (Abs(v as int as real) / 32768.0);
  }

  /** A feature depends on its own sixteen instants alone, and not on the sign of the signal. */
  lemma {:induction false} OwnSegment(a: seq<int16>, b: seq<int16>, channels: nat, g: nat, s: nat)
    requires channels > 0 && |a| == |b| == FRAME * channels && g < FEATURES && s <= SEGMENT
    requires Mirrored(a, b, channels, g)
    ensures Energy(a, g, channels, s) == Energy(b, g, channels, s)
    decreases s
  {
    hide Loudness, Mirrored;
    if s > 0 {
      FrameIndex(g, s - 1, channels);
      OwnSegment(a, b, channels, g, s - 1);
      SameLoudness(a, b, channels, g, s - 1);
    }
  }

  /** Two frames agree on a segment, or one is the negative of the other there. */
  predicate Mirrored(a: seq<int16>, b: seq<int16>, channels: nat, g: nat)
    requires |a| == |b| == FRAME * channels
  {
    var lo, hi := g * SEGMENT * channels, (g * SEGMENT + SEGMENT) * channels;
    || (forall i :: lo <= i < hi && i < |a| ==> a[i] == b[i])
    || (forall i :: lo <= i < hi && i < |a| ==> a[i] as int == -(b[i] as int))
  }

  lemma SameLoudness(a: seq<int16>, b: seq<int16>, channels: nat, g: nat, s: nat)
    requires channels > 0 && |a| == |b| == FRAME * channels && g < FEATURES && s < SEGMENT &&
             Mirrored(a, b, channels, g)
    ensures var at := SampleIndex(channels, g, s, 0);
            at + channels <= |a| && Loudness(a, at, channels) == Loudness(b, at, channels)
  {
    var at := SampleIndex(channels, g, s, 0);
    SegmentRange(channels, g, s);
    hide SampleIndex;
    if forall i :: at <= i < at + channels ==> a[i] == b[i] {
      SameSum(a, b, at, channels, 1);
    } else {
      hide Abs;
      SameSum(a, b, at, channels, -1);
      Negated(ChannelSum(b, at, channels), channels as real);
    }
  }

  lemma SegmentRange(channels: nat, g: nat, s: nat)
    requires g < FEATURES && s < SEGMENT
    ensures var at := SampleIndex(channels, g, s, 0);
            g * SEGMENT * channels <= at <= at + channels <= (g * SEGMENT + SEGMENT) * channels <= FRAME * channels
  {
    MulLe(g * SEGMENT, g * SEGMENT + s, channels);
    MulLe(g * SEGMENT + s + 1, g * SEGMENT + SEGMENT, channels);
    MulLe(g * SEGMENT + SEGMENT, FRAME, channels);
    assert (g * SEGMENT + s + 1) * channels == (g * SEGMENT + s) * channels + channels;
  }

  lemma {:induction false} SameSum(a: seq<int16>, b: seq<int16>, at: nat, channels: nat, sign: int)
    requires at + channels <= |a| == |b| && (sign == 1 || sign == -1)
    requires forall i :: at <= i < at + channels ==> a[i] as int == sign * (b[i] as int)
    ensures ChannelSum(a, at, channels) == sign as real * ChannelSum(b, at, channels)
    decreases channels
  {
    if channels > 0 {
      SameSum(a, b, at, channels - 1, sign);
    }
  }

  lemma Negated(x: real, n: real)
    requires n > 0.0
    ensures Abs(-1.0 * x / n) == Abs(x / n)
  {
    assert -1.0 * x / n == -(x / n);
  }

  // ---------------------------------------------------------------- the frames of a request

  /** Where frame j starts. */
  function FrameStart(size: nat, j: nat): nat { j * size }

  lemma NextStart(size: nat, j: nat)
    ensures FrameStart(size, 0) == 0 && FrameStart(size, j + 1) == size + FrameStart(size, j)
  {
  }

  /** Frame j is that many samples of the input from there on. */
  lemma {:induction false} FramesAre(pcm: seq<int16>, size: nat, j: nat)
    requires size > 0 && j < |Frames(pcm, size)|
    ensures FrameStart(size, j) + size <= |pcm|
    ensures Frames(pcm, size)[j] == pcm[FrameStart(size, j)..FrameStart(size, j) + size]
    decreases j
  {
    hide FrameStart;
    NextStart(size, 0);
    FirstFrame(pcm, size);
    if j > 0 {
      NextStart(size, j - 1);
      FramesAre(pcm[size..], size, j - 1);
      Shifted(pcm, size, FrameStart(size, j - 1));
    }
  }

  lemma FirstFrame(pcm: seq<int16>, size: nat)
    requires size > 0 && Frames(pcm, size) != []
    ensures size <= |pcm| && Frames(pcm, size) == [pcm[..size]] + Frames(pcm[size..], size)
  {
  }

  lemma Shifted(pcm: seq<int16>, size: nat, at: nat)
    requires size + at + size <= |pcm|
    ensures pcm[size..][at..at + size] == pcm[size + at..size + at + size]
  {
  }

  /** The value a request reports: -1 without a network or without 16 kHz audio, else the largest probability over
      the complete 20 ms frames of the input at 16 kHz, or of the output if only that is. */
  lemma ReportedValue(s: Settings, mixed: seq<int16>, resampled: seq<int16>, h: seq<real>, h': seq<real>, prob: real)
    requires s.channels > 0 && |h| == 24 && (s.vad.Some? ==> Bounded(s.vad.value)) && InRange(h)
    requires VadDone(s, VadInput(s, mixed, resampled), h, h', prob)
    ensures var x := if s.inRate == 16000 then mixed else if s.outRate == 16000 then resampled else [];
            if s.vad.None? || x == [] then prob == -1.0 && h' == h
            else
              var frames := Frames(x, 320 * s.channels);
              && 0.0 <= prob <= 1.0 && Largest(0.0, Probabilities(s.vad.value, h, frames, s.channels), prob)
              && |h'| == 24 && InRange(h') && h' == AfterFrames(s.vad.value, h, frames, s.channels)
  {
    hide Frames, AfterFrames, MaxProbability, Probabilities, InRange, Bounded;
    if s.vad.Some? {
      var x := if s.inRate == 16000 then mixed else resampled;
      Product(s.channels);
      var frames := Frames(x, 320 * s.channels);
      PassInRange(s.vad.value, h, frames, s.channels, 0.0);
      ResultIsLargest(s.vad.value, h, frames, s.channels, 0.0);
    }
  }

  lemma Product(n: nat)
    requires n > 0
    ensures 320 * n > 0
  {
  }

  /** Each frame in turn moves the state on by one step. */
  lemma {:induction false} OneFrameMore(n: Network, h: seq<real>, frames: seq<seq<int16>>, f: seq<int16>, channels: nat)
    requires |h| == HIDDEN && channels > 0 && |f| == FRAME * channels && forall x :: x in frames ==>
             |x| == FRAME * channels
    ensures forall x :: x in frames + [f] ==> |x| == FRAME * channels
    ensures AfterFrames(n, h, frames + [f], channels) ==
            NextHidden(n, AfterFrames(n, h, frames, channels), Features(n, f, channels))
    decreases |frames|
  {
    hide NextHidden, Features;
    if frames == [] {
      assert frames + [f] == [f] && [f][1..] == [];
    } else {
      assert frames[0] in frames && forall x :: x in frames[1..] ==> x in frames;
      assert (frames + [f])[0] == frames[0] && (frames + [f])[1..] == frames[1..] + [f];
      OneFrameMore(n, NextHidden(n, h, Features(n, frames[0], channels)), frames[1..], f, channels);
    }
  }
}
