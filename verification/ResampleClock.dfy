/** The resampler's fixed-point clock: a signed 32.32 position advanced by step per output and
    rebased by the frame length per frame (src/processing/resample_adv.c, src/processing/resample.c). */
module ResampleClock {
  import opened Arith

  const ONE := 0x1_0000_0000
  const TAPS := 128
  const CENTER := 63
  const PHASES := 1024
  const HISTORY := 1024

  predicate SupportedRate(rate: nat) {
    rate == 8000 || rate == 16000 || rate == 24000 || rate == 32000 || rate == 44100 || rate == 48000
  }

  /** The rates of a resampling session. */
  datatype Rates = Rates(input: nat, output: nat) {
    predicate Valid() {
      SupportedRate(input) && SupportedRate(output) && input != output
    }

    predicate Up() { input < output }
  }

  function Floor(pos: int): int { pos / 0x1_0000_0000 }

  function Frac(pos: int): nat { pos % 0x1_0000_0000 }

  function Step(r: Rates): nat
    requires r.Valid()
  {
    r.input * 0x1_0000_0000 / r.output
  }

  /** resampler_init: 64 input samples, stretched when downsampling, rounded up. */
  function Delay(r: Rates): nat
    requires r.Valid()
  {
    if r.Up() then 64 else (64 * r.input + r.output - 1) / r.output
  }

  function Origin(r: Rates): int
    requires r.Valid()
  {
    -(Delay(r) * 0x1_0000_0000)
  }

  /** How many outputs a frame of n samples gives. */
  function OutCount(r: Rates, n: nat): nat
    requires r.Valid()
  {
    n * r.output / r.input
  }

  predicate ExactFrame(r: Rates, n: nat)
    requires r.Valid()
  {
    n * r.output % r.input == 0
  }

  /** Floor and fraction are the position's whole samples and the rest of it. */
  lemma SplitPosition(pos: int)
    ensures pos == Floor(pos) * 0x1_0000_0000 + Frac(pos) && Frac(pos) < 0x1_0000_0000
  {
  }

  /** The step is the rate ratio rounded down to a multiple of 2^-32. */
  lemma StepBounds(r: Rates)
    requires r.Valid()
    ensures Step(r) * r.output <= r.input * ONE < (Step(r) + 1) * r.output
  {
    DivBounds(r.input * 0x1_0000_0000, r.output);
  }

  lemma OutCountBounds(r: Rates, n: nat)
    requires r.Valid()
    ensures OutCount(r, n) * r.input <= n * r.output < (OutCount(r, n) + 1) * r.input
    ensures ExactFrame(r, n) ==> OutCount(r, n) * r.input == n * r.output
  {
    DivBounds(n * r.output, r.input);
    assert n * r.output == n * r.output / r.input * r.input + n * r.output % r.input;
  }

  lemma DelayBounds(r: Rates)
    requires r.Valid()
    ensures 64 * r.input <= Delay(r) * r.output
    ensures if r.Up() then Delay(r) == 64 else Delay(r) * r.output < 64 * r.input + r.output
  {
    if !r.Up() {
      DivBounds(64 * r.input + r.output - 1, r.output);
    }
  }

  // ---------------------------------------------------------------- totals over a run

  /** Position before output number produced, counted from the first sample not yet consumed. */
  function Position(r: Rates, produced: nat, consumed: nat): int
    requires r.Valid()
  {
    Origin(r) + produced * Step(r) - consumed * 0x1_0000_0000
  }

  /** Outputs never run ahead of the input. */
  predicate Behind(r: Rates, produced: nat, consumed: nat)
  {
    produced * r.input <= consumed * r.output
  }

  /** By how much the clock is behind the consumed input, in 2^-32 samples. */
  function Lag(r: Rates, produced: nat, consumed: nat): int
    requires r.Valid()
  {
    consumed * 0x1_0000_0000 - produced * Step(r)
  }

  /** The history reaches back far enough for the next output's window: the condition a caller can check
      before a frame. */
  predicate HistoryReaches(r: Rates, lag: int)
    requires r.Valid()
  {
    if r.Up() then lag <= (HISTORY - CENTER - 64) * ONE
    else lag * r.output + (Delay(r) * r.output + CENTER * r.input) * ONE < (HISTORY + 1) * r.output * ONE
  }

  lemma BehindStep(r: Rates, produced: nat, consumed: nat, n: nat)
    requires r.Valid() && Behind(r, produced, consumed)
    ensures Behind(r, produced + OutCount(r, n), consumed + n)
    ensures ExactFrame(r, n) && produced * r.input == consumed * r.output ==>
              (produced + OutCount(r, n)) * r.input == (consumed + n) * r.output
  {
    OutCountBounds(r, n);
    var m := OutCount(r, n);
    assert (produced + m) * r.input == produced * r.input + m * r.input;
    assert (consumed + n) * r.output == consumed * r.output + n * r.output;
  }

  /** An output of the next frame, and any output up to ahead places after it within the frame, is
      due before the end of that frame. */
  lemma DueInFrame(r: Rates, produced: nat, consumed: nat, n: nat, p: nat, ahead: nat)
    requires r.Valid() && Behind(r, produced, consumed)
    requires p + ahead < produced + OutCount(r, n)
    ensures p * r.input + ahead * r.input < (consumed + n) * r.output
  {
    BehindStep(r, produced, consumed, n);
    var total := produced + OutCount(r, n);
    MulMono(p + ahead + 1, total, r.input);
    assert (p + ahead + 1) * r.input == p * r.input + ahead * r.input + r.input;
  }

  /** p steps take at most p input samples per output. */
  lemma StepsBound(r: Rates, p: nat)
    requires r.Valid()
    ensures p * Step(r) * r.output <= p * (r.input * ONE)
    ensures p > 0 ==> p * (r.input * ONE) < p * Step(r) * r.output + p * r.output
  {
    hide Step;
    StepBounds(r);
    var s, i, o := Step(r), r.input * ONE, r.output;
    MulAssoc(p, s, o);
    MulDistr(p, s * o, o);
    assert (s + 1) * o == s * o + o;
    MulMono(s * o, i, p);
    if p > 0 {
      MulStrict(i, s * o + o, p);
    }
  }

  /** The drift: with exact frames the clock is never ahead of the input and behind by at most one
      unit of 2^-32 per output. */
  lemma ExactLag(r: Rates, produced: nat, consumed: nat)
    requires r.Valid() && produced * r.input == consumed * r.output
    ensures 0 <= Lag(r, produced, consumed) <= produced
  {
    hide Step;
    StepsBound(r, produced);
    var lag, o := Lag(r, produced, consumed), r.output;
    MulAssoc(produced, r.input, ONE);
    MulAssoc(consumed, ONE, o);
    MulAssoc(consumed, o, ONE);
    assert lag * o == consumed * ONE * o - produced * Step(r) * o;
    CancelMul(lag, produced, o);
    CancelMul(0, lag, o);
  }

  /** Exact frames keep the history within reach for 261 * 2^32 outputs. */
  const MAX_OUTPUTS := 261 * ONE

  lemma ExactReaches(r: Rates, produced: nat, consumed: nat)
    requires r.Valid() && produced * r.input == consumed * r.output && produced <= MAX_OUTPUTS
    ensures HistoryReaches(r, Lag(r, produced, consumed))
  {
    ExactLag(r, produced, consumed);
    RatioBound(r);
    SmallLagReaches(r, Lag(r, produced, consumed));
  }

  lemma RatioBound(r: Rates)
    requires r.Valid()
    ensures 0 < r.input <= 6 * r.output && 0 < r.output
  {
  }

  lemma SmallLagReaches(r: Rates, lag: int)
    requires r.Valid() && lag <= MAX_OUTPUTS && 0 < r.input <= 6 * r.output
    ensures HistoryReaches(r, lag)
  {
    DelayBounds(r);
    hide SupportedRate, Delay;
    if !r.Up() {
      MulMono(lag, MAX_OUTPUTS, r.output);
      assert Delay(r) * r.output + CENTER * r.input <= 763 * r.output;
    }
  }
}
