/** Which samples an output reads, relative to its frame, and why they always exist
    (src/processing/resample_adv.c:76-120, 170-216, 242-262). */
module ResampleWindow {
  import opened Arith
  import opened ResampleClock

  function DivFloor(a: int, b: int): int
    requires b > 0
  {
    a / b
  }

  function DivCeil(a: int, b: int): int
    requires b > 0
  {
    -(-a / b)
  }

  /** Downsampling, with t = pos / 2^32 and s = input / output: the first sample is
      ceil(t - 63 s), the last one is floor(t + 64 s), and floor(t + 7 s + 64 s) for eight outputs
      at once. Both bounds are exact rationals over 2^32 * output. */
  function FirstDown(r: Rates, pos: int): int
    requires r.Valid()
  {
    DivCeil(pos * r.output - CENTER * r.input * 0x1_0000_0000, 0x1_0000_0000 * r.output)
  }

  function LastDown(r: Rates, pos: int, ahead: nat): int
    requires r.Valid()
  {
    DivFloor(pos * r.output + (64 + ahead) * r.input * 0x1_0000_0000, 0x1_0000_0000 * r.output)
  }

  const LANES := 8

  lemma DivFloorLess(a: int, b: int, k: int)
    requires b > 0 && a < k * b
    ensures DivFloor(a, b) < k
  {
    DivBounds(a, b);
    if DivFloor(a, b) >= k {
      MulMono(k, DivFloor(a, b), b);
    }
  }

  lemma DivCeilAtLeast(a: int, b: int, k: int)
    requires b > 0
    ensures DivCeil(a, b) >= k <==> a > (k - 1) * b
  {
    DivBounds(-a, b);
    var q := -a / b;
    MulDistr(b, q, 1);
    MulDistr(b, -k, 1);
    if q <= -k {
      MulMono(q, -k, b);
    } else {
      MulMono(-k + 1, q, b);
    }
  }

  /** Moving by whole samples moves the indices by as many. */
  lemma DivShift(a: int, b: int, c: int)
    requires b > 0
    ensures DivFloor(a + c * b, b) == DivFloor(a, b) + c
    ensures DivCeil(a + c * b, b) == DivCeil(a, b) + c
  {
    DivUnique(a + c * b, b, a / b + c, a % b);
    DivUnique(-a - c * b, b, -a / b - c, -a % b);
  }

  lemma IndexShift(r: Rates, pos: int, c: int, ahead: nat)
    requires r.Valid()
    ensures Floor(pos + c * 0x1_0000_0000) == Floor(pos) + c && Frac(pos + c * 0x1_0000_0000) == Frac(pos)
    ensures FirstDown(r, pos + c * 0x1_0000_0000) == FirstDown(r, pos) + c
    ensures LastDown(r, pos + c * 0x1_0000_0000, ahead) == LastDown(r, pos, ahead) + c
  {
    hide DivFloor, DivCeil;
    var o, b := r.output, 0x1_0000_0000 * r.output;
    assert (pos + c * 0x1_0000_0000) * o == pos * o + c * b by {
      MulDistr(o, pos, c * 0x1_0000_0000);
      MulAssoc(c, 0x1_0000_0000, o);
    }
    DivShift(pos * o - CENTER * r.input * 0x1_0000_0000, b, c);
    DivShift(pos * o + (64 + ahead) * r.input * 0x1_0000_0000, b, c);
  }

  // ---------------------------------------------------------------- bounds

  /** The position before an output of the next frame, in rate units. */
  lemma PositionScaled(r: Rates, p: nat, consumed: nat)
    requires r.Valid()
    ensures Position(r, p, consumed) * r.output ==
            p * Step(r) * r.output - (Delay(r) * r.output + consumed * r.output) * 0x1_0000_0000
  {
    hide Step, Delay;
    var o, s, d := r.output, p * Step(r), Delay(r);
    MulDistr(o, s, -(d + consumed) * 0x1_0000_0000);
    MulAssoc(d + consumed, 0x1_0000_0000, o);
    MulAssoc(d + consumed, o, 0x1_0000_0000);
    MulDistr(o, d, consumed);
  }

  /** No output reads past the end of its frame: the repeat-last-sample branches never run, for any
      frame length, up or down, alone or in a block of eight. */
  lemma NeverPastEnd(r: Rates, produced: nat, consumed: nat, n: nat, p: nat, ahead: nat)
    requires r.Valid() && Behind(r, produced, consumed)
    requires produced <= p && p + ahead < produced + OutCount(r, n)
    ensures Position(r, p, consumed) * r.output +
            (64 + ahead) * r.input * 0x1_0000_0000 < n * (0x1_0000_0000 * r.output)
    ensures LastDown(r, Position(r, p, consumed), ahead) < n
    ensures r.Up() ==> Floor(Position(r, p, consumed)) + 64 < n
  {
    hide Step, Delay, DivFloor, Behind, Position, OutCount;
    var i, o, pos := r.input, r.output, Position(r, p, consumed);
    DueInFrame(r, produced, consumed, n, p, ahead);
    StepsBound(r, p);
    DelayBounds(r);
    PositionScaled(r, p, consumed);
    MulAssoc(p, i, ONE);
    assert (consumed + n) * o == consumed * o + n * o by { MulDistr(o, consumed, n); }
    assert (64 + ahead) * i == 64 * i + ahead * i by { MulDistr(i, 64, ahead); }
    var a := pos * o + (64 + ahead) * i * 0x1_0000_0000;
    assert a < n * o * 0x1_0000_0000;
    MulAssoc(n, 0x1_0000_0000, o);
    MulAssoc(n, o, 0x1_0000_0000);
    DivFloorLess(a, 0x1_0000_0000 * o, n);
    if r.Up() {
      UpPastEnd(r, p, consumed, n);
    }
  }

  /** The same for the position alone when upsampling, where the delay is exactly 64 samples. */
  lemma UpPastEnd(r: Rates, p: nat, consumed: nat, n: nat)
    requires r.Valid() && r.Up() && p * r.input < (consumed + n) * r.output
    ensures Floor(Position(r, p, consumed)) + 64 < n
  {
    hide Step;
    var i, o := r.input, r.output;
    StepsBound(r, p);
    MulAssoc(p, i, ONE);
    MulAssoc(consumed + n, o, ONE);
    MulAssoc(consumed + n, ONE, o);
    assert p * Step(r) * o < (consumed + n) * ONE * o;
    if p * Step(r) >= (consumed + n) * ONE {
      MulMono((consumed + n) * ONE, p * Step(r), o);
    }
  }

  /** The first sample an output reads lies within the history. */
  predicate WindowKept(r: Rates, pos: int)
    requires r.Valid()
  {
    if r.Up() then Floor(pos) - CENTER >= -HISTORY else FirstDown(r, pos) >= -HISTORY
  }

  /** The exact condition for that, in terms of how far the clock is behind. */
  lemma WindowKeptExactly(r: Rates, p: nat, consumed: nat)
    requires r.Valid()
    ensures WindowKept(r, Position(r, p, consumed)) <==> HistoryReaches(r, Lag(r, p, consumed))
  {
    hide Step, DivCeil, Delay, Position, SupportedRate;
    if r.Up() {
      UpPosition(r, p, consumed);
    } else {
      DownWindow(r, p, consumed);
    }
  }

  lemma DownWindow(r: Rates, p: nat, consumed: nat)
    requires r.Valid() && !r.Up()
    ensures FirstDown(r, Position(r, p, consumed)) >= -HISTORY <==> HistoryReaches(r, Lag(r, p, consumed))
  {
    var i, o, pos, lag := r.input, r.output, Position(r, p, consumed), Lag(r, p, consumed);
    assert o > 0;
    hide Step, DivCeil, Delay, Position, SupportedRate;
    ScaledLag(r, p, consumed);
    MulAssoc(HISTORY + 1, ONE, o);
    MulAssoc(HISTORY + 1, o, ONE);
    DivCeilAtLeast(pos * o - CENTER * i * 0x1_0000_0000, 0x1_0000_0000 * o, -HISTORY);
  }

  lemma ScaledLag(r: Rates, p: nat, consumed: nat)
    requires r.Valid()
    ensures Position(r, p, consumed) * r.output == -(Lag(r, p, consumed) * r.output) - Delay(r) * r.output * ONE
  {
    hide Step, Delay, Position, SupportedRate;
    PositionScaled(r, p, consumed);
    MulAssoc(consumed, r.output, 0x1_0000_0000);
    MulAssoc(consumed, 0x1_0000_0000, r.output);
  }

  /** Every output reaches back at most 1024 samples if and only if the first one of the run does. */
  lemma NeverBeforeHistory(r: Rates, produced: nat, consumed: nat)
    requires r.Valid()
    ensures HistoryReaches(r, Lag(r, produced, consumed)) <==>
            forall p: nat :: produced <= p ==> WindowKept(r, Position(r, p, consumed))
  {
    hide Step, WindowKept, Position, HistoryReaches, SupportedRate;
    WindowKeptExactly(r, produced, consumed);
    if HistoryReaches(r, Lag(r, produced, consumed)) {
      forall p: nat | produced <= p ensures WindowKept(r, Position(r, p, consumed)) {
        LaterKept(r, produced, consumed, p);
      }
    }
  }

  lemma LaterKept(r: Rates, produced: nat, consumed: nat, p: nat)
    requires r.Valid() && HistoryReaches(r, Lag(r, produced, consumed)) && produced <= p
    ensures WindowKept(r, Position(r, p, consumed))
  {
    hide Step, WindowKept, Position, HistoryReaches, SupportedRate;
    LaterReaches(r, produced, consumed, p);
    WindowKeptExactly(r, p, consumed);
  }

  lemma LaterReaches(r: Rates, produced: nat, consumed: nat, p: nat)
    requires r.Valid() && HistoryReaches(r, Lag(r, produced, consumed)) && produced <= p
    ensures HistoryReaches(r, Lag(r, p, consumed))
  {
    assert r.output > 0;
    hide Step, Delay, SupportedRate;
    MulMono(produced, p, Step(r));
    MulMono(Lag(r, p, consumed), Lag(r, produced, consumed), r.output);
  }

  lemma UpPosition(r: Rates, p: nat, consumed: nat)
    requires r.Valid() && r.Up()
    ensures Position(r, p, consumed) == -64 * ONE - Lag(r, p, consumed)
  {
  }

  // ---------------------------------------------------------------- 64-bit position

  const INT64_MAX := 0x7FFF_FFFF_FFFF_FFFF

  /** From frame start to frame end the position stays between -2048 samples and the frame's length,
      so it fits 64 bits for every frame length that fits the code's int. */
  lemma PositionRange(r: Rates, produced: nat, consumed: nat, n: nat, p: nat)
    requires r.Valid() && Behind(r, produced, consumed)
    requires HistoryReaches(r, Lag(r, produced, consumed))
    requires produced <= p <= produced + OutCount(r, n)
    ensures -2048 * ONE <= Position(r, p, consumed) <= n * ONE
    ensures n < 0x8000_0000 ==> -INT64_MAX <= Position(r, p, consumed) <= INT64_MAX
  {
    hide Step, Delay, OutCount, Behind;
    var i, o := r.input, r.output;
    BehindStep(r, produced, consumed, n);
    BehindTotal(r, p, produced + OutCount(r, n), consumed + n);
    StepsBound(r, p);
    MulAssoc(p, i, ONE);
    MulAssoc(consumed + n, o, ONE);
    MulAssoc(consumed + n, ONE, o);
    CancelMul(p * Step(r), (consumed + n) * ONE, o);
    MulMono(produced, p, Step(r));
    LagBound(r, Lag(r, produced, consumed));
    DelayBounds(r);
    CancelMul(Delay(r), 385, o);
  }

  lemma BehindTotal(r: Rates, p: nat, total: nat, consumed: nat)
    requires p <= total && Behind(r, total, consumed)
    ensures p * r.input <= consumed * r.output
  {
    MulMono(p, total, r.input);
  }

  lemma LagBound(r: Rates, lag: int)
    requires r.Valid() && HistoryReaches(r, lag)
    ensures lag <= HISTORY * ONE
  {
    DelayBounds(r);
    assert r.output > 0 && r.input > 0;
    hide SupportedRate, Delay;
    if !r.Up() {
      assert lag * r.output <= HISTORY * ONE * r.output by {
        MulAssoc(HISTORY, ONE, r.output);
      }
      CancelMul(lag, HISTORY * ONE, r.output);
    }
  }

  // ---------------------------------------------------------------- frames that are not exact

  const CLIENT_FRAME := 880
  const CLIENT_OUTPUTS := 957

  /** The repository's client sends 880 samples per 20 ms at 44100 Hz. Upsampled to 48000 Hz each gives
      957 outputs instead of 957.8 and the clock falls behind. After up to 1186 frames the next one still
      reads within the history, after 1187 it does not. */
  lemma ClientFramesDrift(frames: nat)
    ensures var r := Rates(44100, 48000);
            && r.Valid() && OutCount(r, CLIENT_FRAME) == CLIENT_OUTPUTS
            && (WindowKept(r, Position(r, CLIENT_OUTPUTS * frames, CLIENT_FRAME * frames)) <==> frames <= 1186)
  {
    var r := Rates(44100, 48000);
    assert Step(r) == 3946001203;
    WindowKeptExactly(r, CLIENT_OUTPUTS * frames, CLIENT_FRAME * frames);
  }
}
