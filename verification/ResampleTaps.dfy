/** Which of the kernel's 128 taps an output of the resampler uses, without reference to how the window's ends
    are computed (src/processing/resample_adv.c:76-118, 184-216, 242-262). */
module ResampleTaps {
  import opened Arith
  import opened Bytes
  import opened ResampleClock
  import opened ResampleWindow
  import opened ResampleStream

  /** Sample k lies between t - 63 s and t + 64 s, or t + ahead * s + 64 s for a block: t is the position, s the
      ratio input / output, and all is scaled by 2^32 * output. */
  predicate Within(r: Rates, pos: int, ahead: nat, k: int) {
    && pos * r.output - 63 * r.input * 0x1_0000_0000 <= k * (0x1_0000_0000 * r.output)
    && k * (0x1_0000_0000 * r.output) <= pos * r.output + (64 + ahead) * r.input * 0x1_0000_0000
  }

  /** The samples from lo to hi are exactly those. */
  ghost predicate Spans(r: Rates, pos: int, ahead: nat, lo: int, hi: int) {
    forall k :: lo <= k <= hi <==> Within(r, pos, ahead, k)
  }

  lemma DivFloorAtLeast(a: int, b: int, k: int)
    requires b > 0
    ensures k <= DivFloor(a, b) <==> k * b <= a
  {
    DivBounds(a, b);
    var q := DivFloor(a, b);
    if k <= q {
      MulMono(k, q, b);
    } else {
      MulMono(q + 1, k, b);
      MulDistr(b, q, 1);
    }
  }

  /** A downsampling window is complete: it has every sample between its bounds, and no other. */
  lemma WindowSpans(r: Rates, pos: int, ahead: nat)
    requires r.Valid()
    ensures Spans(r, pos, ahead, FirstDown(r, pos), LastDown(r, pos, ahead))
  {
    var b := 0x1_0000_0000 * r.output;
    assert b > 0;
    hide DivFloor, DivCeil, SupportedRate;
    forall k ensures FirstDown(r, pos) <= k <= LastDown(r, pos, ahead) <==> Within(r, pos, ahead, k) {
      DivFloorAtLeast(pos * r.output + (64 + ahead) * r.input * 0x1_0000_0000, b, k);
      DivCeilAtLeast(pos * r.output - CENTER * r.input * 0x1_0000_0000, b, k + 1);
    }
  }

  // ---------------------------------------------------------------- the taps of a downsampled output

  /** How far sample k lies before output time t + lane * s, in units of s, rounded down, and counted from the
      kernel's centre: the tap the code gives it. */
  function Tap(r: Rates, pos: int, lane: nat, k: int): int
    requires r.Valid()
  {
    DivFloor(Before(r, pos, k), r.input * 0x1_0000_0000) + 63 + lane
  }

  function Before(r: Rates, pos: int, k: int): int { pos * r.output - k * (0x1_0000_0000 * r.output) }

  lemma TapBounds(r: Rates, pos: int, lane: nat, k: int, j: int)
    requires r.Valid()
    ensures j <= Tap(r, pos, lane, k) <==> (j - 63 - lane) * (r.input * 0x1_0000_0000) <= Before(r, pos, k)
  {
    assert r.input > 0;
    hide DivFloor, SupportedRate, Before;
    DivFloorAtLeast(Before(r, pos, k), r.input * 0x1_0000_0000, j - 63 - lane);
  }

  predicate HasTap(r: Rates, pos: int, lane: nat, k: int)
    requires r.Valid()
  {
    0 <= Tap(r, pos, lane, k) <= 127
  }

  /** The loop of a single output looks at the samples from t - 63 s to t + 64 s, but the taps belong to those
      after t - 65 s and up to t + 63 s. So the samples that count are those within 63 s on either side. The
      ones before, which the last taps belong to, are not looked at; the ones after have no tap. */
  lemma SingleTaps(r: Rates, pos: int, k: int)
    requires r.Valid()
    ensures var unit, d := r.input * 0x1_0000_0000, Before(r, pos, k);
            && (Within(r, pos, 0, k) && HasTap(r, pos, 0, k) <==> -63 * unit <= d <= 63 * unit)
            && (!Within(r, pos, 0, k) && HasTap(r, pos, 0, k) <==> 63 * unit < d < 65 * unit)
            && (Within(r, pos, 0, k) && !HasTap(r, pos, 0, k) <==> -64 * unit <= d < -63 * unit)
  {
    assert r.input > 0;
    hide Tap, SupportedRate;
    TapBounds(r, pos, 0, k, 0);
    TapBounds(r, pos, 0, k, 128);
  }

  /** There always are such samples before: at every position, tap 126 belongs to the sample just before the
      window. */
  lemma SingleMisses(r: Rates, pos: int)
    requires r.Valid() && !r.Up()
    ensures var k := FirstDown(r, pos) - 1;
            Tap(r, pos, 0, k) == 126 && !Within(r, pos, 0, k)
  {
    var k := FirstDown(r, pos) - 1;
    MissedRange(r, pos);
    TapBounds(r, pos, 0, k, 126);
    TapBounds(r, pos, 0, k, 127);
  }

  /** The sample just before the window is less than one step of the kernel before it. */
  lemma MissedRange(r: Rates, pos: int)
    requires r.Valid() && !r.Up()
    ensures var unit, d := r.input * 0x1_0000_0000, Before(r, pos, FirstDown(r, pos) - 1);
            63 * unit < d < 64 * unit
  {
    var k, b := FirstDown(r, pos), 0x1_0000_0000 * r.output;
    assert 0 < r.output < r.input;
    hide DivFloor, DivCeil, SupportedRate;
    DivCeilAtLeast(pos * r.output - CENTER * r.input * 0x1_0000_0000, b, k);
    DivCeilAtLeast(pos * r.output - CENTER * r.input * 0x1_0000_0000, b, k + 1);
    MulDistr(b, k, -1);
  }

  /** A lane of a block looks at all samples that have a tap if and only if it is not one of the first two. */
  lemma LaneTaps(r: Rates, pos: int, lane: nat)
    requires r.Valid() && !r.Up() && lane < 8
    ensures (forall k :: HasTap(r, pos, lane, k) ==> Within(r, pos, 7, k)) <==> lane >= 2
  {
    hide HasTap, Within, SupportedRate;
    if lane >= 2 {
      forall k | HasTap(r, pos, lane, k) ensures Within(r, pos, 7, k) {
        LaneWithin(r, pos, lane, k);
      }
    } else {
      LaneMisses(r, pos, lane);
    }
  }

  lemma LaneWithin(r: Rates, pos: int, lane: nat, k: int)
    requires r.Valid() && 2 <= lane < 8 && HasTap(r, pos, lane, k)
    ensures Within(r, pos, 7, k)
  {
    hide Tap, SupportedRate;
    var unit := r.input * 0x1_0000_0000;
    TapBounds(r, pos, lane, k, 0);
    TapBounds(r, pos, lane, k, 128);
    MulMono(-70, -63 - lane, unit);
    MulMono(65 - lane, 63, unit);
  }

  lemma LaneMisses(r: Rates, pos: int, lane: nat)
    requires r.Valid() && !r.Up() && lane < 2
    ensures var k := FirstDown(r, pos) - 1; HasTap(r, pos, lane, k) && !Within(r, pos, 7, k)
  {
    hide Tap, SupportedRate, FirstDown;
    var unit, k := r.input * 0x1_0000_0000, FirstDown(r, pos) - 1;
    MissedRange(r, pos);
    TapBounds(r, pos, lane, k, 0);
    TapBounds(r, pos, lane, k, 128);
    MulMono(-63 - lane, 63, unit);
    MulMono(64, 65 - lane, unit);
  }

  // ---------------------------------------------------------------- the taps of an upsampled output

  /** Tap j of an upsampled output multiplies the sample 63 - j before the one at its position, and there are 128
      of them. */
  lemma UpTaps(c: Config, s: seq<int16>, i: nat, j: nat)
    requires c.rates.Valid() && c.rates.Up() && j < 128
    requires forall phase, w: seq<int16> :: |w| == 128 ==> c.kernel.up(phase, w) == w[j]
    ensures IdealSingle(c, s, i) == StreamAt(s, Floor(Position(c.rates, i, 0)) - 63 + j)
  {
    hide Position, Floor, StreamAt;
  }

  /** The fraction of its position reaches every output: as one of 1024 phases when upsampling, in full otherwise,
      and with its number for a lane of a block. */
  lemma FractionUsed(c: Config, s: seq<int16>, i: nat, lane: nat)
    requires c.rates.Valid() && lane < 8
    requires forall phase: int, w: seq<int16> :: 0 <= phase < 1024 ==> c.kernel.up(phase, w) == phase
    requires forall f: nat, w: seq<int16> :: f < 0x1_0000_0000 ==> c.kernel.down(f, w) == f / 0x2_0000
    requires forall f: nat, w: seq<int16>, n: nat :: f < 0x1_0000_0000 && n < 8 ==>
               c.kernel.block(f, w, n) == f / 0x20_0000 + 2048 * n
    ensures var f := Position(c.rates, i, 0) % 0x1_0000_0000;
            && (c.rates.Up() ==> IdealSingle(c, s, i) == f / 0x40_0000)
            && (!c.rates.Up() ==> IdealSingle(c, s, i) == f / 0x2_0000)
            && IdealLane(c, s, i, lane) == f / 0x20_0000 + 2048 * lane
  {
    hide Position, Floor, Segment, FirstDown, LastDown, Rates.Valid;
    PhaseInTable(Position(c.rates, i, 0));
  }
}
