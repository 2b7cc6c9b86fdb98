/** The linear resampler (src/processing/resample.c): a two-tap polyphase path for 8, 16 and 24 kHz to
    48 kHz, and a 32.32 fixed-point path for the other rates. */
module LinearResample {
  import opened Arith
  import opened Bytes
  import opened ResampleClock

  // The first two columns of the coefficient tables; the other six are zero padding.
  const COEFFS_8_48: seq<seq<int>> := [[32767, 0], [27306, 5461], [21845, 10922], [16384, 16384], [10922, 21845],
    [5461, 27306]]
  const COEFFS_16_48: seq<seq<int>> := [[32767, 0], [21845, 10922], [10922, 21845]]
  const COEFFS_24_48: seq<seq<int>> := [[32767, 0], [16384, 16384]]

  /** The table resampler_init selects, if any: one row per phase. */
  function Table(input: nat, output: nat): seq<seq<int>> {
    if input == 8000 && output == 48000 then COEFFS_8_48
    else if input == 16000 && output == 48000 then COEFFS_16_48
    else if input == 24000 && output == 48000 then COEFFS_24_48
    else []
  }

  predicate Rows(table: seq<seq<int>>) {
    forall p :: 0 <= p < |table| ==> |table[p]| == 2
  }

  /** The next sample, the last one repeated. */
  function Next(x: seq<int16>, i: nat): int16
    requires i < |x|
  {
    if i + 1 < |x| then x[i + 1] else x[i]
  }

  // ---------------------------------------------------------------- polyphase path

  function Weighted(row: seq<int>, x0: int, x1: int): int
    requires |row| == 2
  {
    (x0 * row[0] + x1 * row[1]) / 32768
  }

  /** The weights of phase p are within a unit of the exact ones, and together at most one. */
  predicate Weights(phases: nat, p: nat, c0: int, c1: int) {
    && p < phases <= 6 && 0 <= c0 && 0 <= c1 && c0 + c1 <= 32768
    && 0 <= (phases - p) * 32768 - phases * c0 && 0 <= p * 32768 - phases * c1
    && (phases - p) * 32768 - phases * c0 + p * 32768 - phases * c1 <= phases
  }

  lemma TableWeights(input: nat, output: nat, p: nat)
    requires p < |Table(input, output)|
    ensures var table := Table(input, output);
            Rows(table) && Weights(|table|, p, table[p][0], table[p][1])
  {
  }

  /** Within two units of exact interpolation, times the number of phases. */
  predicate Close(phases: nat, p: nat, y: int, x0: int, x1: int)
    requires p <= phases
  {
    -2 * phases <= phases * y - Exact(phases, p, x0, x1) <= 2 * phases
  }

  /** Phase p of a table is within two units of exact interpolation at p of its phases, and fits 16 bits. */
  lemma PhaseError(input: nat, output: nat, p: nat, x0: int16, x1: int16)
    requires p < |Table(input, output)|
    ensures Rows(Table(input, output))
    ensures var table := Table(input, output);
            var phases, y := |table|, Weighted(table[p], x0, x1);
            -0x8000 <= y <= 0x7FFF && Close(phases, p, y, x0, x1)
  {
    hide Table, Close;
    TableWeights(input, output, p);
    var table := Table(input, output);
    WeightedError(|table|, p, table[p], x0, x1);
  }

  lemma WeightedError(phases: nat, p: nat, row: seq<int>, x0: int16, x1: int16)
    requires |row| == 2 && Weights(phases, p, row[0], row[1])
    ensures var y := Weighted(row, x0, x1);
            -0x8000 <= y <= 0x7FFF && Close(phases, p, y, x0, x1)
  {
    hide Exact;
    var c0, c1 := row[0], row[1];
    var acc, y := x0 * c0 + x1 * c1, Weighted(row, x0, x1);
    assert y * 32768 <= acc < y * 32768 + 32768;
    AccRange(c0, c1, x0, x1);
    Scaled(phases, y, acc);
    AccError(phases, p, c0, c1, x0, x1);
  }

  lemma AccRange(c0: int, c1: int, x0: int16, x1: int16)
    requires 0 <= c0 && 0 <= c1 && c0 + c1 <= 32768
    ensures -32768 * 32768 <= x0 * c0 + x1 * c1 <= 32767 * 32768
  {
    var a0 := Part(x0, c0);
    var a1 := Part(x1, c1);
  }

  lemma AccError(phases: nat, p: nat, c0: int, c1: int, x0: int16, x1: int16)
    requires Weights(phases, p, c0, c1)
    ensures -32768 * phases <= 32768 * Exact(phases, p, x0, x1) - phases * (x0 * c0 + x1 * c1) <= 32768 * phases
  {
    var e0, e1 := (phases - p) * 32768 - phases * c0, p * 32768 - phases * c1;
    var d0 := Part(x0, e0);
    var d1 := Part(x1, e1);
    Residue(x0, phases - p, phases, c0);
    Residue(x1, p, phases, c1);
    MulDistr(phases, x0 * c0, x1 * c1);
  }

  lemma Residue(x: int, k: int, phases: int, c: int)
    ensures x * (k * 32768 - phases * c) == 32768 * (k * x) - phases * (x * c)
  {
    MulDistr(x, k * 32768, -(phases * c));
    MulAssoc(x, k, 32768);
    MulAssoc(phases, x, c);
    assert x * (phases * c) == phases * (x * c);
  }

  lemma Part(x: int16, c: int) returns (p: int)
    requires c >= 0
    ensures p == x * c && -32768 * c <= p <= 32767 * c
  {
    p := x * c;
    MulMono(-32768, x, c);
    MulMono(x, 32767, c);
  }

  lemma Scaled(phases: nat, y: int, acc: int)
    requires y * 32768 <= acc < y * 32768 + 32768
    ensures phases * y * 32768 <= phases * acc <= phases * y * 32768 + phases * 32768
  {
    MulMono(y * 32768, acc, phases);
    MulMono(acc, y * 32768 + 32768, phases);
  }

  /** phases times the exact value between two samples. */
  function Exact(phases: nat, p: nat, x0: int, x1: int): int
    requires p <= phases
  {
    (phases - p) * x0 + p * x1
  }

  /** The phase that falls on an input sample loses one unit of every positive sample. */
  lemma CopiedPhase(input: nat, output: nat, x0: int16, x1: int16)
    requires Table(input, output) != []
    ensures Rows(Table(input, output))
    ensures Weighted(Table(input, output)[0], x0, x1) == if x0 > 0 then x0 - 1 else if x0 == -0x8000 then -0x7FFF
            else x0 as int
  {
    var y := Weighted([32767, 0], x0, x1);
    assert x1 * 0 == 0;
    assert y * 32768 <= x0 * 32767 < y * 32768 + 32768;
  }

  /** Output j of the polyphase path: phase j mod phases between samples j / phases and the next. */
  function PhaseOutput(table: seq<seq<int>>, x: seq<int16>, j: nat): int
    requires Rows(table) && j < |x| * |table|
  {
    SlotInRange(|x|, |table|, j);
    Weighted(table[j % |table|], x[j / |table|], Next(x, j / |table|))
  }

  lemma SlotInRange(n: nat, phases: nat, j: nat)
    requires j < n * phases
    ensures phases > 0 && 0 <= j / phases < n && j % phases < phases
  {
    DivRange(j, phases, 0, n);
  }

  /** Where phase p of sample i is written. */
  function Slot(phases: nat, i: nat, p: nat): nat { i * phases + p }

  /** Each (sample, phase) pair has its own slot. */
  lemma SlotOf(n: nat, phases: nat, i: nat, p: nat)
    requires i < n && p < phases
    ensures Slot(phases, i, p) < n * phases && Slot(phases, i, p) / phases == i && Slot(phases, i, p) % phases == p
  {
    MulMono(i + 1, n, phases);
    DivUnique(i * phases + p, phases, i, p);
  }

  // ---------------------------------------------------------------- fixed-point path

  function LinearStep(input: nat, output: nat): (step: nat)
    requires output > 0
  {
    DivNonNegative(input * 0x1_0000_0000, output);
    input * 0x1_0000_0000 / output
  }

  /** The accumulator at output i. */
  function LinearPosition(input: nat, output: nat, i: nat): nat
    requires output > 0
  {
    i * LinearStep(input, output)
  }

  lemma NextPosition(input: nat, output: nat, i: nat)
    requires output > 0
    ensures LinearPosition(input, output, 0) == 0
    ensures LinearPosition(input, output, i + 1) == LinearPosition(input, output, i) + LinearStep(input, output)
  {
    hide LinearStep;
    MulDistr(LinearStep(input, output), i, 1);
  }

  /** The sample before output i. */
  function Index(input: nat, output: nat, i: nat): nat
    requires output > 0
  {
    LinearPosition(input, output, i) / 0x1_0000_0000
  }

  /** The 16-bit fraction after it. */
  function Fraction(input: nat, output: nat, i: nat): nat
    requires output > 0
  {
    LinearPosition(input, output, i) / 0x1_0000 % 0x1_0000
  }

  function Interpolate(x0: int, x1: int, frac: nat): int {
    x0 + (x1 - x0) * frac / 0x1_0000
  }

  /** The product the code forms in 32 bits. */
  predicate ProductFits(x0: int, x1: int, frac: nat) {
    -0x8000_0000 <= (x1 - x0) * frac < 0x8000_0000
  }

  /** The 32-bit product is right for every fraction exactly when the samples are at most 32768 apart. */
  lemma ProductFitsExactly(x0: int16, x1: int16)
    ensures (forall frac: nat :: frac < 0x1_0000 ==> ProductFits(x0, x1, frac)) <==> -32768 <= x1 - x0 <= 32768
  {
    if -32768 <= x1 - x0 <= 32768 {
      forall frac: nat | frac < 0x1_0000 ensures ProductFits(x0, x1, frac) {
        MulMono(x1 - x0, 32768, frac);
        MulMono(-32768, x1 - x0, frac);
      }
    } else {
      assert !ProductFits(x0, x1, 0xFFFF);
    }
  }

  /** An interpolated sample lies between its neighbours. */
  lemma BetweenNeighbours(x0: int16, x1: int16, frac: nat)
    requires frac < 0x1_0000
    ensures var y := Interpolate(x0, x1, frac);
            (x0 <= y <= x1 || x1 <= y <= x0) && -0x8000 <= y < 0x8000
  {
    var d := x1 - x0;
    if d >= 0 {
      MulMono(0, d, frac);
      MulMono(frac, 0x1_0000, d);
    } else {
      MulMono(d, 0, frac);
      MulMono(frac, 0x1_0000, -d);
    }
    var q := d * frac / 0x1_0000;
    assert q * 0x1_0000 <= d * frac < q * 0x1_0000 + 0x1_0000;
  }

  /** Every index is within the input. */
  lemma IndexInRange(input: nat, output: nat, n: nat, i: nat)
    requires input > 0 && output > 0 && i < n * output / input
    ensures Index(input, output, i) < n
  {
    hide LinearStep;
    var step := LinearStep(input, output);
    StepBelow(input, output);
    BelowQuotient(n * output, input, i);
    assert i * step * output <= i * input * 0x1_0000_0000 by {
      MulAssoc(i, step, output);
      MulAssoc(i, input, 0x1_0000_0000);
      MulMono(step * output, input * 0x1_0000_0000, i);
    }
    assert n * output * 0x1_0000_0000 == n * 0x1_0000_0000 * output by {
      MulAssoc(n, output, 0x1_0000_0000);
      MulAssoc(n, 0x1_0000_0000, output);
    }
    if i * step >= n * 0x1_0000_0000 {
      MulMono(n * 0x1_0000_0000, i * step, output);
    }
  }

  lemma BelowQuotient(a: nat, b: nat, i: nat)
    requires b > 0 && i < a / b
    ensures i * b < a
  {
    DivBounds(a, b);
    MulMono(i + 1, a / b, b);
  }

  lemma StepBelow(input: nat, output: nat)
    requires output > 0
    ensures var step := LinearStep(input, output);
            step * output <= input * 0x1_0000_0000 < step * output + output
  {
    DivBounds(input * 0x1_0000_0000, output);
    MulDistr(output, LinearStep(input, output), 1);
  }

  /** What the truncated step loses per output, in units of 1/output. */
  function Loss(input: nat, output: nat): (r: nat)
    requires output > 0
    ensures r < output
  {
    StepBelow(input, output);
    input * 0x1_0000_0000 - LinearStep(input, output) * output
  }

  /** For the first 2^32 outputs the index is the exact floor(i * in / out) or one less, and it is
      exact if and only if the accumulated loss has not yet eaten the exact fraction. */
  lemma IndexIsFloor(input: nat, output: nat, i: nat)
    requires output > 0 && i <= 0x1_0000_0000
    ensures var exact := i * input / output;
            var fraction := i * input - exact * output;
            && exact - 1 <= Index(input, output, i) <= exact
            && (Index(input, output, i) == exact <==> i * Loss(input, output) <= fraction * 0x1_0000_0000)
  {
    hide LinearStep, Loss;
    var loss, exact := Loss(input, output), i * input / output;
    DivBounds(i * input, output);
    DivNonNegative(i * input, output);
    var fraction := i * input - exact * output;
    MulDistr(output, exact, 1);
    PositionTimes(input, output, i);
    MulMono(i, 0x1_0000_0000, loss);
    MulStrict(loss, output, 0x1_0000_0000);
    PositionFloor(i * LinearStep(input, output), output, exact, fraction, i * loss);
  }

  lemma PositionTimes(input: nat, output: nat, i: nat)
    requires output > 0
    ensures i * LinearStep(input, output) * output == i * input * 0x1_0000_0000 - i * Loss(input, output)
  {
    hide LinearStep;
    var step, loss := LinearStep(input, output), Loss(input, output);
    MulAssoc(i, step, output);
    MulAssoc(i, input, 0x1_0000_0000);
    MulDistr(i, step * output, loss);
  }

  lemma PositionFloor(pos: nat, output: nat, exact: nat, fraction: nat, lost: nat)
    requires output > 0 && fraction < output && lost < 0x1_0000_0000 * output
    requires pos * output == (exact * output + fraction) * 0x1_0000_0000 - lost
    ensures exact - 1 <= pos / 0x1_0000_0000 <= exact
    ensures pos / 0x1_0000_0000 == exact <==> lost <= fraction * 0x1_0000_0000
  {
    var base := exact * 0x1_0000_0000;
    assert base * output == exact * output * 0x1_0000_0000 by {
      MulAssoc(exact, output, 0x1_0000_0000);
      MulAssoc(exact, 0x1_0000_0000, output);
    }
    NotBefore(pos - base + 0x1_0000_0000, output, pos * output - base * output + 0x1_0000_0000 * output);
    NotBefore(base + 0x1_0000_0000 - 1 - pos, output, base * output + 0x1_0000_0000 * output - output - pos * output);
    NotBefore(pos - base, output, pos * output - base * output);
  }

  /** The sign of a difference, seen after scaling. */
  lemma NotBefore(d: int, output: int, scaled: int)
    requires output > 0 && scaled == d * output
    ensures d >= 0 <==> scaled >= 0
    ensures d >= 0 <==> scaled > -output
  {
    if d >= 0 {
      MulMono(0, d, output);
    } else {
      MulMono(d, -1, output);
    }
  }

  // ---------------------------------------------------------------- a frame

  predicate Ready(input: nat, output: nat) {
    SupportedRate(input) && SupportedRate(output)
  }

  /** What the fixed-point path needs: no product of adjacent samples overflows. */
  predicate Smooth(x: seq<int16>) {
    forall i :: 0 <= i < |x| - 1 ==> -32768 <= x[i + 1] as int - x[i] as int <= 32768
  }

  function Count(input: nat, output: nat, n: nat): nat
    requires Ready(input, output)
  {
    DivNonNegative(n * output, input);
    n * output / input
  }

  /** One output of the fixed-point path. */
  function LinearOutput(input: nat, output: nat, x: seq<int16>, i: nat): int16
    requires Ready(input, output) && i < Count(input, output, |x|)
  {
    IndexInRange(input, output, |x|, i);
    var idx := Index(input, output, i);
    BetweenNeighbours(x[idx], Next(x, idx), Fraction(input, output, i));
    Interpolate(x[idx], Next(x, idx), Fraction(input, output, i))
  }

  /** The polyphase path makes as many outputs as the rates ask for. */
  lemma PhaseCount(input: nat, output: nat, n: nat)
    requires Ready(input, output) && Table(input, output) != []
    ensures Rows(Table(input, output)) && n * |Table(input, output)| == Count(input, output, n)
    ensures output % input == 0
  {
  }

  function LinearOutputs(input: nat, output: nat, x: seq<int16>): (y: seq<int16>)
    requires Ready(input, output)
    ensures input != output ==> |y| == Count(input, output, |x|)
  {
    if input == output then x
    else if Table(input, output) != [] then
      PhaseCount(input, output, |x|);
      seq<int16>(Count(input, output, |x|), j requires 0 <= j < Count(input, output, |x|) =>
        FittedPhase(input, output, x, j))
    else
      seq(Count(input, output, |x|), i requires 0 <= i < Count(input, output, |x|) => LinearOutput(input, output, x, i))
  }

  function FittedPhase(input: nat, output: nat, x: seq<int16>, j: nat): int16
    requires Table(input, output) != [] && j < |x| * |Table(input, output)|
  {
    SlotInRange(|x|, |Table(input, output)|, j);
    PhaseError(input, output, j % |Table(input, output)|, x[j / |Table(input, output)|],
      Next(x, j / |Table(input, output)|));
    PhaseOutput(Table(input, output), x, j)
  }

  /** The slot written in turn (i, p) is the one the specification puts that value in. */
  lemma PhaseSlot(input: nat, output: nat, x: seq<int16>, i: nat, p: nat)
    requires i < |x| && p < |Table(input, output)|
    ensures var table := Table(input, output);
            && Slot(|table|, i, p) < |x| * |table| && Rows(table)
            && Weighted(table[p], x[i], Next(x, i)) == FittedPhase(input, output, x, Slot(|table|, i, p))
  {
    hide Table, Weighted, Close, Slot;
    SlotOf(|x|, |Table(input, output)|, i, p);
    PhaseError(input, output, p, x[i], Next(x, i));
  }

  /** Each polyphase output is within two units of exact interpolation at its place in the stream. */
  lemma PolyphaseAccurate(input: nat, output: nat, x: seq<int16>, i: nat, p: nat)
    requires Ready(input, output) && i < |x| && p < |Table(input, output)|
    ensures var y, phases := LinearOutputs(input, output, x), |Table(input, output)|;
            && |y| == |x| * phases && Slot(phases, i, p) < |y|
            && Close(phases, p, y[Slot(phases, i, p)], x[i], Next(x, i))
  {
    PhaseCount(input, output, |x|);
    assert input != output;
    hide Table, SupportedRate, Weighted, Close, Count, Next, FittedPhase, Slot;
    PhaseSlot(input, output, x, i, p);
    PhaseError(input, output, p, x[i], Next(x, i));
  }

  /** Each fixed-point output lies between two adjacent samples, the first at the exact index or one
      before it. */
  lemma LinearAccurate(input: nat, output: nat, x: seq<int16>, i: nat)
    requires Ready(input, output) && input != output && Table(input, output) == []
    requires i < Count(input, output, |x|) && i <= 0x1_0000_0000
    ensures var y, k, exact := LinearOutputs(input, output, x)[i], Index(input, output, i), i * input / output;
            && k < |x| && (k == exact || k == exact - 1)
            && (x[k] <= y <= Next(x, k) || Next(x, k) <= y <= x[k])
  {
    assert input > 0;
    hide Table, SupportedRate, Interpolate, Next, Index, LinearPosition;
    IndexInRange(input, output, |x|, i);
    IndexIsFloor(input, output, i);
    var k := Index(input, output, i);
    BetweenNeighbours(x[k], Next(x, k), Fraction(input, output, i));
  }

  /** resample_l16. Equal rates copy what fits; else too small an output buffer gives nothing. */
  method ResampleL16(input: nat, output: nat, x: array<int16>, out: array<int16>) returns (m: nat)
    requires Ready(input, output) && x != out
    requires input != output && Table(input, output) == [] ==> Smooth(x[..])
    modifies out
    ensures m == if input == output then (if x.Length < out.Length then x.Length else out.Length)
                 else if Count(input, output, x.Length) > out.Length then 0
                 else Count(input, output, x.Length)
    ensures m <= |LinearOutputs(input, output, x[..])| && out[..m] == LinearOutputs(input, output, x[..])[..m]
    ensures out[m..] == old(out[m..])
  {
    assert input > 0 && output > 0;
    hide Table, Index, Fraction, LinearStep, LinearOutput, FittedPhase, SupportedRate;
    ghost var o0 := out[..];
    if input == output {
      m := if x.Length < out.Length then x.Length else out.Length;
      forall i | 0 <= i < m {
        out[i] := x[i];
      }
      assert out[m..] == o0[m..];
      return m;
    }
    m := x.Length * output / input;
    assert m == Count(input, output, x.Length);
    if m > out.Length {
      return 0;
    }
    if Table(input, output) != [] {
      Phases(input, output, x, out, m);
    } else {
      Linear(input, output, x, out, m);
    }
    assert out[m..] == o0[m..];
  }

  method Phases(input: nat, output: nat, x: array<int16>, out: array<int16>, m: nat)
    requires Ready(input, output) && x != out && Table(input, output) != [] &&
             m == Count(input, output, x.Length) <= out.Length
    modifies out
    ensures input != output && out[..m] == LinearOutputs(input, output, x[..])
    ensures forall j :: m <= j < out.Length ==> out[j] == old(out[j])
  {
    assert input != output;
    PhaseCount(input, output, x.Length);
    hide Table, Weighted, Count, SupportedRate, Slot, FittedPhase, LinearOutputs;
    var phases := |Table(input, output)|;
    ghost var xs := x[..];
    SlotBounds(phases, x.Length);
    for i := 0 to x.Length
      invariant Slot(phases, i, 0) <= m && x[..] == xs
      invariant forall j :: 0 <= j < Slot(phases, i, 0) ==> out[j] == FittedPhase(input, output, xs, j)
      invariant forall j :: m <= j < out.Length ==> out[j] == old(out[j])
    {
      NextSlot(phases, x.Length, i);
      AllPhases(input, output, x, out, i);
    }
    PhasesIs(input, output, xs, out[..m]);
  }

  /** The inner loop: all phases of one sample. */
  method AllPhases(input: nat, output: nat, x: array<int16>, out: array<int16>, i: nat)
    requires Ready(input, output) && x != out && i < x.Length && Table(input, output) != []
    requires Slot(|Table(input, output)|, i + 1, 0) <= x.Length * |Table(input, output)| <= out.Length
    modifies out
    ensures var phases := |Table(input, output)|;
            && (forall j :: Slot(phases, i, 0) <= j < Slot(phases, i + 1, 0) ==>
               out[j] == FittedPhase(input, output, x[..], j))
            && (forall j :: 0 <= j < out.Length && !(Slot(phases, i, 0) <= j < Slot(phases, i + 1, 0)) ==>
               out[j] == old(out[j]))
  {
    PhaseCount(input, output, x.Length);
    var table := Table(input, output);
    hide Table, Weighted, Count, SupportedRate, Rows, FittedPhase;
    ghost var phases, xs := |table|, x[..];
    NextSlot(phases, x.Length, i);
    var at := i * |table|;
    hide Slot;
    var x1 := NextOf(x, i);
    var x0 := x[i];
    for p := 0 to |table|
      invariant x[..] == xs
      invariant forall j :: at <= j < at + p ==> out[j] == FittedPhase(input, output, xs, j)
      invariant forall j :: 0 <= j < out.Length && !(at <= j < at + p) ==> out[j] == old(out[j])
    {
      PhaseSlot(input, output, xs, i, p);
      SlotIs(phases, i, p);
      out[at + p] := Weighted(table[p], x0, x1);
    }
  }

  lemma SlotIs(phases: nat, i: nat, p: nat)
    ensures Slot(phases, i, p) == Slot(phases, i, 0) + p
  {
  }

  lemma SlotBounds(phases: nat, n: nat)
    ensures Slot(phases, 0, 0) == 0 && Slot(phases, n, 0) == n * phases
  {
  }

  lemma NextSlot(phases: nat, n: nat, i: nat)
    requires i < n
    ensures Slot(phases, i + 1, 0) == Slot(phases, i, 0) + phases <= n * phases
  {
    MulMono(i + 1, n, phases);
    MulDistr(phases, i, 1);
  }

  lemma PhasesIs(input: nat, output: nat, x: seq<int16>, y: seq<int16>)
    requires Ready(input, output) && input != output && Table(input, output) != [] &&
             |y| == Count(input, output, |x|) == |x| * |Table(input, output)|
    requires forall j :: 0 <= j < |y| ==> y[j] == FittedPhase(input, output, x, j)
    ensures y == LinearOutputs(input, output, x)
  {
    hide Table, Count, SupportedRate, FittedPhase;
  }

  method Linear(input: nat, output: nat, x: array<int16>, out: array<int16>, m: nat)
    requires Ready(input, output) && x != out && input != output && Table(input, output) == [] && output > 0
    requires m == Count(input, output, x.Length) <= out.Length && Smooth(x[..])
    modifies out
    ensures out[..m] == LinearOutputs(input, output, x[..])
    ensures forall j :: m <= j < out.Length ==> out[j] == old(out[j])
  {
    hide Ready, Table, Count, LinearOutput, LinearOutputs, LinearStep, LinearPosition, Smooth;
    var stepFp := LinearStep(input, output);
    var posFp: nat := 0;
    NextPosition(input, output, 0);
    ghost var xs := x[..];
    for i := 0 to m
      invariant posFp == LinearPosition(input, output, i) && x[..] == xs
      invariant forall j :: 0 <= j < i ==> out[j] == LinearOutput(input, output, xs, j)
      invariant forall j :: m <= j < out.Length ==> out[j] == old(out[j])
    {
      var v := OneOutput(input, output, x, i, posFp);
      out[i] := v;
      NextPosition(input, output, i);
      posFp := posFp + stepFp;
    }
    LinearIs(input, output, xs, out[..m]);
  }

  lemma LinearIs(input: nat, output: nat, x: seq<int16>, y: seq<int16>)
    requires Ready(input, output) && input != output && Table(input, output) == [] && |y| == Count(input, output, |x|)
    requires forall j :: 0 <= j < |y| ==> y[j] == LinearOutput(input, output, x, j)
    ensures y == LinearOutputs(input, output, x)
  {
    hide Table, Count, SupportedRate, LinearOutput;
  }

  /** One turn of the fixed-point loop. */
  method OneOutput(input: nat, output: nat, x: array<int16>, ghost i: nat, posFp: nat) returns (v: int16)
    requires Ready(input, output) && i < Count(input, output, x.Length) && Smooth(x[..])
    requires output > 0 && posFp == LinearPosition(input, output, i)
    ensures v == LinearOutput(input, output, x[..], i)
  {
    hide LinearOutput, LinearStep, SupportedRate, Count, Smooth, ProductFits, Next, Interpolate;
    AtPosition(input, output, x[..], i, posFp);
    var idx, frac := posFp / 0x1_0000_0000, posFp / 0x1_0000 % 0x1_0000;
    var x1 := NextOf(x, idx);
    var x0 := x[idx];
    assert ProductFits(x0, x1, frac);
    v := Interpolate(x0, x1, frac);
  }

  method NextOf(x: array<int16>, i: nat) returns (v: int16)
    requires i < x.Length
    ensures v == Next(x[..], i)
  {
    v := if i + 1 < x.Length then x[i + 1] else x[i];
  }

  lemma AtPosition(input: nat, output: nat, x: seq<int16>, i: nat, pos: nat)
    requires Ready(input, output) && i < Count(input, output, |x|)
    requires output > 0 && pos == LinearPosition(input, output, i) && Smooth(x)
    ensures var idx, frac := pos / 0x1_0000_0000, pos / 0x1_0000 % 0x1_0000;
            && 0 <= idx < |x| && 0 <= frac < 0x1_0000
            && LinearOutput(input, output, x, i) == Interpolate(x[idx], Next(x, idx), frac)
            && ProductFits(x[idx], Next(x, idx), frac)
  {
    assert input > 0;
    hide LinearStep, Interpolate, SupportedRate, ProductFits;
    IndexInRange(input, output, |x|, i);
    ProductFitsExactly(x[Index(input, output, i)], Next(x, Index(input, output, i)));
  }

  // ---------------------------------------------------------------- as a function of time

  /** The sample after sample k, or k itself at the end. */
  function After(k: nat, n: nat): nat { if k + 1 < n then k + 1 else k }

  /** The straight line through two samples, at a fraction f / 2^32 of the way, times 2^32. */
  function OnLine(x0: int, x1: int, f: nat): int { x0 * 0x1_0000_0000 + (x1 - x0) * f }

  /** The accumulator before output i: i steps of the rate ratio, rounded down. */
  lemma AccumulatorIs(input: nat, output: nat, i: nat)
    requires output > 0
    ensures LinearPosition(input, output, i) == i * (input * 0x1_0000_0000 / output)
  {
  }

  /** Its whole samples and the upper half of its fraction. */
  lemma AccumulatorParts(input: nat, output: nat, i: nat)
    requires output > 0
    ensures var pos := LinearPosition(input, output, i);
            Index(input, output, i) == pos / 0x1_0000_0000 &&
            Fraction(input, output, i) == pos % 0x1_0000_0000 / 0x1_0000
  {
    hide LinearPosition;
  }

  /** Each fixed-point output is the line through the samples around its accumulator, to within two units. */
  lemma LinearValue(input: nat, output: nat, x: seq<int16>, i: nat)
    requires Ready(input, output) && input != output && Table(input, output) == [] && i < Count(input, output, |x|)
    ensures output > 0
    ensures var pos, y := LinearPosition(input, output, i), LinearOutputs(input, output, x)[i];
            var k, f := pos / 0x1_0000_0000, pos % 0x1_0000_0000;
            && 0 <= k < |x|
            && -0x2_0000_0000 < y * 0x1_0000_0000 - OnLine(x[k], x[After(k, |x|)], f) < 0x2_0000_0000
  {
    assert input > 0 && output > 0;
    hide Table, SupportedRate, Interpolate, LinearPosition, LinearStep, OnLine, Index, Fraction;
    IndexInRange(input, output, |x|, i);
    AccumulatorParts(input, output, i);
    var k, f := Index(input, output, i), LinearPosition(input, output, i) % 0x1_0000_0000;
    InterpolateNear(x[k], x[After(k, |x|)], f);
  }

  lemma InterpolateNear(x0: int16, x1: int16, f: nat)
    requires f < 0x1_0000_0000
    ensures var y := Interpolate(x0, x1, f / 0x1_0000);
            -0x2_0000_0000 < y * 0x1_0000_0000 - OnLine(x0, x1, f) < 0x2_0000_0000
  {
    var d, frac, low := x1 - x0, f / 0x1_0000, f % 0x1_0000;
    var q := d * frac / 0x1_0000;
    assert q * 0x1_0000 <= d * frac < q * 0x1_0000 + 0x1_0000;
    assert d * f == d * frac * 0x1_0000 + d * low by {
      assert f == frac * 0x1_0000 + low;
      MulDistr(d, frac * 0x1_0000, low);
      MulAssoc(d, frac, 0x1_0000);
    }
    MulMono(d, 0xFFFF, low);
    MulMono(-0xFFFF, d, low);
    MulMono(low, 0x1_0000, 0xFFFF);
  }

  /** The polyphase path serves 8, 16 and 24 kHz to 48 kHz, with 6, 3 and 2 phases. */
  lemma TablePhases(input: nat, output: nat)
    ensures Table(input, output) != [] <==> output == 48000 && input in {8000, 16000, 24000}
    ensures Table(input, output) != [] ==> |Table(input, output)| * input == output
  {
  }

  /** And so is each of its outputs: slot phases * i + p is p phases-ths of the way from sample i to the next. */
  lemma PolyphaseValue(input: nat, output: nat, x: seq<int16>, i: nat, p: nat)
    requires Ready(input, output) && i < |x| && p < |Table(input, output)|
    ensures var y, phases := LinearOutputs(input, output, x), |Table(input, output)|;
            && |y| == |x| * phases && i * phases + p < |y|
            && Between(phases, p, y[i * phases + p], x[i], x[After(i, |x|)])
  {
    hide Table, LinearOutputs, SupportedRate;
    PolyphaseAccurate(input, output, x, i, p);
  }

  /** Within two units of the point p phases-ths of the way. */
  predicate Between(phases: nat, p: nat, y: int, x0: int, x1: int)
    requires p <= phases
  {
    var exact := phases * x0 + p * (x1 - x0);
    exact - 2 * phases <= phases * y <= exact + 2 * phases
  }
}
