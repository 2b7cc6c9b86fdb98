/** The mutable resampler of src/processing/resample_adv.c: it reads a frame from memory, writes its
    outputs to memory, and updates position and history. Proved against ResampleStream. */
module StreamResampling {
  import opened Arith
  import opened Bytes
  import opened Memory
  import opened ResampleClock
  import opened ResampleWindow
  import opened ResampleStream
  import opened ResampleTaps

  /** resampler_init: fails exactly for an unsupported rate. */
  method ResamplerInit(input: nat, output: nat, kernel: Kernel, avx2: bool) returns (r: Option<StreamResampler>)
    requires input != output
    ensures r.Some? <==> SupportedRate(input) && SupportedRate(output)
    ensures r.Some? ==> fresh(r.value) && fresh(r.value.delayBuf) && r.value.Valid() &&
                        r.value.config == Config(Rates(input, output), kernel, avx2) &&
                          r.value.Abs() == Start(r.value.config)
  {
    if !SupportedRate(input) || !SupportedRate(output) {
      return None;
    }
    var state := new StreamResampler(Config(Rates(input, output), kernel, avx2));
    r := Some(state);
  }

  class StreamResampler {
    const config: Config
    var posFp: int
    const delayBuf: array<int16>

    ghost predicate Valid()
    {
      config.rates.Valid() && delayBuf.Length == HISTORY
    }

    ghost function Abs(): (st: Resampler)
      requires Valid()
      reads this, delayBuf
      ensures |st.history| == HISTORY
    {
      Resampler(posFp, delayBuf[..])
    }

    constructor (config: Config)
      requires config.rates.Valid()
      ensures Valid() && fresh(delayBuf) && this.config == config
      ensures Abs() == Start(config)
    {
      this.config := config;
      posFp := Origin(config.rates);
      delayBuf := new int16[HISTORY](_ => 0);
    }

    /** One sample by its index relative to the frame. */
    method FetchSample(mem: array<byte>, inOff: nat, n: nat, k: int) returns (v: int16)
      requires Valid() && n > 0 && inOff + 2 * n <= mem.Length
      ensures v == Fetch(delayBuf[..], Samples(mem[..], inOff, n), k)
    {
      if k < 0 {
        v := delayBuf[if HISTORY + k < 0 then 0 else HISTORY + k];
      } else if k >= n {
        v := LoadSample(mem, inOff + 2 * (n - 1));
      } else {
        v := LoadSample(mem, inOff + 2 * k);
      }
    }

    /** The polyphase branch: it points into the frame where it can and pads at the edges. */
    method UpSample(mem: array<byte>, inOff: nat, n: nat) returns (v: int16)
      requires Valid() && config.rates.Up() && n > 0 && inOff + 2 * n <= mem.Length
      requires Floor(posFp) - CENTER >= -HISTORY
      ensures v == Single(config, delayBuf[..], Samples(mem[..], inOff, n), posFp)
    {
      hide Floor, Phase, Rates.Valid, FetchRange, SampleAt, Samples;
      var idx := Floor(posFp);
      var window: seq<int16>;
      if CENTER <= idx < n - (TAPS - CENTER) {
        window := Samples(mem[..], inOff + 2 * (idx - CENTER), TAPS);
        DirectWindow(mem[..], inOff, n, idx - CENTER, delayBuf[..]);
      } else {
        window := PaddedWindow(mem, inOff, n, idx);
      }
      v := config.kernel.up(Phase(posFp), window);
    }

    method PaddedWindow(mem: array<byte>, inOff: nat, n: nat, idx: int) returns (window: seq<int16>)
      requires Valid() && n > 0 && inOff + 2 * n <= mem.Length && idx - CENTER >= -HISTORY
      ensures window == FetchRange(delayBuf[..], Samples(mem[..], inOff, n), idx - CENTER, idx + 64)
    {
      hide SampleAt, Rates.Valid;
      ghost var frame := Samples(mem[..], inOff, n);
      var padBuf := new int16[TAPS];
      for j := 0 to TAPS
        invariant fresh(padBuf)
        invariant forall i :: 0 <= i < j ==> padBuf[i] == Fetch(delayBuf[..], frame, idx - CENTER + i)
      {
        var k := idx - CENTER + j;
        if k < 0 {
          padBuf[j] := delayBuf[HISTORY + k];
        } else if k >= n {
          padBuf[j] := LoadSample(mem, inOff + 2 * (n - 1));
        } else {
          padBuf[j] := LoadSample(mem, inOff + 2 * k);
        }
      }
      window := padBuf[..];
    }

    /** The direct pointer sees what padding would have gathered. */
    lemma DirectWindow(m: seq<byte>, inOff: nat, n: nat, lo: nat, history: seq<int16>)
      requires |history| == HISTORY && inOff + 2 * n <= |m| && lo + TAPS <= n
      ensures Samples(m, inOff + 2 * lo, TAPS) == FetchRange(history, Samples(m, inOff, n), lo, lo + TAPS - 1)
    {
      hide SampleAt;
      var a, b := Samples(m, inOff + 2 * lo, TAPS), FetchRange(history, Samples(m, inOff, n), lo, lo + TAPS - 1);
      forall j | 0 <= j < TAPS ensures a[j] == b[j] {
        assert a[j] == SampleAt(m, inOff + 2 * (lo + j));
      }
    }

    /** The scalar convolution's gathering loop. */
    method DownSample(mem: array<byte>, inOff: nat, n: nat) returns (v: int16)
      requires Valid() && !config.rates.Up() && n > 0 && inOff + 2 * n <= mem.Length
      ensures v == Single(config, delayBuf[..], Samples(mem[..], inOff, n), posFp)
      ensures exists lo, hi :: Spans(config.rates, posFp, 0, lo, hi) &&
                v == config.kernel.down(Frac(posFp), FetchRange(delayBuf[..], Samples(mem[..], inOff, n), lo, hi))
    {
      hide Fetch, Frac, FirstDown, LastDown, Spans;
      WindowSpans(config.rates, posFp, 0);
      ghost var frame := Samples(mem[..], inOff, n);
      var kMin, kMax := FirstDown(config.rates, posFp), LastDown(config.rates, posFp, 0);
      var window: seq<int16> := [];
      var k := kMin;
      while k <= kMax
        invariant window == FetchRange(delayBuf[..], frame, kMin, k - 1)
        invariant kMin <= k && (kMin <= kMax + 1 ==> k <= kMax + 1) && (kMin > kMax ==> k == kMin)
      {
        RangeSnoc(delayBuf[..], frame, kMin, k);
        var sample := FetchSample(mem, inOff, n, k);
        window := window + [sample];
        k := k + 1;
      }
      v := config.kernel.down(Frac(posFp), window);
    }

    /** The block kernel's gathering: history first, then the frame, then the last sample. */
    method GatherBlock(mem: array<byte>, inOff: nat, n: nat) returns (window: seq<int16>)
      requires Valid() && n > 0 && inOff + 2 * n <= mem.Length
      ensures window == FetchRange(delayBuf[..], Samples(mem[..], inOff, n),
                                   FirstDown(config.rates, posFp), LastDown(config.rates, posFp, LANES - 1))
    {
      hide FirstDown, LastDown, SampleAt;
      ghost var frame, history := Samples(mem[..], inOff, n), delayBuf[..];
      var kMin, kMax := FirstDown(config.rates, posFp), LastDown(config.rates, posFp, LANES - 1);
      window := [];
      var k := kMin;
      while k < 0 && k <= kMax
        invariant kMin <= k <= (if kMin <= kMax then kMax + 1 else kMin)
        invariant window == FetchRange(history, frame, kMin, k - 1)
      {
        RangeSnoc(history, frame, kMin, k);
        window := window + [delayBuf[if HISTORY + k < 0 then 0 else HISTORY + k]];
        k := k + 1;
      }
      while k < n && k <= kMax
        invariant kMin <= k <= (if kMin <= kMax then kMax + 1 else kMin)
        invariant k >= 0 || k > kMax
        invariant window == FetchRange(history, frame, kMin, k - 1)
      {
        RangeSnoc(history, frame, kMin, k);
        var sample := LoadSample(mem, inOff + 2 * k);
        window := window + [sample];
        k := k + 1;
      }
      while k <= kMax
        invariant kMin <= k <= (if kMin <= kMax then kMax + 1 else kMin)
        invariant k >= n || k > kMax
        invariant window == FetchRange(history, frame, kMin, k - 1)
      {
        RangeSnoc(history, frame, kMin, k);
        var sample := LoadSample(mem, inOff + 2 * (n - 1));
        window := window + [sample];
        k := k + 1;
      }
    }

    /** mac_downsample_avx2: whole blocks of eight outputs, the position advanced once per block. */
    method DownBlocks(mem: array<byte>, inOff: nat, n: nat, outOff: nat, m: nat)
      requires Valid() && !config.rates.Up() && config.avx2 && n > 0 && m == OutCount(config.rates, n)
      requires inOff + 2 * n <= outOff && outOff + 2 * m <= mem.Length && mem as object != delayBuf
      modifies this`posFp, mem
      ensures SameOutside(old(mem[..]), mem[..], outOff, outOff + 2 * (m / 8 * 8))
      ensures forall i :: 0 <= i < m / 8 * 8 ==>
                SampleAt(mem[..], outOff + 2 * i) == FrameOutput(config, old(Abs()), Samples(old(mem[..]), inOff, n),
                  m, i)
      ensures posFp == old(posFp) + m / 8 * 8 * Step(config.rates) && delayBuf[..] == old(delayBuf[..])
    {
      hide FirstDown, LastDown, Frac, Step, OutCount, SampleAt, Lane, BlockDone, SameOutside, FrameOutput;
      ghost var frame, st, m0 := Samples(mem[..], inOff, n), Abs(), mem[..];
      var step := Step(config.rates);
      SameOutsideRefl(m0, outOff);
      for b := 0 to m / 8
        invariant SameOutside(m0, mem[..], outOff, outOff + 16 * b)
        invariant forall q :: 0 <= q < b ==> BlockDone(mem[..], outOff, config, st, frame, q)
        invariant posFp == st.pos + b * (8 * step) && delayBuf[..] == st.history
      {
        SamplesUnchanged(m0, mem[..], outOff, outOff + 16 * b, inOff, n);
        ghost var before := mem[..];
        OneBlock(mem, inOff, n, outOff + 16 * b);
        ThisBlockDone(mem[..], outOff, config, st, frame, b);
        forall q | 0 <= q < b ensures BlockDone(mem[..], outOff, config, st, frame, q) {
          BlockKept(before, mem[..], outOff + 16 * b, outOff + 16 * b + 16, outOff, config, st, frame, q);
        }
        SameOutsideTrans(m0, before, mem[..], outOff, outOff + 16 * b, outOff + 16 * b, outOff + 16 * b + 16, outOff,
          outOff + 16 * b + 16);
        posFp := posFp + 8 * step;
      }
      BlocksAreOutputs(mem[..], outOff, config, st, frame, m);
      MulAssoc(m / 8, 8, step);
    }

    /** Eight outputs from one gathered window. */
    method OneBlock(mem: array<byte>, inOff: nat, n: nat, at: nat)
      requires Valid() && n > 0 && inOff + 2 * n <= at && at + 16 <= mem.Length && mem as object != delayBuf
      modifies mem
      ensures SameOutside(old(mem[..]), mem[..], at, at + 16)
      ensures forall lane :: 0 <= lane < 8 ==>
                SampleAt(mem[..], at + 2 * lane) == Lane(config, delayBuf[..], Samples(old(mem[..]), inOff, n), posFp,
                  lane)
      ensures exists lo, hi :: Spans(config.rates, posFp, 7, lo, hi) &&
                EightOf(config.kernel, Frac(posFp), FetchRange(delayBuf[..], Samples(old(mem[..]), inOff, n), lo, hi),
                        mem[..], at)
      ensures delayBuf[..] == old(delayBuf[..])
    {
      hide FirstDown, LastDown, Frac, SampleAt, Spans;
      WindowSpans(config.rates, posFp, 7);
      var window := GatherBlock(mem, inOff, n);
      for lane := 0 to 8
        invariant SameOutside(old(mem[..]), mem[..], at, at + 2 * lane)
        invariant forall i :: 0 <= i < lane ==>
                  SampleAt(mem[..], at + 2 * i) == config.kernel.block(Frac(posFp), window, i)
        invariant delayBuf[..] == old(delayBuf[..])
      {
        ghost var before := mem[..];
        StoreSample(mem, at + 2 * lane, config.kernel.block(Frac(posFp), window, lane));
        forall i | 0 <= i < lane ensures SampleAt(mem[..], at + 2 * i) == SampleAt(before, at + 2 * i) {
          SampleKept(before, mem[..], at + 2 * lane, at + 2 * lane + 2, at + 2 * i);
        }
      }
      assert EightOf(config.kernel, Frac(posFp), window, mem[..], at);
    }

    /** resample_l16_advanced. Too small an output buffer gives 0 outputs and changes nothing. */
    method ResampleAdvanced(mem: array<byte>, inOff: nat, n: nat, outOff: nat, capacity: nat) returns (m: nat)
      requires Valid() && inOff + 2 * n <= outOff && outOff + 2 * capacity <= mem.Length && mem as object != delayBuf
      requires config.rates.Up() ==> Floor(posFp) - CENTER >= -HISTORY
      modifies this`posFp, delayBuf, mem
      ensures Valid()
      ensures m == if OutCount(config.rates, n) > capacity then 0 else OutCount(config.rates, n)
      ensures if OutCount(config.rates, n) > capacity then mem[..] == old(mem[..]) && Abs() == old(Abs())
              else
                var frame := Samples(old(mem[..]), inOff, n);
                && Samples(mem[..], outOff, m) == FrameOutputs(config, old(Abs()), frame)
                && SameOutside(old(mem[..]), mem[..], outOff, outOff + 2 * m)
                && Abs() == AfterFrame(config, old(Abs()), frame)
    {
      m := n * config.rates.output / config.rates.input;
      if m > capacity {
        return 0;
      }
      ghost var frame := Samples(mem[..], inOff, n);
      Produce(mem, inOff, n, outOff, m);
      SamplesUnchanged(old(mem[..]), mem[..], outOff, outOff + 2 * m, inOff, n);
      UpdateHistory(mem, inOff, n);
      posFp := posFp - n * 0x1_0000_0000;
    }

    /** One output made alone. */
    method OneSample(mem: array<byte>, inOff: nat, n: nat, at: nat)
      requires Valid() && n > 0 && inOff + 2 * n <= at && at + 2 <= mem.Length && mem as object != delayBuf
      requires config.rates.Up() ==> Floor(posFp) - CENTER >= -HISTORY
      modifies mem
      ensures SampleAt(mem[..], at) == Single(config, delayBuf[..], Samples(old(mem[..]), inOff, n), posFp)
      ensures SameOutside(old(mem[..]), mem[..], at, at + 2) && delayBuf[..] == old(delayBuf[..])
    {
      hide Single, Floor, SampleAt;
      var v: int16;
      if config.rates.Up() {
        v := UpSample(mem, inOff, n);
      } else {
        v := DownSample(mem, inOff, n);
      }
      StoreSample(mem, at, v);
    }

    /** One turn of the output loop that makes a single output. */
    method ProduceOne(mem: array<byte>, inOff: nat, n: nat, outOff: nat, m: nat, i: nat, ghost m0: seq<byte>,
        ghost st: Resampler)
      requires Valid() && n > 0 && i < m && i >= Blocked(config, m) && |st.history| == HISTORY && |m0| == mem.Length
      requires inOff + 2 * n <= outOff && outOff + 2 * m <= mem.Length && mem as object != delayBuf
      requires config.rates.Up() ==> Floor(st.pos) - CENTER >= -HISTORY
      requires SameOutside(m0, mem[..], outOff, outOff + 2 * i)
      requires OutputsDone(mem[..], outOff, config, st, Samples(m0, inOff, n), m, i)
      requires posFp == st.pos + i * Step(config.rates) && delayBuf[..] == st.history
      modifies this`posFp, mem
      ensures SameOutside(m0, mem[..], outOff, outOff + 2 * (i + 1))
      ensures OutputsDone(mem[..], outOff, config, st, Samples(m0, inOff, n), m, i + 1)
      ensures posFp == st.pos + (i + 1) * Step(config.rates) && delayBuf[..] == st.history
    {
      hide Floor, Step, SampleAt, FrameOutput, SameOutside, OutputsDone, Blocked, Samples, Rates.Valid, Single;
      ghost var frame := Samples(m0, inOff, n);
      ghost var before := mem[..];
      SamplesUnchanged(m0, mem[..], outOff, outOff + 2 * i, inOff, n);
      FloorMono(st.pos, posFp, i, Step(config.rates));
      OneSample(mem, inOff, n, outOff + 2 * i);
      ScalarOutput(config, st, frame, m, i);
      OneMoreDone(before, mem[..], outOff, config, st, frame, m, i);
      SameOutsideTrans(m0, before, mem[..], outOff, outOff + 2 * i, outOff + 2 * i, outOff + 2 * i + 2, outOff,
        outOff + 2 * i + 2);
      MulDistr(Step(config.rates), i, 1);
      posFp := posFp + Step(config.rates);
    }

    /** The output loop. */
    method Produce(mem: array<byte>, inOff: nat, n: nat, outOff: nat, m: nat)
      requires Valid() && m == OutCount(config.rates, n)
      requires inOff + 2 * n <= outOff && outOff + 2 * m <= mem.Length && mem as object != delayBuf
      requires config.rates.Up() ==> Floor(posFp) - CENTER >= -HISTORY
      modifies this`posFp, mem
      ensures SameOutside(old(mem[..]), mem[..], outOff, outOff + 2 * m)
      ensures Samples(mem[..], outOff, m) == FrameOutputs(config, old(Abs()), Samples(old(mem[..]), inOff, n))
      ensures posFp == old(posFp) + m * Step(config.rates) && delayBuf[..] == old(delayBuf[..])
    {
      hide Floor, Step, OutCount, SampleAt, FrameOutput, SameOutside, OutputsDone, Blocked, FrameOutputs, Samples,
           Rates.Valid;
      ghost var frame, st, m0 := Samples(mem[..], inOff, n), Abs(), mem[..];
      NoneFromNothing(config.rates, n);
      SameOutsideRefl(m0, outOff);
      NoneDone(mem[..], outOff, config, st, frame, m);
      var i := 0;
      while i < m
        invariant i <= m && (i == 0 || i >= Blocked(config, m))
        invariant SameOutside(m0, mem[..], outOff, outOff + 2 * i)
        invariant OutputsDone(mem[..], outOff, config, st, frame, m, i)
        invariant posFp == st.pos + i * Step(config.rates) && delayBuf[..] == st.history
      {
        BlockChoice(config, m, i);
        if !config.rates.Up() && config.avx2 && (m - i) / 8 > 0 {
          SameOutsideEmpty(m0, mem[..], outOff);
          DownBlocks(mem, inOff, n, outOff, m);
          i := m / 8 * 8;
          AllDone(mem[..], outOff, config, st, frame, m, i);
        } else {
          ProduceOne(mem, inOff, n, outOff, m, i, m0, st);
          i := i + 1;
        }
      }
      DoneIsAll(mem[..], outOff, config, st, frame);
    }

    /** The history update. */
    method UpdateHistory(mem: array<byte>, inOff: nat, n: nat)
      requires Valid() && inOff + 2 * n <= mem.Length && mem as object != delayBuf
      modifies delayBuf
      ensures delayBuf[..] == NextHistory(old(delayBuf[..]), Samples(mem[..], inOff, n))
    {
      hide SampleAt;
      var frame := Samples(mem[..], inOff, n);
      ghost var m0 := mem[..];
      if n >= HISTORY {
        forall i | 0 <= i < HISTORY {
          delayBuf[i] := frame[n - HISTORY + i];
        }
        assert delayBuf[..] == frame[n - HISTORY..];
      } else {
        forall i | 0 <= i < HISTORY - n {
          delayBuf[i] := delayBuf[n + i];
        }
        forall i | 0 <= i < n {
          delayBuf[HISTORY - n + i] := frame[i];
        }
        assert delayBuf[..] == old(delayBuf[..])[n..] + frame;
      }
      assert mem[..] == m0;
    }
  }

  /** Eight outputs of one window. */
  ghost predicate EightOf(kernel: Kernel, frac: nat, window: seq<int16>, mem: seq<byte>, at: nat)
    requires at + 16 <= |mem|
  {
    forall lane :: 0 <= lane < 8 ==> SampleAt(mem, at + 2 * lane) == kernel.block(frac, window, lane)
  }

  lemma NoneFromNothing(r: Rates, n: nat)
    requires r.Valid()
    ensures OutCount(r, n) > 0 ==> n > 0
  {
    OutCountBounds(r, n);
  }

  lemma ScalarOutput(c: Config, st: Resampler, frame: seq<int16>, m: nat, i: nat)
    requires c.rates.Valid() && |st.history| == HISTORY && i >= Blocked(c, m)
    ensures FrameOutput(c, st, frame, m, i) == Single(c, st.history, frame, st.pos + i * Step(c.rates))
  {
  }

  /** The first i outputs are in place. */
  ghost predicate OutputsDone(mem: seq<byte>, outOff: nat, c: Config, st: Resampler, frame: seq<int16>, m: nat, i: nat)
    requires c.rates.Valid() && |st.history| == HISTORY && outOff + 2 * i <= |mem|
  {
    forall j :: 0 <= j < i ==> SampleAt(mem, outOff + 2 * j) == FrameOutput(c, st, frame, m, j)
  }

  lemma NoneDone(mem: seq<byte>, outOff: nat, c: Config, st: Resampler, frame: seq<int16>, m: nat)
    requires c.rates.Valid() && |st.history| == HISTORY && outOff <= |mem|
    ensures OutputsDone(mem, outOff, c, st, frame, m, 0)
  {
  }

  lemma AllDone(mem: seq<byte>, outOff: nat, c: Config, st: Resampler, frame: seq<int16>, m: nat, i: nat)
    requires c.rates.Valid() && |st.history| == HISTORY && outOff + 2 * i <= |mem|
    requires forall j :: 0 <= j < i ==> SampleAt(mem, outOff + 2 * j) == FrameOutput(c, st, frame, m, j)
    ensures OutputsDone(mem, outOff, c, st, frame, m, i)
  {
  }

  lemma OneMoreDone(a: seq<byte>, b: seq<byte>, outOff: nat, c: Config, st: Resampler, frame: seq<int16>, m: nat,
      i: nat)
    requires c.rates.Valid() && |st.history| == HISTORY && outOff + 2 * i + 2 <= |a|
    requires SameOutside(a, b, outOff + 2 * i, outOff + 2 * i + 2)
    requires OutputsDone(a, outOff, c, st, frame, m, i)
    requires SampleAt(b, outOff + 2 * i) == FrameOutput(c, st, frame, m, i)
    ensures OutputsDone(b, outOff, c, st, frame, m, i + 1)
  {
    hide FrameOutput, SampleAt;
    forall j | 0 <= j < i ensures SampleAt(b, outOff + 2 * j) == SampleAt(a, outOff + 2 * j) {
      SampleKept(a, b, outOff + 2 * i, outOff + 2 * i + 2, outOff + 2 * j);
    }
  }

  lemma DoneIsAll(mem: seq<byte>, outOff: nat, c: Config, st: Resampler, frame: seq<int16>)
    requires c.rates.Valid() && |st.history| == HISTORY
    requires outOff + 2 * OutCount(c.rates, |frame|) <= |mem|
    requires OutputsDone(mem, outOff, c, st, frame, OutCount(c.rates, |frame|), OutCount(c.rates, |frame|))
    ensures Samples(mem, outOff, OutCount(c.rates, |frame|)) == FrameOutputs(c, st, frame)
  {
    hide FrameOutput, SampleAt, OutCount;
  }

  /** Block q of a frame is in place. */
  ghost predicate BlockDone(mem: seq<byte>, outOff: nat, c: Config, st: Resampler, frame: seq<int16>, q: nat)
    requires c.rates.Valid() && |st.history| == HISTORY
  {
    outOff + 16 * q + 16 <= |mem| &&
    forall lane :: 0 <= lane < 8 ==>
      SampleAt(mem, outOff + 16 * q + 2 * lane) == Lane(c, st.history, frame, st.pos + q * (8 * Step(c.rates)), lane)
  }

  lemma ThisBlockDone(mem: seq<byte>, outOff: nat, c: Config, st: Resampler, frame: seq<int16>, q: nat)
    requires c.rates.Valid() && |st.history| == HISTORY && outOff + 16 * q + 16 <= |mem|
    requires forall lane :: 0 <= lane < 8 ==>
               SampleAt(mem, outOff + 16 * q + 2 * lane) == Lane(c, st.history, frame,
                 st.pos + q * (8 * Step(c.rates)), lane)
    ensures BlockDone(mem, outOff, c, st, frame, q)
  {
  }

  lemma BlockKept(a: seq<byte>, b: seq<byte>, lo: nat, hi: nat, outOff: nat, c: Config, st: Resampler,
      frame: seq<int16>, q: nat)
    requires c.rates.Valid() && |st.history| == HISTORY && SameOutside(a, b, lo, hi)
    requires BlockDone(a, outOff, c, st, frame, q) && outOff + 16 * q + 16 <= lo
    ensures BlockDone(b, outOff, c, st, frame, q)
  {
    hide SampleAt, Lane, Step;
    forall lane | 0 <= lane < 8 ensures SampleAt(b, outOff + 16 * q + 2 * lane) ==
      SampleAt(a, outOff + 16 * q + 2 * lane) {
      SampleKept(a, b, lo, hi, outOff + 16 * q + 2 * lane);
    }
  }

  /** All blocks in place are the frame's first outputs. */
  lemma BlocksAreOutputs(mem: seq<byte>, outOff: nat, c: Config, st: Resampler, frame: seq<int16>, m: nat)
    requires c.rates.Valid() && |st.history| == HISTORY && !c.rates.Up() && c.avx2 && outOff + 2 * m <= |mem|
    requires forall q :: 0 <= q < m / 8 ==> BlockDone(mem, outOff, c, st, frame, q)
    ensures forall i :: 0 <= i < m / 8 * 8 ==> SampleAt(mem, outOff + 2 * i) == FrameOutput(c, st, frame, m, i)
  {
    hide SampleAt, Lane, Step;
    forall i | 0 <= i < m / 8 * 8 ensures SampleAt(mem, outOff + 2 * i) == FrameOutput(c, st, frame, m, i) {
      var q, lane := i / 8, i % 8;
      assert BlockDone(mem, outOff, c, st, frame, q);
      MulAssoc(q, 8, Step(c.rates));
      assert outOff + 16 * q + 2 * lane == outOff + 2 * i;
    }
  }

  lemma SameOutsideEmpty(a: seq<byte>, b: seq<byte>, at: nat)
    requires SameOutside(a, b, at, at)
    ensures a == b
  {
  }

  /** Blocks are taken only at the start of a frame, and then all of them at once. */
  lemma BlockChoice(c: Config, m: nat, i: nat)
    requires i <= m && (i == 0 || i >= Blocked(c, m))
    ensures if !c.rates.Up() && c.avx2 && (m - i) / 8 > 0 then i == 0 && Blocked(c, m) == m / 8 * 8
            else i >= Blocked(c, m)
  {
  }

  lemma SameOutsideRefl(a: seq<byte>, at: nat)
    ensures SameOutside(a, a, at, at)
  {
  }

  /** Later positions of a frame are not before its first one. */
  lemma FloorMono(start: int, pos: int, i: nat, step: nat)
    requires pos == start + i * step
    ensures Floor(pos) >= Floor(start)
  {
  }

  lemma SampleKept(a: seq<byte>, b: seq<byte>, lo: nat, hi: nat, off: nat)
    requires SameOutside(a, b, lo, hi) && off + 2 <= |a| && (off + 2 <= lo || hi <= off)
    ensures SampleAt(a, off) == SampleAt(b, off)
  {
  }
}
