/** The transcoding session of src/processing/transcode.c, working in place in the session arena.
    Proved against module Pipeline, with the facts of module RequestState between stages. */
module Transcode {
  import opened Bytes
  import opened Memory
  import opened Protocol
  import opened Arenas
  import opened SampleLoops
  import opened ResampleClock
  import opened ResampleStream
  import opened StreamResampling
  import opened Pipeline
  import opened RequestState
  import Vad

  const ENDIAN_BIG: byte := 2
  const FLAG_VAD := 1

  /** The fields transcode_session_init reads from a CMD_START payload. */
  datatype Start = Start(inType: byte, inChannels: byte, flags: uint16, inRate: uint32,
                         inEndian: byte, outType: byte, outChannels: byte, outEndian: byte, outRate: uint32)

  function DecodeStart(p: seq<byte>): Start
    requires |p| >= START_SIZE
  {
    Start(p[0], p[1], NetU16(p[2..4]), NetU32(p[4..8]), p[8], p[9], p[10], p[11], NetU32(p[12..16]))
  }

  /** A side whose samples are byte-swapped: big-endian L16. */
  predicate Swapped(codec: byte, endian: byte) { codec == CODEC_L16 && endian == ENDIAN_BIG }

  predicate WantsVad(flags: uint16) { flags % 2 == FLAG_VAD }

  class TranscodeSession {
    const kernel: Kernel
    const avx2: bool
    var inType: byte
    var inChannels: nat
    var inRate: nat
    var outType: byte
    var outChannels: nat
    var outRate: nat
    var swapIn: bool
    var swapOut: bool
    var needsResample: bool
    var resampler: StreamResampler?
    var vadEnabled: bool
    var vadState: Vad.VadGru?
    var lastVadProb: real

    constructor (kernel: Kernel, avx2: bool)
      ensures this.kernel == kernel && this.avx2 == avx2
    {
      this.kernel, this.avx2 := kernel, avx2;
      inType, inChannels, inRate := 0, 0, 0;
      outType, outChannels, outRate := 0, 0, 0;
      swapIn, swapOut, needsResample, resampler := false, false, false, null;
      vadEnabled, vadState, lastVadProb := false, null, 0.0;
    }

    /** The fields are those of a start payload. */
    predicate Configured(c: Start)
      reads this
    {
      && inType == c.inType && inChannels == c.inChannels && inRate == c.inRate
      && outType == c.outType && outChannels == c.outChannels && outRate == c.outRate
      && swapIn == Swapped(c.inType, c.inEndian) && swapOut == Swapped(c.outType, c.outEndian)
      && (needsResample <==> c.inRate != c.outRate)
      && vadEnabled == WantsVad(c.flags)
    }

    method Configure(c: Start)
      modifies this
      ensures Configured(c) && resampler == null && vadState == null
      ensures lastVadProb == if vadEnabled then 0.0 else -1.0
    {
      hide Swapped, WantsVad;
      inType, inChannels, inRate := c.inType, c.inChannels, c.inRate;
      outType, outChannels, outRate := c.outType, c.outChannels, c.outRate;
      vadEnabled, vadState := WantsVad(c.flags), null;
      lastVadProb := if vadEnabled then 0.0 else -1.0;
      swapIn, swapOut := Swapped(c.inType, c.inEndian), Swapped(c.outType, c.outEndian);
      needsResample := inRate != outRate;
      resampler := null;
    }

    /** transcode_session_init on a little-endian host; -1 exactly when the rates differ and one of
        them is not supported. The VAD state is attached later. */
    method Init(config: seq<byte>) returns (r: int)
      requires |config| >= START_SIZE
      modifies this
      ensures Configured(DecodeStart(config)) && vadState == null
      ensures lastVadProb == if vadEnabled then 0.0 else -1.0
      ensures r == if needsResample && !(SupportedRate(inRate) && SupportedRate(outRate)) then -1 else 0
      ensures resampler != null <==> needsResample && r == 0
      ensures resampler != null ==> fresh(resampler) && fresh(resampler.delayBuf) && resampler.Valid()
                                    && resampler.config == Config(Rates(inRate, outRate), kernel, avx2)
                                    && resampler.Abs() == ResampleStream.Start(resampler.config)
    {
      hide NetU16, NetU32, SupportedRate, Origin;
      Configure(DecodeStart(config));
      r := 0;
      if needsResample {
        var init := ResamplerInit(inRate, outRate, kernel, avx2);
        if init.None? {
          return -1;
        }
        resampler := init.value;
      }
    }

    /** transcode_session_stop: everything cleared; the VAD state itself stays in the arena. */
    method Stop()
      modifies this
      ensures inType == 0 && inChannels == 0 && inRate == 0 && outType == 0 && outChannels == 0 && outRate == 0
      ensures !swapIn && !swapOut && !needsResample && !vadEnabled && resampler == null && vadState == null &&
              lastVadProb == 0.0
    {
      inType, inChannels, inRate := 0, 0, 0;
      outType, outChannels, outRate := 0, 0, 0;
      swapIn, swapOut, needsResample, resampler := false, false, false, null;
      vadEnabled, vadState, lastVadProb := false, null, 0.0;
    }

    function GetSettings(): Settings
      reads this
    {
      Settings(inType, outType, inChannels, swapIn, swapOut, inRate, outRate,
               if needsResample && resampler != null then Some(resampler.config) else None,
               if vadEnabled && vadState != null then Some(vadState.network) else None)
    }

    ghost predicate Valid()
      reads this, vadState, if vadState == null then {} else {vadState.hidden}
    {
      && inChannels == outChannels && (needsResample <==> inRate != outRate) && Defined(GetSettings())
      && (resampler != null ==> needsResample && resampler.Valid())
      && (vadState != null ==> vadState.Valid())
    }

    /** The resampler's position and history, if the session resamples. */
    ghost function ResamplerState(): (st: Resampler)
      requires resampler != null ==> resampler.Valid()
      reads this, resampler, if resampler == null then {} else {resampler.delayBuf}
      ensures |st.history| == HISTORY
    {
      if resampler == null then Resampler(0, Silence()) else resampler.Abs()
    }

    /** Copies and byte-swaps an L16 buffer into the arena. */
    method CopyL16(data: seq<byte>, mem: array<byte>, off: nat)
      requires inChannels > 0 && !IsLaw(inType) && off + |data| <= mem.Length
      modifies mem
      ensures var x := DecodeBuffer(GetSettings(), data);
              2 * |x| <= |data| && Samples(mem[..], off, |x|) == x
      ensures SameOutside(old(mem[..]), mem[..], off, off + |data|)
    {
      hide SampleAt, SwapSample, Samples;
      InstantsFit(|data|, inChannels);
      var elements := |data| / (2 * inChannels) * inChannels;
      CopyIn(mem, off, data);
      CopiedSamples(mem[..], off, data, elements);
      ghost var m1 := mem[..];
      if swapIn {
        SwapEndianL16(mem, off, elements);
      }
    }

    /** Allocates and decodes one buffer. It reads the payload only after the allocation succeeded,
        and then the buffer is in bounds. A G.711 length that the decoder refuses leaves the block as
        it was, and the refusal is ignored. */
    method DecodeOne(payload: seq<byte>, c: Chunk, arena: Arena, ghost s: Settings) returns (off: Option<nat>)
      requires s == GetSettings() && s.channels > 0 && |payload| + arena.buf.Length < TWO32 && c.start <= |payload|
      requires InBounds(payload, c) <==> c.header.length < TWO32 - c.start
      modifies arena`curr, arena.buf
      ensures off.Some? <==>
                Known(s.inType) && Allocates(old(arena.curr), DecodeSize(s, c.header.length), arena.buf.Length)
      ensures off.None? ==> arena.curr == old(arena.curr) && arena.buf[..] == old(arena.buf[..])
      ensures off.Some? ==>
                && off.value == BlockStart(old(arena.curr)) && InBounds(payload, c)
                && arena.curr == off.value + DecodeSize(s, c.header.length) <= arena.buf.Length
                && SameOutside(old(arena.buf[..]), arena.buf[..], off.value, arena.curr)
      ensures off.Some? ==>
                var x := DecodedChunk(s, payload, old(arena.buf[..]), off.value, c);
                off.value + 2 * |x| <= arena.curr && Samples(arena.buf[..], off.value, |x|) == x
    {
      hide SampleAt, DecodeAll;
      var length: nat := c.header.length;
      if inType == CODEC_PCMU || inType == CODEC_PCMA {
        off := arena.Alloc(length * 2);
        if off.None? {
          return None;
        }
        var _ := TranscodeToL16(LawOf(inType), payload[c.start..c.start + length], arena.buf, off.value, avx2);
      } else if inType == CODEC_L16 {
        off := arena.Alloc(length);
        if off.None? {
          return None;
        }
        CopyL16(payload[c.start..c.start + length], arena.buf, off.value);
        InstantsFit(length, inChannels);
      } else {
        off := None;
      }
    }

    /** Adds a decoded buffer into the first one, over their common length. */
    method MixOne(mem: array<byte>, off: nat, samples: nat, other: nat, otherSamples: nat)
      requires off + 2 * (samples * inChannels) <= other && other + 2 * (otherSamples * inChannels) <= mem.Length
      modifies mem
      ensures Samples(mem[..], off, samples * inChannels) ==
              MixInto(Samples(old(mem[..]), off, samples * inChannels),
                Samples(old(mem[..]), other, otherSamples * inChannels))
      ensures SameOutside(old(mem[..]), mem[..], off, off + 2 * (samples * inChannels))
    {
      hide SampleAt, SatAdd, Samples, MixInto, AddLanes;
      var mixSamples := if otherSamples < samples then otherSamples else samples;
      var total := mixSamples * inChannels;
      CommonLength(samples, otherSamples, inChannels);
      ghost var m0 := mem[..];
      MixL16(mem, off, other, off, total);
      MixedPrefix(m0, mem[..], off, samples * inChannels, other, otherSamples * inChannels, total);
    }

    /** The parse loop: decode each buffer, mix it into the first. It stops at the first buffer the
        parser does not return and fails at the first one that cannot be decoded. */
    method MixDown(payload: seq<byte>, numBuffers: uint32, arena: Arena, ghost j: Job)
      returns (ok: bool, off: nat, samples: nat)
      requires j.s == GetSettings() && (IsLaw(j.s.inType) ==> j.s.channels == 1) && j.WellPosed()
      requires j.payload == payload && |payload| + arena.buf.Length < TWO32 && numBuffers == NetU32(payload[0..4])
      requires j.start == arena.curr && j.before == arena.buf[..]
      modifies arena`curr, arena.buf
      ensures !ok ==> j.End(j.Chunks()).None?
      ensures SameOutside(old(arena.buf[..]), arena.buf[..], old(arena.curr), arena.buf.Length)
      ensures ok ==> MixDone(j, arena.curr, arena.buf[..], off, samples)
    {
      assert |payload| < TWO32 && INPUT_SIZE <= |payload|;
      hide *;
      MixStart(j);
      var cursor := new BufferCursor(INPUT_SIZE);
      ok, off, samples := MixLoop(payload, numBuffers, cursor, arena, j);
    }

    method MixLoop(payload: seq<byte>, numBuffers: uint32, cursor: BufferCursor, arena: Arena, ghost j: Job)
      returns (ok: bool, off: nat, samples: nat)
      requires j.s == GetSettings() && (IsLaw(j.s.inType) ==> j.s.channels == 1) && j.WellPosed()
      requires j.payload == payload && |payload| + arena.buf.Length < TWO32
      requires MixState(j, [], cursor.offset, cursor.header, numBuffers, arena.curr, arena.buf[..], 0, 0)
      modifies cursor, arena`curr, arena.buf
      ensures !ok ==> j.End(j.Chunks()).None?
      ensures SameOutside(j.before, arena.buf[..], j.start, arena.buf.Length)
      ensures ok ==> MixDone(j, arena.curr, arena.buf[..], off, samples)
    {
      hide *;
      ghost var done: seq<Chunk> := [];
      off, samples, ok := 0, 0, true;
      var left: nat := numBuffers;
      var first := true;
      while left > 0
        invariant ok && (first <==> done == [])
        invariant MixState(j, done, cursor.offset, cursor.header, left, arena.curr, arena.buf[..], off, samples)
      {
        var more;
        ok, more, off, samples, done := Turn(payload, cursor, arena, off, samples, first, left, done, j);
        if !more {
          return;
        }
        left, first := left - 1, false;
      }
      MixEnd(j, done, cursor.offset, cursor.header, arena.curr, arena.buf[..], off, samples);
    }

    /** One turn of the parse loop: parse, then decode and mix. */
    method Turn(payload: seq<byte>, cursor: BufferCursor, arena: Arena, off0: nat, samples0: nat, first: bool,
                ghost left: nat, ghost done: seq<Chunk>, ghost j: Job)
      returns (ok: bool, more: bool, off: nat, samples: nat, ghost done': seq<Chunk>)
      requires j.s == GetSettings() && (IsLaw(j.s.inType) ==> j.s.channels == 1) && j.WellPosed()
      requires j.payload == payload && |payload| + arena.buf.Length < TWO32
      requires left > 0 && (first <==> done == [])
      requires MixState(j, done, cursor.offset, cursor.header, left, arena.curr, arena.buf[..], off0, samples0)
      modifies cursor, arena`curr, arena.buf
      ensures more ==> ok && done' != []
      ensures more ==>
                MixState(j, done', cursor.offset, cursor.header, left - 1, arena.curr, arena.buf[..], off, samples)
      ensures SameOutside(j.before, arena.buf[..], j.start, arena.buf.Length)
      ensures !ok ==> j.End(j.Chunks()).None?
      ensures ok && !more ==> MixDone(j, arena.curr, arena.buf[..], off, samples)
    {
      assert |payload| < TWO32;
      hide Known, RequestChunks, DecodeEnd, Allocates, SameOutside, InBounds, MixState, MixDone, NextBuffer,
           DecodeSize, GetSettings, IsLaw, Partial;
      ghost var offset, header, mem, curr := cursor.offset, cursor.header, arena.buf[..], arena.curr;
      off, samples, done' := off0, samples0, done;
      ok, more := true, false;
      var data := cursor.Next(payload);
      if data.None? {
        TurnNull(j, done, offset, header, left, curr, mem, off, samples);
        return;
      }
      var chunk := Chunk(data.value, cursor.header);
      TurnChunk(j, done, offset, header, left, curr, mem, off, samples);
      ok, off, samples := TakeChunk(payload, done, chunk, arena, off, samples, first, j);
      done' := done + [chunk];
      more := ok;
      if ok {
        TurnTaken(j, done, offset, header, left, curr, mem, off0, samples0, arena.curr, arena.buf[..], off, samples);
      } else {
        TurnFailed(j, done, offset, header, left, curr, mem, off0, samples0);
      }
    }

    /** Decodes a parsed buffer and mixes it into the first. */
    method TakeChunk(payload: seq<byte>, ghost done: seq<Chunk>, chunk: Chunk, arena: Arena, off0: nat, samples0: nat,
                     first: bool, ghost j: Job)
      returns (ok: bool, off: nat, samples: nat)
      requires j.s == GetSettings() && (IsLaw(j.s.inType) ==> j.s.channels == 1) && j.WellPosed()
      requires j.payload == payload && |payload| + arena.buf.Length < TWO32 && chunk.start <= |payload|
      requires InBounds(payload, chunk) <==> chunk.header.length < TWO32 - chunk.start
      requires (first <==> done == []) && Partial(j, done, arena.curr, arena.buf[..], off0, samples0)
      modifies arena`curr, arena.buf
      ensures ok <==>
                Known(j.s.inType) && Allocates(old(arena.curr), DecodeSize(j.s, chunk.header.length), arena.buf.Length)
      ensures !ok ==> arena.buf[..] == old(arena.buf[..])
      ensures ok ==> Partial(j, done + [chunk], arena.curr, arena.buf[..], off, samples)
      ensures SameOutside(j.before, arena.buf[..], j.start, arena.buf.Length)
    {
      PartialFacts(j, done, arena.curr, arena.buf[..], off0, samples0);
      hide Known, Allocates, SameOutside, Samples, DecodedChunk, DecodeSize, MixInto, Partial, BlockStart, Decodes,
           InBounds;
      ghost var before, curr := arena.buf[..], arena.curr;
      off, samples := off0, samples0;
      var decoded := DecodeOne(payload, chunk, arena, j.s);
      ok := decoded.Some?;
      if ok {
        AllocatesWithin(curr, DecodeSize(j.s, chunk.header.length), |before|);
        var decodeSamples := DecodedInstants(chunk.header.length);
        off, samples := MixTaken(done, chunk, arena, off, samples, first, decoded.value, decodeSamples, before, curr,
          j);
        PartialFacts(j, done + [chunk], arena.curr, arena.buf[..], off, samples);
      }
    }

    /** Keeps the first decoded buffer, mixes a later one into it. */
    method MixTaken(ghost done: seq<Chunk>, ghost chunk: Chunk, arena: Arena, off0: nat, samples0: nat, first: bool,
                    decoded: nat, decodeSamples: nat, ghost before: seq<byte>, ghost curr: nat, ghost j: Job)
      returns (off: nat, samples: nat)
      requires j.s == GetSettings() && j.WellPosed() && (first <==> done == [])
      requires Partial(j, done, curr, before, off0, samples0) && NextBlock(j, curr, |before|, chunk, arena.curr)
      requires decoded == BlockStart(curr) && curr <= decoded <= arena.curr <= |before|
      requires SameOutside(before, arena.buf[..], decoded, arena.curr)
      requires decoded + DecodeSize(j.s, chunk.header.length) <= |before|
      requires var x := DecodedChunk(j.s, j.payload, before, decoded, chunk);
               && |x| == decodeSamples * j.s.channels && decoded + 2 * |x| <= arena.curr
               && Samples(arena.buf[..], decoded, |x|) == x
      modifies arena.buf
      ensures Partial(j, done + [chunk], arena.curr, arena.buf[..], off, samples)
    {
      hide Samples, DecodedChunk, MixInto, Partial, SameOutside, Allocates, DecodeSize, BlockStart, Decodes, InBounds,
           Known;
      if first {
        off, samples := decoded, decodeSamples;
        FirstPartial(j, curr, before, off0, samples0, chunk, arena.curr, arena.buf[..], samples);
        assert done + [chunk] == [chunk];
      } else {
        off, samples := off0, samples0;
        MixedRegion(j, done, curr, before, off, samples);
        ghost var middle := arena.buf[..];
        assert |middle| == |before| by { SameLength(before, middle, decoded, arena.curr); }
        SamplesUnchanged(before, middle, decoded, arena.curr, off, samples * inChannels);
        MixOne(arena.buf, off, samples, decoded, decodeSamples);
        Wider(before, middle, decoded, arena.curr, j.start, arena.curr);
        Within(before, middle, arena.buf[..], j.start, arena.curr, off, off + 2 * (samples * inChannels));
        LaterPartial(j, done, curr, before, off, samples, chunk, arena.curr, arena.buf[..]);
      }
    }

    /** The resampling stage: a new block for the outputs, if the session resamples. */
    method ResampleStage(arena: Arena, off: nat, samples: nat, ghost s: Settings, ghost st: Resampler)
      returns (ok: bool, outOff: nat, outSamples: nat)
      requires Valid() && Separate(arena) && s == GetSettings()
      requires off + 2 * (samples * s.channels) <= arena.curr <= arena.buf.Length && st == ResamplerState()
      requires HistoryReaches()
      modifies arena`curr, arena.buf, if resampler == null then {} else {resampler as object, resampler.delayBuf}
      ensures Valid() && s == GetSettings() && VadHidden() == old(VadHidden())
      ensures ok <==> ResampleEnd(s, old(arena.curr), samples, arena.buf.Length).Some?
      ensures SameOutside(old(arena.buf[..]), arena.buf[..], old(arena.curr), arena.buf.Length)
      ensures !ok ==> ResamplerState() == st
      ensures ok ==> ResampledAt(s, st, ResamplerState(),
                                 Samples(old(arena.buf[..]), off, samples * s.channels), samples,
                                 arena.buf[..], off, old(arena.curr), arena.curr, outOff, outSamples)
    {
      hide Samples, ResampledAt, BlockStart, OutCount, AfterFrame, FrameOutputs, Rates.Valid, Floor;
      ghost var curr, m0 := arena.curr, arena.buf[..];
      if needsResample {
        assert samples * s.channels == samples;
        ok, outOff, outSamples := ResampleFrame(arena, off, samples, s);
        if ok {
          FrameIsAt(s, st, resampler.Abs(), Samples(m0, off, samples), arena.buf[..], off, curr, arena.curr, outOff,
            outSamples);
        }
      } else {
        ok, outOff, outSamples := true, off, samples;
        SameRateAt(s, st, samples, arena.buf[..], off, curr);
      }
    }

    method ResampleFrame(arena: Arena, off: nat, samples: nat, ghost s: Settings) returns (ok: bool, outOff: nat,
        outSamples: nat)
      requires s == GetSettings() && Defined(s) && inChannels == outChannels && s.resample.Some? && resampler.Valid()
      requires off + 2 * samples <= arena.curr <= arena.buf.Length && arena.buf as object != resampler.delayBuf
      requires s.resample.value.rates.Up() ==> Floor(resampler.posFp) - CENTER >= -ResampleClock.HISTORY
      modifies arena`curr, arena.buf, resampler, resampler.delayBuf
      ensures ok <==> Allocates(old(arena.curr), ResampleSize(s, samples), arena.buf.Length)
      ensures SameOutside(old(arena.buf[..]), arena.buf[..], old(arena.curr), arena.buf.Length)
      ensures resampler.Valid() && (!ok ==> resampler.Abs() == old(resampler.Abs()))
      ensures var x := Samples(old(arena.buf[..]), off, samples);
              ok ==> outOff == BlockStart(old(arena.curr))
                     && arena.curr == outOff + ResampleSize(s, samples) <= arena.buf.Length
                     && outSamples == OutSamples(s, samples) && outOff + 2 * outSamples <= arena.curr
                     && Samples(arena.buf[..], outOff, outSamples) ==
                        FrameOutputs(s.resample.value, old(resampler.Abs()), x)
                     && resampler.Abs() == AfterFrame(s.resample.value, old(resampler.Abs()), x)
    {
      CapacityEnough(s, samples);
      hide OutCount, FrameOutputs, AfterFrame, Samples, BlockStart, SupportedRate, Floor;
      var outCap := samples * outRate / inRate + 128;
      assert outCap * outChannels * 2 == ResampleSize(s, samples) == 2 * outCap;
      var block := arena.Alloc(outCap * outChannels * 2);
      ok, outOff, outSamples := block.Some?, 0, 0;
      if ok {
        outOff := block.value;
        outSamples := resampler.ResampleAdvanced(arena.buf, off, samples, outOff, outCap);
      }
    }

    /** The encoding stage: encode into a new block or swap in place, then move to the front. */
    method EncodeStage(arena: Arena, initialCurr: nat, off: nat, samples: nat, ghost s: Settings) returns (ok: bool)
      requires s == GetSettings() && inChannels == outChannels && Known(s.outType) &&
               (IsLaw(s.outType) ==> s.channels == 1)
      requires initialCurr <= off && off + 2 * (samples * s.channels) <= arena.curr <= arena.buf.Length
      modifies arena`curr, arena.buf
      ensures ok <==> (IsLaw(s.outType) ==> Allocates(old(arena.curr), samples, arena.buf.Length))
      ensures SameOutside(old(arena.buf[..]), arena.buf[..], initialCurr, arena.buf.Length)
      ensures var out := EncodeOutput(s, Samples(old(arena.buf[..]), off, samples * s.channels));
              ok ==> arena.curr == initialCurr + |out| <= arena.buf.Length
                     && arena.buf[..][initialCurr..arena.curr] == out
    {
      hide Samples, EncodeAll, SampleBytesOf, SwapAll, SameOutside, Allocates;
      if IsLaw(outType) {
        assert samples * s.channels == samples;
        ok := EncodeLaw(arena, initialCurr, off, samples);
      } else {
        FinishL16(arena, initialCurr, off, samples * outChannels);
        ok := true;
      }
    }

    method EncodeLaw(arena: Arena, initialCurr: nat, off: nat, samples: nat) returns (ok: bool)
      requires initialCurr <= off && off + 2 * samples <= arena.curr <= arena.buf.Length
      modifies arena`curr, arena.buf
      ensures ok <==> Allocates(old(arena.curr), samples, arena.buf.Length)
      ensures SameOutside(old(arena.buf[..]), arena.buf[..], initialCurr, arena.buf.Length)
      ensures ok ==> arena.curr == initialCurr + samples <= arena.buf.Length &&
                     arena.buf[..][initialCurr..arena.curr] == EncodeAll(LawOf(outType),
                       Samples(old(arena.buf[..]), off, samples))
    {
      hide Samples, EncodeAll, BlockStart;
      ghost var m0 := arena.buf[..];
      var block := arena.Alloc(samples);
      ok := block.Some?;
      if ok {
        TranscodeFromL16(LawOf(outType), arena.buf, off, samples, block.value);
        MoveBytes(arena.buf, initialCurr, block.value, samples);
        arena.curr := initialCurr + samples;
      }
    }

    method FinishL16(arena: Arena, initialCurr: nat, off: nat, elements: nat)
      requires initialCurr <= off && off + 2 * elements <= arena.buf.Length
      modifies arena`curr, arena.buf
      ensures SameOutside(old(arena.buf[..]), arena.buf[..], initialCurr, arena.buf.Length)
      ensures var pcm := Samples(old(arena.buf[..]), off, elements);
              && arena.curr == initialCurr + 2 * elements
              && arena.buf[..][initialCurr..arena.curr] == SampleBytesOf(if swapOut then SwapAll(pcm) else pcm)
    {
      hide *;
      ghost var m0 := arena.buf[..];
      SwapOutput(arena.buf, off, elements);
      ghost var m1 := arena.buf[..];
      BytesOfSamples(m1, off, elements);
      MoveBytes(arena.buf, initialCurr, off, 2 * elements);
      SameOutsideTrans(m0, m1, arena.buf[..], off, off + 2 * elements, initialCurr, initialCurr + 2 * elements,
        initialCurr, arena.buf.Length);
      arena.curr := initialCurr + 2 * elements;
    }

    method SwapOutput(mem: array<byte>, off: nat, elements: nat)
      requires off + 2 * elements <= mem.Length
      modifies mem
      ensures SameOutside(old(mem[..]), mem[..], off, off + 2 * elements)
      ensures var pcm := Samples(old(mem[..]), off, elements);
              Samples(mem[..], off, elements) == if swapOut then SwapAll(pcm) else pcm
    {
      hide Samples, SwapAll;
      if swapOut {
        SwapEndianL16(mem, off, elements);
      }
    }

    /** One VAD call site. */
    method RunVad(mem: array<byte>, off: nat, samples: nat, channels: nat)
      requires vadState != null && vadState.Valid() && channels > 0 && off + 2 * (samples * channels) <= mem.Length
      modifies this`lastVadProb, vadState.hidden
      ensures vadState.Valid()
      ensures (vadState.hidden[..], lastVadProb) ==
              VadPass(vadState.network, old(vadState.hidden[..]), Samples(mem[..], off, samples * channels), channels)
      ensures samples > 0 ==> lastVadProb >= 0.0
    {
      hide Samples, Vad.InRange, Vad.Frames, Vad.AfterFrames, Vad.MaxProbability, Vad.Bounded;
      PositiveProduct(samples, channels);
      lastVadProb := vadState.ProcessPcm(Samples(mem[..], off, samples * channels), samples, Vad.VAD_RATE, channels);
    }

    /** The arena and the session's own buffers are different objects. */
    ghost predicate Separate(arena: Arena)
      reads this
    {
      && (resampler != null ==> arena.buf as object != resampler.delayBuf)
      && (vadState != null ==> arena.buf as object != vadState.hidden)
      && (resampler != null && vadState != null ==> resampler.delayBuf as object != vadState.hidden)
    }

    /** Upsampling has not run past the kept history: the first window still starts within it. */
    ghost predicate HistoryReaches()
      reads this`resampler, resampler
    {
      resampler != null && resampler.config.rates.Up() ==> Floor(resampler.posFp) - CENTER >= -ResampleClock.HISTORY
    }

    ghost function VadHidden(): (h: seq<real>)
      requires vadState != null ==> vadState.Valid()
      reads this, vadState, if vadState == null then {} else {vadState.hidden}
      ensures |h| == Vad.HIDDEN
    {
      if vadState == null then seq(Vad.HIDDEN, _ => 0.0) else vadState.hidden[..]
    }

    /** audio_process_transcode. Whether it succeeds or not, StateAfter says how far resampler and VAD
        have moved on. */
    method AudioProcessTranscode(payload: seq<byte>, arena: Arena) returns (r: int)
      requires Valid() && Separate(arena) && HistoryReaches() && arena.curr <= arena.buf.Length
      requires INPUT_SIZE <= |payload| && |payload| + arena.buf.Length < TWO32
      modifies this`lastVadProb, arena`curr, arena.buf
      modifies if resampler == null then {} else {resampler as object, resampler.delayBuf}
      modifies if vadState == null then {} else {vadState.hidden}
      ensures Valid() && GetSettings() == old(GetSettings())
      ensures r == if Succeeds(GetSettings(), payload, old(arena.curr), arena.buf.Length) then 0 else -1
      ensures NetU32(payload[0..4]) == 0 ==>
                && arena.curr == old(arena.curr) && arena.buf[..] == old(arena.buf[..])
                && ResamplerState() == old(ResamplerState()) && VadHidden() == old(VadHidden())
                && lastVadProb == old(lastVadProb)
      ensures NetU32(payload[0..4]) > 0 ==>
                var j := Job(GetSettings(), payload, old(arena.curr), old(arena.buf[..]));
                && StateAfter(j, old(ResamplerState()), ResamplerState(), old(VadHidden()), VadHidden(),
                              old(lastVadProb), lastVadProb)
                && (r == 0 ==> OutputAt(j, old(ResamplerState()), arena.buf[..], arena.curr))
      ensures SameOutside(old(arena.buf[..]), arena.buf[..], old(arena.curr), arena.buf.Length)
    {
      assert inChannels > 0 && (IsLaw(inType) ==> inChannels == 1) && |payload| >= INPUT_SIZE;
      hide Samples, MixDone, Defined, Succeeds, RequestChunks, SameOutside, TailFits, Resampled, AfterResample,
           EncodeOutput, StateAfter, OutputAt, MixedState, Decodes, DecodeEnd;
      ghost var s, st, h, p0 := GetSettings(), ResamplerState(), VadHidden(), lastVadProb;
      ghost var j := Job(s, payload, arena.curr, arena.buf[..]);
      var initialCurr := arena.curr;
      Untouched(j.before, initialCurr);
      var numBuffers := NetU32(payload[0..4]);
      if numBuffers == 0 {
        assert Succeeds(s, payload, initialCurr, arena.buf.Length) by {
          NothingAsked(s, payload, initialCurr, arena.buf.Length); }
        return 0;
      }
      var ok, off, samples := MixDown(payload, numBuffers, arena, j);
      if !ok || samples == 0 {
        NotMixed(j, arena.curr, arena.buf[..], off, samples, ok, st, h, p0);
        return -1;
      }
      ghost var curr, m1 := arena.curr, arena.buf[..];
      var mixed := MixedFacts(j, curr, m1, off, samples);
      ok := ProcessMixed(arena, initialCurr, off, samples, s, mixed, st, h);
      Within(j.before, m1, arena.buf[..], initialCurr, arena.buf.Length, initialCurr, arena.buf.Length);
      SuccessIs(j, curr, m1, off, samples);
      StateIs(j, curr, m1, off, samples, mixed, st, ResamplerState(), h, VadHidden(), p0, lastVadProb);
      if ok {
        OutputIs(j, curr, m1, off, samples, mixed, st, arena.buf[..], arena.curr);
      }
      r := if ok then 0 else -1;
    }

    /** From the mixed input on: VAD at 16 kHz input, resample, VAD at 16 kHz output, encode. */
    method ProcessMixed(arena: Arena, initialCurr: nat, off: nat, samples: nat,
                        ghost s: Settings, ghost mixed: seq<int16>, ghost st: Resampler,
                            ghost h: seq<real>) returns (ok: bool)
      requires Valid() && Separate(arena) && s == GetSettings() && samples > 0 && HistoryReaches()
      requires initialCurr <= off && off + 2 * (samples * s.channels) <= arena.curr <= arena.buf.Length
      requires Samples(arena.buf[..], off, samples * s.channels) == mixed
      requires st == ResamplerState() && h == VadHidden()
      modifies this`lastVadProb, arena`curr, arena.buf
      modifies if resampler == null then {} else {resampler as object, resampler.delayBuf}
      modifies if vadState == null then {} else {vadState.hidden}
      ensures Valid() && GetSettings() == s
      ensures ok <==> TailFits(s, old(arena.curr), samples, arena.buf.Length)
      ensures SameOutside(old(arena.buf[..]), arena.buf[..], initialCurr, arena.buf.Length)
      ensures MixedState(s, st, ResamplerState(), mixed, samples, old(arena.curr), arena.buf.Length, h, VadHidden(),
              lastVadProb)
      ensures ok ==>
                var out := EncodeOutput(s, Resampled(s, st, mixed));
                arena.curr == initialCurr + |out| <= arena.buf.Length && arena.buf[..][initialCurr..arena.curr] == out
    {
      hide Samples, Resampled, AfterResample, EncodeOutput, ResampleEnd, SameOutside, VadDone, Allocates, BlockStart,
           OutCount, Rates.Valid, Vad.Bounded, Vad.InRange, StreamResampler.Valid, MixedState;
      ghost var curr, m0 := arena.curr, arena.buf[..];
      var outOff, outSamples;
      ok, outOff, outSamples := ToOutputRate(arena, off, samples, s, st, h);
      ghost var m1 := arena.buf[..];
      Within(m0, m0, m1, initialCurr, arena.buf.Length, curr, arena.buf.Length);
      if !ok {
        return false;
      }
      OutputRateFacts(s, st, ResamplerState(), mixed, samples, m1, off, curr, arena.curr, outOff, outSamples,
                      h, VadHidden(), lastVadProb);
      ok := EncodeStage(arena, initialCurr, outOff, outSamples, s);
      Within(m0, m1, arena.buf[..], initialCurr, arena.buf.Length, initialCurr, arena.buf.Length);
    }

    /** VAD at 16 kHz input, resample, VAD at 16 kHz output. */
    method ToOutputRate(arena: Arena, off: nat, samples: nat, ghost s: Settings, ghost st: Resampler,
        ghost h: seq<real>)
      returns (ok: bool, outOff: nat, outSamples: nat)
      requires Valid() && Separate(arena) && s == GetSettings() && HistoryReaches() && samples > 0
      requires off + 2 * (samples * s.channels) <= arena.curr <= arena.buf.Length
      requires st == ResamplerState() && h == VadHidden()
      modifies this`lastVadProb, arena`curr, arena.buf
      modifies if resampler == null then {} else {resampler as object, resampler.delayBuf}
      modifies if vadState == null then {} else {vadState.hidden}
      ensures Valid() && GetSettings() == s
      ensures ok <==> ResampleEnd(s, old(arena.curr), samples, arena.buf.Length).Some?
      ensures SameOutside(old(arena.buf[..]), arena.buf[..], old(arena.curr), arena.buf.Length)
      ensures !ok ==> MixedState(s, st, ResamplerState(),
                                 Samples(old(arena.buf[..]), off, samples * s.channels), samples,
                                 old(arena.curr), arena.buf.Length, h, VadHidden(), lastVadProb)
      ensures ok ==> AtOutputRate(s, st, ResamplerState(),
                                  Samples(old(arena.buf[..]), off, samples * s.channels), samples,
                                  arena.buf[..], off, old(arena.curr), arena.curr, outOff, outSamples,
                                  h, VadHidden(), lastVadProb)
    {
      hide Samples, ResampleEnd, SameOutside, AtSite, ResampledAt, GetSettings, HistoryReaches, Vad.InRange,
           Vad.Bounded, AtOutputRate, VadDone, EarlyVadInput;
      ghost var curr, mixed := arena.curr, Samples(arena.buf[..], off, samples * s.channels);
      ok, outOff, outSamples := DetectAndResample(arena, off, samples, s, st);
      if ok {
        ghost var h1, p1 := VadHidden(), lastVadProb;
        StageFacts(s, st, ResamplerState(), mixed, samples, arena.buf[..], off, curr, arena.curr, outOff, outSamples);
        SecondSite(arena, outOff, outSamples, s);
        VadOnce(s, st, ResamplerState(), mixed, samples, arena.buf[..], off, curr, arena.curr, outOff, outSamples,
                h, h1, VadHidden(), p1, lastVadProb);
      } else {
        EarlyVad(s, mixed, h, VadHidden(), lastVadProb);
      }
    }

    method DetectAndResample(arena: Arena, off: nat, samples: nat, ghost s: Settings, ghost st: Resampler)
      returns (ok: bool, outOff: nat, outSamples: nat)
      requires Valid() && Separate(arena) && s == GetSettings() && HistoryReaches()
      requires off + 2 * (samples * s.channels) <= arena.curr <= arena.buf.Length && st == ResamplerState()
      modifies this`lastVadProb, arena`curr, arena.buf
      modifies if resampler == null then {} else {resampler as object, resampler.delayBuf}
      modifies if vadState == null then {} else {vadState.hidden}
      ensures Valid() && GetSettings() == s
      ensures ok <==> ResampleEnd(s, old(arena.curr), samples, arena.buf.Length).Some?
      ensures SameOutside(old(arena.buf[..]), arena.buf[..], old(arena.curr), arena.buf.Length)
      ensures !ok ==> ResamplerState() == st
      ensures ok ==> ResampledAt(s, st, ResamplerState(),
                                 Samples(old(arena.buf[..]), off, samples * s.channels), samples,
                                 arena.buf[..], off, old(arena.curr), arena.curr, outOff, outSamples)
      ensures var run := s.vad.Some? && s.inRate == Vad.VAD_RATE;
              && AtSite(s, run, Samples(old(arena.buf[..]), off, samples * s.channels),
                        old(VadHidden()), VadHidden(), -1.0, lastVadProb)
              && (run && samples > 0 ==> lastVadProb >= 0.0)
    {
      hide Samples, ResampleEnd, SameOutside, Floor, AtSite, ResampledAt, GetSettings, Defined, HistoryReaches,
           Vad.InRange, Vad.Bounded;
      FirstSite(arena, off, samples, s);
      ok, outOff, outSamples := ResampleStage(arena, off, samples, s, st);
    }

    method FirstSite(arena: Arena, off: nat, samples: nat, ghost s: Settings)
      requires Valid() && Separate(arena) && s == GetSettings() && off + 2 * (samples * s.channels) <= arena.buf.Length
      modifies this`lastVadProb, if vadState == null then {} else {vadState.hidden}
      ensures Valid() && s == GetSettings() && ResamplerState() == old(ResamplerState())
      ensures var run := s.vad.Some? && s.inRate == Vad.VAD_RATE;
              && AtSite(s, run, Samples(arena.buf[..], off, samples * s.channels), old(VadHidden()), VadHidden(), -1.0,
                 lastVadProb)
              && (run && samples > 0 ==> lastVadProb >= 0.0)
    {
      hide Samples, VadPass, Vad.InRange, Vad.Bounded, AtSite;
      assert s.channels > 0 && s.channels == inChannels;
      hide Defined;
      lastVadProb := -1.0;
      VadSite(arena.buf, off, samples, inChannels, vadEnabled && vadState != null && inRate == Vad.VAD_RATE, s);
    }

    method SecondSite(arena: Arena, off: nat, samples: nat, ghost s: Settings)
      requires Valid() && Separate(arena) && s == GetSettings() && off + 2 * (samples * s.channels) <= arena.buf.Length
      modifies this`lastVadProb, if vadState == null then {} else {vadState.hidden}
      ensures Valid() && s == GetSettings() && ResamplerState() == old(ResamplerState())
      ensures AtSite(s, s.vad.Some? && old(lastVadProb) == -1.0 && s.outRate == Vad.VAD_RATE,
                     Samples(arena.buf[..], off, samples * s.channels), old(VadHidden()), VadHidden(),
                       old(lastVadProb), lastVadProb)
    {
      hide Samples, VadPass, Vad.InRange, Vad.Bounded, AtSite;
      assert s.channels > 0 && s.channels == outChannels;
      hide Defined;
      VadSite(arena.buf, off, samples, outChannels,
              vadEnabled && vadState != null && lastVadProb == -1.0 && outRate == Vad.VAD_RATE, s);
    }

    /** A guarded VAD call site. */
    method VadSite(mem: array<byte>, off: nat, samples: nat, channels: nat, run: bool, ghost s: Settings)
      requires s == GetSettings() && channels == s.channels > 0 && off + 2 * (samples * channels) <= mem.Length
      requires vadState != null ==> vadState.Valid() && mem as object != vadState.hidden
      requires run ==> vadEnabled && vadState != null
      modifies this`lastVadProb, if vadState == null then {} else {vadState.hidden}
      ensures s == GetSettings() && (vadState != null ==> vadState.Valid())
      ensures AtSite(s, run, Samples(mem[..], off, samples * channels), old(VadHidden()), VadHidden(),
              old(lastVadProb), lastVadProb)
      ensures run && samples > 0 ==> lastVadProb >= 0.0
    {
      hide Samples, VadPass, Vad.InRange, Vad.Bounded;
      if run {
        RunVad(mem, off, samples, channels);
      }
    }

    /** decode_samples. */
    function DecodedInstants(length: nat): nat
      requires inChannels > 0
      reads this
    {
      if IsLaw(inType) then length else Instants(length, inChannels)
    }
  }

  /** The start payloads whose sessions the code gives meaning to. */
  predicate Supported(c: Start) {
    && c.inChannels == c.outChannels && c.inChannels > 0 && Known(c.outType)
    && (IsLaw(c.inType) || IsLaw(c.outType) || c.inRate != c.outRate ==> c.inChannels == 1)
    && (c.inRate != c.outRate ==> SupportedRate(c.inRate) && SupportedRate(c.outRate))
  }

  /** The settings of a session started with a payload, in a build and with a network. */
  function SettingsOf(c: Start, kernel: Kernel, avx2: bool, network: Vad.Network): Settings {
    Settings(c.inType, c.outType, c.inChannels,
             Swapped(c.inType, c.inEndian), Swapped(c.outType, c.outEndian), c.inRate, c.outRate,
             if c.inRate != c.outRate then Some(Config(Rates(c.inRate, c.outRate), kernel, avx2)) else None,
             if WantsVad(c.flags) then Some(network) else None)
  }

  /** CMD_START: configure, clear the arena, place the VAD state at its start. Requests use what is
      left, and a supported session is ready for them. */
  method HandleStart(session: TranscodeSession, arena: Arena, config: seq<byte>, network: Vad.Network)
    returns (arenaCurrStart: nat)
    requires |config| >= START_SIZE && arena.base % 8 == 0 && Vad.Bounded(network)
    modifies session, arena`curr
    ensures arena.curr == arenaCurrStart < 32 + VAD_STATE_SIZE && session.Configured(DecodeStart(config))
    ensures session.resampler != null <==>
              session.needsResample && SupportedRate(session.inRate) && SupportedRate(session.outRate)
    ensures session.resampler != null ==>
              && fresh(session.resampler) && fresh(session.resampler.delayBuf) && session.resampler.Valid()
              && session.resampler.config == Config(Rates(session.inRate, session.outRate), session.kernel,
                 session.avx2)
              && session.resampler.Abs() == ResampleStream.Start(session.resampler.config)
    ensures session.vadState != null ==>
              && session.vadEnabled && fresh(session.vadState) && fresh(session.vadState.hidden)
              && session.vadState.Valid() && session.vadState.network == network
              && session.vadState.hidden[..] == seq(Vad.HIDDEN, _ => 0.0) && arenaCurrStart <= arena.buf.Length
    ensures session.vadEnabled && arena.buf.Length >= 31 + VAD_STATE_SIZE ==> session.vadState != null
    ensures !session.vadEnabled ==> arenaCurrStart == 0
    ensures Supported(DecodeStart(config)) ==>
              session.Valid() && session.Separate(arena) && session.HistoryReaches()
    ensures Supported(DecodeStart(config)) && arena.buf.Length >= 31 + VAD_STATE_SIZE ==>
              && session.GetSettings() == SettingsOf(DecodeStart(config), session.kernel, session.avx2, network)
              && session.ResamplerState() == StartState(session.GetSettings())
  {
    hide NetU16, NetU32, SupportedRate, Vad.Bounded, Vad.InRange, StreamResampler.Valid, ResampleStream.Start,
         Supported, Defined, TranscodeSession.GetSettings, Floor;
    var _ := session.Init(config);
    arena.Reset();
    if session.vadEnabled {
      var block := arena.AllocVadState();
      if block.Some? {
        session.vadState := new Vad.VadGru(network);
      }
    }
    arenaCurrStart := arena.curr;
    if Supported(DecodeStart(config)) {
      if session.resampler != null {
        StartReaches(session.resampler.config, session.resampler.Abs());
      }
      SameChannels(DecodeStart(config));
      ReadyFor(session, DecodeStart(config));
      StartedAs(session, DecodeStart(config), network);
    }
  }

  lemma ReadyFor(session: TranscodeSession, c: Start)
    requires session.Configured(c) && Supported(c)
    requires session.resampler != null <==> session.needsResample
    requires session.resampler != null ==>
               && session.resampler.Valid()
               && session.resampler.config.rates == Rates(session.inRate, session.outRate)
    requires session.vadState != null ==> session.vadState.Valid()
    ensures session.Valid()
  {
    hide Supported, Defined, SupportedRate, Vad.Bounded, Vad.InRange;
    SupportedDefined(c, session.GetSettings());
    assert session.inChannels == session.outChannels by { SameChannels(c); }
  }

  /** What a started session is, in the terms of the pipeline. */
  lemma StartedAs(session: TranscodeSession, c: Start, network: Vad.Network)
    requires session.Configured(c) && Supported(c) && session.Valid()
    requires session.resampler != null ==>
               && session.resampler.config == Config(Rates(session.inRate, session.outRate), session.kernel,
                  session.avx2)
               && session.resampler.Abs() == ResampleStream.Start(session.resampler.config)
    requires session.resampler != null <==> session.needsResample
    requires session.vadState != null ==> session.vadState.network == network
    ensures (session.vadEnabled ==> session.vadState != null) ==>
              session.GetSettings() == SettingsOf(c, session.kernel, session.avx2, network)
    ensures session.ResamplerState() == StartState(session.GetSettings())
  {
    hide Supported, Defined, SupportedRate, Vad.Bounded, Vad.InRange, ResampleStream.Start;
  }

  lemma SameChannels(c: Start)
    requires Supported(c)
    ensures c.inChannels == c.outChannels
    ensures c.inRate != c.outRate ==> SupportedRate(c.inRate) && SupportedRate(c.outRate)
  {
  }

  lemma StartReaches(c: Config, st: Resampler)
    requires c.rates.Valid() && st == ResampleStream.Start(c)
    ensures c.rates.Up() ==> Floor(st.pos) - CENTER >= -ResampleClock.HISTORY
  {
    hide SupportedRate;
  }

  lemma SupportedDefined(c: Start, s: Settings)
    requires Supported(c) && s.inType == c.inType && s.outType == c.outType && s.channels == c.inChannels
    requires s.inRate == c.inRate && s.outRate == c.outRate && (s.resample.Some? <==> s.inRate != s.outRate)
    requires s.resample.Some? ==> s.resample.value.rates == Rates(s.inRate, s.outRate)
    ensures Defined(s)
  {
    hide SupportedRate;
  }

  /** A session from CMD_START to the answer to its first CMD_INPUT. */
  method FirstRequest(session: TranscodeSession, arena: Arena, config: seq<byte>, network: Vad.Network,
      payload: seq<byte>)
    returns (arenaCurrStart: nat, data: Option<seq<byte>>)
    requires |config| >= START_SIZE && Supported(DecodeStart(config)) && Vad.Bounded(network)
    requires arena.base % 8 == 0 && arena.buf.Length >= 32 + VAD_STATE_SIZE
    requires INPUT_SIZE <= |payload| && |payload| + arena.buf.Length < TWO32
    modifies session, arena`curr, arena.buf
    ensures session.Valid() && session.Configured(DecodeStart(config)) && arenaCurrStart < 32 + VAD_STATE_SIZE
    ensures session.GetSettings() == SettingsOf(DecodeStart(config), session.kernel, session.avx2, network)
    ensures data.Some? <==> Succeeds(session.GetSettings(), payload, arenaCurrStart, arena.buf.Length)
    ensures data.Some? && NetU32(payload[0..4]) > 0 ==>
              Replied(Job(session.GetSettings(), payload, arenaCurrStart, old(arena.buf[..])),
                      StartState(session.GetSettings()), session.ResamplerState(), data.value)
  {
    hide Succeeds, NetU32, NetU16, Replied, Supported, Defined, SupportedRate, Vad.Bounded, Vad.InRange,
         ResampleStream.Start;
    arenaCurrStart := HandleStart(session, arena, config, network);
    data := HandleInput(session, arena, arenaCurrStart, payload);
  }

  /** The resampler of a session that has just started. */
  function StartState(s: Settings): Resampler
    requires Defined(s)
  {
    if s.resample.Some? then ResampleStream.Start(s.resample.value) else Resampler(0, Silence())
  }

  /** CMD_INPUT: run the pipeline behind the VAD state and take its output, which is the reply's data. */
  method HandleInput(session: TranscodeSession, arena: Arena, arenaCurrStart: nat, payload: seq<byte>)
    returns (data: Option<seq<byte>>)
    requires session.Valid() && session.Separate(arena) && session.HistoryReaches() &&
             arenaCurrStart <= arena.buf.Length
    requires INPUT_SIZE <= |payload| && |payload| + arena.buf.Length < TWO32
    modifies session`lastVadProb, arena`curr, arena.buf
    modifies if session.resampler == null then {} else {session.resampler as object, session.resampler.delayBuf}
    modifies if session.vadState == null then {} else {session.vadState.hidden}
    ensures session.Valid() && session.GetSettings() == old(session.GetSettings())
    ensures data.Some? <==> Succeeds(session.GetSettings(), payload, arenaCurrStart, arena.buf.Length)
    ensures data.Some? ==> arena.curr == arenaCurrStart
    ensures data.Some? && NetU32(payload[0..4]) == 0 ==> data.value == []
    ensures data.Some? && NetU32(payload[0..4]) > 0 ==>
              Replied(Job(session.GetSettings(), payload, arenaCurrStart, old(arena.buf[..])),
                      old(session.ResamplerState()), session.ResamplerState(), data.value)
    ensures arena.buf[..arenaCurrStart] == old(arena.buf[..arenaCurrStart])
  {
    hide Succeeds, NetU32, TranscodeSession.GetSettings, Replied, Defined, OutputAt, StateAfter;
    ghost var st, h, p0, s := session.ResamplerState(), session.VadHidden(), session.lastVadProb, session.GetSettings();
    ghost var j := Job(s, payload, arenaCurrStart, arena.buf[..]);
    arena.curr := arenaCurrStart;
    var r := session.AudioProcessTranscode(payload, arena);
    data := None;
    if r == 0 {
      if NetU32(payload[0..4]) > 0 {
        OutputReplies(j, st, session.ResamplerState(), h, session.VadHidden(), p0, session.lastVadProb,
                      arena.buf[..], arena.curr);
      }
      data := Some(arena.buf[arenaCurrStart..arena.curr]);
      arena.curr := arenaCurrStart;
    }
    assert arena.buf[..arenaCurrStart] == j.before[..arenaCurrStart];
  }

  /** The reply's data is the request's output, and the resampler moved on over its mixed input. */
  ghost predicate Replied(j: Job, st: Resampler, st': Resampler, data: seq<byte>) {
    && Defined(j.s) && |st.history| == ResampleClock.HISTORY && j.WellPosed() && j.Decodable(j.Chunks())
    && data == OutputIn(j.s, st, j.payload, j.before, j.start, j.Chunks())
    && st' == AfterResample(j.s, st, j.Mixed(j.Chunks()))
  }

  lemma OutputReplies(j: Job, st: Resampler, st': Resampler, h: seq<real>, h': seq<real>, prob0: real, prob: real,
                      mem: seq<byte>, curr: nat)
    requires StateAfter(j, st, st', h, h', prob0, prob) && OutputAt(j, st, mem, curr)
    requires |j.payload| + |j.before| < TWO32 && NetU32(j.payload[0..4]) > 0
    requires Succeeds(j.s, j.payload, j.start, |j.before|)
    ensures j.start <= curr <= |mem| && Replied(j, st, st', mem[j.start..curr])
  {
    hide RequestChunks, OutputIn, MixedIn, AfterResample, VadDone, Resampled, Decodes, DecodeEnd, MixLength,
         ResampleEnd, NetU32;
  }

  lemma NothingAsked(s: Settings, payload: seq<byte>, c0: nat, limit: nat)
    requires Defined(s) && INPUT_SIZE <= |payload| < TWO32 && NetU32(payload[0..4]) == 0
    ensures Succeeds(s, payload, c0, limit)
  {
  }
}
