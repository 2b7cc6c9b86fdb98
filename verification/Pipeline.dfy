/** What one CMD_INPUT computes (src/processing/transcode.c:85-229), as a function of the request:
    parse, decode, mix, resample, encode; and when it succeeds. */
module Pipeline {
  import opened Arith
  import opened Bytes
  import opened Memory
  import opened Protocol
  import opened Arenas
  import opened G711
  import opened SampleLoops
  import opened ResampleClock
  import opened ResampleStream
  import Vad

  const CODEC_PCMU: byte := 0
  const CODEC_PCMA: byte := 8
  const CODEC_L16: byte := 96

  const ARENA_SIZE := 262144
  const LARGEST_PAYLOAD := 32752
  const LARGEST_OUTPUT := 8160

  /** A configured session, with the same channel count on both sides. */
  datatype Settings = Settings(inType: byte, outType: byte, channels: nat, swapIn: bool, swapOut: bool,
                               inRate: nat, outRate: nat, resample: Option<Config>, vad: Option<Vad.Network>)

  predicate IsLaw(t: byte) { t == CODEC_PCMU || t == CODEC_PCMA }

  function LawOf(t: byte): Law { if t == CODEC_PCMU then Mu else A }

  predicate Known(t: byte) { IsLaw(t) || t == CODEC_L16 }

  /** The sessions the pipeline is defined for: a known output codec, and one channel wherever
      samples are companded or resampled. */
  predicate Defined(s: Settings) {
    && s.channels > 0 && Known(s.outType)
    && (IsLaw(s.inType) || IsLaw(s.outType) || s.resample.Some? ==> s.channels == 1)
    && (s.resample.Some? <==> s.inRate != s.outRate)
    && (s.resample.Some? ==> s.resample.value.rates == Rates(s.inRate, s.outRate) && s.resample.value.rates.Valid())
  }

  // ---------------------------------------------------------------- decoding and mixing

  /** Whole sample instants of an L16 buffer. */
  function Instants(length: nat, channels: nat): nat
    requires channels > 0
  {
    DivNonNegative(length, 2 * channels);
    length / (2 * channels)
  }

  lemma InstantsFit(length: nat, channels: nat)
    requires channels > 0
    ensures 2 * (Instants(length, channels) * channels) <= length
  {
    DivBounds(length, 2 * channels);
    MulAssoc(Instants(length, channels), 2, channels);
  }

  function DecodeBuffer(s: Settings, data: seq<byte>): seq<int16>
    requires s.channels > 0
  {
    if IsLaw(s.inType) then DecodeAll(LawOf(s.inType), data)
    else
      InstantsFit(|data|, s.channels);
      var samples := Samples(data, 0, Instants(|data|, s.channels) * s.channels);
      if s.swapIn then SwapAll(samples) else samples
  }

  /** Saturating addition of a buffer into the first one, which keeps its length. */
  function MixInto(acc: seq<int16>, x: seq<int16>): (r: seq<int16>)
    ensures |r| == |acc|
  {
    seq(|acc|, i requires 0 <= i < |acc| => if i < |x| then SatAdd(acc[i], x[i]) else acc[i])
  }

  function MixAll(acc: seq<int16>, xs: seq<seq<int16>>): (r: seq<int16>)
    ensures |r| == |acc|
    decreases |xs|
  {
    if xs == [] then acc else MixAll(MixInto(acc, xs[0]), xs[1..])
  }

  lemma {:induction false} MixAllSnoc(acc: seq<int16>, xs: seq<seq<int16>>, x: seq<int16>)
    ensures MixAll(acc, xs + [x]) == MixInto(MixAll(acc, xs), x)
    decreases |xs|
  {
    hide MixInto;
    if xs == [] {
      assert (xs + [x])[1..] == [];
      assert (xs + [x])[0] == x;
      assert MixAll(MixInto(acc, x), []) == MixInto(acc, x);
    } else {
      assert (xs + [x])[1..] == xs[1..] + [x];
      MixAllSnoc(MixInto(acc, xs[0]), xs[1..], x);
    }
  }

  function ChunkData(payload: seq<byte>, c: Chunk): seq<byte>
    requires InBounds(payload, c)
  {
    payload[c.start..c.start + c.header.length]
  }

  function DecodeChunks(s: Settings, payload: seq<byte>, cs: seq<Chunk>): (xs: seq<seq<int16>>)
    requires s.channels > 0 && forall c :: c in cs ==> InBounds(payload, c)
    ensures |xs| == |cs|
  {
    if cs == [] then [] else [DecodeBuffer(s, ChunkData(payload, cs[0]))] + DecodeChunks(s, payload, cs[1..])
  }

  /** The mixed input: the left fold of saturating addition over the decoded buffers. */
  function Mixed(s: Settings, payload: seq<byte>, cs: seq<Chunk>): seq<int16>
    requires s.channels > 0 && forall c :: c in cs ==> InBounds(payload, c)
  {
    if cs == [] then []
    else
      var xs := DecodeChunks(s, payload, cs);
      MixAll(xs[0], xs[1..])
  }

  /** How many samples a buffer of some length decodes to. */
  function SampleCount(s: Settings, length: nat): nat
    requires s.channels > 0
  {
    if IsLaw(s.inType) then length else Instants(length, s.channels) * s.channels
  }

  lemma DecodedLength(s: Settings, data: seq<byte>)
    requires s.channels > 0
    ensures |DecodeBuffer(s, data)| == SampleCount(s, |data|)
  {
    hide DecodeAll, SwapAll, Samples;
  }

  /** The mix has the length of its first buffer. */
  function MixLength(s: Settings, cs: seq<Chunk>): nat
    requires s.channels > 0
  {
    if cs == [] then 0 else SampleCount(s, cs[0].header.length)
  }

  // ---------------------------------------------------------------- the rest of the pipeline

  function Resampled(s: Settings, st: Resampler, mixed: seq<int16>): seq<int16>
    requires Defined(s) && |st.history| == HISTORY
  {
    if s.resample.Some? then FrameOutputs(s.resample.value, st, mixed) else mixed
  }

  function AfterResample(s: Settings, st: Resampler, mixed: seq<int16>): (next: Resampler)
    requires Defined(s) && |st.history| == HISTORY
    ensures |next.history| == HISTORY
  {
    if s.resample.Some? then AfterFrame(s.resample.value, st, mixed) else st
  }

  function EncodeOutput(s: Settings, samples: seq<int16>): seq<byte> {
    if IsLaw(s.outType) then EncodeAll(LawOf(s.outType), samples)
    else SampleBytesOf(if s.swapOut then SwapAll(samples) else samples)
  }

  /** The buffers of a CMD_INPUT payload. */
  function RequestChunks(payload: seq<byte>): seq<Chunk>
    requires INPUT_SIZE <= |payload| < TWO32
  {
    ParseAll(payload, INPUT_SIZE, BufferHeader(0, 0), NetU32(payload[0..4]))
  }

  // ---------------------------------------------------------------- arena use

  function DecodeSize(s: Settings, length: nat): nat {
    if IsLaw(s.inType) then 2 * length else length
  }

  /** The cursor after the decode buffers, if they all fit. */
  function DecodeEnd(s: Settings, curr: nat, cs: seq<Chunk>, limit: nat): Option<nat>
    decreases |cs|
  {
    if cs == [] then Some(curr)
    else if Known(s.inType) && Allocates(curr, DecodeSize(s, cs[0].header.length), limit) then
      DecodeEnd(s, BlockStart(curr) + DecodeSize(s, cs[0].header.length), cs[1..], limit)
    else None
  }

  function ResampleSize(s: Settings, n: nat): nat
    requires Defined(s)
  {
    if s.resample.Some? then (n * s.outRate / s.inRate + 128) * s.channels * 2 else 0
  }

  /** The cursor after the resampling buffer, if it is needed. */
  function ResampleEnd(s: Settings, curr: nat, n: nat, limit: nat): Option<nat>
    requires Defined(s)
  {
    if s.resample.None? then Some(curr)
    else if Allocates(curr, ResampleSize(s, n), limit) then Some(BlockStart(curr) + ResampleSize(s, n))
    else None
  }

  /** Everything from the mixed samples on fits. */
  predicate TailFits(s: Settings, curr: nat, n: nat, limit: nat)
    requires Defined(s)
  {
    var end := ResampleEnd(s, curr, n, limit);
    && end.Some?
    && (IsLaw(s.outType) ==> Allocates(end.value, OutSamples(s, n), limit))
  }

  function OutSamples(s: Settings, n: nat): nat
    requires Defined(s)
  {
    if s.resample.Some? then OutCount(s.resample.value.rates, n) else n
  }

  lemma {:induction false} DecodeEndSnoc(s: Settings, curr: nat, cs: seq<Chunk>, c: Chunk, limit: nat)
    ensures var end := DecodeEnd(s, curr, cs, limit);
            DecodeEnd(s, curr, cs + [c], limit) ==
            if end.Some? && Known(s.inType) && Allocates(end.value, DecodeSize(s, c.header.length), limit) then
              Some(BlockStart(end.value) + DecodeSize(s, c.header.length))
            else None
    decreases |cs|
  {
    hide Allocates, BlockStart, DecodeSize, Known;
    if cs == [] {
      assert (cs + [c])[1..] == [];
      assert (cs + [c])[0] == c;
    } else {
      assert (cs + [c])[1..] == cs[1..] + [c];
      DecodeEndSnoc(s, BlockStart(curr) + DecodeSize(s, cs[0].header.length), cs[1..], c, limit);
    }
  }

  /** If the first buffers do not fit, neither do more. */
  lemma {:induction false} DecodeEndPrefix(s: Settings, curr: nat, a: seq<Chunk>, b: seq<Chunk>, limit: nat)
    requires DecodeEnd(s, curr, a, limit).None?
    ensures DecodeEnd(s, curr, a + b, limit).None?
    decreases |a|
  {
    hide Allocates, BlockStart, DecodeSize, Known;
    assert (a + b)[0] == a[0] && (a + b)[1..] == a[1..] + b;
    if Known(s.inType) && Allocates(curr, DecodeSize(s, a[0].header.length), limit) {
      DecodeEndPrefix(s, BlockStart(curr) + DecodeSize(s, a[0].header.length), a[1..], b, limit);
    }
  }

  /** A request succeeds: it asks for nothing, or a buffer was parsed, all buffers decode within the
      arena, the first is not empty, and the rest fits too. */
  predicate Succeeds(s: Settings, payload: seq<byte>, curr: nat, limit: nat)
    requires Defined(s) && INPUT_SIZE <= |payload| < TWO32
  {
    var cs := RequestChunks(payload);
    NetU32(payload[0..4]) == 0 ||
    (&& MixLength(s, cs) > 0
     && DecodeEnd(s, curr, cs, limit).Some?
     && TailFits(s, DecodeEnd(s, curr, cs, limit).value, MixLength(s, cs), limit))
  }

  // ---------------------------------------------------------------- what the decode blocks hold

  /** The G.711 decoders take only multiples of sixteen bytes, and their refusal is ignored. */
  predicate Aligned(s: Settings, length: nat) {
    IsLaw(s.inType) ==> length % 16 == 0
  }

  predicate AllAligned(s: Settings, cs: seq<Chunk>) {
    forall c :: c in cs ==> Aligned(s, c.header.length)
  }

  /** A decode block after its buffer: the decoded samples or, if the decoder refused, whatever the
      arena held there before the request. */
  function DecodedChunk(s: Settings, payload: seq<byte>, mem: seq<byte>, at: nat, c: Chunk): (x: seq<int16>)
    requires s.channels > 0 && InBounds(payload, c) && at + DecodeSize(s, c.header.length) <= |mem|
    ensures |x| == SampleCount(s, c.header.length)
  {
    DecodedLength(s, ChunkData(payload, c));
    if Aligned(s, c.header.length) then DecodeBuffer(s, ChunkData(payload, c)) else Samples(mem, at, c.header.length)
  }

  /** The buffers can all be decoded from a cursor on in an arena. */
  predicate Decodes(s: Settings, payload: seq<byte>, mem: seq<byte>, curr: nat, cs: seq<Chunk>) {
    && s.channels > 0 && (forall c :: c in cs ==> InBounds(payload, c))
    && DecodeEnd(s, curr, cs, |mem|).Some?
  }

  function DecodedChunks(s: Settings, payload: seq<byte>, mem: seq<byte>, curr: nat,
      cs: seq<Chunk>): (xs: seq<seq<int16>>)
    requires Decodes(s, payload, mem, curr, cs)
    ensures |xs| == |cs|
    decreases |cs|
  {
    if cs == [] then []
    else
      var at := BlockStart(curr);
      [DecodedChunk(s, payload, mem, at, cs[0])] +
      DecodedChunks(s, payload, mem, at + DecodeSize(s, cs[0].header.length), cs[1..])
  }

  /** The mixed input as the arena gives it. */
  function MixedIn(s: Settings, payload: seq<byte>, mem: seq<byte>, curr: nat, cs: seq<Chunk>): (mixed: seq<int16>)
    requires Decodes(s, payload, mem, curr, cs)
    ensures |mixed| == MixLength(s, cs)
  {
    if cs == [] then []
    else
      var xs := DecodedChunks(s, payload, mem, curr, cs);
      MixAll(xs[0], xs[1..])
  }

  lemma {:induction false} DecodedChunksSnoc(s: Settings, payload: seq<byte>, mem: seq<byte>, curr: nat,
      cs: seq<Chunk>, c: Chunk)
    requires Decodes(s, payload, mem, curr, cs) && Decodes(s, payload, mem, curr, cs + [c]) && InBounds(payload, c)
    requires var end := DecodeEnd(s, curr, cs, |mem|).value;
             Allocates(end, DecodeSize(s, c.header.length), |mem|)
    ensures var end := DecodeEnd(s, curr, cs, |mem|).value;
            DecodedChunks(s, payload, mem, curr, cs + [c]) ==
            DecodedChunks(s, payload, mem, curr, cs) + [DecodedChunk(s, payload, mem, BlockStart(end), c)]
    decreases |cs|
  {
    hide DecodedChunk, InBounds, DecodeSize, BlockStart, Known;
    if cs == [] {
      assert (cs + [c])[1..] == [] && (cs + [c])[0] == c;
    } else {
      assert (cs + [c])[1..] == cs[1..] + [c] && (cs + [c])[0] == cs[0];
      DecodedChunksSnoc(s, payload, mem, BlockStart(curr) + DecodeSize(s, cs[0].header.length), cs[1..], c);
    }
  }

  lemma MixedInSnoc(s: Settings, payload: seq<byte>, mem: seq<byte>, curr: nat, cs: seq<Chunk>, end: nat, c: Chunk)
    requires Decodes(s, payload, mem, curr, cs) && DecodeEnd(s, curr, cs, |mem|) == Some(end)
    requires Known(s.inType) && InBounds(payload, c) && Allocates(end, DecodeSize(s, c.header.length), |mem|)
    ensures Decodes(s, payload, mem, curr, cs + [c])
    ensures DecodeEnd(s, curr, cs + [c], |mem|) == Some(BlockStart(end) + DecodeSize(s, c.header.length))
    ensures BlockStart(end) + DecodeSize(s, c.header.length) <= |mem|
    ensures var x := DecodedChunk(s, payload, mem, BlockStart(end), c);
            MixedIn(s, payload, mem, curr, cs + [c]) ==
            if cs == [] then x else MixInto(MixedIn(s, payload, mem, curr, cs), x)
  {
    AllocatesWithin(end, DecodeSize(s, c.header.length), |mem|);
    hide DecodedChunk, InBounds, MixInto, Allocates, DecodeSize, BlockStart, DecodeEnd, Known;
    DecodeEndSnoc(s, curr, cs, c, |mem|);
    var x := DecodedChunk(s, payload, mem, BlockStart(end), c);
    var xs := DecodedChunks(s, payload, mem, curr, cs);
    DecodedChunksSnoc(s, payload, mem, curr, cs, c);
    if cs != [] {
      assert (xs + [x])[1..] == xs[1..] + [x];
      MixAllSnoc(xs[0], xs[1..], x);
    } else {
      assert xs + [x] == [x];
    }
  }

  /** With lengths the decoders take, what the arena held does not matter. */
  lemma {:induction false} AlignedChunks(s: Settings, payload: seq<byte>, mem: seq<byte>, curr: nat, cs: seq<Chunk>)
    requires Decodes(s, payload, mem, curr, cs) && AllAligned(s, cs)
    ensures DecodedChunks(s, payload, mem, curr, cs) == DecodeChunks(s, payload, cs)
    decreases |cs|
  {
    hide DecodeBuffer, InBounds, Known, BlockStart;
    if cs != [] {
      assert cs[0] in cs && forall c :: c in cs[1..] ==> c in cs;
      AlignedChunks(s, payload, mem, BlockStart(curr) + DecodeSize(s, cs[0].header.length), cs[1..]);
    }
  }

  lemma AlignedMixed(s: Settings, payload: seq<byte>, mem: seq<byte>, curr: nat, cs: seq<Chunk>)
    requires Decodes(s, payload, mem, curr, cs) && AllAligned(s, cs)
    ensures MixedIn(s, payload, mem, curr, cs) == Mixed(s, payload, cs)
  {
    hide DecodeEnd, InBounds, MixAll, DecodedChunks, DecodeChunks;
    AlignedChunks(s, payload, mem, curr, cs);
  }

  /** What a request leaves at the front of the arena. */
  function OutputIn(s: Settings, st: Resampler, payload: seq<byte>, mem: seq<byte>, curr: nat,
      cs: seq<Chunk>): seq<byte>
    requires Defined(s) && |st.history| == HISTORY && Decodes(s, payload, mem, curr, cs)
  {
    EncodeOutput(s, Resampled(s, st, MixedIn(s, payload, mem, curr, cs)))
  }

  /** In-bounds reads by composition: a buffer whose 32-bit length wrapped in the parser is larger
      than the arena, so if every decode buffer was allocated, every buffer lies in the payload. */
  lemma AllInBounds(s: Settings, payload: seq<byte>, curr: nat, limit: nat)
    requires INPUT_SIZE <= |payload| && |payload| + limit < TWO32 && limit > 0
    requires DecodeEnd(s, curr, RequestChunks(payload), limit).Some?
    ensures forall c :: c in RequestChunks(payload) ==> InBounds(payload, c)
  {
    ParsedBuffers(payload, INPUT_SIZE, BufferHeader(0, 0), NetU32(payload[0..4]));
    FitsInBounds(s, payload, curr, RequestChunks(payload), limit);
  }

  lemma {:induction false} FitsInBounds(s: Settings, payload: seq<byte>, curr: nat, cs: seq<Chunk>, limit: nat)
    requires |payload| + limit < TWO32 && DecodeEnd(s, curr, cs, limit).Some?
    requires forall c :: c in cs ==>
               c.start <= |payload| && (InBounds(payload, c) <==> c.header.length < TWO32 - c.start)
    ensures forall c :: c in cs ==> InBounds(payload, c)
    decreases |cs|
  {
    if cs != [] {
      assert cs[0] in cs && forall c :: c in cs[1..] ==> c in cs;
      FitsInBounds(s, payload, BlockStart(curr) + DecodeSize(s, cs[0].header.length), cs[1..], limit);
      assert forall c :: c in cs ==> c == cs[0] || c in cs[1..];
    }
  }
}
