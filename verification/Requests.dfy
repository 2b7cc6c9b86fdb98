/** What the request pipeline promises its callers: printed buffers come back decoded, mixed and
    encoded; a well-formed request never exhausts the arena; same-codec requests pass through. */
module Requests {
  import opened Bytes
  import opened Memory
  import opened Protocol
  import opened Arenas
  import opened G711
  import opened SampleLoops
  import opened ResampleClock
  import opened ResampleStream
  import opened Pipeline

  // ---------------------------------------------------------------- from the client's buffers

  function DecodeBuffers(s: Settings, bs: seq<Buffer>): (xs: seq<seq<int16>>)
    requires s.channels > 0
    ensures |xs| == |bs|
  {
    seq(|bs|, i requires 0 <= i < |bs| => DecodeBuffer(s, bs[i].data))
  }

  /** The mix of the buffers a client sent. */
  function MixOf(s: Settings, bs: seq<Buffer>): seq<int16>
    requires s.channels > 0
  {
    var xs := DecodeBuffers(s, bs);
    if xs == [] then [] else MixAll(xs[0], xs[1..])
  }

  predicate Printable(bs: seq<Buffer>) {
    && |bs| < TWO32 && (forall b :: b in bs ==> |b.data| < TWO32)
    && |EncodeInputPayload(bs)| < TWO32
  }

  /** Buffer lengths that the G.711 decoders take. */
  predicate AlignedBuffers(s: Settings, bs: seq<Buffer>) {
    forall b :: b in bs ==> Aligned(s, |b.data|)
  }

  /** What the server answers to those buffers. */
  function Answer(s: Settings, st: Resampler, bs: seq<Buffer>): seq<byte>
    requires Defined(s) && |st.history| == HISTORY && AlignedBuffers(s, bs)
  {
    EncodeOutput(s, Resampled(s, st, MixOf(s, bs)))
  }

  /** From the bytes a client prints to the bytes the server answers with: encode, after resample,
      after the saturating mix, of the buffers, whatever the arena held before. */
  lemma PrintedRequest(s: Settings, st: Resampler, bs: seq<Buffer>, mem: seq<byte>, curr: nat)
    requires Defined(s) && |st.history| == HISTORY && Printable(bs) && AlignedBuffers(s, bs)
    requires var payload := EncodeInputPayload(bs);
             Decodes(s, payload, mem, curr, RequestChunks(payload))
    ensures var payload := EncodeInputPayload(bs);
            var cs := RequestChunks(payload);
            && MixedIn(s, payload, mem, curr, cs) == MixOf(s, bs)
            && OutputIn(s, st, payload, mem, curr, cs) == Answer(s, st, bs)
  {
    hide DecodeBuffer, Reads, Resampled, EncodeOutput, EncodeInputPayload, RequestChunks, MixAll, Decodes;
    var payload := EncodeInputPayload(bs);
    var cs := RequestChunks(payload);
    PrintedChunks(bs);
    ReadLengths(s, payload, cs, bs);
    DecodedAreSent(s, payload, cs, bs);
    AlignedMixed(s, payload, mem, curr, cs);
  }

  lemma ReadLengths(s: Settings, payload: seq<byte>, cs: seq<Chunk>, bs: seq<Buffer>)
    requires |cs| == |bs| && forall i :: 0 <= i < |bs| ==> Reads(payload, cs[i], bs[i])
    ensures forall i :: 0 <= i < |bs| ==> cs[i].header.length == |bs[i].data| && InBounds(payload, cs[i])
    ensures AlignedBuffers(s, bs) <==> AllAligned(s, cs)
  {
    hide Aligned;
    forall i | 0 <= i < |bs| ensures cs[i].header.length == |bs[i].data| && InBounds(payload, cs[i]) {
      assert Reads(payload, cs[i], bs[i]);
    }
    if AllAligned(s, cs) {
      forall b | b in bs ensures Aligned(s, |b.data|) {
        var i :| 0 <= i < |bs| && bs[i] == b;
        assert cs[i] in cs;
      }
    }
  }

  lemma PrintedChunks(bs: seq<Buffer>)
    requires Printable(bs)
    ensures var payload := EncodeInputPayload(bs);
            && NetU32(payload[0..4]) == |bs|
            && |RequestChunks(payload)| == |bs|
            && forall i :: 0 <= i < |bs| ==> Reads(payload, RequestChunks(payload)[i], bs[i])
  {
    hide EncodeBuffers, Reads, NetU32, U32Net;
    var payload, before := EncodeInputPayload(bs), U32Net(|bs|) + U32Net(0);
    NetU32RoundTrip(|bs|);
    assert payload[0..4] == U32Net(|bs|);
    PrintParse(before, bs, BufferHeader(0, 0), |bs|);
  }

  lemma {:induction false} DecodedAreSent(s: Settings, payload: seq<byte>, cs: seq<Chunk>, bs: seq<Buffer>)
    requires s.channels > 0 && |cs| == |bs| && forall i :: 0 <= i < |bs| ==> Reads(payload, cs[i], bs[i])
    ensures forall c :: c in cs ==> InBounds(payload, c)
    ensures DecodeChunks(s, payload, cs) == DecodeBuffers(s, bs)
    decreases |cs|
  {
    hide DecodeBuffer;
    if cs != [] {
      assert Reads(payload, cs[0], bs[0]);
      DecodedAreSent(s, payload, cs[1..], bs[1..]);
      var xs, ys := DecodeChunks(s, payload, cs), DecodeBuffers(s, bs);
      forall i | 0 <= i < |xs| ensures xs[i] == ys[i] {
        if i > 0 {
          assert xs[i] == DecodeChunks(s, payload, cs[1..])[i - 1] && DecodeBuffers(s, bs[1..])[i - 1] == ys[i];
        }
      }
    }
  }

  // ---------------------------------------------------------------- arena sufficiency

  /** Decoding costs at most two arena bytes per payload byte: the parser's own eight bytes per buffer
      pay for the alignment. */
  lemma {:induction false} DecodingFits(s: Settings, payload: seq<byte>, offset: uint32, out: BufferHeader, count: nat,
      curr: nat, limit: nat)
    requires Known(s.inType) && |payload| < TWO32 - 8 && offset <= |payload| + 3
    requires forall c :: c in ParseAll(payload, offset, out, count) ==> InBounds(payload, c)
    requires limit > 0 && curr + 2 * (|payload| + 3 - offset) <= limit
    ensures var end := DecodeEnd(s, curr, ParseAll(payload, offset, out, count), limit);
            end.Some? && curr <= end.value <= curr + 2 * (|payload| + 3 - offset)
    decreases count
  {
    hide NetU32, NextBuffer, Allocates, BlockStart, DecodeSize, Known;
    if count > 0 {
      var p := NextBuffer(payload, offset, out);
      if p.data.Some? {
        var c, rest := Chunk(p.data.value, p.header), ParseAll(payload, p.offset, p.header, count - 1);
        var cs := ParseAll(payload, offset, out, count);
        assert cs == [c] + rest && c in cs && cs[1..] == rest;
        assert forall x :: x in rest ==> x in cs;
        NextOffset(payload, offset, out);
        OneBuffer(s, |payload|, offset, p.offset, c.header.length, curr, limit);
        DecodingFits(s, payload, p.offset, p.header, count - 1, BlockStart(curr) + DecodeSize(s, c.header.length),
          limit);
      }
    }
  }

  lemma OneBuffer(s: Settings, size: nat, offset: nat, next: nat, length: nat, curr: nat, limit: nat)
    requires limit > 0 && next <= size + 3 && offset + 8 + length <= next && curr + 2 * (size + 3 - offset) <= limit
    ensures Allocates(curr, DecodeSize(s, length), limit)
    ensures curr <= BlockStart(curr) + DecodeSize(s, length) &&
            BlockStart(curr) + DecodeSize(s, length) + 2 * (size + 3 - next) <= curr + 2 * (size + 3 - offset)
  {
  }

  lemma NextOffset(payload: seq<byte>, offset: uint32, out: BufferHeader)
    requires |payload| < TWO32 - 8
    requires var p := NextBuffer(payload, offset, out);
             p.data.Some? && InBounds(payload, Chunk(p.data.value, p.header))
    ensures var p := NextBuffer(payload, offset, out);
            offset + 8 + p.header.length <= p.offset <= offset + 8 + p.header.length + 3 && p.data.value == offset + 8
  {
    hide NetU32;
    var p := NextBuffer(payload, offset, out);
    NoWrap(offset + 8, p.header.length);
  }

  function OutputBytes(s: Settings, n: nat): nat
    requires Defined(s)
  {
    if IsLaw(s.outType) then OutSamples(s, n) else 2 * OutSamples(s, n)
  }

  /** A mono request from the reassembly buffer, whose buffers lie inside it and whose output fits the
      reply buffer, never exhausts the arena, wherever the VAD state was placed. */
  lemma ArenaSufficiency(s: Settings, payload: seq<byte>, curr: nat)
    requires Defined(s) && s.channels == 1 && Known(s.inType)
    requires INPUT_SIZE <= |payload| <= LARGEST_PAYLOAD && curr < 32 + VAD_STATE_SIZE
    requires forall c :: c in RequestChunks(payload) ==> InBounds(payload, c)
    requires OutputBytes(s, MixLength(s, RequestChunks(payload))) <= LARGEST_OUTPUT
    ensures var cs := RequestChunks(payload);
            var end := DecodeEnd(s, curr, cs, ARENA_SIZE);
            end.Some? && TailFits(s, end.value, MixLength(s, cs), ARENA_SIZE)
    ensures Succeeds(s, payload, curr, ARENA_SIZE) <==>
            NetU32(payload[0..4]) == 0 || MixLength(s, RequestChunks(payload)) > 0
  {
    hide NetU32, RequestChunks, InBounds, DecodeEnd, TailFits, MixLength, OutSamples;
    var cs := RequestChunks(payload);
    assert cs ==
      ParseAll(payload, INPUT_SIZE, BufferHeader(0, 0), NetU32(payload[0..4])) by { RequestChunksAre(payload); }
    DecodingFits(s, payload, INPUT_SIZE, BufferHeader(0, 0), NetU32(payload[0..4]), curr, ARENA_SIZE);
    TailSufficient(s, DecodeEnd(s, curr, cs, ARENA_SIZE).value, MixLength(s, cs));
  }

  lemma RequestChunksAre(payload: seq<byte>)
    requires INPUT_SIZE <= |payload| < TWO32
    ensures RequestChunks(payload) == ParseAll(payload, INPUT_SIZE, BufferHeader(0, 0), NetU32(payload[0..4]))
  {
  }

  lemma OutputLength(s: Settings, st: Resampler, mixed: seq<int16>)
    requires Defined(s) && |st.history| == HISTORY
    ensures |EncodeOutput(s, Resampled(s, st, mixed))| == OutputBytes(s, |mixed|)
  {
    hide OutCount;
  }

  lemma TailSufficient(s: Settings, curr: nat, n: nat)
    requires Defined(s) && s.channels == 1 && curr <= 32 + VAD_STATE_SIZE + 2 * LARGEST_PAYLOAD &&
             OutSamples(s, n) <= LARGEST_OUTPUT
    ensures TailFits(s, curr, n, ARENA_SIZE)
  {
    hide BlockStart;
    if s.resample.Some? {
      CapacityIs(s, n);
    }
  }

  lemma CapacityIs(s: Settings, n: nat)
    requires Defined(s) && s.channels == 1 && s.resample.Some?
    ensures ResampleSize(s, n) == 2 * (OutSamples(s, n) + 128)
  {
  }

  // ---------------------------------------------------------------- pass-through

  /** A client's buffer that is not transcoded at all. */
  predicate SameCodec(s: Settings) {
    s.inType == s.outType && s.resample.None?
  }

  /** A-law to A-law at one rate is the identity; mu-law to mu-law only turns 0x7F into 0xFF. */
  lemma LawAnswer(s: Settings, st: Resampler, b: Buffer)
    requires Defined(s) && |st.history| == HISTORY && SameCodec(s) && IsLaw(s.inType) && |b.data| % 16 == 0
    ensures Answer(s, st, [b]) == Canonical(LawOf(s.inType), b.data)
    ensures s.inType == CODEC_PCMA || 0x7F !in b.data ==> Answer(s, st, [b]) == b.data
  {
    hide DecodeAll, EncodeAll, Canonical;
    BufferRoundTrip(LawOf(s.inType), b.data);
    assert MixOf(s, [b]) == DecodeAll(LawOf(s.inType), b.data);
  }

  /** A one-buffer request's output does not depend on what the arena held before. */
  ghost predicate AlwaysGives(s: Settings, st: Resampler, b: Buffer, curr: nat, size: nat, want: seq<byte>)
    requires Defined(s) && |st.history| == HISTORY && Printable([b])
  {
    var payload := EncodeInputPayload([b]);
    forall mem: seq<byte> ::
      |mem| == size && Decodes(s, payload, mem, curr, RequestChunks(payload)) ==>
        OutputIn(s, st, payload, mem, curr, RequestChunks(payload)) == want
  }

  /** Such a request, from a cursor on in an arena of some size, succeeds and is answered with these bytes. */
  ghost predicate AnsweredWith(s: Settings, st: Resampler, b: Buffer, curr: nat, size: nat, want: seq<byte>)
    requires Defined(s) && |st.history| == HISTORY && Printable([b])
  {
    Succeeds(s, EncodeInputPayload([b]), curr, size) && AlwaysGives(s, st, b, curr, size, want)
  }

  /** Such a request without resampling succeeds exactly if it has a sample and its blocks fit. */
  lemma OneSucceeds(s: Settings, b: Buffer, curr: nat, size: nat)
    requires Defined(s) && SameCodec(s) && Known(s.inType) && Printable([b])
    ensures var n := SampleCount(s, |b.data|);
            Succeeds(s, EncodeInputPayload([b]), curr, size) <==>
            && n > 0 && Allocates(curr, DecodeSize(s, |b.data|), size)
            && (IsLaw(s.outType) ==> Allocates(BlockStart(curr) + DecodeSize(s, |b.data|), n, size))
  {
    hide EncodeInputPayload, RequestChunks, Reads, SampleCount, Allocates, BlockStart, NetU32;
    var payload := EncodeInputPayload([b]);
    var cs := RequestChunks(payload);
    PrintedChunks([b]);
    ReadLengths(s, payload, cs, [b]);
    OneEnd(s, cs, curr, size);
    assert MixLength(s, cs) == SampleCount(s, |b.data|);
  }

  lemma OneEnd(s: Settings, cs: seq<Chunk>, curr: nat, size: nat)
    requires |cs| == 1 && Known(s.inType)
    ensures var n := DecodeSize(s, cs[0].header.length);
            DecodeEnd(s, curr, cs, size) ==
            if Allocates(curr, n, size) then Some(BlockStart(curr) + n) else None
  {
    hide Allocates, BlockStart, DecodeSize, Known;
    assert cs[1..] == [];
  }

  lemma LawFacts(s: Settings, data: seq<byte>)
    requires IsLaw(s.inType)
    ensures Aligned(s, |data|) <==> |data| % 16 == 0
  {
  }

  /** The blocks a pass-through needs. */
  predicate LawBlocksFit(n: nat, curr: nat, size: nat) {
    Allocates(curr, 2 * n, size) && Allocates(BlockStart(curr) + 2 * n, n, size)
  }

  /** Same-rate G.711 passes through exactly if the length is a multiple of sixteen other than 0 and the blocks
      fit. An empty buffer is refused, and other lengths are not decoded: the client gets back what the arena
      held. */
  lemma LawPassThrough(s: Settings, st: Resampler, b: Buffer, curr: nat, size: nat)
    requires Defined(s) && |st.history| == HISTORY && SameCodec(s) && IsLaw(s.inType) && Printable([b])
    ensures AnsweredWith(s, st, b, curr, size, Canonical(LawOf(s.inType), b.data)) <==>
            |b.data| > 0 && |b.data| % 16 == 0 && LawBlocksFit(|b.data|, curr, size)
  {
    hide *;
    LawFacts(s, b.data);
    LawSucceeds(s, b, curr, size);
    AnsweredMeans(s, st, b, curr, size);
    if |b.data| % 16 == 0 {
      LawAnswer(s, st, b);
      AlignedAnswer(s, st, b, curr, size);
    } else if LawBlocksFit(|b.data|, curr, size) {
      TwoAnswers(s, st, b, curr, size, Canonical(LawOf(s.inType), b.data));
    }
  }

  lemma AnsweredMeans(s: Settings, st: Resampler, b: Buffer, curr: nat, size: nat)
    requires Defined(s) && |st.history| == HISTORY && Printable([b])
    ensures INPUT_SIZE <= |EncodeInputPayload([b])| < TWO32 && s.channels > 0
    ensures forall want: seq<byte> :: AnsweredWith(s, st, b, curr, size, want) <==>
              Succeeds(s, EncodeInputPayload([b]), curr, size) && AlwaysGives(s, st, b, curr, size, want)
  {
    hide AlwaysGives, Succeeds;
  }

  lemma LawSucceeds(s: Settings, b: Buffer, curr: nat, size: nat)
    requires Defined(s) && SameCodec(s) && IsLaw(s.inType) && Printable([b])
    ensures Succeeds(s, EncodeInputPayload([b]), curr, size) <==>
            |b.data| > 0 && LawBlocksFit(|b.data|, curr, size)
    ensures LawBlocksFit(|b.data|, curr, size) ==> Allocates(curr, 2 * |b.data|, size)
  {
    hide Succeeds, EncodeInputPayload, Printable, Allocates, BlockStart;
    OneSucceeds(s, b, curr, size);
  }

  /** A decodable buffer: the arena does not matter. */
  lemma AlignedAnswer(s: Settings, st: Resampler, b: Buffer, curr: nat, size: nat)
    requires Defined(s) && |st.history| == HISTORY && Printable([b]) && Aligned(s, |b.data|)
    ensures AlwaysGives(s, st, b, curr, size, Answer(s, st, [b]))
  {
    hide EncodeInputPayload, RequestChunks, OutputIn, Decodes, Answer, Aligned;
    var payload := EncodeInputPayload([b]);
    forall mem: seq<byte> | |mem| == size && Decodes(s, payload, mem, curr, RequestChunks(payload))
      ensures OutputIn(s, st, payload, mem, curr, RequestChunks(payload)) == Answer(s, st, [b])
    {
      PrintedRequest(s, st, [b], mem, curr);
    }
  }

  /** A refused length: what the arena held decides. */
  lemma TwoAnswers(s: Settings, st: Resampler, b: Buffer, curr: nat, size: nat, want: seq<byte>)
    requires Defined(s) && |st.history| == HISTORY && SameCodec(s) && IsLaw(s.inType) && Printable([b])
    requires |b.data| % 16 != 0 && Allocates(curr, 2 * |b.data|, size)
    ensures !AlwaysGives(s, st, b, curr, size, want)
  {
    hide EncodeInputPayload, RequestChunks, EncodeAll, Samples, OutputIn, Decodes, Encode, Allocates;
    var payload := EncodeInputPayload([b]);
    var cs := RequestChunks(payload);
    var low, high := Filled(size, 0), Filled(size, 0x80);
    StaleOutput(s, st, b, low, curr, 0);
    StaleOutput(s, st, b, high, curr, 0x80);
    SignsDiffer(LawOf(s.inType));
    assert OutputIn(s, st, payload, low, curr, cs)[0] != OutputIn(s, st, payload, high, curr, cs)[0];
  }

  function Filled(size: nat, x: byte): (m: seq<byte>)
    ensures |m| == size
  {
    seq(size, _ => x)
  }

  /** A refused buffer's answer is the encoding of the arena's old bytes. */
  lemma StaleOutput(s: Settings, st: Resampler, b: Buffer, mem: seq<byte>, curr: nat, x: byte)
    requires Defined(s) && |st.history| == HISTORY && SameCodec(s) && IsLaw(s.inType) && Printable([b])
    requires Allocates(curr, 2 * |b.data|, |mem|) && |b.data| % 16 != 0 && mem == Filled(|mem|, x)
    ensures var payload := EncodeInputPayload([b]);
            var cs := RequestChunks(payload);
            && Decodes(s, payload, mem, curr, cs)
            && OutputIn(s, st, payload, mem, curr, cs) == seq(|b.data|, _ => Encode(LawOf(s.inType), SampleOf(x, x)))
  {
    hide EncodeInputPayload, RequestChunks, Reads, Encode, SampleOf;
    var payload := EncodeInputPayload([b]);
    var cs := RequestChunks(payload);
    PrintedChunks([b]);
    ReadLengths(s, payload, cs, [b]);
    AllocatesWithin(curr, 2 * |b.data|, |mem|);
    OneStale(s, payload, mem, curr, cs, |b.data|, x);
  }

  lemma OneStale(s: Settings, payload: seq<byte>, mem: seq<byte>, curr: nat, cs: seq<Chunk>, n: nat, x: byte)
    requires Defined(s) && SameCodec(s) && IsLaw(s.inType) && |cs| == 1 && InBounds(payload, cs[0])
    requires cs[0].header.length == n && n % 16 != 0 && Allocates(curr, 2 * n, |mem|) && mem == Filled(|mem|, x)
    ensures Decodes(s, payload, mem, curr, cs)
    ensures MixedIn(s, payload, mem, curr, cs) == seq<int16>(n, _ => SampleOf(x, x))
  {
    hide InBounds, BlockStart, SampleOf;
    AllocatesWithin(curr, 2 * n, |mem|);
    assert cs == [cs[0]] && cs[1..] == [];
    assert DecodeEnd(s, BlockStart(curr) + 2 * n, cs[1..], |mem|).Some?;
    assert Decodes(s, payload, mem, curr, cs);
    var block := Samples(mem, BlockStart(curr), n);
    assert DecodedChunk(s, payload, mem, BlockStart(curr), cs[0]) == block;
    assert MixedIn(s, payload, mem, curr, cs) == block;
  }

  lemma SignsDiffer(law: Law)
    ensures Encode(law, SampleOf(0, 0)) != Encode(law, SampleOf(0x80, 0x80))
  {
    hide Xor8, SegmentOf, EncodedMantissa, Magnitude, Encode;
    EncodeParts(law, 0);
    EncodeParts(law, -32640);
    CodeRange(law, 0);
    CodeRange(law, -32640);
    Masks(law, SegmentOf(Magnitude(law, 0)) * 16 + EncodedMantissa(law, Magnitude(law, 0)));
    Masks(law, SegmentOf(Magnitude(law, -32640)) * 16 + EncodedMantissa(law, Magnitude(law, -32640)));
  }

  lemma CodeRange(law: Law, v: int16)
    ensures 0 <= SegmentOf(Magnitude(law, v)) * 16 + EncodedMantissa(law, Magnitude(law, v)) < 128
  {
    hide Magnitude, EncodedMantissa;
  }

  /** Eight zero bytes of A-law, 1 ms at 8 kHz, through a cleared arena. Their samples are -5504, and what comes
      back is silence. */
  lemma EightBytes(s: Settings, st: Resampler, volumeBits: uint32, curr: nat)
    requires Defined(s) && |st.history| == HISTORY && SameCodec(s) && s.inType == CODEC_PCMA
    requires Allocates(curr, 16, ARENA_SIZE)
    ensures Printable([Buffer(volumeBits, Zeros(8))])
    ensures var payload := EncodeInputPayload([Buffer(volumeBits, Zeros(8))]);
            var mem := Filled(ARENA_SIZE, 0);
            && Decodes(s, payload, mem, curr, RequestChunks(payload))
            && OutputIn(s, st, payload, mem, curr, RequestChunks(payload)) == seq(8, _ => 0xD5)
  {
    var b := Buffer(volumeBits, Zeros(8));
    EightPrintable(b);
    hide EncodeInputPayload, RequestChunks, Encode, OutputIn, Decodes, Allocates;
    StaleOutput(s, st, b, Filled(ARENA_SIZE, 0), curr, 0);
    SilentCode(LawOf(s.inType), SampleOf(0, 0));
  }

  lemma EightPrintable(b: Buffer)
    requires |b.data| == 8
    ensures Printable([b])
  {
    hide U32Net;
    PrintedParts([], b, []);
    assert [b][1..] == [];
    assert EncodeBuffers([b]) == EncodeBuffer(b) + EncodeBuffers([]);
  }

  lemma SilentCode(law: Law, v: int16)
    requires law == A && v == 0
    ensures Encode(law, v) == 0xD5
  {
    hide Xor8, Encode, EncodedMantissa, Magnitude, SegmentOf;
    EncodeParts(law, v);
    SilentParts(law, Magnitude(law, v), v);
    SilentXor();
  }

  lemma SilentParts(law: Law, pcm: int, v: int16)
    requires law == A && v == 0 && pcm == Magnitude(law, v)
    ensures pcm == 0 && SegmentOf(pcm) == 0 && EncodedMantissa(law, pcm) == 0
  {
    hide Mantissa;
  }

  lemma SilentXor()
    ensures Xor8(0, 0xD5) == 0xD5
  {
    hide NibbleXor;
    NibbleMasks(0);
    assert Flip5(0) == 5;
  }

  /** What is kept of an L16 buffer: its whole sample instants. */
  function WholeInstants(s: Settings, data: seq<byte>): (n: nat)
    requires s.channels > 0
    ensures 2 * n <= |data|
  {
    InstantsFit(|data|, s.channels);
    Instants(|data|, s.channels) * s.channels
  }

  /** An L16 buffer's whole sample instants, byte-swapped if the two sides differ in byte order. */
  function WholeSamples(s: Settings, data: seq<byte>): seq<byte>
    requires s.channels > 0
  {
    var n := WholeInstants(s, data);
    if s.swapIn == s.swapOut then data[..2 * n] else SampleBytesOf(SwapAll(Samples(data, 0, n)))
  }

  /** L16 to L16 at one rate answers the whole sample instants exactly if there is one and the block fits. */
  lemma L16PassThrough(s: Settings, st: Resampler, b: Buffer, curr: nat, size: nat)
    requires Defined(s) && |st.history| == HISTORY && SameCodec(s) && s.inType == CODEC_L16 && Printable([b])
    ensures Answer(s, st, [b]) == WholeSamples(s, b.data)
    ensures AnsweredWith(s, st, b, curr, size, WholeSamples(s, b.data)) <==>
            WholeInstants(s, b.data) > 0 && Allocates(curr, |b.data|, size)
  {
    hide DecodeBuffer, EncodeOutput, WholeInstants, Samples, SwapAll, SampleBytesOf, EncodeInputPayload,
         RequestChunks, OutputIn, Decodes, Succeeds, Allocates, BlockStart;
    assert MixOf(s, [b]) == DecodeBuffer(s, b.data);
    L16Kept(s, b.data, WholeInstants(s, b.data));
    OneSucceeds(s, b, curr, size);
    SamplesAre(s, b.data);
    AlignedAnswer(s, st, b, curr, size);
  }

  lemma SamplesAre(s: Settings, data: seq<byte>)
    requires s.channels > 0 && s.inType == CODEC_L16
    ensures SampleCount(s, |data|) == WholeInstants(s, data)
  {
  }

  lemma L16Kept(s: Settings, data: seq<byte>, n: nat)
    requires s.channels > 0 && s.inType == s.outType == CODEC_L16 && n == WholeInstants(s, data)
    ensures EncodeOutput(s, DecodeBuffer(s, data)) ==
            if s.swapIn == s.swapOut then data[..2 * n] else SampleBytesOf(SwapAll(Samples(data, 0, n)))
  {
    hide SwapAll, Samples, Instants, SampleBytesOf;
    BytesOfSamples(data, 0, n);
    SwapAllTwice(Samples(data, 0, n));
  }

  lemma SwapAllTwice(x: seq<int16>)
    ensures SwapAll(SwapAll(x)) == x
  {
    hide SwapSample;
    forall i | 0 <= i < |x| ensures SwapAll(SwapAll(x))[i] == x[i] {
      SwapTwice(x[i]);
    }
  }
}
