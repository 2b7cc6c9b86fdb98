/** The wire protocol: message headers (include/machaudio/protocol.h) and the CMD_INPUT
    buffer parser with its 32-bit offsets (src/protocol/parser.c). */
module Protocol {
  import opened Bytes

  const AUDIO_MAGIC: uint32 := 0x4D414348
  const AUDIO_VERSION: uint16 := 1

  const CMD_START: uint16 := 1
  const CMD_INPUT: uint16 := 2
  const CMD_OUTPUT: uint16 := 3
  const CMD_STOP: uint16 := 4
  const CMD_ERROR: uint16 := 5
  const CMD_PING: uint16 := 6
  const CMD_PONG: uint16 := 7
  const CMD_DISCOVER: uint16 := 8
  const CMD_DISCOVER_REPLY: uint16 := 9

  const ERR_INVALID_MAGIC: uint32 := 1
  const ERR_INVALID_COMMAND: uint32 := 3
  const ERR_INVALID_PAYLOAD: uint32 := 4
  const ERR_PROCESSING_FAILED: uint32 := 5

  const HEADER_SIZE := 16
  const START_SIZE := 16
  const INPUT_SIZE := 8
  const OUTPUT_SIZE := 16

  // ---------------------------------------------------------------- message header

  datatype Header = Header(magic: uint32, version: uint16, command: uint16,
                           sequenceId: uint32, payloadLen: uint32)

  function DecodeHeader(b: seq<byte>): Header
    requires |b| == HEADER_SIZE
  {
    Header(NetU32(b[0..4]), NetU16(b[4..6]), NetU16(b[6..8]), NetU32(b[8..12]), NetU32(b[12..16]))
  }

  function EncodeHeader(h: Header): (b: seq<byte>)
    ensures |b| == HEADER_SIZE
  {
    U32Net(h.magic) + U16Net(h.version) + U16Net(h.command) + U32Net(h.sequenceId) + U32Net(h.payloadLen)
  }

  lemma HeaderRoundTrip(h: Header)
    ensures DecodeHeader(EncodeHeader(h)) == h
  {
    var b := EncodeHeader(h);
    assert b[0..4] == U32Net(h.magic);
    assert b[4..6] == U16Net(h.version);
    assert b[6..8] == U16Net(h.command);
    assert b[8..12] == U32Net(h.sequenceId);
    assert b[12..16] == U32Net(h.payloadLen);
    NetU32RoundTrip(h.magic);
    NetU16RoundTrip(h.version);
    NetU16RoundTrip(h.command);
    NetU32RoundTrip(h.sequenceId);
    NetU32RoundTrip(h.payloadLen);
  }

  predicate ValidateHeader(h: Header) {
    h.magic == AUDIO_MAGIC && h.version == AUDIO_VERSION
  }

  /** The words a little-endian host loads. */
  function RawU32(b: seq<byte>): uint32
    requires |b| == 4
  {
    Digits4(b[3], b[2], b[1], b[0])
  }

  function RawU16(b: seq<byte>): uint16
    requires |b| == 2
  {
    Digits2(b[1], b[0])
  }

  /** ntohl and ntohs on a little-endian host reverse the bytes of a word. */
  function Swap32(n: uint32): uint32 {
    Digits4(n % 0x100, n / 0x100 % 0x100, n / 0x1_0000 % 0x100, n / 0x100_0000)
  }

  function Swap16(n: uint16): uint16 {
    Digits2(n % 0x100, n / 0x100)
  }

  lemma SwapRaw32(b: seq<byte>)
    requires |b| == 4
    ensures Swap32(RawU32(b)) == NetU32(b)
  {
    SwapDigits32(b[3], b[2], b[1], b[0]);
  }

  lemma SwapDigits32(b3: byte, b2: byte, b1: byte, b0: byte)
    ensures Swap32(Digits4(b3, b2, b1, b0)) == Digits4(b0, b1, b2, b3)
  {
    var n: uint32 := Digits4(b3, b2, b1, b0);
    assert n / 0x100 == Digits4(0, b3, b2, b1) && n % 0x100 == b0;
    assert n / 0x1_0000 == Digits2(b3, b2) && n / 0x100 % 0x100 == b1;
    assert n / 0x100_0000 == b3 && n / 0x1_0000 % 0x100 == b2;
  }

  lemma SwapRaw16(b: seq<byte>)
    requires |b| == 2
    ensures Swap16(RawU16(b)) == NetU16(b)
  {
    SwapDigits16(b[1], b[0]);
  }

  lemma SwapDigits16(hi: byte, lo: byte)
    ensures Swap16(Digits2(hi, lo)) == Digits2(lo, hi)
  {
    assert Digits2(hi, lo) / 0x100 == hi && Digits2(hi, lo) % 0x100 == lo;
  }

  /** The header structure as the server holds it: loaded raw, then decoded in place. */
  class AudioMsgHeader {
    var magic: uint32
    var version: uint16
    var command: uint16
    var sequenceId: uint32
    var payloadLen: uint32

    function Value(): Header
      reads this
    {
      Header(magic, version, command, sequenceId, payloadLen)
    }

    constructor Load(b: seq<byte>)
      requires |b| == HEADER_SIZE
      ensures Value() == Header(RawU32(b[0..4]), RawU16(b[4..6]), RawU16(b[6..8]), RawU32(b[8..12]), RawU32(b[12..16]))
    {
      magic := RawU32(b[0..4]);
      version := RawU16(b[4..6]);
      command := RawU16(b[6..8]);
      sequenceId := RawU32(b[8..12]);
      payloadLen := RawU32(b[12..16]);
    }

    method Decode()
      modifies this
      ensures Value() == Header(Swap32(old(magic)), Swap16(old(version)), Swap16(old(command)),
                                Swap32(old(sequenceId)), Swap32(old(payloadLen)))
    {
      magic := Swap32(magic);
      version := Swap16(version);
      command := Swap16(command);
      sequenceId := Swap32(sequenceId);
      payloadLen := Swap32(payloadLen);
    }
  }

  /** Loading a header and decoding it in place gives its network-order fields. */
  method ReadHeader(b: seq<byte>) returns (h: Header)
    requires |b| == HEADER_SIZE
    ensures h == DecodeHeader(b)
  {
    hide Swap32, Swap16, RawU32, RawU16, NetU32, NetU16;
    var header := new AudioMsgHeader.Load(b);
    header.Decode();
    SwapRaw32(b[0..4]);
    SwapRaw16(b[4..6]);
    SwapRaw16(b[6..8]);
    SwapRaw32(b[8..12]);
    SwapRaw32(b[12..16]);
    h := header.Value();
  }

  // ---------------------------------------------------------------- CMD_INPUT buffers

  datatype BufferHeader = BufferHeader(length: uint32, volumeBits: uint32)

  const BUFFER_HEADER_SIZE := 8

  /** What one call of the parser leaves behind: the returned pointer (as a payload index),
      the updated offset and the output header. */
  datatype Parsed = Parsed(data: Option<nat>, offset: uint32, header: BufferHeader)

  /** (length + 3) & ~3 in 32-bit arithmetic. */
  function Pad4(length: uint32): uint32 {
    Wrap32(length as int + 3) / 4 * 4
  }

  function NextBuffer(payload: seq<byte>, offset: uint32, out: BufferHeader): Parsed
    requires |payload| < TWO32
  {
    if offset + BUFFER_HEADER_SIZE > |payload| then Parsed(None, offset, out)
    else
      var header := BufferHeader(NetU32(payload[offset..offset + 4]), NetU32(payload[offset + 4..offset + 8]));
      var start: uint32 := offset + BUFFER_HEADER_SIZE;
      if Wrap32(start as int + header.length) > |payload| then Parsed(None, start, header)
      else Parsed(Some(start), Wrap32(start as int + Pad4(header.length)), header)
  }

  /** The caller's offset and header, which the parser updates through pointers. */
  class BufferCursor {
    var offset: uint32
    var header: BufferHeader

    constructor (offset: uint32)
      ensures this.offset == offset && header == BufferHeader(0, 0)
    {
      this.offset := offset;
      header := BufferHeader(0, 0);
    }

    method Next(payload: seq<byte>) returns (data: Option<nat>)
      requires |payload| < TWO32
      modifies this
      ensures Parsed(data, offset, header) == NextBuffer(payload, old(offset), old(header))
    {
      hide NetU32, Pad4, Wrap32;
      if offset + BUFFER_HEADER_SIZE > |payload| {
        return None;
      }
      header := BufferHeader(NetU32(payload[offset..offset + 4]), NetU32(payload[offset + 4..offset + 8]));
      offset := offset + BUFFER_HEADER_SIZE;
      if Wrap32(offset as int + header.length) > |payload| {
        return None;
      }
      data := Some(offset);
      offset := Wrap32(offset as int + Pad4(header.length));
    }
  }

  /** One successfully parsed buffer: where its data starts and its header. */
  datatype Chunk = Chunk(start: nat, header: BufferHeader)

  /** The buffers a caller sees when it asks for at most count of them and stops at NULL. */
  function ParseAll(payload: seq<byte>, offset: uint32, out: BufferHeader, count: nat): seq<Chunk>
    requires |payload| < TWO32
    decreases count
  {
    if count == 0 then []
    else
      var p := NextBuffer(payload, offset, out);
      if p.data.None? then []
      else [Chunk(p.data.value, p.header)] + ParseAll(payload, p.offset, p.header, count - 1)
  }

  /** The offset after the same calls, including the one that returned NULL. */
  function OffsetAfter(payload: seq<byte>, offset: uint32, out: BufferHeader, count: nat): uint32
    requires |payload| < TWO32
    decreases count
  {
    if count == 0 then offset
    else
      var p := NextBuffer(payload, offset, out);
      if p.data.None? then p.offset else OffsetAfter(payload, p.offset, p.header, count - 1)
  }

  predicate InBounds(payload: seq<byte>, c: Chunk) {
    c.start + c.header.length <= |payload|
  }

  /** A returned buffer either lies inside the payload or its declared length wrapped, and then
      the length exceeds everything up to 2^32 less the payload size. */
  lemma ReturnedBuffer(payload: seq<byte>, offset: uint32, out: BufferHeader)
    requires |payload| < TWO32
    ensures var p := NextBuffer(payload, offset, out);
            p.data.Some? ==>
              p.data.value <= |payload| &&
              (p.data.value + p.header.length <= |payload| <==> p.header.length < TWO32 - p.data.value)
  {
  }

  lemma {:induction false} ParsedBuffers(payload: seq<byte>, offset: uint32, out: BufferHeader, count: nat)
    requires |payload| < TWO32
    ensures forall c :: c in ParseAll(payload, offset, out, count) ==>
              c.start <= |payload| && (InBounds(payload, c) <==> c.header.length < TWO32 - c.start)
    decreases count
  {
    hide NextBuffer;
    if count > 0 {
      var p := NextBuffer(payload, offset, out);
      ReturnedBuffer(payload, offset, out);
      if p.data.Some? {
        ParsedBuffers(payload, p.offset, p.header, count - 1);
      }
    }
  }

  // ---------------------------------------------------------------- printing buffers

  datatype Buffer = Buffer(volumeBits: uint32, data: seq<byte>)

  function PaddedSize(n: nat): nat { (n + 3) / 4 * 4 }

  function EncodeBuffer(b: Buffer): seq<byte>
    requires |b.data| < TWO32
  {
    U32Net(|b.data|) + U32Net(b.volumeBits) + b.data + Zeros(PaddedSize(|b.data|) - |b.data|)
  }

  function EncodeBuffers(bs: seq<Buffer>): seq<byte>
    requires forall b :: b in bs ==> |b.data| < TWO32
  {
    if bs == [] then [] else EncodeBuffer(bs[0]) + EncodeBuffers(bs[1..])
  }

  function EncodeInputPayload(bs: seq<Buffer>): (p: seq<byte>)
    requires |bs| < TWO32 && forall b :: b in bs ==> |b.data| < TWO32
    ensures |p| >= INPUT_SIZE
  {
    U32Net(|bs|) + U32Net(0) + EncodeBuffers(bs)
  }

  predicate Reads(payload: seq<byte>, c: Chunk, b: Buffer) {
    && |b.data| < TWO32
    && c.header == BufferHeader(|b.data|, b.volumeBits)
    && InBounds(payload, c)
    && payload[c.start..c.start + c.header.length] == b.data
  }

  /** Below 2^32 the parser's offset arithmetic does not wrap. */
  lemma NoWrap(start: nat, length: nat)
    requires start + PaddedSize(length) < TWO32
    ensures Wrap32(start + length) == start + length
    ensures Wrap32(start + Pad4(length)) == start + PaddedSize(length)
  {
    PaddedBounds(length);
    hide PaddedSize;
    WrapSmall(start + length);
    if length + 3 < TWO32 {
      PadSmall(length);
    } else {
      assert false;
    }
    WrapSmall(start + PaddedSize(length));
  }

  lemma PaddedBounds(n: nat)
    ensures n <= PaddedSize(n) <= n + 3 && PaddedSize(n) % 4 == 0
  {
  }

  lemma WrapSmall(n: nat)
    requires n < TWO32
    ensures Wrap32(n) == n
  {
  }

  lemma PadSmall(length: nat)
    requires length + 3 < TWO32
    ensures Pad4(length) == PaddedSize(length)
  {
    WrapSmall(length + 3);
    hide Wrap32;
  }

  /** Where the parts of a printed buffer lie in the payload. */
  lemma PrintedParts(before: seq<byte>, b: Buffer, after: seq<byte>)
    requires |b.data| < TWO32
    ensures |EncodeBuffer(b)| == 8 + PaddedSize(|b.data|)
    ensures var payload, at := before + EncodeBuffer(b) + after, |before|;
            && at + 8 + |b.data| <= |payload|
            && payload[at..at + 4] == U32Net(|b.data|)
            && payload[at + 4..at + 8] == U32Net(b.volumeBits)
            && payload[at + 8..at + 8 + |b.data|] == b.data
  {
    hide U32Net;
  }

  /** One printed buffer is parsed back: its header, its bytes, and the offset of the next one. */
  lemma NextPrinted(before: seq<byte>, b: Buffer, after: seq<byte>, out: BufferHeader)
    requires |b.data| < TWO32 && |before + EncodeBuffer(b) + after| < TWO32
    ensures var payload := before + EncodeBuffer(b) + after;
            var p := NextBuffer(payload, |before|, out);
            && p.data == Some(|before| + BUFFER_HEADER_SIZE)
            && p.offset == |before| + |EncodeBuffer(b)|
            && Reads(payload, Chunk(p.data.value, p.header), b)
  {
    hide NetU32, U32Net, EncodeBuffer, Pad4, Wrap32, PaddedSize;
    PrintedParts(before, b, after);
    NetU32RoundTrip(|b.data|);
    NetU32RoundTrip(b.volumeBits);
    NoWrap(|before| + 8, |b.data|);
  }

  /** The buffers parsed are the buffers printed. */
  predicate ReadsAll(payload: seq<byte>, cs: seq<Chunk>, bs: seq<Buffer>) {
    |cs| == |bs| && forall i :: 0 <= i < |bs| ==> Reads(payload, cs[i], bs[i])
  }

  lemma ReadsCons(payload: seq<byte>, c: Chunk, cs: seq<Chunk>, b: Buffer, bs: seq<Buffer>)
    requires Reads(payload, c, b) && ReadsAll(payload, cs, bs)
    ensures ReadsAll(payload, [c] + cs, [b] + bs)
  {
    hide Reads;
    forall i | 0 <= i < |bs| + 1 ensures Reads(payload, ([c] + cs)[i], ([b] + bs)[i]) {
      if i > 0 {
        assert Reads(payload, cs[i - 1], bs[i - 1]);
      }
    }
  }

  /** One parser call and what is left. */
  lemma ParseStep(payload: seq<byte>, offset: uint32, header: BufferHeader, count: nat)
    requires |payload| < TWO32 && count > 0
    ensures var p := NextBuffer(payload, offset, header);
            && ParseAll(payload, offset, header, count) ==
               (if p.data.None? then []
                else [Chunk(p.data.value, p.header)] + ParseAll(payload, p.offset, p.header, count - 1))
            && OffsetAfter(payload, offset, header, count) ==
               (if p.data.None? then p.offset else OffsetAfter(payload, p.offset, p.header, count - 1))
  {
    hide NextBuffer;
  }

  /** At the end the parser returns NULL and stays there. */
  lemma ParseEnd(payload: seq<byte>, out: BufferHeader, count: nat)
    requires |payload| < TWO32
    ensures forall h :: NextBuffer(payload, |payload|, h) == Parsed(None, |payload|, h)
    ensures ParseAll(payload, |payload|, out, count) == [] && OffsetAfter(payload, |payload|, out, count) == |payload|
  {
  }

  lemma {:induction false} PrintParseFrom(payload: seq<byte>, at: uint32, bs: seq<Buffer>, out: BufferHeader,
      count: nat)
    requires at <= |payload| < TWO32 && |bs| <= count && forall b :: b in bs ==> |b.data| < TWO32
    requires payload[at..] == EncodeBuffers(bs)
    ensures ReadsAll(payload, ParseAll(payload, at, out, count), bs)
    ensures OffsetAfter(payload, at, out, count) == |payload|
    decreases |bs|
  {
    hide *;
    if bs == [] {
      PrintedNothing(payload, at, out, count);
    } else {
      BufferAt(payload, at, bs, out);
      var p := NextBuffer(payload, at, out);
      PrintParseFrom(payload, p.offset, bs[1..], p.header, count - 1);
      ParseStep(payload, at, out, count);
      ReadsCons(payload, Chunk(p.data.value, p.header), ParseAll(payload, p.offset, p.header, count - 1), bs[0],
        bs[1..]);
      assert [bs[0]] + bs[1..] == bs;
    }
  }

  lemma PrintedNothing(payload: seq<byte>, at: uint32, out: BufferHeader, count: nat)
    requires at <= |payload| < TWO32 && payload[at..] == EncodeBuffers([])
    ensures ReadsAll(payload, ParseAll(payload, at, out, count), [])
    ensures OffsetAfter(payload, at, out, count) == |payload|
  {
    hide ParseAll, OffsetAfter, NextBuffer;
    assert at as int == |payload|;
    ParseEnd(payload, out, count);
  }

  lemma BufferAt(payload: seq<byte>, at: uint32, bs: seq<Buffer>, out: BufferHeader)
    requires at <= |payload| < TWO32 && bs != [] && forall b :: b in bs ==> |b.data| < TWO32
    requires payload[at..] == EncodeBuffers(bs)
    ensures var p := NextBuffer(payload, at, out);
            && p.data.Some? && p.offset <= |payload| && payload[p.offset..] == EncodeBuffers(bs[1..])
            && Reads(payload, Chunk(p.data.value, p.header), bs[0])
  {
    var before, b, rest := payload[..at], bs[0], EncodeBuffers(bs[1..]);
    assert EncodeBuffers(bs) == EncodeBuffer(b) + rest;
    hide *;
    assert payload == before + EncodeBuffer(b) + rest;
    NextPrinted(before, b, rest, out);
  }

  /** Print then parse: the parser returns exactly the printed buffers, in order, then NULL, and
      its offset ends at the end of the payload. Asking for more buffers changes nothing. */
  lemma PrintParse(before: seq<byte>, bs: seq<Buffer>, out: BufferHeader, count: nat)
    requires forall b :: b in bs ==> |b.data| < TWO32
    requires |before + EncodeBuffers(bs)| < TWO32 && |bs| <= count
    ensures var payload := before + EncodeBuffers(bs);
            && ReadsAll(payload, ParseAll(payload, |before|, out, count), bs)
            && OffsetAfter(payload, |before|, out, count) == |payload|
            && forall h :: NextBuffer(payload, |payload|, h) == Parsed(None, |payload|, h)
  {
    hide EncodeBuffers, ParseAll, OffsetAfter, ReadsAll;
    var payload := before + EncodeBuffers(bs);
    PrintParseFrom(payload, |before|, bs, out, count);
    ParseEnd(payload, out, count);
  }
}
