/** The requests a client sends: one chunk of its input file per timer tick (src/client/main.c:527-603). */
module ClientChunks {
  import opened Arith
  import opened Bytes
  import opened Protocol
  import opened Framing

  /** 1.0 as an IEEE 754 single. */
  const ONE_BITS: uint32 := 0x3F80_0000

  const FORMAT_L16 := 96

  datatype ClientConfig = ClientConfig(rate: nat, ptime: nat, format: nat, channels: nat, loop: bool,
                                       input: seq<byte>, input2: Option<seq<byte>>)

  datatype SendState = SendState(offset: nat, offset2: nat, sequenceId: uint32, totalSent: uint64)

  function ChunkSize(c: ClientConfig): nat {
    c.rate / 1000 * c.ptime * (if c.format == FORMAT_L16 then 2 else 1) * c.channels
  }

  /** Where the next chunk starts, if there is one: at the start again when looping. */
  function Rewind(c: ClientConfig, offset: nat, size: nat): Option<nat> {
    if offset + ChunkSize(c) <= size then Some(offset)
    else if c.loop then Some(0)
    else None
  }

  function PayloadLen(c: ClientConfig): nat {
    INPUT_SIZE + (if c.input2.Some? then 2 else 1) * (BUFFER_HEADER_SIZE + PaddedSize(ChunkSize(c)))
  }

  /** Files that are looped hold a chunk. */
  predicate LoopsWhole(c: ClientConfig) {
    c.loop ==> ChunkSize(c) <= |c.input| && (c.input2.Some? ==> ChunkSize(c) <= |c.input2.value|)
  }

  /** What the client needs of its configuration, besides a request that fits its 32-bit length field. */
  predicate Sendable(c: ClientConfig) {
    PayloadLen(c) < TWO32 && LoopsWhole(c)
  }

  /** The part of each file that a tick copies, if it sends anything, lies inside the file. */
  predicate ReadsInside(c: ClientConfig, st: SendState) {
    var o := Rewind(c, st.offset, |c.input|);
    var o2 := if c.input2.Some? then Rewind(c, st.offset2, |c.input2.value|) else Some(0);
    o.Some? && o2.Some? ==>
      o.value + ChunkSize(c) <= |c.input| && (c.input2.Some? ==> o2.value + ChunkSize(c) <= |c.input2.value|)
  }

  /** The exact condition: at whatever offsets, a tick reads inside the files if and only if looped files hold
      a chunk, as the code rewinds without asking again. */
  lemma InsideExactly(c: ClientConfig, st: SendState)
    ensures ReadsInside(c, st) <==> LoopsWhole(c)
  {
    hide ChunkSize;
    if !LoopsWhole(c) {
      assert Rewind(c, st.offset, |c.input|).Some?;
      assert c.input2.Some? ==> Rewind(c, st.offset2, |c.input2.value|).Some?;
    }
  }

  function ChunkAt(c: ClientConfig, data: seq<byte>, offset: nat): Buffer
    requires offset + ChunkSize(c) <= |data|
  {
    Buffer(ONE_BITS, data[offset..offset + ChunkSize(c)])
  }

  /** One tick: the new state and the buffers sent, if any. */
  function Tick(c: ClientConfig, st: SendState): (r: (SendState, Option<seq<Buffer>>))
    requires Sendable(c)
    ensures r.1.Some? ==> |r.1.value| == (if c.input2.Some? then 2 else 1) && forall b :: b in r.1.value ==>
            |b.data| == ChunkSize(c)
  {
    hide ChunkSize, PayloadLen;
    match Rewind(c, st.offset, |c.input|)
    case None => (st, None)
    case Some(o) =>
      if c.input2.None? then
        (SendState(o + ChunkSize(c), st.offset2, Wrap32(st.sequenceId as int + 1),
          Wrap64(st.totalSent as int + ChunkSize(c))),
         Some([ChunkAt(c, c.input, o)]))
      else
        match Rewind(c, st.offset2, |c.input2.value|)
        case None => (st.(offset := o), None)
        case Some(o2) =>
          (SendState(o + ChunkSize(c), o2 + ChunkSize(c), Wrap32(st.sequenceId as int + 1),
            Wrap64(st.totalSent as int + 2 * ChunkSize(c))),
           Some([ChunkAt(c, c.input, o), ChunkAt(c, c.input2.value, o2)]))
  }

  function RequestHeader(sequenceId: uint32, payloadLen: uint32): Header {
    Header(AUDIO_MAGIC, AUDIO_VERSION, CMD_INPUT, sequenceId, payloadLen)
  }

  /** The bytes of a request. */
  function RequestBytes(c: ClientConfig, sequenceId: uint32, bs: seq<Buffer>): seq<byte>
    requires PayloadLen(c) < TWO32 && |bs| < TWO32 && forall b :: b in bs ==> |b.data| < TWO32
  {
    EncodeHeader(RequestHeader(sequenceId, PayloadLen(c))) + EncodeInputPayload(bs)
  }

  // ---------------------------------------------------------------- framing printed messages

  /** A message as it is printed. */
  function MessageBytes(m: Message): seq<byte> { EncodeHeader(m.header) + m.payload }

  function StreamOf(ms: seq<Message>): seq<byte> {
    if ms == [] then [] else MessageBytes(ms[0]) + StreamOf(ms[1..])
  }

  predicate Printed(side: Side, m: Message) {
    Accepts(side, m.header) && m.header.payloadLen == |m.payload|
  }

  /** Print then frame, for whole conversations in either direction: the reader sees exactly the
      messages written, and nothing is left over. */
  lemma {:induction false} PrintFrame(side: Side, ms: seq<Message>, rest: seq<byte>)
    requires (forall m :: m in ms ==> Printed(side, m)) && !Ready(side, rest)
    ensures Messages(side, StreamOf(ms) + rest) == ms && Rest(side, StreamOf(ms) + rest) == rest
    decreases |ms|
  {
    hide EncodeHeader, DecodeHeader, Accepts, Ready, Front;
    if ms == [] {
      assert StreamOf(ms) + rest == rest;
      FrameAt(side, rest, 0);
      assert rest[0..] == rest;
    } else {
      var m, s, t := ms[0], StreamOf(ms) + rest, StreamOf(ms[1..]) + rest;
      assert Printed(side, m);
      assert s == MessageBytes(m) + t;
      PrintFrame(side, ms[1..], rest);
      PrintedFront(side, m, t);
      assert s[0..] == s;
      FrameAt(side, s, 0);
    }
  }

  lemma PrintedFront(side: Side, m: Message, t: seq<byte>)
    requires Printed(side, m)
    ensures var s := MessageBytes(m) + t;
            && |s| >= HEADER_SIZE && s[0..HEADER_SIZE] == EncodeHeader(m.header)
            && DecodeHeader(s[0..HEADER_SIZE]) == m.header
            && MessageSize(m.header) == |MessageBytes(m)|
            && s[HEADER_SIZE..MessageSize(m.header)] == m.payload && s[MessageSize(m.header)..] == t
  {
    hide EncodeHeader, DecodeHeader, Accepts;
    HeaderRoundTrip(m.header);
    var s := MessageBytes(m) + t;
    assert s[0..HEADER_SIZE] == EncodeHeader(m.header);
  }

  /** A tick's bytes are one message that the server frames back, and its length field is right. */
  lemma RequestIsMessage(c: ClientConfig, st: SendState)
    requires Sendable(c) && Tick(c, st).1.Some?
    ensures var bs := Tick(c, st).1.value;
            && |EncodeInputPayload(bs)| == PayloadLen(c)
            && (var m := Message(RequestHeader(st.sequenceId, PayloadLen(c)), EncodeInputPayload(bs));
                RequestBytes(c, st.sequenceId, bs) == MessageBytes(m) && Printed(Server, m))
  {
    hide ChunkSize, PaddedSize, EncodeHeader, Tick;
    PayloadSize(c, Tick(c, st).1.value);
  }

  lemma PayloadSize(c: ClientConfig, bs: seq<Buffer>)
    requires |bs| == (if c.input2.Some? then 2 else 1) && (forall b :: b in bs ==> |b.data| == ChunkSize(c)) &&
             PayloadLen(c) < TWO32
    ensures |EncodeInputPayload(bs)| == PayloadLen(c)
  {
    ChunkFits(c);
    hide ChunkSize, PaddedSize, U32Net, EncodeBuffer;
    assert bs[0] in bs;
    BufferSize(bs[0]);
    assert |EncodeBuffers(bs)| == |EncodeBuffer(bs[0])| + |EncodeBuffers(bs[1..])|;
    if |bs| == 2 {
      assert bs[1] in bs;
      BufferSize(bs[1]);
      assert bs[1..][0] == bs[1] && bs[1..][1..] == [];
      assert |EncodeBuffers(bs[1..])| == |EncodeBuffer(bs[1])|;
    } else {
      assert bs[1..] == [];
    }
  }

  lemma ChunkFits(c: ClientConfig)
    requires PayloadLen(c) < TWO32
    ensures ChunkSize(c) < TWO32
  {
    hide ChunkSize;
  }

  lemma BufferSize(b: Buffer)
    requires |b.data| < TWO32
    ensures |EncodeBuffer(b)| == BUFFER_HEADER_SIZE + PaddedSize(|b.data|)
  {
    PrintedParts([], b, []);
  }

  // ---------------------------------------------------------------- which bytes are sent when

  /** The whole chunks of a file. */
  function Chunks(c: ClientConfig, size: nat): nat
    requires ChunkSize(c) > 0
  {
    DivNonNegative(size, ChunkSize(c));
    size / ChunkSize(c)
  }

  /** Chunk j of the endless input exists: always when looping, else while the file lasts. */
  predicate InFile(c: ClientConfig, size: nat, j: nat)
    requires ChunkSize(c) > 0
  {
    if c.loop then Chunks(c, size) > 0 else j < Chunks(c, size)
  }

  /** Which chunk of the file it is. */
  function FileChunk(c: ClientConfig, size: nat, j: nat): nat
    requires ChunkSize(c) > 0 && InFile(c, size, j)
  {
    if c.loop then j % Chunks(c, size) else j
  }

  predicate Available(c: ClientConfig, j: nat)
    requires ChunkSize(c) > 0
  {
    InFile(c, |c.input|, j) && (c.input2.Some? ==> InFile(c, |c.input2.value|, j))
  }

  function FileChunkAt(c: ClientConfig, data: seq<byte>, j: nat): Buffer
    requires ChunkSize(c) > 0 && InFile(c, |data|, j)
  {
    ChunkInside(c, |data|, j);
    ChunkAt(c, data, FileChunk(c, |data|, j) * ChunkSize(c))
  }

  /** The buffers of request j: the files' chunks j, both files cycled on their own when looping. */
  function Request(c: ClientConfig, j: nat): seq<Buffer>
    requires ChunkSize(c) > 0 && Available(c, j)
  {
    if c.input2.None? then [FileChunkAt(c, c.input, j)]
    else [FileChunkAt(c, c.input, j), FileChunkAt(c, c.input2.value, j)]
  }

  lemma ChunkInside(c: ClientConfig, size: nat, j: nat)
    requires ChunkSize(c) > 0 && InFile(c, size, j)
    ensures FileChunk(c, size, j) < Chunks(c, size)
    ensures FileChunk(c, size, j) * ChunkSize(c) + ChunkSize(c) <= size
  {
    hide ChunkSize;
    DivBounds(size, ChunkSize(c));
    MulMono(FileChunk(c, size, j) + 1, Chunks(c, size), ChunkSize(c));
    MulDistr(ChunkSize(c), FileChunk(c, size, j), 1);
  }

  /** The read offset after j requests: just past chunk j - 1. */
  function OffsetAt(c: ClientConfig, size: nat, j: nat): nat
    requires ChunkSize(c) > 0
  {
    if j == 0 || !InFile(c, size, j - 1) then 0 else FileChunk(c, size, j - 1) * ChunkSize(c) + ChunkSize(c)
  }

  /** The offset moves on to chunk j, rewinding after the last one. */
  lemma RewindTo(c: ClientConfig, size: nat, j: nat)
    requires ChunkSize(c) > 0 && (c.loop ==> ChunkSize(c) <= size) && (j > 0 ==> InFile(c, size, j - 1))
    ensures Rewind(c, OffsetAt(c, size, j), size) ==
            if InFile(c, size, j) then Some(FileChunk(c, size, j) * ChunkSize(c)) else None
  {
    hide ChunkSize;
    var chunk, q := ChunkSize(c), Chunks(c, size);
    DivBounds(size, chunk);
    MulDistr(chunk, q, 1);
    if c.loop {
      DivRange(size, chunk, 1, q + 1);
      if j > 0 {
        PastChunk(chunk, q, size, (j - 1) % q);
        NextModulo(j - 1, q);
      }
    } else if j > 0 {
      PastChunk(chunk, q, size, j - 1);
    } else {
      FirstChunk(chunk, q, size);
    }
  }

  lemma FirstChunk(chunk: nat, q: nat, size: nat)
    requires q * chunk <= size < q * chunk + chunk
    ensures chunk <= size <==> 0 < q
  {
    if 0 < q {
      MulMono(1, q, chunk);
    }
  }

  /** Just past chunk p, another one fits exactly unless it was the last. */
  lemma PastChunk(chunk: nat, q: nat, size: nat, p: nat)
    requires p < q && q * chunk <= size < q * chunk + chunk
    ensures p * chunk + chunk == (p + 1) * chunk
    ensures p * chunk + chunk + chunk <= size <==> p + 1 < q
  {
    MulDistr(chunk, p, 1);
    MulDistr(chunk, p, 2);
    if p + 1 < q {
      MulMono(p + 2, q, chunk);
    } else {
      assert p + 1 == q;
    }
  }

  lemma NextModulo(j: nat, q: nat)
    requires q > 0
    ensures (j + 1) % q == if j % q == q - 1 then 0 else j % q + 1
  {
    var d, m := j / q, j % q;
    assert j == d * q + m;
    if m == q - 1 {
      assert j + 1 == (d + 1) * q + 0;
      Remainder(j + 1, q, d + 1, 0);
    } else {
      Remainder(j + 1, q, d, m + 1);
    }
  }

  lemma Remainder(a: int, b: int, q: int, m: int)
    requires b > 0 && 0 <= m < b && a == q * b + m
    ensures a % b == m
  {
    DivUnique(a, b, q, m);
  }

  /** The requests of up to k ticks; the timer stops at the first tick that sends nothing. */
  function Sends(c: ClientConfig, st: SendState, k: nat): seq<seq<Buffer>>
    requires Sendable(c)
    decreases k
  {
    if k == 0 then []
    else
      var (next, bs) := Tick(c, st);
      if bs.None? then [] else [bs.value] + Sends(c, next, k - 1)
  }

  predicate AtRequest(c: ClientConfig, st: SendState, j: nat)
    requires ChunkSize(c) > 0
  {
    && st.offset == OffsetAt(c, |c.input|, j) && (c.input2.Some? ==> st.offset2 == OffsetAt(c, |c.input2.value|, j))
    && (j > 0 ==> Available(c, j - 1))
  }

  lemma OneTick(c: ClientConfig, st: SendState, j: nat)
    requires Sendable(c) && ChunkSize(c) > 0 && AtRequest(c, st, j)
    ensures if Available(c, j) then Tick(c, st).1 == Some(Request(c, j)) && AtRequest(c, Tick(c, st).0, j + 1)
            else Tick(c, st).1 == None
  {
    hide ChunkSize, PayloadLen, Rewind, InFile, FileChunk, ChunkAt;
    RewindTo(c, |c.input|, j);
    if c.input2.Some? {
      RewindTo(c, |c.input2.value|, j);
    }
  }

  /** The requests carry the files' chunks from j on, none skipped and none repeated. */
  predicate InOrder(c: ClientConfig, sent: seq<seq<Buffer>>, j: nat)
    requires ChunkSize(c) > 0
  {
    forall i :: j <= i < j + |sent| ==> Available(c, i) && sent[i - j] == Request(c, i)
  }

  lemma NoneInOrder(c: ClientConfig, j: nat)
    requires ChunkSize(c) > 0
    ensures InOrder(c, [], j)
  {
  }

  lemma InOrderCons(c: ClientConfig, rest: seq<seq<Buffer>>, j: nat)
    requires ChunkSize(c) > 0 && Available(c, j) && InOrder(c, rest, j + 1)
    ensures InOrder(c, [Request(c, j)] + rest, j)
  {
    hide ChunkSize, Available, Request;
    var sent := [Request(c, j)] + rest;
    forall i | j <= i < j + |sent| ensures Available(c, i) && sent[i - j] == Request(c, i) {
      if i > j {
        assert Available(c, i) && rest[i - (j + 1)] == Request(c, i);
      }
    }
  }

  /** Over every run: request i carries chunk i of the files, none skipped and none repeated, and the
      timer stops only when a file has run out. */
  lemma {:induction false} SendsInOrder(c: ClientConfig, st: SendState, j: nat, k: nat)
    requires Sendable(c) && ChunkSize(c) > 0 && AtRequest(c, st, j)
    ensures var sent := Sends(c, st, k);
            && |sent| <= k && InOrder(c, sent, j)
            && (|sent| < k ==> !Available(c, j + |sent|))
    decreases k
  {
    hide ChunkSize, Tick, Available, Request, AtRequest, Sendable, InOrder;
    NoneInOrder(c, j);
    if k > 0 {
      OneTick(c, st, j);
      if Available(c, j) {
        var next := Tick(c, st).0;
        var sent, rest := Sends(c, st, k), Sends(c, next, k - 1);
        SendsInOrder(c, next, j + 1, k - 1);
        assert sent == [Request(c, j)] + rest;
        InOrderCons(c, rest, j);
      }
    }
  }

  /** A chunk is ptime milliseconds of audio: exactly, for rates of whole kilohertz; at 44100 Hz 44 samples a
      millisecond, so that 20 ms of mono L16 are 880 samples. */
  lemma ChunkDuration(c: ClientConfig)
    ensures var width := if c.format == 96 then 2 else 1;
            && (c.rate % 1000 == 0 ==> ChunkSize(c) * 1000 == c.rate * c.ptime * width * c.channels)
            && (c.rate == 44100 ==> ChunkSize(c) == 44 * c.ptime * width * c.channels)
  {
    if c.rate % 1000 == 0 {
      var k, width := c.rate / 1000, if c.format == 96 then 2 else 1;
      assert c.rate == k * 1000;
      Thousand(k, c.ptime, width, c.channels);
    }
  }

  lemma Thousand(k: nat, ptime: nat, width: nat, channels: nat)
    ensures k * ptime * width * channels * 1000 == k * 1000 * ptime * width * channels
  {
    var a := k * ptime;
    MulAssoc(k, 1000, ptime);
    assert k * 1000 * ptime == a * 1000;
    MulAssoc(a, 1000, width);
    assert a * 1000 * width == a * width * 1000 by { MulAssoc(a, width, 1000); }
    MulAssoc(a * width, 1000, channels);
    MulAssoc(a * width, channels, 1000);
  }
}
