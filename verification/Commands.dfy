/** The protocol's commands by number, as its documentation lists them (docs/protocol.md, include/machaudio/protocol.h):
    what a session answers to each, and what a start message asks for. */
module Commands {
  import opened Bytes
  import opened Protocol
  import opened Framing
  import opened Session
  import opened SessionSafety
  import opened Replies
  import opened ClientChunks
  import opened Conversations
  import opened ResampleClock
  import opened ResampleStream
  import opened Transcode

  // ---------------------------------------------------------------- answers

  /** An error message with a code. */
  predicate IsError(r: Option<Response>, id: uint32, code: uint32) {
    r.Some? && r.value.command == 5 && r.value.sequenceId == id && |r.value.payload| == 4 &&
    NetU32(r.value.payload) == code
  }

  /** An output message: duration and probability in front, then the audio. */
  predicate IsOutput(r: Option<Response>, id: uint32, ns: uint64, vadBits: uint32, data: seq<byte>) {
    && r.Some? && r.value.command == 3 && r.value.sequenceId == id && |r.value.payload| == 16 + |data|
    && NetU64(r.value.payload[0..8]) == ns && NetU32(r.value.payload[8..12]) == vadBits
    && r.value.payload[12..16] == [0, 0, 0, 0] && r.value.payload[16..] == data
  }

  lemma ErrorIs(id: uint32, code: uint32)
    ensures IsError(Some(ErrorReply(id, code)), id, code)
  {
    NetU32RoundTrip(code);
  }

  lemma OutputIs(id: uint32, ns: uint64, vadBits: uint32, data: seq<byte>)
    ensures IsOutput(Some(Response(CMD_OUTPUT, id, OutputPayload(ns, vadBits, data))), id, ns, vadBits, data)
  {
    hide U64Net, U32Net, NetU64, NetU32;
    var p := OutputPayload(ns, vadBits, data);
    NetU64RoundTrip(ns);
    NetU32RoundTrip(vadBits);
    assert p[0..8] == U64Net(ns) && p[8..12] == U32Net(vadBits) && p[12..16] == Zeros(4) && p[16..] == data;
  }

  /** A start configures, or is refused for its length; so is an input, which otherwise is answered with its
      output or with error 5. A stop stops and is not answered. A ping is answered with an empty pong, a
      discovery with the number of workers; everything else is error 3. */
  lemma CommandsAre<T>(env: Env<T>, trans: T, m: Message)
    ensures var (next, r) := Reply(env, trans, m);
            var id, c, n := m.header.sequenceId, m.header.command, |m.payload|;
            && (c == 1 && n >= 16 ==> next == env.start(trans, m.payload) && r == None)
            && (c == 2 && n >= 8 ==>
                  var (after, o) := env.process(trans, m.payload);
                  next == after && if o.Done? then IsOutput(r, id, o.durationNs, o.vadBits, o.data)
                    else IsError(r, id, 5))
            && (c == 4 ==> next == env.stop(trans) && r == None)
            && ((c == 1 && n < 16) || (c == 2 && n < 8) ==> next == trans && IsError(r, id, 4))
            && (c == 6 ==> next == trans && r == Some(Response(7, id, [])))
            && (c == 8 ==> next == trans && r.Some? && r.value.command == 9 && r.value.sequenceId == id)
            && (c == 8 ==> |r.value.payload| == 8 && NetU32(r.value.payload[0..4]) == env.workers
                           && NetU32(r.value.payload[4..8]) == 0)
            && (c !in {1, 2, 4, 6, 8} ==> next == trans && IsError(r, id, 3))
  {
    hide IsError, IsOutput, ErrorReply, OutputPayload, U32Net, NetU32;
    var id := m.header.sequenceId;
    ErrorIs(id, 3);
    ErrorIs(id, 4);
    ErrorIs(id, 5);
    if m.header.command == 2 && |m.payload| >= 8 {
      var o := env.process(trans, m.payload).1;
      if o.Done? {
        OutputIs(id, o.durationNs, o.vadBits, o.data);
      }
    } else if m.header.command == 8 {
      var p := U32Net(env.workers) + Zeros(4);
      NetU32RoundTrip(env.workers);
      assert p[0..4] == U32Net(env.workers) && p[4..8] == Zeros(4);
      ZeroWord();
    }
  }

  lemma ZeroWord()
    ensures NetU32(Zeros(4)) == 0
  {
  }

  // ---------------------------------------------------------------- keep-alive

  /** Some pings, printed. */
  function Pings(ids: seq<uint32>): (ms: seq<Message>)
    ensures |ms| == |ids| && forall m :: m in ms ==> Printed(Server, m)
  {
    seq(|ids|, i requires 0 <= i < |ids| => Message(Header(AUDIO_MAGIC, AUDIO_VERSION, 6, ids[i], 0), []))
  }

  /** And their answers. */
  function Pongs(ids: seq<uint32>): (rs: seq<Response>)
    ensures |rs| == |ids| && forall r :: r in rs ==> Fits(r)
  {
    seq(|ids|, i requires 0 <= i < |ids| => Response(7, ids[i], []))
  }

  lemma {:induction false} PingReplies<T>(env: Env<T>, trans: T, ids: seq<uint32>)
    ensures RepliesTo(env, trans, Pings(ids)) == Pongs(ids) && TransAfter(env, trans, Pings(ids)) == trans
    decreases |ids|
  {
    hide Reply;
    if ids != [] {
      CommandsAre(env, trans, Pings(ids)[0]);
      assert Pings(ids)[1..] == Pings(ids[1..]);
      PingReplies(env, trans, ids[1..]);
      assert Pongs(ids) == [Pongs(ids)[0]] + Pongs(ids[1..]);
    }
  }

  /** A session that receives pings in a clean run, however cut, answers each with a pong of its id, in order,
      and stays as it was. */
  lemma KeepAlive<T(!new)>(env: Env<T>, fd: nat, trans: T, ids: seq<uint32>, es: seq<Event>)
    requires ValidRun(env, Accepted(fd, trans), es) && Clean(es) && Generous(env)
    requires Concat(ChunksOf(es)) == StreamOf(Pings(ids)) && NeverOverflows(Server, [], ChunksOf(es))
    ensures var end := Run(env, Accepted(fd, trans), es);
            !end.closing && end.trans == trans && Submits(end.log) == Pongs(ids)
  {
    hide ValidRun, Clean, Generous, Run, Submits, ChunksOf, Concat, StreamOf, NeverOverflows, Pings, Pongs, Fits;
    PingReplies(env, trans, ids);
    ServerSeesMessages(env, fd, trans, Pings(ids), es);
  }

  // ---------------------------------------------------------------- starting

  /** A start payload as the client prints it (src/client/main.c:633-644). */
  function EncodeStart(c: Start): (b: seq<byte>)
    ensures |b| == START_SIZE
  {
    [c.inType, c.inChannels] + U16Net(c.flags) + U32Net(c.inRate) +
    [c.inEndian, c.outType, c.outChannels, c.outEndian] + U32Net(c.outRate)
  }

  /** It is parsed back field by field. */
  lemma StartRoundTrip(c: Start)
    ensures DecodeStart(EncodeStart(c)) == c
  {
    var b := EncodeStart(c);
    assert b[2..4] == U16Net(c.flags) && b[4..8] == U32Net(c.inRate) && b[12..16] == U32Net(c.outRate);
    NetU16RoundTrip(c.flags);
    NetU32RoundTrip(c.inRate);
    NetU32RoundTrip(c.outRate);
  }

  /** What a session started with it does: L16 sides with byte order 2 are swapped, no others; different rates
      are resampled, from the first to the second; flag bit 0 asks for the network. */
  lemma StartMeans(c: Start, kernel: Kernel, avx2: bool, network: Vad.Network)
    ensures var s := SettingsOf(DecodeStart(EncodeStart(c)), kernel, avx2, network);
            && s.inType == c.inType && s.outType == c.outType && s.channels == c.inChannels
            && s.inRate == c.inRate && s.outRate == c.outRate
            && (s.swapIn <==> c.inType == 96 && c.inEndian == 2)
            && (s.swapOut <==> c.outType == 96 && c.outEndian == 2)
            && (s.resample.None? <==> c.inRate == c.outRate)
            && (s.resample.Some? ==> s.resample.value.rates == Rates(c.inRate, c.outRate))
            && (s.vad == Some(network) || s.vad == None) && (s.vad.Some? <==> c.flags % 2 == 1)
  {
    hide EncodeStart, DecodeStart;
    StartRoundTrip(c);
  }

  /** Which start payloads are served: a known output codec, equal channel counts, one channel where samples are
      companded or resampled, and only these six rates where they are resampled. */
  lemma ServedStarts(c: Start)
    ensures Supported(c) <==>
            && c.inChannels == c.outChannels >= 1 && c.outType in {0, 8, 96}
            && (c.inType in {0, 8} || c.outType in {0, 8} || c.inRate != c.outRate ==> c.inChannels == 1)
            && (c.inRate != c.outRate ==> c.inRate in RATES && c.outRate in RATES)
  {
  }

  const RATES := {8000, 16000, 24000, 32000, 44100, 48000}

  // ---------------------------------------------------------------- headers

  /** The sixteen bytes of a header: MACH, version 1, then command, id and length, high bytes first. A server takes
      no other magic or version. */
  lemma HeaderBytes(h: Header)
    ensures ValidateHeader(h) <==> EncodeHeader(h)[0..6] == [0x4D, 0x41, 0x43, 0x48, 0, 1]
    ensures EncodeHeader(h)[6..8] == [h.command / 256, h.command % 256]
    ensures EncodeHeader(h)[11] == h.sequenceId % 256 && EncodeHeader(h)[15] == h.payloadLen % 256
  {
    HeaderParts(h);
    hide EncodeHeader;
    MagicBytes(h.magic);
    VersionBytes(h.version);
    var b := EncodeHeader(h);
    assert b[0..4] + b[4..6] == b[0..6];
    assert [0x4D, 0x41, 0x43, 0x48, 0, 1] == [0x4D, 0x41, 0x43, 0x48] + [0, 1];
    if b[0..6] == [0x4D, 0x41, 0x43, 0x48, 0, 1] {
      assert b[0..6][..4] == b[0..4] && b[0..6][4..] == b[4..6];
    }
  }

  lemma HeaderParts(h: Header)
    ensures var b := EncodeHeader(h);
            && b[0..4] == U32Net(h.magic) && b[4..6] == U16Net(h.version) && b[6..8] == U16Net(h.command)
            && b[11] == h.sequenceId % 256 && b[15] == h.payloadLen % 256
  {
  }

  lemma MagicBytes(n: uint32)
    ensures U32Net(n) == [0x4D, 0x41, 0x43, 0x48] <==> n == 0x4D414348
  {
    if U32Net(n) == [0x4D, 0x41, 0x43, 0x48] {
      NetU32RoundTrip(n);
    }
  }

  lemma VersionBytes(n: uint16)
    ensures U16Net(n) == [0, 1] <==> n == 1
  {
  }

  /** A client takes every header with the magic, of whatever version. */
  lemma ClientAccepts(h: Header)
    ensures Accepts(Client, h) <==> EncodeHeader(h)[0..4] == [0x4D, 0x41, 0x43, 0x48]
    ensures Accepts(Server, h) <==> Accepts(Client, h) && h.version == 1
  {
    HeaderParts(h);
    hide EncodeHeader;
    MagicBytes(h.magic);
  }

  // ---------------------------------------------------------------- a bad header

  /** A session that receives a header it rejects, in a clean run and after whatever messages, answers the messages
      and then that header with error 1, and closes. */
  lemma BadHeader<T(!new)>(env: Env<T>, fd: nat, trans: T, ms: seq<Message>, bad: seq<byte>, es: seq<Event>)
    returns (last: Response)
    requires ValidRun(env, Accepted(fd, trans), es) && Clean(es) && Generous(env)
    requires (forall m :: m in ms ==> Printed(Server, m)) && (forall r :: r in RepliesTo(env, trans, ms) ==> Fits(r))
    requires |bad| >= 16 && bad[0..6] != [0x4D, 0x41, 0x43, 0x48, 0, 1]
    requires Concat(ChunksOf(es)) == StreamOf(ms) + bad && NeverOverflows(Server, [], ChunksOf(es))
    ensures var end := Run(env, Accepted(fd, trans), es);
            end.closing && Submits(end.log) == RepliesTo(env, trans, ms) + [last]
    ensures IsError(Some(last), NetU32(bad[8..12]), 1)
  {
    last := ErrorReply(NetU32(bad[8..12]), ERR_INVALID_MAGIC);
    ErrorIs(NetU32(bad[8..12]), ERR_INVALID_MAGIC);
    ErrorSmall(NetU32(bad[8..12]), ERR_INVALID_MAGIC);
    BadFront(bad);
    hide ValidRun, Clean, Generous, Run, Submits, ChunksOf, Concat, StreamOf, NeverOverflows, Fits, Printed,
         RepliesTo, Messages, Rest, Rejected, Ready, Front, ErrorReply, IsError, Inv, TransAfter, NetU32, Subsequence;
    PrintFrame(Server, ms, bad);
    AcceptedInv(fd, trans);
    AcceptedTracks(env, fd, trans);
    NothingLeft();
    assert [] + Concat(ChunksOf(es)) == Concat(ChunksOf(es));
    CleanRunTracks(env, trans, Accepted(fd, trans), [], es);
  }

  lemma ErrorSmall(id: uint32, code: uint32)
    ensures Fits(ErrorReply(id, code))
  {
    hide U32Net;
  }

  /** Such bytes are a rejected header with that id. */
  lemma BadFront(bad: seq<byte>)
    requires |bad| >= 16 && bad[0..6] != [0x4D, 0x41, 0x43, 0x48, 0, 1]
    ensures Rejected(Server, bad) && !Ready(Server, bad) && Front(bad).sequenceId == NetU32(bad[8..12])
  {
    GoodFront(bad);
    assert bad[..16][8..12] == bad[8..12];
  }

  /** Bytes that a server accepts start with the magic and the version. */
  lemma GoodFront(s: seq<byte>)
    requires |s| >= 16
    ensures ValidateHeader(Front(s)) ==> s[0..6] == [0x4D, 0x41, 0x43, 0x48, 0, 1]
  {
    hide NetU32, NetU16, U32Net;
    var b := s[..16];
    assert b[0..4] == s[0..4] && b[4..6] == s[4..6];
    if ValidateHeader(Front(s)) {
      WordIs(s[0..4], 0x4D414348);
      MagicBytes(0x4D414348);
      HalfIs(s[4..6]);
      assert s[0..6] == s[0..4] + s[4..6];
    }
  }

  lemma HalfIs(b: seq<byte>)
    requires |b| == 2 && NetU16(b) == 1
    ensures b == [0, 1]
  {
  }

  lemma WordIs(b: seq<byte>, n: uint32)
    requires |b| == 4 && NetU32(b) == n
    ensures U32Net(n) == b
  {
    DigitsOf(b[0], b[1], b[2], b[3]);
  }

  lemma DigitsOf(b3: byte, b2: byte, b1: byte, b0: byte)
    ensures var n: uint32 := Digits4(b3, b2, b1, b0);
            n / 0x100_0000 == b3 && n / 0x1_0000 % 0x100 == b2 && n / 0x100 % 0x100 == b1 && n % 0x100 == b0
  {
    var n: uint32 := Digits4(b3, b2, b1, b0);
    assert n / 0x100 == Digits4(0, b3, b2, b1) && n % 0x100 == b0;
    assert n / 0x1_0000 == Digits2(b3, b2) && n / 0x100 % 0x100 == b1;
    assert n / 0x100_0000 == b3 && n / 0x1_0000 % 0x100 == b2;
  }
}
