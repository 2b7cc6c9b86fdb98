/** A client's messages and how a session receives them. */
module Conversations {
  import opened Bytes
  import opened Protocol
  import opened Framing
  import opened Session
  import opened SessionSafety
  import opened Replies
  import opened ClientChunks
  import opened SentFiles

  // ---------------------------------------------------------------- the client's messages

  function StartMessage(config: seq<byte>): (m: Message)
    requires |config| < TWO32
    ensures Printed(Server, m)
  {
    Message(Header(AUDIO_MAGIC, AUDIO_VERSION, CMD_START, 0, |config|), config)
  }

  /** The requests of up to k ticks, as messages. */
  function SentMessages(c: ClientConfig, st: SendState, k: nat): seq<Message>
    requires Sendable(c)
    decreases k
  {
    if k == 0 then []
    else
      var (next, bs) := Tick(c, st);
      if bs.None? then []
      else
        ChunkFits(c);
        [Message(RequestHeader(st.sequenceId, PayloadLen(c)), EncodeInputPayload(bs.value))] +
          SentMessages(c, next, k - 1)
  }

  function Conversation(config: seq<byte>, c: ClientConfig, k: nat): seq<Message>
    requires Sendable(c) && |config| < TWO32
  {
    [StartMessage(config)] + SentMessages(c, STARTED, k)
  }

  lemma {:induction false} SentArePrinted(c: ClientConfig, st: SendState, k: nat)
    requires Sendable(c)
    ensures forall m :: m in SentMessages(c, st, k) ==>
              Printed(Server, m) && MessageSize(m.header) == HEADER_SIZE + PayloadLen(c)
    decreases k
  {
    hide ChunkSize, PayloadLen, Tick, EncodeInputPayload, Printed, MessageBytes, RequestBytes;
    if k > 0 && Tick(c, st).1.Some? {
      RequestIsMessage(c, st);
      SentArePrinted(c, Tick(c, st).0, k - 1);
    }
  }

  // ---------------------------------------------------------------- through the session

  /** A clean run of a session that receives some printed messages, cut into reads that its buffer holds,
      dispatches exactly those messages in order, keeps nothing, stays open, and submits exactly their
      replies. */
  lemma ServerSeesMessages<T(!new)>(env: Env<T>, fd: nat, trans: T, ms: seq<Message>, es: seq<Event>)
    requires ValidRun(env, Accepted(fd, trans), es) && Clean(es) && Generous(env)
    requires (forall m :: m in ms ==> Printed(Server, m)) && Concat(ChunksOf(es)) == StreamOf(ms)
    requires NeverOverflows(Server, [], ChunksOf(es)) && forall r :: r in RepliesTo(env, trans, ms) ==> Fits(r)
    ensures var end := Run(env, Accepted(fd, trans), es);
            && !end.closing && end.assembled == [] && end.trans == TransAfter(env, trans, ms)
            && Submits(end.log) == RepliesTo(env, trans, ms)
  {
    hide ValidRun, Clean, Generous, ChunksOf, Concat, StreamOf, Messages, Rest, RepliesTo, TransAfter, Run, Inv,
         Submits, NeverOverflows, Fits, Printed;
    PrintFrame(Server, ms, []);
    assert StreamOf(ms) + [] == StreamOf(ms);
    NothingLeft();
    AcceptedInv(fd, trans);
    AcceptedTracks(env, fd, trans);
    assert [] + Concat(ChunksOf(es)) == Concat(ChunksOf(es));
    CleanRunTracks(env, trans, Accepted(fd, trans), [], es);
  }

  lemma NothingLeft()
    ensures !Rejected(Server, []) && !Ready(Server, []) && RejectionReply([]) == [] && Rest(Server, []) == []
    ensures forall r: seq<Response> :: r + [] == r
  {
  }

  /** The client's requests, whatever else follows a start message. */
  lemma ServerSeesRequests<T(!new)>(env: Env<T>, fd: nat, trans: T, config: seq<byte>, c: ClientConfig, k: nat,
      es: seq<Event>)
    requires Sendable(c) && START_SIZE <= |config| < TWO32
    requires ValidRun(env, Accepted(fd, trans), es) && Clean(es) && Generous(env)
    requires Concat(ChunksOf(es)) == StreamOf(Conversation(config, c, k)) && NeverOverflows(Server, [], ChunksOf(es))
    requires forall r :: r in RepliesTo(env, env.start(trans, config), SentMessages(c, STARTED, k)) ==> Fits(r)
    ensures var end, ms := Run(env, Accepted(fd, trans), es), SentMessages(c, STARTED, k);
            && !end.closing && end.assembled == [] && end.trans == TransAfter(env, env.start(trans, config), ms)
            && Submits(end.log) == RepliesTo(env, env.start(trans, config), ms)
  {
    hide ValidRun, Clean, Generous, ChunksOf, Concat, StreamOf, Run, Submits, NeverOverflows, Fits, SentMessages,
         Sendable;
    var ms := Conversation(config, c, k);
    SentArePrinted(c, STARTED, k);
    StartReplies(env, trans, config, SentMessages(c, STARTED, k));
    ServerSeesMessages(env, fd, trans, ms, es);
  }

  lemma StartReplies<T>(env: Env<T>, trans: T, config: seq<byte>, ms: seq<Message>)
    requires START_SIZE <= |config| < TWO32
    ensures RepliesTo(env, trans, [StartMessage(config)] + ms) == RepliesTo(env, env.start(trans, config), ms)
    ensures TransAfter(env, trans, [StartMessage(config)] + ms) == TransAfter(env, env.start(trans, config), ms)
  {
    var all := [StartMessage(config)] + ms;
    assert all[0] == StartMessage(config) && all[1..] == ms;
  }

  // ---------------------------------------------------------------- what the buffer holds

  /** Messages of which the reassembly buffer holds the stream: up to the last ones, which fit it together,
      each is small. */
  predicate Roomy(ms: seq<Message>) {
    |StreamOf(ms)| <= ASSEMBLE_SIZE ||
    (ms != [] && MessageSize(ms[0].header) <= LARGEST_SAFE_MESSAGE && Roomy(ms[1..]))
  }

  lemma {:induction false} RoomyIsHeld(ms: seq<Message>)
    requires forall m :: m in ms ==> Printed(Server, m)
    ensures Roomy(ms) <==> BufferHolds(Server, StreamOf(ms))
    decreases |ms|
  {
    hide EncodeHeader, DecodeHeader, ValidateHeader;
    if ms != [] {
      assert ms[0] in ms && forall m :: m in ms[1..] ==> m in ms;
      var s, t := StreamOf(ms), StreamOf(ms[1..]);
      RoomyIsHeld(ms[1..]);
      PrintedFront(Server, ms[0], t);
      assert s == MessageBytes(ms[0]) + t && s[..HEADER_SIZE] == s[0..HEADER_SIZE];
    }
  }

  /** No cut of some printed messages into reads overflows the buffer, if and only if they are roomy. */
  lemma SafeMessages(ms: seq<Message>)
    requires forall m :: m in ms ==> Printed(Server, m)
    ensures Roomy(ms) <==> forall chunks :: IsCut(StreamOf(ms), chunks) ==> NeverOverflows(Server, [], chunks)
  {
    hide Roomy, StreamOf, BufferHolds, NeverOverflows, IsCut, Printed;
    RoomyIsHeld(ms);
    ReassemblyExactly(Server, StreamOf(ms));
  }

  lemma {:induction false} SmallAreRoomy(ms: seq<Message>)
    requires forall m :: m in ms ==> MessageSize(m.header) <= LARGEST_SAFE_MESSAGE
    ensures Roomy(ms)
    decreases |ms|
  {
    hide MessageBytes;
    if ms != [] {
      assert ms[0] in ms && forall m :: m in ms[1..] ==> m in ms;
      SmallAreRoomy(ms[1..]);
    }
  }

  /** Requests of up to 16385 bytes, header included, survive every cut into reads of at most 16384. */
  lemma SafeRequests(config: seq<byte>, c: ClientConfig, k: nat, chunks: seq<seq<byte>>)
    requires Sendable(c) && HEADER_SIZE + |config| <= LARGEST_SAFE_MESSAGE &&
             HEADER_SIZE + PayloadLen(c) <= LARGEST_SAFE_MESSAGE
    requires Concat(chunks) == StreamOf(Conversation(config, c, k)) && forall r :: r in chunks ==> |r| <= READ_SIZE
    ensures NeverOverflows(Server, [], chunks)
  {
    hide Concat, StreamOf, NeverOverflows, SentMessages, BufferHolds, Roomy, Printed, Sendable, PayloadLen;
    SentArePrinted(c, STARTED, k);
    SmallAreRoomy(Conversation(config, c, k));
    RoomyIsHeld(Conversation(config, c, k));
    assert [] + Concat(chunks) == Concat(chunks);
    NothingLeft();
    HeldIsEnough(Server, [], chunks);
  }

  // ---------------------------------------------------------------- numbering

  /** A request's header. */
  function Numbered(c: ClientConfig, id: nat): Header
    requires PayloadLen(c) < TWO32
  {
    Header(0x4D414348, 1, 2, Wrap32(id), PayloadLen(c))
  }

  /** Requests are numbered one after another, from 1 on, as the start message is number 0. */
  lemma {:induction false} Numbers(c: ClientConfig, st: SendState, k: nat, i: nat)
    requires Sendable(c) && i < |SentMessages(c, st, k)|
    ensures SentMessages(c, st, k)[i].header == Numbered(c, st.sequenceId as int + i)
    decreases k
  {
    hide *;
    var next := OneSent(c, st, k);
    if i > 0 {
      Numbers(c, next, k - 1, i - 1);
      NumberedTail(c, st, next, SentMessages(c, st, k), i);
    } else {
      FirstNumber(c, st);
    }
  }

  lemma NumberedTail(c: ClientConfig, st: SendState, next: SendState, ms: seq<Message>, i: nat)
    requires PayloadLen(c) < TWO32 && 0 < i < |ms| && next.sequenceId == Wrap32(st.sequenceId as int + 1)
    requires ms[1..][i - 1].header == Numbered(c, next.sequenceId as int + (i - 1))
    ensures ms[i].header == Numbered(c, st.sequenceId as int + i)
  {
    hide PayloadLen, Numbered;
    NextNumber(c, st, next, i - 1);
  }

  lemma FirstNumber(c: ClientConfig, st: SendState)
    requires Sendable(c)
    ensures Numbered(c, st.sequenceId as int + 0) == Header(0x4D414348, 1, 2, st.sequenceId, PayloadLen(c))
  {
    hide PayloadLen;
    Wrapped(st.sequenceId);
  }

  lemma NextNumber(c: ClientConfig, st: SendState, next: SendState, j: nat)
    requires PayloadLen(c) < TWO32 && next.sequenceId == Wrap32(st.sequenceId as int + 1)
    ensures Numbered(c, next.sequenceId as int + j) == Numbered(c, st.sequenceId as int + (j + 1))
  {
    hide PayloadLen;
    WrapNext(st.sequenceId, j);
  }

  /** Every buffer is sent at full volume, 1.0. */
  lemma {:induction false} FullVolume(c: ClientConfig, st: SendState, k: nat, i: nat, b: Buffer)
    requires Sendable(c) && i < |Sends(c, st, k)| && b in Sends(c, st, k)[i]
    ensures b.volumeBits == 0x3F80_0000
    decreases k
  {
    TickState(c, st);
    hide PayloadLen, ChunkSize, Tick;
    if i > 0 {
      FullVolume(c, Tick(c, st).0, k - 1, i - 1, b);
    }
  }

  lemma Wrapped(id: uint32)
    ensures Wrap32(id as int + 0) == id
  {
  }

  /** The first request of some ticks, and the rest. */
  lemma OneSent(c: ClientConfig, st: SendState, k: nat) returns (next: SendState)
    requires Sendable(c) && SentMessages(c, st, k) != []
    ensures && k > 0 && PayloadLen(c) < TWO32 && next.sequenceId == Wrap32(st.sequenceId as int + 1)
            && SentMessages(c, st, k)[1..] == SentMessages(c, next, k - 1)
            && SentMessages(c, st, k)[0].header == Header(0x4D414348, 1, 2, st.sequenceId, PayloadLen(c))
  {
    TickState(c, st);
    hide PayloadLen, ChunkSize, Tick, EncodeInputPayload;
    next := Tick(c, st).0;
  }

  lemma WrapNext(id: uint32, i: nat)
    ensures Wrap32(Wrap32(id as int + 1) as int + i) == Wrap32(id as int + (i + 1))
  {
  }

  /** A tick that sends takes the next number, counts the bytes of its buffers, and sends them at full volume. */
  lemma TickState(c: ClientConfig, st: SendState)
    requires Sendable(c)
    ensures var (next, bs) := Tick(c, st);
            && (bs.Some? ==>
                  && next.sequenceId == Wrap32(st.sequenceId as int + 1)
                  && next.totalSent == Wrap64(st.totalSent as int + |bs.value| * ChunkSize(c))
                  && forall b :: b in bs.value ==> b.volumeBits == 0x3F80_0000)
            && (bs.None? ==> next.sequenceId == st.sequenceId && next.totalSent == st.totalSent)
  {
    hide ChunkSize, PayloadLen;
  }
}
