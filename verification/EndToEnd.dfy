/** From the client's input files through the wire, the session and the pipeline, and back. */
module EndToEnd {
  import opened Bytes
  import opened Protocol
  import opened Framing
  import opened Arenas
  import opened Session
  import opened Replies
  import opened ClientStats
  import opened ResampleClock
  import opened ResampleStream
  import opened ResampleRuns
  import opened Pipeline
  import opened Requests
  import opened RequestState
  import opened RequestRuns
  import opened ClientChunks
  import opened Conversations
  import opened SentFiles
  import Transcode

  /** The packet time does not matter: two clients that send the same part of their files in chunks of
      different sizes get the same answer bytes, if every chunk is decodable and gives a whole number
      of outputs, made alike. */
  lemma PacketTimeIrrelevant(s: Settings, st: Resampler, c1: ClientConfig, c2: ClientConfig, k1: nat, k2: nat)
    requires Defined(s) && |st.history| == HISTORY && Sendable(c1) && Sendable(c2) && !c1.loop && !c2.loop
    requires c1.input == c2.input && c1.input2 == c2.input2 && ChunkSize(c1) > 0 && ChunkSize(c2) > 0
    requires WholeChunks(s, ChunkSize(c1)) && WholeChunks(s, ChunkSize(c2))
    requires SentFiles.Start(ChunkSize(c1), |Sends(c1, STARTED, k1)|) ==
             SentFiles.Start(ChunkSize(c2), |Sends(c2, STARTED, k2)|)
    requires ExactStream(s, st, Mixes(s, Sends(c1, STARTED, k1))) &&
             ExactStream(s, st, Mixes(s, Sends(c2, STARTED, k2)))
    requires s.resample.Some? ==>
               Alike(s.resample.value, Mixes(s, Sends(c1, STARTED, k1)), Mixes(s, Sends(c2, STARTED, k2)))
    ensures AllRequestsAligned(s, Sends(c1, STARTED, k1)) && AllRequestsAligned(s, Sends(c2, STARTED, k2))
    ensures Answers(s, st, Sends(c1, STARTED, k1)) == Answers(s, st, Sends(c2, STARTED, k2))
  {
    assert s.channels > 0;
    hide ChunkSize, Sends, Mixes, Answers, Sendable, DecodeBuffer, WholeChunks, Alike, ExactStream, Flatten,
         FileAudio, Defined, AllRequestsAligned, MixInto, Available, SentFiles.Start;
    SentAligned(s, c1, k1);
    SentAligned(s, c2, k2);
    SentIsFileAudio(s, c1, k1);
    SentIsFileAudio(s, c2, k2);
    AllInOrder(c1, k1);
    AllInOrder(c2, k2);
    AudioOfPrefix(s, c1, |Sends(c1, STARTED, k1)|);
    AudioOfPrefix(s, c2, |Sends(c2, STARTED, k2)|);
    RequestCutIndependence(s, st, Sends(c1, STARTED, k1), Sends(c2, STARTED, k2));
  }

  // ---------------------------------------------------------------- and back

  /** A reply on the wire. */
  function ReplyMessage(r: Response): Message
    requires Fits(r)
  {
    Message(Header(AUDIO_MAGIC, AUDIO_VERSION, r.command, r.sequenceId, |r.payload|), r.payload)
  }

  function ReplyMessages(rs: seq<Response>): (ms: seq<Message>)
    requires forall r :: r in rs ==> Fits(r)
    ensures forall m :: m in ms ==> Printed(Client, m)
  {
    if rs == [] then [] else [ReplyMessage(rs[0])] + ReplyMessages(rs[1..])
  }

  /** The audio the server computes for a conversation. */
  function ServedAudio<T>(env: Env<T>, trans: T, ms: seq<Message>): seq<byte>
    decreases |ms|
  {
    if ms == [] then []
    else
      var m, next := ms[0], Reply(env, trans, ms[0]).0;
      (if m.header.command == CMD_INPUT && |m.payload| >= INPUT_SIZE && env.process(trans, m.payload).1.Done?
       then env.process(trans, m.payload).1.data else []) + ServedAudio(env, next, ms[1..])
  }

  /** An output reply carries its duration and its audio where the client looks for them. */
  lemma OutputParts(ns: uint64, vadBits: uint32, data: seq<byte>)
    ensures var p := OutputPayload(ns, vadBits, data);
            |p| >= OUTPUT_SIZE && NetU64(p[0..8]) == ns && p[OUTPUT_SIZE..] == data
  {
    hide U64Net, U32Net;
    var p := OutputPayload(ns, vadBits, data);
    assert p[0..8] == U64Net(ns);
    NetU64RoundTrip(ns);
  }

  lemma ReplyAudio<T>(env: Env<T>, trans: T, m: Message)
    requires Reply(env, trans, m).1.Some? && Fits(Reply(env, trans, m).1.value)
    ensures var r := ReplyMessage(Reply(env, trans, m).1.value);
            WellFormed(r) && Audio([r]) == ServedAudio(env, trans, [m])
  {
    hide U64Net, U32Net, NetU64;
    var r := ReplyMessage(Reply(env, trans, m).1.value);
    assert [r][1..] == [] && [m][1..] == [];
    if m.header.command == CMD_INPUT && |m.payload| >= INPUT_SIZE {
      var o := env.process(trans, m.payload).1;
      if o.Done? {
        OutputParts(o.durationNs, o.vadBits, o.data);
      }
    }
  }

  /** The replies to a conversation are well formed, and their audio is what the server computed. */
  lemma {:induction false} RepliesAudio<T>(env: Env<T>, trans: T, ms: seq<Message>)
    requires forall r :: r in RepliesTo(env, trans, ms) ==> Fits(r)
    ensures AllWellFormed(ReplyMessages(RepliesTo(env, trans, ms)))
    ensures Audio(ReplyMessages(RepliesTo(env, trans, ms))) == ServedAudio(env, trans, ms)
    decreases |ms|
  {
    hide Reply, WellFormed, Fits, ReplyMessage;
    if ms != [] {
      var (next, reply) := Reply(env, trans, ms[0]);
      var rest := RepliesTo(env, next, ms[1..]);
      if reply.None? {
        assert RepliesTo(env, trans, ms) == rest;
        RepliesAudio(env, next, ms[1..]);
        SilentReply(env, trans, ms[0]);
      } else {
        var rs := [reply.value] + rest;
        assert RepliesTo(env, trans, ms) == rs;
        assert reply.value in rs && forall r :: r in rest ==> r in rs;
        RepliesAudio(env, next, ms[1..]);
        ReplyAudio(env, trans, ms[0]);
        assert rs[1..] == rest;
        AudioCons(ReplyMessage(reply.value), ReplyMessages(rest));
        assert [ms[0]][1..] == [];
        ServedOne(env, trans, ms);
      }
    }
  }

  lemma SilentReply<T>(env: Env<T>, trans: T, m: Message)
    requires Reply(env, trans, m).1.None?
    ensures !(m.header.command == CMD_INPUT && |m.payload| >= INPUT_SIZE && env.process(trans, m.payload).1.Done?)
  {
  }

  lemma ServedOne<T>(env: Env<T>, trans: T, ms: seq<Message>)
    requires ms != []
    ensures ServedAudio(env, trans, ms) == ServedAudio(env, trans, [ms[0]]) +
            ServedAudio(env, Reply(env, trans, ms[0]).0, ms[1..])
  {
    hide Reply;
    assert [ms[0]][1..] == [];
  }

  lemma AudioCons(m: Message, ms: seq<Message>)
    requires WellFormed(m) && AllWellFormed(ms)
    ensures AllWellFormed([m] + ms) && Audio([m] + ms) == Audio([m]) + Audio(ms)
  {
    assert ([m] + ms)[1..] == ms && [m][1..] == [];
  }

  /** However the replies are cut on the way back, the client frames exactly them, and the audio it
      records is exactly what the server computed. */
  lemma ClientRecordsServed<T>(env: Env<T>, trans: T, ms: seq<Message>, chunks: seq<seq<byte>>)
    requires forall r :: r in RepliesTo(env, trans, ms) ==> Fits(r)
    requires Concat(chunks) == StreamOf(ReplyMessages(RepliesTo(env, trans, ms)))
    ensures FeedMessages(Client, [], chunks) == ReplyMessages(RepliesTo(env, trans, ms))
    ensures AllWellFormed(FeedMessages(Client, [], chunks)) && Audio(FeedMessages(Client, [], chunks)) ==
            ServedAudio(env, trans, ms)
  {
    hide Concat, FeedMessages, ReplyMessages, RepliesTo, Fits, ServedAudio, Audio, AllWellFormed;
    var replies := ReplyMessages(RepliesTo(env, trans, ms));
    PrintFrame(Client, replies, []);
    FeedIsFrames(Client, [], chunks);
    RepliesAudio(env, trans, ms);
    assert [] + Concat(chunks) == Concat(chunks) == StreamOf(replies) + [];
  }

  // ---------------------------------------------------------------- the whole loop

  /** How to look at an engine's state: the settings of its session, its resampler, and where its requests
      begin in the arena. Whatever else the state holds, such as the arena's bytes, the VAD state and a clock,
      stays open: replies to equal requests may carry different durations and probabilities. */
  datatype View<!T> = View(settings: T -> Settings, resampler: T -> Resampler, curr: T -> nat)

  /** What a build fixes for every session. */
  datatype Build = Build(kernel: Kernel, avx2: bool, network: Vad.Network)

  /** A session that HandleInput may be called on. */
  predicate Serving<T>(v: View<T>, t: T) {
    && Defined(v.settings(t)) && |v.resampler(t).history| == HISTORY && v.curr(t) < 32 + VAD_STATE_SIZE
    && ReachesNow(v.settings(t), v.resampler(t))
  }

  /** The engine starts a session as HandleStart does. */
  ghost predicate Starts<T(!new)>(env: Env<T>, v: View<T>, build: Build) {
    forall t: T, config: seq<byte> ::
      |config| >= START_SIZE && Transcode.Supported(Transcode.DecodeStart(config)) ==>
        StartedBy(env, v, build, t, config)
  }

  ghost predicate StartedBy<T>(env: Env<T>, v: View<T>, build: Build, t: T, config: seq<byte>)
    requires |config| >= START_SIZE && Transcode.Supported(Transcode.DecodeStart(config))
  {
    var next, s := env.start(t, config), StartedSettings(build, config);
    && v.settings(next) == s && Defined(s) && v.resampler(next) == Transcode.StartState(s)
    && v.curr(next) < 32 + VAD_STATE_SIZE
  }

  function StartedSettings(build: Build, config: seq<byte>): Settings
    requires |config| >= START_SIZE
  {
    Transcode.SettingsOf(Transcode.DecodeStart(config), build.kernel, build.avx2, build.network)
  }

  /** The engine answers every request that succeeds as HandleInput does, whatever the arena holds. */
  ghost predicate Implements<T(!new)>(env: Env<T>, v: View<T>) {
    forall t: T, p: seq<byte> :: Serving(v, t) && Answerable(v.settings(t), v.curr(t), p) ==> RepliedBy(env, v, t, p)
  }

  predicate Answerable(s: Settings, curr: nat, p: seq<byte>)
    requires Defined(s)
  {
    INPUT_SIZE <= |p| && |p| + ARENA_SIZE < TWO32 && NetU32(p[0..4]) > 0 && Succeeds(s, p, curr, ARENA_SIZE)
  }

  ghost predicate RepliedBy<T>(env: Env<T>, v: View<T>, t: T, p: seq<byte>) {
    var (next, o) := env.process(t, p);
    && o.Done? && v.settings(next) == v.settings(t) && v.curr(next) == v.curr(t)
    && exists mem: seq<byte> ::
         |mem| == ARENA_SIZE &&
         Transcode.Replied(Job(v.settings(t), p, v.curr(t), mem), v.resampler(t), v.resampler(next), o.data)
  }

  /** A request that the reassembly buffer and the reply buffer hold, with some audio in it, in lengths that
      the decoders take. */
  predicate Modest(s: Settings, bs: seq<Buffer>)
    requires Defined(s)
  {
    && bs != [] && Printable(bs) && AlignedBuffers(s, bs) && |EncodeInputPayload(bs)| <= LARGEST_PAYLOAD
    && MixOf(s, bs) != [] && OutputBytes(s, |MixOf(s, bs)|) <= LARGEST_OUTPUT
  }

  /** A modest request to a mono session is always answered, with the answer specified for its buffers, and
      the session is then as before, its resampler moved on. */
  lemma RequestServed<T(!new)>(env: Env<T>, v: View<T>, t: T, bs: seq<Buffer>)
    requires Implements(env, v) && Serving(v, t) && v.settings(t).channels == 1 && Known(v.settings(t).inType)
    requires Modest(v.settings(t), bs)
    ensures var s, st := v.settings(t), v.resampler(t);
            var (next, o) := env.process(t, EncodeInputPayload(bs));
            && o.Done? && o.data == Answer(s, st, bs) && |o.data| <= LARGEST_OUTPUT
            && v.settings(next) == s && v.curr(next) == v.curr(t)
            && v.resampler(next) == AfterResample(s, st, MixOf(s, bs))
  {
    var s, curr, payload := v.settings(t), v.curr(t), EncodeInputPayload(bs);
    ModestSucceeds(s, curr, bs);
    hide RequestChunks, MixOf, Succeeds, NetU32, EncodeInputPayload, AfterResample, Resampled, EncodeOutput, Defined,
         ReachesNow, Transcode.Replied, Answer, Modest;
    assert RepliedBy(env, v, t, payload);
    var (next, o) := env.process(t, payload);
    var mem: seq<byte> :|
      |mem| == ARENA_SIZE &&
      Transcode.Replied(Job(s, payload, curr, mem), v.resampler(t), v.resampler(next), o.data);
    RepliedAnswer(s, curr, v.resampler(t), bs, mem, v.resampler(next), o.data);
  }

  lemma ModestSucceeds(s: Settings, curr: nat, bs: seq<Buffer>)
    requires Defined(s) && s.channels == 1 && Known(s.inType) && curr < 32 + VAD_STATE_SIZE && Modest(s, bs)
    ensures var payload := EncodeInputPayload(bs);
            |payload| <= LARGEST_PAYLOAD && NetU32(payload[0..4]) > 0 && Succeeds(s, payload, curr, ARENA_SIZE)
  {
    hide RequestChunks, MixOf, Succeeds, NetU32, EncodeInputPayload, OutSamples, Reads, Defined, MixLength,
         AlignedBuffers;
    var payload := EncodeInputPayload(bs);
    PrintedChunks(bs);
    ReadLengths(s, payload, RequestChunks(payload), bs);
    SentLength(s, payload, RequestChunks(payload), bs);
    ArenaSufficiency(s, payload, curr);
  }

  lemma SentLength(s: Settings, payload: seq<byte>, cs: seq<Chunk>, bs: seq<Buffer>)
    requires s.channels > 0 && |cs| == |bs| && forall i :: 0 <= i < |bs| ==> Reads(payload, cs[i], bs[i])
    ensures MixLength(s, cs) == |MixOf(s, bs)|
    ensures forall c :: c in cs ==> InBounds(payload, c)
  {
    hide DecodeBuffer, SampleCount, MixAll;
    if bs != [] {
      assert Reads(payload, cs[0], bs[0]);
      DecodedLength(s, bs[0].data);
    }
  }

  lemma RepliedAnswer(s: Settings, curr: nat, st: Resampler, bs: seq<Buffer>, mem: seq<byte>, next: Resampler,
      data: seq<byte>)
    requires Defined(s) && Modest(s, bs) && Transcode.Replied(Job(s, EncodeInputPayload(bs), curr, mem), st, next, data)
    ensures |st.history| == HISTORY && data == Answer(s, st, bs) && next == AfterResample(s, st, MixOf(s, bs))
    ensures |data| <= LARGEST_OUTPUT
  {
    hide RequestChunks, MixOf, OutputIn, MixedIn, EncodeInputPayload, AfterResample, Resampled, EncodeOutput, Defined,
         OutSamples, Decodes, AlignedBuffers;
    PrintedRequest(s, st, bs, mem, curr);
    OutputLength(s, st, MixOf(s, bs));
  }

  /** From a state t of the engine on, each request is answered as the pipeline specifies for a resampler in
      state st. */
  ghost predicate Serves<T>(env: Env<T>, s: Settings, st: Resampler, t: T, requests: seq<seq<Buffer>>)
    requires Defined(s) && |st.history| == HISTORY
    decreases |requests|
  {
    requests == [] ||
    (&& Printable(requests[0]) && AlignedBuffers(s, requests[0])
     && (var (next, o) := env.process(t, EncodeInputPayload(requests[0]));
         && o.Done? && o.data == Answer(s, st, requests[0]) && |o.data| <= LARGEST_OUTPUT
         && Serves(env, s, AfterResample(s, st, MixOf(s, requests[0])), next, requests[1..])))
  }

  lemma {:induction false} ServesAll<T(!new)>(env: Env<T>, v: View<T>, s: Settings, t: T, requests: seq<seq<Buffer>>)
    requires Implements(env, v) && Defined(s) && s.channels == 1 && Known(s.inType) && s == v.settings(t)
    requires |v.resampler(t).history| == HISTORY && v.curr(t) < 32 + VAD_STATE_SIZE
    requires (forall bs :: bs in requests ==> Modest(s, bs)) && Steady(s, v.resampler(t), Mixes(s, requests))
    ensures Serves(env, s, v.resampler(t), t, requests)
    decreases |requests|
  {
    hide Implements, MixOf, Answer, EncodeInputPayload, OutputBytes, AfterResample, Defined, ReachesNow,
         AlignedBuffers;
    if requests != [] {
      assert Mixes(s, requests)[0] == MixOf(s, requests[0]) && Mixes(s, requests)[1..] == Mixes(s, requests[1..]);
      assert requests[0] in requests && forall bs :: bs in requests[1..] ==> bs in requests;
      RequestServed(env, v, t, requests[0]);
      ServesAll(env, v, s, env.process(t, EncodeInputPayload(requests[0])).0, requests[1..]);
    }
  }

  lemma {:induction false} ServesAligned<T>(env: Env<T>, s: Settings, st: Resampler, t: T, requests: seq<seq<Buffer>>)
    requires Defined(s) && |st.history| == HISTORY && Serves(env, s, st, t, requests)
    ensures AllRequestsAligned(s, requests)
    decreases |requests|
  {
    hide AlignedBuffers, Answer, MixOf, AfterResample, EncodeInputPayload;
    if requests != [] {
      var next := env.process(t, EncodeInputPayload(requests[0])).0;
      ServesAligned(env, s, AfterResample(s, st, MixOf(s, requests[0])), next, requests[1..]);
      assert forall bs :: bs in requests ==> bs == requests[0] || bs in requests[1..];
    }
  }

  /** One served tick: the message, its reply, and what is left. */
  lemma ServedTick<T>(env: Env<T>, s: Settings, st: Resampler, t: T, c: ClientConfig, at: SendState, k: nat)
    requires Defined(s) && |st.history| == HISTORY && Sendable(c) && Serves(env, s, st, t, Sends(c, at, k))
    requires k > 0 && Tick(c, at).1.Some?
    ensures var (next, bs) := Tick(c, at);
            var ms := SentMessages(c, at, k);
            && Sends(c, at, k) == [bs.value] + Sends(c, next, k - 1) && AlignedBuffers(s, bs.value)
            && |ms| > 0 && ms[1..] == SentMessages(c, next, k - 1)
            && (var st', r := AfterResample(s, st, MixOf(s, bs.value)), Reply(env, t, ms[0]);
                && Serves(env, s, st', r.0, Sends(c, next, k - 1))
                && ServedAudio(env, t, ms) == Answer(s, st, bs.value) + ServedAudio(env, r.0, ms[1..])
                && r.1.Some? && r.1.value.command == CMD_OUTPUT && Fits(r.1.value))
  {
    hide Tick, ChunkSize, PayloadLen, Answer, MixOf, AfterResample, EncodeInputPayload, OutputPayload, AlignedBuffers,
         Fits;
    var (next, bs) := Tick(c, at);
    var sent := Sends(c, at, k);
    assert sent[0] == bs.value && sent[1..] == Sends(c, next, k - 1);
    var ms := SentMessages(c, at, k);
    var m := Message(RequestHeader(at.sequenceId, PayloadLen(c)), EncodeInputPayload(bs.value));
    assert ms[0] == m && ms[1..] == SentMessages(c, next, k - 1);
    var o := env.process(t, m.payload).1;
    OutputFits(o.durationNs, o.vadBits, o.data, at.sequenceId);
  }

  lemma OutputFits(ns: uint64, vadBits: uint32, data: seq<byte>, id: uint32)
    requires |data| <= LARGEST_OUTPUT
    ensures Fits(Response(CMD_OUTPUT, id, OutputPayload(ns, vadBits, data)))
  {
    hide U64Net, U32Net;
  }

  lemma {:induction false} ServedIsAnswers<T>(env: Env<T>, s: Settings, st: Resampler, t: T, c: ClientConfig,
      at: SendState, k: nat)
    requires Defined(s) && |st.history| == HISTORY && Sendable(c) && Serves(env, s, st, t, Sends(c, at, k))
    requires AllRequestsAligned(s, Sends(c, at, k))
    ensures ServedAudio(env, t, SentMessages(c, at, k)) == Answers(s, st, Sends(c, at, k))
    decreases k
  {
    hide Tick, ChunkSize, PayloadLen, Answer, MixOf, AfterResample, EncodeInputPayload, AlignedBuffers, Fits, Reply,
         Serves;
    if k > 0 && Tick(c, at).1.Some? {
      ServedTick(env, s, st, t, c, at, k);
      var (next, bs) := Tick(c, at);
      var sent, rest, after := Sends(c, at, k), Sends(c, next, k - 1), Reply(env, t, SentMessages(c, at, k)[0]).0;
      assert sent[0] == bs.value && sent[1..] == rest && forall x :: x in rest ==> x in sent;
      ServedIsAnswers(env, s, AfterResample(s, st, MixOf(s, bs.value)), after, c, next, k - 1);
    }
  }

  /** Every reply to such a conversation fits a write buffer. */
  lemma {:induction false} RepliesFit<T>(env: Env<T>, s: Settings, st: Resampler, t: T, c: ClientConfig,
      at: SendState, k: nat)
    requires Defined(s) && |st.history| == HISTORY && Sendable(c) && Serves(env, s, st, t, Sends(c, at, k))
    ensures forall r :: r in RepliesTo(env, t, SentMessages(c, at, k)) ==> Fits(r)
    decreases k
  {
    hide Tick, ChunkSize, PayloadLen, Answer, MixOf, AfterResample, EncodeInputPayload, AlignedBuffers, Fits, Reply,
         Serves;
    if k > 0 && Tick(c, at).1.Some? {
      ServedTick(env, s, st, t, c, at, k);
      var (next, bs) := Tick(c, at);
      var after := Reply(env, t, SentMessages(c, at, k)[0]).0;
      RepliesFit(env, s, AfterResample(s, st, MixOf(s, bs.value)), after, c, next, k - 1);
    }
  }

  /** A client whose requests the server answers: modest, in decodable chunks, each a whole number of outputs. */
  predicate Sending(s: Settings, c: ClientConfig, k: nat) {
    && Defined(s) && s.channels == 1 && Known(s.inType)
    && Sendable(c) && ChunkSize(c) > 0 && WholeChunks(s, ChunkSize(c))
    && (forall bs :: bs in Sends(c, STARTED, k) ==> Modest(s, bs))
    && ExactStream(s, Transcode.StartState(s), Mixes(s, Sends(c, STARTED, k)))
  }

  /** An engine whose session has just started. */
  ghost predicate Fresh<T(!new)>(env: Env<T>, v: View<T>, s: Settings, t: T) {
    && Defined(s) && Implements(env, v) && v.settings(t) == s && v.resampler(t) == Transcode.StartState(s)
    && v.curr(t) < 32 + VAD_STATE_SIZE
  }

  lemma FreshServes<T(!new)>(env: Env<T>, v: View<T>, s: Settings, t: T, c: ClientConfig, k: nat)
    requires Fresh(env, v, s, t) && Sending(s, c, k)
    ensures |v.resampler(t).history| == HISTORY && Serves(env, s, v.resampler(t), t, Sends(c, STARTED, k))
    ensures forall r :: r in RepliesTo(env, t, SentMessages(c, STARTED, k)) ==> Fits(r)
  {
    hide Sends, SentMessages, RepliesTo, Serves, Mixes, Implements, Modest, Fits, Defined, Sendable, ExactStream,
         Steady, ChunkSize, WholeChunks;
    ExactIsSteady(s, v.resampler(t), Mixes(s, Sends(c, STARTED, k)));
    ServesAll(env, v, s, t, Sends(c, STARTED, k));
    RepliesFit(env, s, v.resampler(t), t, c, STARTED, k);
  }

  /** What the server computes for the client's requests is the encoding of the files' audio, decoded and
      mixed as whole streams and resampled uncut. */
  lemma ServedIsStream<T(!new)>(env: Env<T>, v: View<T>, s: Settings, t: T, c: ClientConfig, k: nat)
    returns (y: seq<int16>)
    requires Fresh(env, v, s, t) && Sending(s, c, k)
    ensures IsResampled(s, y, SentAudio(s, c, k), Mixes(s, Sends(c, STARTED, k)))
    ensures ServedAudio(env, t, SentMessages(c, STARTED, k)) == EncodeOutput(s, y)
  {
    hide Sends, SentMessages, ServedAudio, Answers, Serves, EncodeOutput, Mixes, Implements, Modest, Fits, Defined,
         Sendable, ExactStream, ChunkSize, WholeChunks, IsResampled, SentAudio, AllRequestsAligned;
    var st := v.resampler(t);
    FreshServes(env, v, s, t, c, k);
    ServesAligned(env, s, st, t, Sends(c, STARTED, k));
    ServedIsAnswers(env, s, st, t, c, STARTED, k);
    SentIsFileAudio(s, c, k);
    y := AnswersAreStream(s, st, Sends(c, STARTED, k));
  }

  /** The whole loop. A client starts a session with a supported mono configuration and sends modest exact
      requests; the session receives them in any clean run, cut into reads that its buffer holds. Then every
      reply fits, and however the submitted replies are cut on the way back, the client records the encoding
      of its files' audio under that configuration: decoded and mixed as whole streams and resampled uncut. */
  lemma RecordedIsStream<T(!new)>(env: Env<T>, v: View<T>, build: Build, fd: nat, trans: T, config: seq<byte>,
                                  c: ClientConfig, k: nat, es: seq<Event>, down: seq<seq<byte>>)
    returns (s: Settings, y: seq<int16>)
    requires START_SIZE <= |config| < TWO32 && Transcode.Supported(Transcode.DecodeStart(config))
    requires Starts(env, v, build) && Implements(env, v) && Generous(env)
    requires Sending(StartedSettings(build, config), c, k)
    requires ValidRun(env, Accepted(fd, trans), es) && Clean(es) &&
             Concat(ChunksOf(es)) == StreamOf(Conversation(config, c, k))
    requires NeverOverflows(Server, [], ChunksOf(es))
    ensures s == StartedSettings(build, config) && Sending(s, c, k)
    ensures forall r :: r in Submits(Run(env, Accepted(fd, trans), es).log) ==> Fits(r)
    ensures IsResampled(s, y, SentAudio(s, c, k), Mixes(s, Sends(c, STARTED, k)))
    ensures Concat(down) == StreamOf(ReplyMessages(Submits(Run(env, Accepted(fd, trans), es).log))) ==>
              && AllWellFormed(FeedMessages(Client, [], down))
              && Audio(FeedMessages(Client, [], down)) == EncodeOutput(s, y)
  {
    hide Sends, SentMessages, FeedMessages, RepliesTo, ReplyMessages, ServedAudio, Serves, EncodeOutput, Mixes, Audio,
         AllWellFormed, Concat, Implements, Modest, Fits, Defined, Sendable, ExactStream, ChunkSize, WholeChunks,
         IsResampled, SentAudio, ValidRun, Clean, ChunksOf, StreamOf, Conversation, Run, Submits, NeverOverflows,
         Transcode.Supported, StartedSettings;
    var t, ms := env.start(trans, config), SentMessages(c, STARTED, k);
    s := StartedSettings(build, config);
    assert StartedBy(env, v, build, trans, config);
    FreshServes(env, v, s, t, c, k);
    ServerSeesRequests(env, fd, trans, config, c, k, es);
    y := ServedIsStream(env, v, s, t, c, k);
    if Concat(down) == StreamOf(ReplyMessages(RepliesTo(env, t, ms))) {
      ClientRecordsServed(env, t, ms, down);
    }
  }

  // ---------------------------------------------------------------- what the client counts

  /** The duration the server measured is the one the client's statistics get. */
  lemma DurationArrives(id: uint32, ns: uint64, vadBits: uint32, data: seq<byte>)
    requires Fits(Response(CMD_OUTPUT, id, OutputPayload(ns, vadBits, data)))
    ensures var m := ReplyMessage(Response(CMD_OUTPUT, id, OutputPayload(ns, vadBits, data)));
            && m.header.command == CMD_OUTPUT && Timed(m) && Duration(m) == ns && WellFormed(m) && Audio([m]) == data
  {
    OutputParts(ns, vadBits, data);
    hide OutputPayload, NetU64;
    var m := ReplyMessage(Response(CMD_OUTPUT, id, OutputPayload(ns, vadBits, data)));
    assert [m][1..] == [];
  }
}
