/** A message that the reassembly buffer cannot hold, wherever it comes in a stream: it overflows the buffer
    under every cut, and neither it nor anything after it is ever answered. */
module Oversize {
  import opened Bytes
  import opened Protocol
  import opened Framing
  import opened Session
  import opened SessionSafety
  import opened Replies
  import opened ClientChunks
  import opened Conversations
  import opened SentFiles

  /** A stream with some message after others. */
  function Around(before: seq<Message>, m: Message, after: seq<byte>): seq<byte> {
    StreamOf(before) + (MessageBytes(m) + after)
  }

  predicate TooLong(before: seq<Message>, m: Message) {
    (forall b :: b in before ==> Printed(Server, b)) && Printed(Server, m) && |MessageBytes(m)| > ASSEMBLE_SIZE
  }

  /** Where that message ends. */
  function End(before: seq<Message>, m: Message): nat { |StreamOf(before)| + |MessageBytes(m)| }

  /** Inside a printed message nothing is ready and nothing rejected. */
  lemma Inside(m: Message, after: seq<byte>, n: nat)
    requires Printed(Server, m) && n < |MessageBytes(m)|
    ensures var s := (MessageBytes(m) + after)[..n];
            Messages(Server, s) == [] && Rest(Server, s) == s && !Rejected(Server, s)
  {
    hide EncodeHeader, DecodeHeader;
    PrintedFront(Server, m, after);
    var s := MessageBytes(m) + after;
    if n >= HEADER_SIZE {
      assert s[..n][..HEADER_SIZE] == s[0..HEADER_SIZE];
    }
  }

  /** Before the message is complete, what was framed is a part of the messages before it. */
  lemma {:induction false} BeforeEnd(before: seq<Message>, m: Message, after: seq<byte>, n: nat)
    requires (forall b :: b in before ==> Printed(Server, b)) && Printed(Server, m) && n < End(before, m)
    ensures var s := Around(before, m, after)[..n];
            && Messages(Server, s) <= before && !Rejected(Server, Rest(Server, s))
            && |Rest(Server, s)| <= n <= |StreamOf(before)| + |Rest(Server, s)|
    decreases |before|
  {
    hide Messages, Rest, Rejected, MessageBytes, Printed;
    var s := Around(before, m, after);
    if before == [] {
      Inside(m, after, n);
      assert s == MessageBytes(m) + after;
    } else {
      var b, rest := before[0], Around(before[1..], m, after);
      assert b in before && forall x :: x in before[1..] ==> x in before;
      assert s == MessageBytes(b) + rest;
      if n < |MessageBytes(b)| {
        Inside(b, rest, n);
      } else {
        var k := n - |MessageBytes(b)|;
        assert s[..n] == MessageBytes(b) + rest[..k];
        OneFramed(b, rest[..k]);
        BeforeEnd(before[1..], m, after, k);
        assert [b] + before[1..] == before;
      }
    }
  }

  lemma OneFramed(b: Message, t: seq<byte>)
    requires Printed(Server, b)
    ensures Messages(Server, MessageBytes(b) + t) == [b] + Messages(Server, t)
    ensures Rest(Server, MessageBytes(b) + t) == Rest(Server, t)
  {
    hide EncodeHeader, DecodeHeader, Messages, Rest;
    var s := MessageBytes(b) + t;
    PrintedFront(Server, b, t);
    FrameAt(Server, s, 0);
    assert s[0..] == s;
  }

  /** It overflows the buffer under every cut: some read finds no room, and until then only messages before
      the oversize one were framed. */
  lemma OversizeOverflows(before: seq<Message>, m: Message, after: seq<byte>, chunks: seq<seq<byte>>) returns (n: nat)
    requires TooLong(before, m) && Concat(chunks) == Around(before, m, after)
    ensures n < |chunks| && NeverOverflows(Server, [], chunks[..n]) && !NeverOverflows(Server, [], chunks)
    ensures |FeedRest(Server, [], chunks[..n])| + |chunks[n]| > ASSEMBLE_SIZE
    ensures FeedMessages(Server, [], chunks[..n]) <= before
  {
    hide Concat, NeverOverflows, Messages, Rest, Rejected, FeedMessages, FeedRest, MessageBytes, Ready;
    assert [] + Concat(chunks) == Concat(chunks);
    Empty();
    n := OverflowFrom(before, m, after, [], chunks);
    var first := chunks[..n];
    assert [] + Concat(first) == Concat(first);
    FeedIsFrames(Server, [], first);
    BeforeEnd(before, m, after, |Concat(first)|);
    assert chunks == first + chunks[n..] && chunks[n..][0] == chunks[n];
    NeverOverflowsAppend(Server, [], first, chunks[n..]);
    NoRoom(FeedRest(Server, [], first), chunks[n..]);
  }

  lemma Empty()
    ensures Rest(Server, []) == [] && !Ready(Server, [])
  {
  }

  lemma NoRoom(buffered: seq<byte>, chunks: seq<seq<byte>>)
    requires chunks != [] && |buffered| + |chunks[0]| > ASSEMBLE_SIZE
    ensures !NeverOverflows(Server, buffered, chunks)
  {
  }

  lemma {:induction false} OverflowFrom(before: seq<Message>, m: Message, after: seq<byte>, seen: seq<byte>,
      chunks: seq<seq<byte>>) returns (n: nat)
    requires TooLong(before, m) && seen + Concat(chunks) == Around(before, m, after) && |seen| < End(before, m)
    ensures n < |chunks| && NeverOverflows(Server, Rest(Server, seen), chunks[..n])
    ensures |Rest(Server, seen + Concat(chunks[..n]))| + |chunks[n]| > ASSEMBLE_SIZE
    ensures |seen + Concat(chunks[..n])| < End(before, m)
    ensures seen + Concat(chunks[..n]) == Around(before, m, after)[..|seen + Concat(chunks[..n])|]
    decreases |chunks|
  {
    hide Messages, Rest, Rejected, MessageBytes, Printed;
    var s := Around(before, m, after);
    assert seen == s[..|seen|];
    BeforeEnd(before, m, after, |seen|);
    assert chunks != [];
    var c := chunks[0];
    if |Rest(Server, seen)| + |c| > ASSEMBLE_SIZE {
      n := 0;
      assert chunks[..0] == [] && seen + [] == seen;
    } else {
      assert seen + Concat(chunks) == (seen + c) + Concat(chunks[1..]);
      FramesAppend(Server, seen, c);
      n := OverflowFrom(before, m, after, seen + c, chunks[1..]);
      n := n + 1;
      var first := chunks[..n];
      assert first[0] == c && first[1..] == chunks[1..][..n - 1];
      assert seen + Concat(first) == (seen + c) + Concat(first[1..]);
    }
  }

  // ---------------------------------------------------------------- in a session

  /** An event that brings no data, or finds the session closing, or the buffer too full, submits nothing. */
  lemma QuietStep<T>(env: Env<T>, st: State<T>, e: Event)
    requires Inv(st) && Deliverable(st, e)
    requires ChunksOf([e]) == [] || st.closing || |st.assembled| + |Concat(ChunksOf([e]))| > ASSEMBLE_SIZE
    ensures Submits(Step(env, st, e).log) == Submits(st.log)
    ensures ChunksOf([e]) != [] && |st.assembled| + |Concat(ChunksOf([e]))| > ASSEMBLE_SIZE ==> Step(env, st, e).closing
  {
    hide Submits, Rest, Messages, Rejected, DispatchAll, Ordered, Closed, Arm, Cleanup, Release;
    assert [e][1..] == [];
    match e
    case Read(res, more, data) =>
      var st1 := if more then st else st.(recvActive := false);
      QuietEffects(env, st1);
      QuietEffects(env, st1.(closing := true));
      if res > 0 && data.Some? {
        assert Concat([data.value]) == data.value by { assert [data.value][1..] == []; }
        ProcessReadLive(env, st1, data.value);
        QuietEffects(env, ProcessRead(env, st1, data.value));
      }
    case WriteDone(buf, res) =>
      var st1 := Release(st.(pending := st.pending - 1), buf);
      ReleaseTracks(st.(pending := st.pending - 1), buf);
      QuietEffects(env, if res < 0 then st1.(closing := true) else st1);
  }

  /** What has been answered so far. */
  ghost predicate OnlyBefore<T(!new)>(env: Env<T>, trans: T, before: seq<Message>, m: Message, st: State<T>,
      seen: seq<byte>) {
    && Inv(st) && Tracks(env, trans, st, seen, false)
    && (!st.closing ==> |seen| < End(before, m))
    && Subsequence(Submits(st.log), RepliesTo(env, trans, before))
  }

  lemma PrefixReplies<T>(env: Env<T>, trans: T, ms: seq<Message>, before: seq<Message>, sent: seq<Response>)
    requires ms <= before && Subsequence(sent, RepliesTo(env, trans, ms))
    ensures Subsequence(sent, RepliesTo(env, trans, before))
  {
    hide Reply, Subsequence;
    assert before == ms + before[|ms|..];
    RepliesAppend(env, trans, ms, before[|ms|..]);
    SubsequencePrefix(sent, RepliesTo(env, trans, ms),
      RepliesTo(env, TransAfter(env, trans, ms), before[|ms|..]));
  }

  lemma StepOnlyBefore<T(!new)>(env: Env<T>, trans: T, before: seq<Message>, m: Message, after: seq<byte>,
      st: State<T>, seen: seq<byte>, e: Event)
    requires TooLong(before, m) && Deliverable(st, e) && OnlyBefore(env, trans, before, m, st, seen)
    requires seen + Concat(ChunksOf([e])) <= Around(before, m, after)
    ensures OnlyBefore(env, trans, before, m, Step(env, st, e), seen + Concat(ChunksOf([e])))
  {
    hide Inv, Step, Deliverable, Subsequence, Submits, RepliesTo, TransAfter, Messages, Rest, Rejected, MessageBytes,
         StreamOf, Printed, ChunksOf, Concat;
    var now, next := Concat(ChunksOf([e])), Step(env, st, e);
    var s := Around(before, m, after);
    StepInv(env, st, e);
    StepTracks(env, trans, st, seen, e, false);
    if st.closing || ChunksOf([e]) == [] || |st.assembled| + |now| > ASSEMBLE_SIZE {
      QuietStep(env, st, e);
      NoData(e, seen);
    } else {
      assert seen == s[..|seen|];
      BeforeEnd(before, m, after, |seen|);
      assert |seen + now| < End(before, m);
      assert seen + now == s[..|seen + now|];
      BeforeEnd(before, m, after, |seen + now|);
      var ms := Messages(Server, seen + now);
      assert StreamReplies(env, trans, seen + now) == RepliesTo(env, trans, ms);
      PrefixReplies(env, trans, ms, before, Submits(next.log));
    }
  }

  lemma NoData(e: Event, seen: seq<byte>)
    ensures ChunksOf([e]) == [] ==> seen + Concat(ChunksOf([e])) == seen
  {
  }

  lemma {:induction false} RunOnlyBefore<T(!new)>(env: Env<T>, trans: T, before: seq<Message>, m: Message,
      after: seq<byte>, st: State<T>, seen: seq<byte>, es: seq<Event>)
    requires TooLong(before, m) && ValidRun(env, st, es) && OnlyBefore(env, trans, before, m, st, seen)
    requires seen + Concat(ChunksOf(es)) <= Around(before, m, after)
    ensures OnlyBefore(env, trans, before, m, Run(env, st, es), seen + Concat(ChunksOf(es)))
    decreases |es|
  {
    hide Step, Deliverable, OnlyBefore, ChunksOf, Concat, Around, TooLong;
    if es == [] {
      EmptyRun(es);
      assert seen + [] == seen;
    } else {
      var now, later := Concat(ChunksOf([es[0]])), Concat(ChunksOf(es[1..]));
      ChunksStep(es);
      assert seen + Concat(ChunksOf(es)) == seen + now + later;
      PrefixOf(seen + now, later, Around(before, m, after));
      StepOnlyBefore(env, trans, before, m, after, st, seen, es[0]);
      RunOnlyBefore(env, trans, before, m, after, Step(env, st, es[0]), seen + now, es[1..]);
    }
  }

  lemma StartOnlyBefore<T(!new)>(env: Env<T>, fd: nat, trans: T, before: seq<Message>, m: Message)
    requires TooLong(before, m)
    ensures OnlyBefore(env, trans, before, m, Accepted(fd, trans), [])
  {
    hide Inv, Messages, Rest, Rejected, StreamReplies;
    AcceptedInv(fd, trans);
    AcceptedTracks(env, fd, trans);
    assert [ArmRecv(fd)][1..] == [];
    assert Submits(Accepted(fd, trans).log) == [];
    assert Tracks(env, trans, Accepted(fd, trans), [], false);
    assert 0 < End(before, m);
  }

  lemma PrefixOf(a: seq<byte>, b: seq<byte>, s: seq<byte>)
    requires a + b <= s
    ensures a <= s
  {
    assert a == (a + b)[..|a|] == s[..|a|];
  }

  /** Over every run that receives such a stream, whatever else happens in it, the session closes and answers
      at most the messages before the oversize one. */
  lemma OversizeUnanswered<T(!new)>(env: Env<T>, fd: nat, trans: T, before: seq<Message>, m: Message,
      after: seq<byte>, es: seq<Event>)
    requires TooLong(before, m) && ValidRun(env, Accepted(fd, trans), es)
    requires Concat(ChunksOf(es)) == Around(before, m, after)
    ensures var end := Run(env, Accepted(fd, trans), es);
            end.closing && Subsequence(Submits(end.log), RepliesTo(env, trans, before))
  {
    hide RepliesTo, Run, ValidRun, ChunksOf, Concat, Tracks, Inv, Printed, MessageBytes, StreamOf;
    StartOnlyBefore(env, fd, trans, before, m);
    assert [] + Concat(ChunksOf(es)) == Concat(ChunksOf(es));
    RunOnlyBefore(env, trans, before, m, after, Accepted(fd, trans), [], es);
  }
  /** A client whose requests are longer than the buffer, such as 400 ms of L16 at 48 kHz, gets no answer at
      all: its start message is taken, and its first request closes the session. */
  lemma LongRequestsUnanswered<T(!new)>(env: Env<T>, fd: nat, trans: T, config: seq<byte>, c: ClientConfig, k: nat,
      es: seq<Event>)
    requires Sendable(c) && START_SIZE <= |config| < TWO32 && HEADER_SIZE + PayloadLen(c) > ASSEMBLE_SIZE
    requires SentMessages(c, STARTED, k) != [] && ValidRun(env, Accepted(fd, trans), es)
    requires Concat(ChunksOf(es)) == StreamOf(Conversation(config, c, k))
    ensures var end := Run(env, Accepted(fd, trans), es);
            end.closing && Submits(end.log) == []
  {
    hide Run, ValidRun, ChunksOf, Concat, Printed, MessageBytes, SentMessages, Sendable, PayloadLen, Submits;
    var sent, start := SentMessages(c, STARTED, k), StartMessage(config);
    SentArePrinted(c, STARTED, k);
    assert sent[0] in sent;
    Split(start, sent);
    RequestLength(sent[0]);
    OversizeUnanswered(env, fd, trans, [start], sent[0], StreamOf(sent[1..]), es);
    assert RepliesTo(env, trans, [start]) == [] by {
      assert [start] + [] == [start];
      StartReplies(env, trans, config, []);
    }
  }

  lemma RequestLength(m: Message)
    requires Printed(Server, m)
    ensures |MessageBytes(m)| == MessageSize(m.header)
  {
    hide EncodeHeader, DecodeHeader;
    PrintedFront(Server, m, []);
  }

  lemma Split(start: Message, sent: seq<Message>)
    requires sent != []
    ensures StreamOf([start] + sent) == Around([start], sent[0], StreamOf(sent[1..]))
  {
    hide MessageBytes;
    assert ([start] + sent)[1..] == sent && [start][1..] == [];
    assert StreamOf([start]) == MessageBytes(start) + StreamOf([]);
  }
}
