/** Which responses a session submits: at most one per message, in request order, with the
    request's sequence id; and over a clean run a function of the received bytes alone. */
module Replies {
  import opened Bytes
  import opened Protocol
  import opened Framing
  import opened Session
  import opened SessionSafety

  /** The responses in a log, in submission order. */
  function Submits(log: seq<Effect>): seq<Response> {
    if log == [] then []
    else (if log[0].Submit? then [log[0].response] else []) + Submits(log[1..])
  }

  lemma {:induction false} SubmitsAppend(a: seq<Effect>, b: seq<Effect>)
    ensures Submits(a + b) == Submits(a) + Submits(b)
    decreases |a|
  {
    if a == [] {
      assert a + b == b;
    } else {
      assert (a + b)[0] == a[0] && (a + b)[1..] == a[1..] + b;
      SubmitsAppend(a[1..], b);
      var first := if a[0].Submit? then [a[0].response] else [];
      assert first + Submits(a[1..]) + Submits(b) == first + (Submits(a[1..]) + Submits(b));
    }
  }

  lemma SubmitsOne(log: seq<Effect>, e: Effect)
    ensures Submits(log + [e]) == Submits(log) + (if e.Submit? then [e.response] else [])
  {
    SubmitsAppend(log, [e]);
    assert [e][1..] == [];
  }

  // ---------------------------------------------------------------- replies called for

  function RepliesTo<T>(env: Env<T>, trans: T, ms: seq<Message>): seq<Response>
    decreases |ms|
  {
    if ms == [] then []
    else
      var (next, r) := Reply(env, trans, ms[0]);
      (if r.Some? then [r.value] else []) + RepliesTo(env, next, ms[1..])
  }

  function TransAfter<T>(env: Env<T>, trans: T, ms: seq<Message>): T
    decreases |ms|
  {
    if ms == [] then trans else TransAfter(env, Reply(env, trans, ms[0]).0, ms[1..])
  }

  lemma {:induction false} RepliesAppend<T>(env: Env<T>, trans: T, a: seq<Message>, b: seq<Message>)
    ensures RepliesTo(env, trans, a + b) == RepliesTo(env, trans, a) + RepliesTo(env, TransAfter(env, trans, a), b)
    ensures TransAfter(env, trans, a + b) == TransAfter(env, TransAfter(env, trans, a), b)
    decreases |a|
  {
    hide Reply;
    if a == [] {
      assert a + b == b;
    } else {
      assert (a + b)[1..] == a[1..] + b;
      RepliesAppend(env, Reply(env, trans, a[0]).0, a[1..], b);
    }
  }

  /** The replies a byte stream calls for: one per answerable message, and one for the first
      rejected header. */
  function StreamReplies<T>(env: Env<T>, trans: T, bytes: seq<byte>): seq<Response> {
    RepliesTo(env, trans, Messages(Server, bytes)) + RejectionReply(Rest(Server, bytes))
  }

  function RejectionReply(rest: seq<byte>): seq<Response> {
    if Rejected(Server, rest) then [ErrorReply(Front(rest).sequenceId, ERR_INVALID_MAGIC)] else []
  }

  /** A message needs an answer unless it is CMD_STOP or a CMD_START with a complete payload. */
  predicate NeedsReply(m: Message) {
    && m.header.command != CMD_STOP
    && !(m.header.command == CMD_START && |m.payload| >= START_SIZE)
  }

  /** A buffer of that size can be had: it fits, and a slot is free or the heap gives one. */
  predicate CanSend<T>(env: Env<T>, st: State<T>, r: Response) {
    && !st.closing
    && Fits(r)
    && ((exists i :: 0 <= i < |st.pool| && !st.pool[i]) || env.malloc(st.mallocs))
  }

  /** One message submits at most one response. It submits exactly one, with the message's sequence
      id, if and only if it needs a reply and the response can be sent. */
  lemma OneReply<T>(env: Env<T>, st: State<T>, m: Message)
    requires Live(st)
    ensures var before, after := Submits(st.log), Submits(Dispatch(env, st, m).log);
            var r := Reply(env, st.trans, m).1;
            && (NeedsReply(m) <==> r.Some?)
            && (r.Some? ==> r.value.sequenceId == m.header.sequenceId)
            && after == (if r.Some? && CanSend(env, st, r.value) then before + [r.value] else before)
  {
    var (trans, r) := Reply(env, st.trans, m);
    if r.Some? && !st.closing {
      SendEffect(env, st.(trans := trans), r.value);
    }
  }

  lemma SendEffect<T>(env: Env<T>, st: State<T>, r: Response)
    requires Live(st) && !st.closing
    ensures Submits(Send(env, st, r).log) ==
            if CanSend(env, st, r) then Submits(st.log) + [r] else Submits(st.log)
    ensures Send(env, st, r).trans == st.trans && Send(env, st, r).closing == st.closing
    ensures Send(env, st, r).assembled == st.assembled
  {
    AcquireFresh(env, st, ResponseSize(r));
    var (next, buf) := Acquire(env, st, ResponseSize(r));
    if buf.Some? {
      SubmitsOne(st.log, Submit(buf.value, st.fd, r));
    }
  }

  // ---------------------------------------------------------------- subsequences

  predicate Subsequence(a: seq<Response>, b: seq<Response>)
    decreases |b|
  {
    a == [] ||
    (b != [] && ((a[0] == b[0] && Subsequence(a[1..], b[1..])) || Subsequence(a, b[1..])))
  }

  lemma {:induction false} SubsequenceAppend(a1: seq<Response>, b1: seq<Response>, a2: seq<Response>, b2: seq<Response>)
    requires Subsequence(a1, b1) && Subsequence(a2, b2)
    ensures Subsequence(a1 + a2, b1 + b2)
    decreases |b1|
  {
    if b1 == [] {
      assert a1 + a2 == a2 && b1 + b2 == b2;
    } else {
      assert (b1 + b2)[1..] == b1[1..] + b2;
      if a1 != [] && a1[0] == b1[0] && Subsequence(a1[1..], b1[1..]) {
        assert (a1 + a2)[1..] == a1[1..] + a2;
        SubsequenceAppend(a1[1..], b1[1..], a2, b2);
      } else {
        SubsequenceAppend(a1, b1[1..], a2, b2);
      }
    }
  }

  lemma SubsequencePrefix(a: seq<Response>, b: seq<Response>, c: seq<Response>)
    requires Subsequence(a, b)
    ensures Subsequence(a, b + c)
  {
    SubsequenceAppend(a, b, [], c);
    assert a + [] == a;
  }

  // ---------------------------------------------------------------- one read

  /** Every allocation succeeds and every reply fits: then nothing is dropped. */
  ghost predicate Generous<T(!new)>(env: Env<T>) {
    forall n: nat :: env.malloc(n)
  }

  /** What is sent is part of what is called for, and all of it when nothing can fail. */
  ghost predicate SentOf<T(!new)>(env: Env<T>, sent: seq<Response>, called: seq<Response>) {
    && Subsequence(sent, called)
    && (Generous(env) && (forall r :: r in called ==> Fits(r)) ==> sent == called)
  }

  lemma SentOfAppend<T(!new)>(env: Env<T>, s1: seq<Response>, c1: seq<Response>, s2: seq<Response>, c2: seq<Response>)
    requires SentOf(env, s1, c1) && SentOf(env, s2, c2)
    ensures SentOf(env, s1 + s2, c1 + c2)
  {
    SubsequenceAppend(s1, c1, s2, c2);
    assert forall r :: r in c1 || r in c2 ==> r in c1 + c2;
  }

  lemma {:induction false} DispatchAllReplies<T(!new)>(env: Env<T>, st: State<T>,
      ms: seq<Message>) returns (sent: seq<Response>)
    requires Live(st) && !st.closing
    ensures DispatchAll(env, st, ms).trans == TransAfter(env, st.trans, ms)
    ensures SentOf(env, sent, RepliesTo(env, st.trans, ms))
    ensures Submits(DispatchAll(env, st, ms).log) == Submits(st.log) + sent
    decreases |ms|
  {
    hide Reply, Live, Dispatch, Submits, SentOf;
    if ms == [] {
      sent := [];
      NothingSent(env);
    } else {
      var s1 := DispatchOne(env, st, ms[0]);
      var s2 := DispatchAllReplies(env, Dispatch(env, st, ms[0]), ms[1..]);
      var r := Reply(env, st.trans, ms[0]).1;
      SentOfAppend(env, s1,
        if r.Some? then [r.value] else [], s2, RepliesTo(env, Reply(env, st.trans, ms[0]).0, ms[1..]));
      sent := s1 + s2;
      assert Submits(st.log) + s1 + s2 == Submits(st.log) + sent;
    }
  }

  lemma SentOne<T(!new)>(env: Env<T>, st: State<T>, r: Response)
    requires !st.closing
    ensures SentOf(env, if CanSend(env, st, r) then [r] else [], [r])
  {
    assert [r][1..] == [];
    assert r in [r];
  }

  lemma NothingSent<T(!new)>(env: Env<T>)
    ensures SentOf(env, [], [])
  {
  }

  /** One dispatch in the terms of the induction above. */
  lemma DispatchOne<T(!new)>(env: Env<T>, st: State<T>, m: Message) returns (sent: seq<Response>)
    requires Live(st) && !st.closing
    ensures var next := Dispatch(env, st, m);
            var r := Reply(env, st.trans, m);
            && Live(next) && !next.closing && next.trans == r.0
            && SentOf(env, sent, if r.1.Some? then [r.1.value] else [])
            && Submits(next.log) == Submits(st.log) + sent
  {
    hide Reply, Acquire, SentOf, CanSend;
    assert Submits(st.log) + [] == Submits(st.log);
    var (trans, r) := Reply(env, st.trans, m);
    sent := [];
    if r.Some? {
      var ready := st.(trans := trans);
      SendLive(env, ready, r.value);
      SendEffect(env, ready, r.value);
      SentOne(env, ready, r.value);
      sent := if CanSend(env, ready, r.value) then [r.value] else [];
    } else {
      NothingSent(env);
    }
  }

  // ---------------------------------------------------------------- whole runs

  /** The data handed to process_client_read over a run. */
  function ChunksOf(es: seq<Event>): seq<seq<byte>> {
    if es == [] then []
    else (if es[0].Read? && es[0].res > 0 && es[0].data.Some? then [es[0].data.value] else []) + ChunksOf(es[1..])
  }

  /** No error, no disconnect, no lost data: only reads with data, exhausted rings and good writes. */
  predicate Clean(es: seq<Event>) {
    forall e :: e in es ==> match e
                            case Read(res, _, data) => res == -ENOBUFS || (res > 0 && data.Some?)
                            case WriteDone(_, res) => res >= 0
  }

  /** How a session relates to the bytes it has seen; exact says that nothing was dropped. */
  ghost predicate Tracks<T(!new)>(env: Env<T>, trans: T, st: State<T>, seen: seq<byte>, exact: bool) {
    var rest := Rest(Server, seen);
    && (!st.closing ==>
          st.assembled == rest && st.trans == TransAfter(env, trans, Messages(Server, seen)) && !Rejected(Server, rest))
    && Subsequence(Submits(st.log), StreamReplies(env, trans, seen))
    && (exact ==> Submits(st.log) == StreamReplies(env, trans, seen))
    && (exact && st.closing ==> st.assembled == rest && Rejected(Server, rest))
  }

  /** More bytes only add replies, and none after a rejected header. */
  lemma StreamRepliesGrow<T>(env: Env<T>, trans: T, s: seq<byte>, t: seq<byte>)
    ensures Rejected(Server, Rest(Server, s)) ==>
              && StreamReplies(env, trans, s + t) == StreamReplies(env, trans, s)
              && Rest(Server, s + t) == Rest(Server, s) + t && Rejected(Server, Rest(Server, s) + t)
    ensures !Rejected(Server, Rest(Server, s)) ==>
              StreamReplies(env, trans, s + t) ==
              StreamReplies(env, trans, s) + StreamReplies(env, TransAfter(env, trans, Messages(Server, s)),
                Rest(Server, s) + t)
  {
    hide RepliesTo, TransAfter, Accepts, Front, Messages, Rest;
    var rest := Rest(Server, s);
    FramesAppend(Server, s, t);
    if Rejected(Server, rest) {
      FrontStable(Server, rest, t);
      NothingReady(rest + t);
      assert Messages(Server, s) + [] == Messages(Server, s);
    } else {
      RepliesAppend(env, trans, Messages(Server, s), Messages(Server, rest + t));
    }
  }

  lemma NothingReady(s: seq<byte>)
    requires Rejected(Server, s)
    ensures Messages(Server, s) == [] && Rest(Server, s) == s
  {
  }

  /** A read on a session that is not closing. */
  lemma ReadTracks<T(!new)>(env: Env<T>, trans: T, st: State<T>, seen: seq<byte>, data: seq<byte>, exact: bool)
    requires Live(st) && Tracks(env, trans, st, seen, exact) && !st.closing
    requires exact ==> Generous(env) && (forall r :: r in StreamReplies(env, trans, seen + data) ==> Fits(r))
    requires exact ==> |st.assembled| + |data| <= ASSEMBLE_SIZE
    ensures Tracks(env, trans, ProcessRead(env, st, data), seen + data, exact)
  {
    hide Live, Reply, Front, Accepts, Messages, Rest, Rejected, DispatchAll, RepliesTo, TransAfter, Subsequence,
         Submits, Send;
    StreamRepliesGrow(env, trans, seen, data);
    var old' := StreamReplies(env, trans, seen);
    if |st.assembled| + |data| > ASSEMBLE_SIZE {
      SubsequencePrefix(Submits(st.log), old', StreamReplies(env, st.trans, st.assembled + data));
    } else {
      var bytes := st.assembled + data;
      var ms, rest := Messages(Server, bytes), Rest(Server, bytes);
      FramesAppend(Server, seen, data);
      RepliesAppend(env, trans, Messages(Server, seen), ms);
      var called := RepliesTo(env, st.trans, ms);
      assert StreamReplies(env, trans, seen + data) == old' + (called + RejectionReply(rest));
      assert forall r :: r in called || r in RejectionReply(rest) ==> r in StreamReplies(env, trans, seen + data);
      DispatchAllLive(env, st, ms);
      var sent := DispatchAllReplies(env, st, ms);
      var done := DispatchAll(env, st, ms);
      var last := RejectionSent(env, done, rest);
      SentOfAppend(env, sent, called, last, RejectionReply(rest));
      SubsequenceAppend(Submits(st.log), old', sent + last, called + RejectionReply(rest));
      assert Submits(ProcessRead(env, st, data).log) == Submits(st.log) + (sent + last);
    }
  }

  /** The reply to a rejected header, if one was sent. */
  lemma RejectionSent<T(!new)>(env: Env<T>, st: State<T>, rest: seq<byte>) returns (last: seq<Response>)
    requires Live(st) && !st.closing
    ensures SentOf(env, last, RejectionReply(rest))
    ensures Rejected(Server, rest) ==>
              Submits(SendUnlessClosing(env, st, ErrorReply(Front(rest).sequenceId, ERR_INVALID_MAGIC)).log) ==
                Submits(st.log) + last
    ensures !Rejected(Server, rest) ==> last == []
  {
    hide Accepts, Front, DecodeHeader, Live, Send, SentOf, CanSend;
    last := [];
    if Rejected(Server, rest) {
      var r := ErrorReply(Front(rest).sequenceId, ERR_INVALID_MAGIC);
      SendEffect(env, st, r);
      SentOne(env, st, r);
      last := if CanSend(env, st, r) then [r] else [];
    } else {
      NothingSent(env);
    }
  }

  /** The events that do not reach process_client_read submit nothing. */
  lemma QuietEffects<T>(env: Env<T>, st: State<T>)
    ensures Submits(Arm(st).log) == Submits(st.log) && Arm(st).assembled == st.assembled
    ensures Arm(st).trans == st.trans && Arm(st).closing == st.closing
    ensures Submits(Cleanup(env, st).log) == Submits(st.log) && Cleanup(env, st).assembled == st.assembled
    ensures Cleanup(env, st).closing == st.closing && (!st.closing ==> Cleanup(env, st) == st)
  {
    SubmitsOne(st.log, ArmRecv(st.fd));
    if st.closing && st.pending == 0 {
      var closed := if st.fd != -1 then st.(fd := -1, log := st.log + [CloseFd(st.fd)]) else st;
      if st.fd != -1 {
        SubmitsOne(st.log, CloseFd(st.fd));
      }
      SubmitsOne(closed.log, FreeSession);
    }
  }

  /** A read while closing. */
  lemma ClosingReadTracks<T(!new)>(env: Env<T>, trans: T, st: State<T>, seen: seq<byte>, data: seq<byte>, exact: bool)
    requires Live(st) && Tracks(env, trans, st, seen, exact) && st.closing
    requires exact ==> |st.assembled| + |data| <= ASSEMBLE_SIZE
    ensures Tracks(env, trans, ProcessRead(env, st, data), seen + data, exact)
  {
    hide Live, Front, Accepts, Messages, Rest, Rejected, RepliesTo, TransAfter, Subsequence, Submits, StreamReplies;
    StreamRepliesGrow(env, trans, seen, data);
    ProcessReadLive(env, st, data);
    var old' := StreamReplies(env, trans, seen);
    if !Rejected(Server, Rest(Server, seen)) {
      SubsequencePrefix(Submits(st.log), old', StreamReplies(env, TransAfter(env, trans, Messages(Server, seen)),
        Rest(Server, seen) + data));
    } else if exact {
      NothingReady(st.assembled + data);
    }
  }

  /** What must hold of the next event for nothing to be dropped. */
  ghost predicate KeepsAll<T(!new)>(env: Env<T>, trans: T, st: State<T>, seen: seq<byte>, e: Event) {
    && Clean([e])
    && Generous(env)
    && (forall r :: r in StreamReplies(env, trans, seen + Concat(ChunksOf([e]))) ==> Fits(r))
    && (ChunksOf([e]) != [] ==> |st.assembled| + |Concat(ChunksOf([e]))| <= ASSEMBLE_SIZE)
  }

  lemma StepTracks<T(!new)>(env: Env<T>, trans: T, st: State<T>, seen: seq<byte>, e: Event, exact: bool)
    requires Inv(st) && Deliverable(st, e) && Tracks(env, trans, st, seen, exact)
    requires exact ==> KeepsAll(env, trans, st, seen, e)
    ensures Tracks(env, trans, Step(env, st, e), seen + Concat(ChunksOf([e])), exact)
  {
    hide StreamReplies, Messages, Rest, Rejected, TransAfter, Subsequence, Submits, ProcessRead, Arm, Cleanup,
         Release, Ordered, Closed;
    StepInv(env, st, e);
    assert [e][1..] == [];
    match e
    case Read(res, more, data) =>
      var st1 := if more then st else st.(recvActive := false);
      QuietEffects(env, st1);
      QuietEffects(env, st1.(closing := true));
      if res > 0 && data.Some? {
        assert ChunksOf([e]) == [data.value];
        assert Concat([data.value]) == data.value by { assert [data.value][1..] == []; }
        if st.closing {
          ClosingReadTracks(env, trans, st1, seen, data.value, exact);
        } else {
          ReadTracks(env, trans, st1, seen, data.value, exact);
        }
        QuietEffects(env, ProcessRead(env, st1, data.value));
      } else {
        assert seen + Concat(ChunksOf([e])) == seen;
        assert exact ==> e in [e];
      }
    case WriteDone(buf, res) =>
      assert seen + Concat(ChunksOf([e])) == seen;
      assert exact ==> e in [e];
      var st1 := Release(st.(pending := st.pending - 1), buf);
      ReleaseTracks(st.(pending := st.pending - 1), buf);
      QuietEffects(env, if res < 0 then st1.(closing := true) else st1);
  }

  lemma ReleaseTracks<T>(st: State<T>, buf: BufRef)
    requires InUse(st, buf)
    ensures var next := Release(st, buf);
            next.log == st.log && next.assembled == st.assembled && next.trans == st.trans && next.closing == st.closing
  {
  }

  lemma ChunksStep(es: seq<Event>)
    requires es != []
    ensures ChunksOf(es) == ChunksOf([es[0]]) + ChunksOf(es[1..])
    ensures Concat(ChunksOf(es)) == Concat(ChunksOf([es[0]])) + Concat(ChunksOf(es[1..]))
  {
    hide Concat;
    var one := [es[0]];
    assert one[0] == es[0] && one[1..] == [];
    assert ChunksOf(one) == (if es[0].Read? && es[0].res > 0 && es[0].data.Some? then [es[0].data.value] else []);
    ConcatAppend(ChunksOf([es[0]]), ChunksOf(es[1..]));
  }

  lemma {:induction false} RunTracks<T(!new)>(env: Env<T>, trans: T, st: State<T>, seen: seq<byte>, es: seq<Event>)
    requires Inv(st) && ValidRun(env, st, es) && Tracks(env, trans, st, seen, false)
    ensures Tracks(env, trans, Run(env, st, es), seen + Concat(ChunksOf(es)), false)
    decreases |es|
  {
    hide Inv, Step, Deliverable, Tracks, ChunksOf, Concat;
    if es == [] {
      EmptyRun(es);
      assert seen + [] == seen;
    } else {
      var now := Concat(ChunksOf([es[0]]));
      StepInv(env, st, es[0]);
      StepTracks(env, trans, st, seen, es[0], false);
      RunTracks(env, trans, Step(env, st, es[0]), seen + now, es[1..]);
      ChunksStep(es);
      assert seen + Concat(ChunksOf(es)) == seen + now + Concat(ChunksOf(es[1..]));
    }
  }

  lemma EmptyRun(es: seq<Event>)
    requires es == []
    ensures Concat(ChunksOf(es)) == []
  {
  }

  lemma AcceptedTracks<T(!new)>(env: Env<T>, fd: nat, trans: T)
    ensures Tracks(env, trans, Accepted(fd, trans), [], true)
  {
    assert [ArmRecv(fd)][1..] == [];
  }

  /** Reply order, over every run whatever fails in it: the submitted responses are a subsequence of
      the replies that the received bytes call for, so they keep the request order and ids and no
      request is answered twice. */
  lemma ReplyOrder<T(!new)>(env: Env<T>, fd: nat, trans: T, es: seq<Event>)
    requires ValidRun(env, Accepted(fd, trans), es)
    ensures Subsequence(Submits(Run(env, Accepted(fd, trans), es).log), StreamReplies(env, trans, Concat(ChunksOf(es))))
  {
    AcceptedInv(fd, trans);
    AcceptedTracks(env, fd, trans);
    RunTracks(env, trans, Accepted(fd, trans), [], es);
    assert [] + Concat(ChunksOf(es)) == Concat(ChunksOf(es));
  }

  /** Everything received is kept and answered: a clean run in a world where allocations succeed and
      replies fit, read by read within the reassembly buffer. */
  lemma {:induction false} CleanRunTracks<T(!new)>(env: Env<T>, trans: T, st: State<T>, seen: seq<byte>, es: seq<Event>)
    requires Inv(st) && ValidRun(env, st, es) && Tracks(env, trans, st, seen, true)
    requires Clean(es) && Generous(env) && NeverOverflows(Server, Rest(Server, seen), ChunksOf(es))
    requires forall r :: r in StreamReplies(env, trans, seen + Concat(ChunksOf(es))) ==> Fits(r)
    ensures Tracks(env, trans, Run(env, st, es), seen + Concat(ChunksOf(es)), true)
    decreases |es|
  {
    hide Inv, Step, Deliverable, StreamReplies, Messages, Rest, TransAfter, Rejected, Subsequence, Submits;
    if es == [] {
      EmptyRun(es);
      assert seen + [] == seen;
    } else {
      var e, now := es[0], Concat(ChunksOf([es[0]]));
      ChunksStep(es);
      assert [e][1..] == [];
      assert seen + Concat(ChunksOf(es)) == seen + now + Concat(ChunksOf(es[1..]));
      FitsSoFar(env, trans, seen + now, Concat(ChunksOf(es[1..])));
      NextFits(seen, es);
      assert e in es && forall x :: x in es[1..] ==> x in es;
      assert st.assembled == Rest(Server, seen);
      StepInv(env, st, e);
      StepTracks(env, trans, st, seen, e, true);
      CleanRunTracks(env, trans, Step(env, st, e), seen + now, es[1..]);
    }
  }

  /** Replies that fit for a longer stream fit for a shorter one. */
  lemma FitsSoFar<T(!new)>(env: Env<T>, trans: T, s: seq<byte>, t: seq<byte>)
    requires forall r :: r in StreamReplies(env, trans, s + t) ==> Fits(r)
    ensures forall r :: r in StreamReplies(env, trans, s) ==> Fits(r)
  {
    hide StreamReplies, Rejected;
    StreamRepliesGrow(env, trans, s, t);
  }

  /** The next event's data fits, and so does the rest of the run after it. */
  lemma NextFits(seen: seq<byte>, es: seq<Event>)
    requires es != [] && NeverOverflows(Server, Rest(Server, seen), ChunksOf(es))
    ensures var now := Concat(ChunksOf([es[0]]));
            && (ChunksOf([es[0]]) != [] ==> |Rest(Server, seen)| + |now| <= ASSEMBLE_SIZE)
            && NeverOverflows(Server, Rest(Server, seen + now), ChunksOf(es[1..]))
  {
    hide Rest;
    assert [es[0]][1..] == [];
    var now := Concat(ChunksOf([es[0]]));
    ChunksStep(es);
    if ChunksOf([es[0]]) == [] {
      assert seen + now == seen;
      assert ChunksOf(es) == ChunksOf(es[1..]);
    } else {
      assert ChunksOf(es)[0] == now && ChunksOf(es)[1..] == ChunksOf(es[1..]);
      FramesAppend(Server, seen, now);
    }
  }

  /** The reply stream is a function of the byte stream: however the bytes were cut into reads and
      interleaved with write completions and ring exhaustion, a clean run submits exactly the
      replies of its bytes, in order. */
  lemma ReplyStream<T(!new)>(env: Env<T>, fd: nat, trans: T, es: seq<Event>)
    requires ValidRun(env, Accepted(fd, trans), es)
    requires Clean(es) && Generous(env) && NeverOverflows(Server, [], ChunksOf(es))
    requires forall r :: r in StreamReplies(env, trans, Concat(ChunksOf(es))) ==> Fits(r)
    ensures Submits(Run(env, Accepted(fd, trans), es).log) == StreamReplies(env, trans, Concat(ChunksOf(es)))
  {
    AcceptedInv(fd, trans);
    AcceptedTracks(env, fd, trans);
    assert [] + Concat(ChunksOf(es)) == Concat(ChunksOf(es));
    CleanRunTracks(env, trans, Accepted(fd, trans), [], es);
  }
}
