/** When a session closes, and what is left to do then (src/core/server.c:84-96, 699-789). */
module SessionClosing {
  import opened Bytes
  import opened Protocol
  import opened Framing
  import opened Session
  import opened SessionSafety
  import opened SessionEffects

  /** The completion ends the session: the peer is gone, a send failed, the reassembly buffer overflows, or a
      header is rejected. */
  predicate Ends<T>(st: State<T>, e: Event) {
    match e
    case Read(res, _, data) =>
      if res <= 0 then res != -105
      else
        data.Some? &&
        (|st.assembled| + |data.value| > 32768 || Rejected(Server, Rest(Server, st.assembled + data.value)))
    case WriteDone(_, res) => res < 0
  }

  lemma DispatchKeepsClosing<T>(env: Env<T>, st: State<T>, data: seq<byte>)
    requires Live(st)
    ensures ProcessRead(env, st, data).closing <==>
            st.closing || |st.assembled| + |data| > 32768 || Rejected(Server, Rest(Server, st.assembled + data))
  {
    hide DispatchAll, Messages, Rest, Rejected, Front;
    DispatchAllLive(env, st, Messages(Server, st.assembled + data));
  }

  /** One completion leaves a session closing exactly if it was, or the completion ends it. */
  lemma ClosesExactly<T>(env: Env<T>, st: State<T>, e: Event)
    requires Inv(st) && Deliverable(st, e)
    ensures Step(env, st, e).closing <==> st.closing || Ends(st, e)
  {
    hide ProcessRead, Release, Ordered, Closed, Rejected, Rest;
    IdleWhenNonePending(st);
    match e
    case Read(res, more, data) =>
      var st1 := if more then st else st.(recvActive := false);
      if res > 0 && data.Some? {
        ProcessReadLive(env, st1, data.value);
        DispatchKeepsClosing(env, st1, data.value);
      }
    case WriteDone(buf, res) =>
      ReleaseEffect(st.(pending := st.pending - 1), buf);
  }

  /** A receive is armed by a completion exactly when the ring had run dry, or the last one brought data to a
      session that stays open. */
  lemma ArmsExactly<T>(env: Env<T>, st: State<T>, e: Event)
    requires Inv(st) && Deliverable(st, e)
    ensures ArmedSince(Step(env, st, e).log, |st.log|) <==>
            e.Read? && (e.res == -105 || (e.res > 0 && !e.more && !Step(env, st, e).closing))
  {
    hide ProcessRead, Ordered, Closed, Inv, Deliverable, Grew, OneArm;
    StepEffects(env, st, e);
    if e.Read? {
      ReadArmsExactly(env, st, e);
    }
  }

  lemma ReadArmsExactly<T>(env: Env<T>, st: State<T>, e: Event)
    requires Inv(st) && Deliverable(st, e) && e.Read?
    ensures ArmedSince(Step(env, st, e).log, |st.log|) <==>
            e.res == -105 || (e.res > 0 && !e.more && !Step(env, st, e).closing)
  {
    hide ProcessRead, Ordered, Closed, Cleanup, Arm, Live, Owned, Grew;
    StepInv(env, st, e);
    var st1 := if e.more then st else st.(recvActive := false);
    ReadyQuiet(st, st1);
    ReadyQuiet(st, st1.(closing := true));
    if e.res > 0 && e.data.Some? {
      assert Live(st1) by { LiveFrame(st, st1); }
      ProcessReadGrew(env, st1, e.data.value);
      ProcessReadLive(env, st1, e.data.value);
      ArmOrCleanup(env, st, ProcessRead(env, st1, e.data.value));
    }
    ArmOrCleanup(env, st, st1);
    ArmOrCleanup(env, st, st1.(closing := true));
  }

  /** What follows a quiet step. */
  lemma ArmOrCleanup<T>(env: Env<T>, a: State<T>, b: State<T>)
    requires ArmsNothing(a, b)
    ensures ArmedSince(Arm(b).log, |a.log|) && !ArmedSince(b.log, |a.log|) && !ArmedSince(Cleanup(env, b).log, |a.log|)
    ensures Arm(b).closing == b.closing && Cleanup(env, b).closing == b.closing
  {
    assert Arm(b).log[|b.log|].ArmRecv?;
    CleanupGrew(env, b);
    ArmsNothingTrans(a, b, Cleanup(env, b));
  }

  // ---------------------------------------------------------------- runs

  predicate NoBufferLeft(e: Event) { e.Read? && e.res == -105 }

  /** A closing session arms no receive, over every run in which the ring does not run dry. */
  lemma {:induction false} ClosingArmsNothing<T>(env: Env<T>, st: State<T>, es: seq<Event>)
    requires Inv(st) && st.closing && ValidRun(env, st, es) && forall e :: e in es ==> !NoBufferLeft(e)
    ensures Run(env, st, es).closing && ArmsNothing(st, Run(env, st, es))
    decreases |es|
  {
    hide Inv, Step, Deliverable;
    if es == [] {
      QuietStart(st);
    } else {
      var e, next := es[0], Step(env, st, es[0]);
      assert e in es && forall x :: x in es[1..] ==> x in es;
      StepInv(env, st, e);
      ArmsExactly(env, st, e);
      StepGrows(env, st, e);
      ClosingArmsNothing(env, next, es[1..]);
      ArmsNothingTrans(st, next, Run(env, st, es));
    }
  }

  lemma StepGrows<T>(env: Env<T>, st: State<T>, e: Event)
    requires Inv(st) && Deliverable(st, e)
    ensures st.log <= Step(env, st, e).log
  {
    hide Inv, Step, Deliverable, OneArm, InUse;
    StepEffects(env, st, e);
  }

  /** What is left of a session whose receive has ended and that is closing: its writes in flight. */
  predicate Draining<T>(st: State<T>) { st.closing && !st.recvActive }

  lemma DrainStep<T>(env: Env<T>, st: State<T>, e: Event)
    requires Inv(st) && Draining(st) && Deliverable(st, e)
    ensures e.WriteDone? && Draining(Step(env, st, e)) && Step(env, st, e).pending == st.pending - 1
    ensures ArmsNothing(st, Step(env, st, e))
  {
    hide Inv, Release, ArmedSince;
    StepGrows(env, st, e);
    ArmsExactly(env, st, e);
    var st1 := Release(st.(pending := st.pending - 1), e.buf);
    ReleaseEffect(st.(pending := st.pending - 1), e.buf);
  }

  /** Such a session only waits for them: it arms nothing, and it is freed, with its descriptor closed, exactly
      when the last one has completed. */
  lemma {:induction false} DrainRun<T>(env: Env<T>, st: State<T>, es: seq<Event>)
    requires Inv(st) && Draining(st) && (SessionSafety.Freed(st.log) <==> st.pending == 0) && ValidRun(env, st, es)
    ensures var end := Run(env, st, es);
            && (forall e :: e in es ==> e.WriteDone?) && ArmsNothing(st, end) && end.closing && !end.recvActive
            && end.pending == st.pending - |es| && (SessionSafety.Freed(end.log) <==> |es| == st.pending)
    decreases |es|
  {
    hide Step, Deliverable, Ordered, Owned;
    if es == [] {
      QuietStart(st);
    } else {
      var e, next := es[0], Step(env, st, es[0]);
      DrainStep(env, st, e);
      StepInv(env, st, e);
      FreedWhenDrained(env, st, e);
      DrainRun(env, next, es[1..]);
      ArmsNothingTrans(st, next, Run(env, st, es));
      assert forall x :: x in es ==> x == e || x in es[1..];
    }
  }

  /** A disconnect: from then on no receive is armed and nothing but the writes in flight completes; when they
      have, and not before, the descriptor has been closed and the session freed. */
  lemma DisconnectEnds<T>(env: Env<T>, st: State<T>, res: int, data: Option<seq<byte>>, es: seq<Event>)
    requires Inv(st) && st.recvActive && res <= 0 && res != -105
    requires ValidRun(env, st, [Read(res, false, data)] + es)
    ensures var end := Run(env, st, [Read(res, false, data)] + es);
            && (forall e :: e in es ==> e.WriteDone?) && |es| <= st.pending
            && end.closing && end.pending == st.pending - |es| && !ArmedSince(end.log, |st.log|)
            && (SessionSafety.Freed(end.log) <==> |es| == st.pending)
            && (SessionSafety.Freed(end.log) ==> Closed(end.log))
  {
    var e: Event := Read(res, false, data);
    var next := Step(env, st, e);
    assert ([e] + es)[0] == e && ([e] + es)[1..] == es;
    hide ValidRun, Run;
    RunFrom(env, st, e, es);
    StepInv(env, st, e);
    Disconnected(env, st, e);
    FreedWhenDrained(env, st, e);
    hide Inv, Step, Deliverable;
    DrainRun(env, next, es);
    RunInv(env, next, es);
    FreedIsClosed(Run(env, next, es));
    ArmsNothingTrans(st, next, Run(env, next, es));
    ArmsNothingHere(st, Run(env, next, es));
    PendingLeft(Run(env, next, es));
  }

  lemma RunFrom<T>(env: Env<T>, st: State<T>, e: Event, es: seq<Event>)
    requires ValidRun(env, st, [e] + es)
    ensures Deliverable(st, e) && ValidRun(env, Step(env, st, e), es)
    ensures Run(env, st, [e] + es) == Run(env, Step(env, st, e), es)
  {
    assert ([e] + es)[1..] == es;
  }

  lemma Disconnected<T>(env: Env<T>, st: State<T>, e: Event)
    requires Inv(st) && Deliverable(st, e) && e.Read? && e.res <= 0 && e.res != -105 && !e.more
    ensures var next := Step(env, st, e);
            Draining(next) && next.pending == st.pending && ArmsNothing(st, next)
  {
    hide Inv, ArmedSince;
    ArmsExactly(env, st, e);
    StepGrows(env, st, e);
  }

  lemma FreedIsClosed<T>(st: State<T>)
    requires Inv(st)
    ensures SessionSafety.Freed(st.log) ==> Closed(st.log)
  {
  }

  lemma PendingLeft<T>(st: State<T>)
    requires Inv(st)
    ensures st.pending >= 0
  {
  }

  /** The simplest case: a client that connects and goes away again. */
  lemma DisconnectedAtOnce<T>(env: Env<T>, fd: nat, trans: T)
    ensures ValidRun(env, Accepted(fd, trans), [Read(0, false, None)])
    ensures Run(env, Accepted(fd, trans), [Read(0, false, None)]).log == [ArmRecv(fd), CloseFd(fd), FreeSession]
  {
    var e: Event := Read(0, false, None);
    var st := Accepted(fd, trans);
    assert [e][1..] == [];
    assert Step(env, st, e).log == [ArmRecv(fd), CloseFd(fd), FreeSession];
  }

  // ---------------------------------------------------------------- which descriptor

  /** Whatever a session asks of the kernel names the descriptor it was accepted on, but for a receive armed
      after it has closed that. */
  ghost predicate OnDescriptor<T>(st: State<T>, fd: int) {
    && (st.fd == fd || st.fd == -1)
    && forall i :: 0 <= i < |st.log| ==> EffectOn(st.log[i], fd)
  }

  predicate EffectOn(e: Effect, fd: int) {
    match e
    case Submit(_, f, _) => f == fd
    case ArmRecv(f) => f == fd || f == -1
    case CloseFd(f) => f == fd
    case FreeSession => true
  }

  lemma SendOn<T>(env: Env<T>, st: State<T>, r: Response, fd: int)
    requires Live(st) && OnDescriptor(st, fd)
    ensures OnDescriptor(SendUnlessClosing(env, st, r), fd)
  {
    hide Owned, Ordered, Closed;
  }

  lemma {:induction false} DispatchAllOn<T>(env: Env<T>, st: State<T>, ms: seq<Message>, fd: int)
    requires Live(st) && OnDescriptor(st, fd)
    ensures OnDescriptor(DispatchAll(env, st, ms), fd)
    decreases |ms|
  {
    hide Reply, Live, OnDescriptor, SendUnlessClosing;
    if ms != [] {
      DispatchOn(env, st, ms[0], fd);
      DispatchAllOn(env, Dispatch(env, st, ms[0]), ms[1..], fd);
    }
  }

  lemma DispatchOn<T>(env: Env<T>, st: State<T>, m: Message, fd: int)
    requires Live(st) && OnDescriptor(st, fd)
    ensures Live(Dispatch(env, st, m)) && OnDescriptor(Dispatch(env, st, m), fd)
  {
    hide Reply, SendUnlessClosing;
    var (trans, reply) := Reply(env, st.trans, m);
    var ready := st.(trans := trans);
    if reply.Some? {
      SendLive(env, ready, reply.value);
      SendOn(env, ready, reply.value, fd);
    }
  }

  lemma ProcessReadOn<T>(env: Env<T>, st: State<T>, data: seq<byte>, fd: int)
    requires Live(st) && OnDescriptor(st, fd)
    ensures OnDescriptor(ProcessRead(env, st, data), fd)
  {
    hide Live, DispatchAll, Messages, Rest, Front, Rejected, SendUnlessClosing;
    var bytes := st.assembled + data;
    var rest := Rest(Server, bytes);
    DispatchAllLive(env, st, Messages(Server, bytes));
    DispatchAllOn(env, st, Messages(Server, bytes), fd);
    if Rejected(Server, rest) {
      RejectedHasHeader(rest);
      SendOn(env, DispatchAll(env, st, Messages(Server, bytes)), ErrorReply(Front(rest).sequenceId, ERR_INVALID_MAGIC),
        fd);
    }
  }

  lemma ArmOn<T>(env: Env<T>, st: State<T>, fd: int)
    requires OnDescriptor(st, fd)
    ensures OnDescriptor(Arm(st), fd) && OnDescriptor(Cleanup(env, st), fd)
  {
  }

  lemma StepOn<T>(env: Env<T>, st: State<T>, e: Event, fd: int)
    requires Inv(st) && Deliverable(st, e) && OnDescriptor(st, fd)
    ensures OnDescriptor(Step(env, st, e), fd)
  {
    hide ProcessRead, Owned, Ordered, Closed, Arm, Cleanup, Release, SessionSafety.Freed;
    StepInv(env, st, e);
    match e
    case Read(res, more, data) =>
      var st1 := if more then st else st.(recvActive := false);
      ArmOn(env, st1, fd);
      ArmOn(env, st1.(closing := true), fd);
      if res > 0 && data.Some? {
        assert Live(st1) by { LiveFrame(st, st1); }
        ProcessReadOn(env, st1, data.value, fd);
        ArmOn(env, ProcessRead(env, st1, data.value), fd);
      }
    case WriteDone(buf, res) =>
      ReleaseEffect(st.(pending := st.pending - 1), buf);
      var st1 := Release(st.(pending := st.pending - 1), buf);
      ArmOn(env, st1, fd);
      ArmOn(env, st1.(closing := true), fd);
  }

  lemma {:induction false} RunOn<T>(env: Env<T>, st: State<T>, es: seq<Event>, fd: int)
    requires Inv(st) && ValidRun(env, st, es) && OnDescriptor(st, fd)
    ensures OnDescriptor(Run(env, st, es), fd)
    decreases |es|
  {
    hide Inv, Step, Deliverable, OnDescriptor;
    if es != [] {
      StepInv(env, st, es[0]);
      StepOn(env, st, es[0], fd);
      RunOn(env, Step(env, st, es[0]), es[1..], fd);
    }
  }

  lemma OwnDescriptor<T>(env: Env<T>, fd: nat, trans: T, es: seq<Event>)
    requires ValidRun(env, Accepted(fd, trans), es)
    ensures forall i :: 0 <= i < |Run(env, Accepted(fd, trans), es).log| ==>
              EffectOn(Run(env, Accepted(fd, trans), es).log[i], fd)
  {
    hide Run, ValidRun, Inv;
    AcceptedInv(fd, trans);
    RunOn(env, Accepted(fd, trans), es, fd);
  }

  // ---------------------------------------------------------------- limits

  /** A response can be sent if it has at most 8192 bytes and one of 32 buffers is free or the heap gives one. */
  lemma SendLimits<T>(env: Env<T>, fd: nat, trans: T, st: State<T>, size: nat)
    requires Owned(st)
    ensures |st.pool| == 32 && |Accepted(fd, trans).pool| == 32
    ensures Acquire(env, st, size).1.Some? <==>
            size <= 8192 && ((exists i :: 0 <= i < 32 && !st.pool[i]) || env.malloc(st.mallocs))
  {
    AcquireFresh(env, st, size);
  }

  /** A session that is freed has stopped its transcoding. */
  lemma FreedIsStopped<T>(env: Env<T>, st: State<T>, e: Event)
    requires Inv(st) && Deliverable(st, e) && SessionSafety.Freed(Step(env, st, e).log)
    ensures exists trans :: Step(env, st, e).trans == env.stop(trans)
  {
    hide ProcessRead, Release, Ordered, Closed, Owned;
    match e
    case Read(res, more, data) =>
      var st1 := if more then st else st.(recvActive := false);
      StepInv(env, st, e);
      NotFreed(st);
      if res > 0 && data.Some? {
        assert Live(st1) by { LiveFrame(st, st1); }
        ProcessReadLive(env, st1, data.value);
        StopsIfFreed(env, ProcessRead(env, st1, data.value));
      }
      StopsIfFreed(env, st1);
      StopsIfFreed(env, st1.(closing := true));
    case WriteDone(buf, res) =>
      NotFreed(st);
      ReleaseEffect(st.(pending := st.pending - 1), buf);
      var st1 := Release(st.(pending := st.pending - 1), buf);
      StopsIfFreed(env, st1);
      StopsIfFreed(env, st1.(closing := true));
  }

  lemma NotFreed<T>(st: State<T>)
    requires Inv(st) && (st.recvActive || exists b :: InUse(st, b))
    ensures !SessionSafety.Freed(st.log)
  {
    IdleWhenNonePending(st);
  }

  lemma StopsIfFreed<T>(env: Env<T>, st: State<T>)
    requires !SessionSafety.Freed(st.log)
    ensures SessionSafety.Freed(Cleanup(env, st).log) ==> Cleanup(env, st).trans == env.stop(st.trans)
    ensures !SessionSafety.Freed(Arm(st).log)
  {
  }

  /** A read that finds no room is dropped whole: it changes nothing but that the session closes. */
  lemma OverflowDrops<T>(env: Env<T>, st: State<T>, data: seq<byte>)
    ensures |st.assembled| + |data| > 32768 ==> ProcessRead(env, st, data) == st.(closing := true)
  {
    hide Messages, Rest, DispatchAll;
  }
}
