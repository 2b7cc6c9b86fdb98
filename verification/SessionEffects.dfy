/** What one completion adds to a session's effect log: which buffers it submits and whether it
    arms a receive. The event loop reads the kernel's view off these. */
module SessionEffects {
  import opened Bytes
  import opened Protocol
  import opened Framing
  import opened Session
  import opened SessionSafety

  /** The buffer was submitted by an effect at or after a position of the log. */
  predicate SubmittedSince(log: seq<Effect>, from: nat, b: BufRef) {
    exists i :: from <= i < |log| && log[i].Submit? && log[i].buf == b
  }

  predicate ArmedSince(log: seq<Effect>, from: nat) {
    exists i :: from <= i < |log| && log[i].ArmRecv?
  }

  /** The log grew by submitting buffers that were not in use, no two of them the same, and exactly
      these are newly in use. */
  ghost predicate Grew<T>(st: State<T>, next: State<T>) {
    && st.log <= next.log
    && (forall i :: |st.log| <= i < |next.log| && next.log[i].Submit? ==> !InUse(st, next.log[i].buf))
    && (forall i, j :: |st.log| <= i < j < |next.log| && next.log[i].Submit? && next.log[j].Submit? ==>
          next.log[i].buf != next.log[j].buf)
    && (forall b :: InUse(next, b) <==> InUse(st, b) || SubmittedSince(next.log, |st.log|, b))
  }

  lemma GrewTrans<T>(a: State<T>, b: State<T>, c: State<T>)
    requires Grew(a, b) && Grew(b, c)
    ensures Grew(a, c)
  {
    hide InUse;
    forall x ensures SubmittedSince(c.log, |a.log|, x) <==>
                      (SubmittedSince(b.log, |a.log|, x) || SubmittedSince(c.log, |b.log|, x)) {
      if SubmittedSince(b.log, |a.log|, x) {
        var i :| |a.log| <= i < |b.log| && b.log[i].Submit? && b.log[i].buf == x;
        assert c.log[i] == b.log[i];
      }
      if SubmittedSince(c.log, |b.log|, x) {
        var i :| |b.log| <= i < |c.log| && c.log[i].Submit? && c.log[i].buf == x;
        assert |a.log| <= i;
      }
      if SubmittedSince(c.log, |a.log|, x) {
        var i :| |a.log| <= i < |c.log| && c.log[i].Submit? && c.log[i].buf == x;
        assert i < |b.log| ==> b.log[i] == c.log[i];
      }
    }
    forall i, j | |a.log| <= i < j < |c.log| && c.log[i].Submit? && c.log[j].Submit?
      ensures c.log[i].buf != c.log[j].buf
    {
      if i < |b.log| {
        assert b.log[i] == c.log[i];
        assert SubmittedSince(b.log, |a.log|, b.log[i].buf);
        if j < |b.log| {
          assert b.log[j] == c.log[j];
        }
      }
    }
    forall i | |a.log| <= i < |c.log| && c.log[i].Submit? ensures !InUse(a, c.log[i].buf) {
      if i < |b.log| {
        assert b.log[i] == c.log[i];
      }
    }
  }

  lemma GrewRefl<T>(st: State<T>, next: State<T>)
    requires next.log == st.log && next.pool == st.pool && next.heap == st.heap
    ensures Grew(st, next)
  {
  }

  lemma SendGrew<T>(env: Env<T>, st: State<T>, r: Response)
    requires Live(st)
    ensures Grew(st, SendUnlessClosing(env, st, r))
    ensures ArmsNothing(st, SendUnlessClosing(env, st, r))
  {
    if st.closing {
      GrewRefl(st, st);
    } else {
      hide InUse, Owned;
      AcquireFresh(env, st, ResponseSize(r)) by { assert Owned(st); }
      var (next, buf) := Acquire(env, st, ResponseSize(r));
      var sent := Send(env, st, r);
      assert forall b :: InUse(sent, b) <==> InUse(next, b) by { SameBuffers(sent, next); }
      if buf.Some? {
        assert sent.log[|st.log|].buf == buf.value;
        assert SubmittedSince(sent.log, |st.log|, buf.value);
      }
    }
  }

  lemma SameBuffers<T>(a: State<T>, b: State<T>)
    requires a.pool == b.pool && a.heap == b.heap
    ensures forall x :: InUse(a, x) <==> InUse(b, x)
  {
  }

  ghost predicate ArmsNothing<T>(st: State<T>, next: State<T>) {
    st.log <= next.log && !ArmedSince(next.log, |st.log|)
  }

  lemma ArmsNothingTrans<T>(a: State<T>, b: State<T>, c: State<T>)
    requires ArmsNothing(a, b) && ArmsNothing(b, c)
    ensures ArmsNothing(a, c)
  {
    forall i | |a.log| <= i < |c.log| ensures !c.log[i].ArmRecv? {
      if i < |b.log| {
        assert b.log[i] == c.log[i];
      }
    }
  }

  lemma {:induction false} DispatchAllGrew<T>(env: Env<T>, st: State<T>, ms: seq<Message>)
    requires Live(st)
    ensures Grew(st, DispatchAll(env, st, ms)) && ArmsNothing(st, DispatchAll(env, st, ms))
    decreases |ms|
  {
    hide Reply, Grew, ArmsNothing;
    if ms == [] {
      GrewRefl(st, st);
      QuietStart(st);
    } else {
      var next := Dispatch(env, st, ms[0]);
      DispatchGrew(env, st, ms[0]);
      DispatchAllGrew(env, next, ms[1..]);
      GrewTrans(st, next, DispatchAll(env, st, ms));
      ArmsNothingTrans(st, next, DispatchAll(env, st, ms));
    }
  }

  lemma QuietStart<T>(st: State<T>)
    ensures ArmsNothing(st, st)
  {
  }

  lemma DispatchGrew<T>(env: Env<T>, st: State<T>, m: Message)
    requires Live(st)
    ensures Live(Dispatch(env, st, m)) && Grew(st, Dispatch(env, st, m)) && ArmsNothing(st, Dispatch(env, st, m))
  {
    hide Reply, SendUnlessClosing, Grew, ArmsNothing;
    var (trans, reply) := Reply(env, st.trans, m);
    var ready := st.(trans := trans);
    GrewRefl(st, ready);
    ReadyQuiet(st, ready);
    assert Live(ready);
    if reply.Some? {
      SendLive(env, ready, reply.value);
      SendGrew(env, ready, reply.value);
      GrewTrans(st, ready, Dispatch(env, st, m));
      ArmsNothingTrans(st, ready, Dispatch(env, st, m));
    }
  }

  lemma ReadyQuiet<T>(st: State<T>, next: State<T>)
    requires next.log == st.log
    ensures ArmsNothing(st, next)
  {
  }

  lemma ProcessReadGrew<T>(env: Env<T>, st: State<T>, data: seq<byte>)
    requires Live(st)
    ensures Grew(st, ProcessRead(env, st, data)) && ArmsNothing(st, ProcessRead(env, st, data))
  {
    hide Live, Grew, ArmsNothing, SendUnlessClosing, DispatchAll, Messages, Rest, Front, Rejected;
    var next := ProcessRead(env, st, data);
    if |st.assembled| + |data| > ASSEMBLE_SIZE {
      GrewRefl(st, next);
      ReadyQuiet(st, next);
    } else {
      var bytes := st.assembled + data;
      var rest := Rest(Server, bytes);
      DispatchAllLive(env, st, Messages(Server, bytes));
      DispatchAllGrew(env, st, Messages(Server, bytes));
      var done := DispatchAll(env, st, Messages(Server, bytes));
      var last := done;
      if Rejected(Server, rest) {
        RejectedHasHeader(rest);
        var r := ErrorReply(Front(rest).sequenceId, ERR_INVALID_MAGIC);
        last := SendUnlessClosing(env, done, r);
        SendGrew(env, done, r);
        GrewTrans(st, done, last);
        ArmsNothingTrans(st, done, last);
      }
      GrewRefl(last, next);
      ReadyQuiet(last, next);
      GrewTrans(st, last, next);
      ArmsNothingTrans(st, last, next);
    }
  }

  /** Cleanup submits and arms nothing. */
  lemma CleanupGrew<T>(env: Env<T>, st: State<T>)
    ensures Grew(st, Cleanup(env, st)) && ArmsNothing(st, Cleanup(env, st))
    ensures Cleanup(env, st).recvActive == st.recvActive
  {
  }

  lemma ArmGrew<T>(st: State<T>)
    ensures Grew(st, Arm(st)) && ArmedSince(Arm(st).log, |st.log|) && Arm(st).recvActive
  {
    assert Arm(st).log[|st.log|].ArmRecv?;
  }

  /** The effects of one completion. A receive is armed only by handling the last completion of the
      previous one, and at most once. */
  ghost predicate Effects<T>(st: State<T>, e: Event, next: State<T>) {
    && (if e.WriteDone? then
          && st.log <= next.log
          && (forall b :: InUse(next, b) <==> InUse(st, b) && b != e.buf)
          && (forall i :: |st.log| <= i < |next.log| ==> !next.log[i].Submit?)
          && !ArmedSince(next.log, |st.log|)
        else
          && Grew(st, next)
          && (ArmedSince(next.log, |st.log|) ==> !e.more)
          && OneArm(st, next))
    && (next.recvActive <==> (st.recvActive && !(e.Read? && !e.more)) || ArmedSince(next.log, |st.log|))
  }

  ghost predicate OneArm<T>(st: State<T>, next: State<T>) {
    && st.log <= next.log
    && forall i, j :: |st.log| <= i < j < |next.log| ==> !(next.log[i].ArmRecv? && next.log[j].ArmRecv?)
  }

  lemma QuietThenArm<T>(a: State<T>, b: State<T>)
    requires ArmsNothing(a, b)
    ensures OneArm(a, Arm(b)) && ArmedSince(Arm(b).log, |a.log|) && OneArm(a, b)
  {
    var c := Arm(b);
    assert c.log[|b.log|].ArmRecv?;
    forall i, j | |a.log| <= i < j < |c.log| ensures !(c.log[i].ArmRecv? && c.log[j].ArmRecv?) {
      assert i < |b.log| && c.log[i] == b.log[i];
    }
    forall i | |a.log| <= i < |b.log| ensures !b.log[i].ArmRecv? {
    }
  }

  lemma StepEffects<T>(env: Env<T>, st: State<T>, e: Event)
    requires Inv(st) && Deliverable(st, e)
    ensures Effects(st, e, Step(env, st, e))
  {
    StepInv(env, st, e);
    match e
    case Read(res, more, data) => ReadEffects(env, st, res, more, data);
    case WriteDone(buf, res) => WriteEffects(env, st, buf, res);
  }

  lemma WriteEffects<T>(env: Env<T>, st: State<T>, buf: BufRef, res: int)
    requires Owned(st) && InUse(st, buf)
    ensures Effects(st, WriteDone(buf, res), OnWrite(env, st, buf, res))
  {
    hide Owned, Release, Cleanup, InUse;
    SameBuffers(st, st.(pending := st.pending - 1));
    ReleaseOwned(st, buf);
    ReleaseEffect(st.(pending := st.pending - 1), buf);
    var st1 := Release(st.(pending := st.pending - 1), buf);
    var st2 := if res < 0 then st1.(closing := true) else st1;
    ReleaseUse(st, buf);
    SameBuffers(st1, st2);
    CleanupQuiet(env, st2);
  }

  lemma ReleaseUse<T>(st: State<T>, buf: BufRef)
    requires InUse(st, buf) && Owned(st)
    ensures forall b :: InUse(Release(st.(pending := st.pending - 1), buf), b) <==> InUse(st, b) && b != buf
  {
  }

  /** Cleanup only closes and frees. */
  lemma CleanupQuiet<T>(env: Env<T>, st: State<T>)
    ensures var next := Cleanup(env, st);
            && st.log <= next.log && next.recvActive == st.recvActive
            && (forall i :: |st.log| <= i < |next.log| ==> !next.log[i].Submit? && !next.log[i].ArmRecv?)
            && (forall b :: InUse(next, b) <==> InUse(st, b))
  {
  }

  lemma ReadEffects<T>(env: Env<T>, st: State<T>, res: int, more: bool, data: Option<seq<byte>>)
    requires Live(st) && st.recvActive && (res == -ENOBUFS ==> !more)
    ensures Effects(st, Read(res, more, data), OnRead(env, st, res, more, data))
  {
    hide Live, Grew, ArmsNothing, ProcessRead, Cleanup, Arm, InUse, OneArm;
    var st1 := if more then st else st.(recvActive := false);
    var next := OnRead(env, st, res, more, data);
    GrewRefl(st, st1);
    ReadyQuiet(st, st1);
    var st2 := if res > 0 && data.Some? then ProcessRead(env, st1, data.value)
               else if res > 0 || res == -ENOBUFS then st1
               else st1.(closing := true);
    if res > 0 && data.Some? {
      assert Live(st1) by { LiveFrame(st, st1); }
      ProcessReadGrew(env, st1, data.value);
      ProcessReadLive(env, st1, data.value);
    } else {
      GrewRefl(st1, st2);
      ReadyQuiet(st1, st2);
    }
    GrewTrans(st, st1, st2);
    ArmsNothingTrans(st, st1, st2);
    QuietThenArm(st, st2);
    if next == Arm(st2) && !more {
      ArmGrew(st2);
      GrewTrans(st, st2, next);
    } else {
      CleanupGrew(env, st2);
      var done := Cleanup(env, st2);
      GrewTrans(st, st2, done);
      ArmsNothingTrans(st, st2, done);
      QuietThenArm(st, done);
      ArmsNothingHere(st, done);
      ArmsNothingHere(st, st2);
    }
  }

  lemma ArmsNothingHere<T>(a: State<T>, b: State<T>)
    requires ArmsNothing(a, b)
    ensures !ArmedSince(b.log, |a.log|)
  {
  }

  lemma LiveFrame<T>(a: State<T>, b: State<T>)
    requires Live(a) && b == a.(recvActive := b.recvActive)
    ensures Live(b)
  {
  }

  predicate ArmedOn(log: seq<Effect>, from: nat, fd: int) {
    exists i :: from <= i < |log| && log[i] == ArmRecv(fd)
  }

  /** A closed descriptor gets a receive in one case: the pool ran dry (ENOBUFS) on a session that has
      already closed it. The ENOBUFS branch arms without looking at closing. */
  lemma ArmedOnClosed<T>(env: Env<T>, st: State<T>, e: Event)
    requires Inv(st) && Deliverable(st, e)
    ensures ArmedOn(Step(env, st, e).log, |st.log|, -1) <==> e.Read? && e.res == -ENOBUFS && st.fd == -1
  {
    StepEffects(env, st, e);
    if e.Read? {
      ReadArms(env, st, e.res, e.more, e.data);
    }
  }

  lemma ReadArms<T>(env: Env<T>, st: State<T>, res: int, more: bool, data: Option<seq<byte>>)
    requires Live(st) && st.recvActive && (res == -ENOBUFS ==> !more)
    ensures ArmedOn(OnRead(env, st, res, more, data).log, |st.log|, -1) <==> res == -ENOBUFS && st.fd == -1
  {
    hide Grew, ProcessRead;
    var st1 := if more then st else st.(recvActive := false);
    if res == -ENOBUFS {
      assert Arm(st1).log[|st.log|] == ArmRecv(st.fd);
    } else if res > 0 && data.Some? {
      ProcessReadGrew(env, st1, data.value);
      ProcessReadLive(env, st1, data.value);
      var st2 := ProcessRead(env, st1, data.value);
      OnlyLast(st, st2);
    } else {
      OnlyLast(st, st1);
    }
  }

  lemma OnlyLast<T>(a: State<T>, b: State<T>)
    requires ArmsNothing(a, b)
    ensures !ArmedOn(b.log, |a.log|, -1) && (b.fd != -1 ==> !ArmedOn(Arm(b).log, |a.log|, -1))
  {
  }

  /** It happens: a bad header closes the session, its error reply completes and the descriptor is closed,
      and the receive that is still armed then finds the buffer ring empty. */
  lemma ArmsClosedDescriptor<T>(env: Env<T>, fd: nat, trans: T, bytes: seq<byte>)
    requires |bytes| == HEADER_SIZE && !ValidateHeader(DecodeHeader(bytes))
    ensures var reply := ErrorReply(DecodeHeader(bytes).sequenceId, ERR_INVALID_MAGIC);
            var es := [Read(HEADER_SIZE, true, Some(bytes)), WriteDone(Slot(0), ResponseSize(reply)),
                       Read(-ENOBUFS, false, None)];
            && ValidRun(env, Accepted(fd, trans), es)
            && Run(env, Accepted(fd, trans), es).log ==
               [ArmRecv(fd), Submit(Slot(0), fd, reply), CloseFd(fd), ArmRecv(-1)]
  {
    var reply := ErrorReply(DecodeHeader(bytes).sequenceId, ERR_INVALID_MAGIC);
    var e1: Event, e2: Event := Read(HEADER_SIZE, true, Some(bytes)), WriteDone(Slot(0), ResponseSize(reply));
    var e3: Event := Read(-ENOBUFS, false, None);
    hide *;
    var st0 := Accepted(fd, trans);
    var st1 := Step(env, st0, e1);
    FirstRead(env, fd, trans, bytes);
    LastWrite(env, st1, ResponseSize(reply));
    var st2 := Step(env, st1, e2);
    EmptyRing(env, st2);
    RunThree(env, st0, e1, e2, e3);
  }

  /** The first read is rejected: an error reply is on its way and the session is closing. */
  lemma FirstRead<T>(env: Env<T>, fd: nat, trans: T, bytes: seq<byte>)
    requires |bytes| == HEADER_SIZE && !ValidateHeader(DecodeHeader(bytes))
    ensures Deliverable(Accepted(fd, trans), Read(HEADER_SIZE, true, Some(bytes)))
    ensures var reply := ErrorReply(DecodeHeader(bytes).sequenceId, ERR_INVALID_MAGIC);
            var st := Step(env, Accepted(fd, trans), Read(HEADER_SIZE, true, Some(bytes)));
            && st.closing && st.pending == 1 && |st.pool| > 0 && st.pool[0] && st.fd == fd && st.recvActive
            && st.log == [ArmRecv(fd), Submit(Slot(0), fd, reply)]
  {
    RejectedRead(env, fd, trans, bytes);
    hide ProcessRead, DecodeHeader, ErrorReply, ValidateHeader;
  }

  /** The last write of a closing session closes the descriptor and leaves the receive armed. */
  lemma LastWrite<T>(env: Env<T>, st: State<T>, n: nat)
    requires st.closing && st.pending == 1 && |st.pool| > 0 && st.pool[0] && st.fd != -1 && st.recvActive
    ensures Deliverable(st, WriteDone(Slot(0), n))
    ensures var next := Step(env, st, WriteDone(Slot(0), n));
            next.fd == -1 && next.recvActive && next.log == st.log + [CloseFd(st.fd)]
  {
  }

  lemma EmptyRing<T>(env: Env<T>, st: State<T>)
    requires st.recvActive
    ensures Deliverable(st, Read(-ENOBUFS, false, None))
    ensures Step(env, st, Read(-ENOBUFS, false, None)).log == st.log + [ArmRecv(st.fd)]
  {
  }

  lemma RunThree<T>(env: Env<T>, st: State<T>, e1: Event, e2: Event, e3: Event)
    requires Deliverable(st, e1) && Deliverable(Step(env, st, e1), e2)
    requires Deliverable(Step(env, Step(env, st, e1), e2), e3)
    ensures ValidRun(env, st, [e1, e2, e3])
    ensures Run(env, st, [e1, e2, e3]) == Step(env, Step(env, Step(env, st, e1), e2), e3)
  {
    hide Step, Deliverable, Run, ValidRun;
    var st1 := Step(env, st, e1);
    var st2 := Step(env, st1, e2);
    RunOne(env, st2, e3, []);
    RunOne(env, st1, e2, [e3]);
    RunOne(env, st, e1, [e2, e3]);
    RunNone(env, Step(env, st2, e3));
    assert [e3] + [] == [e3] && [e2] + [e3] == [e2, e3] && [e1] + [e2, e3] == [e1, e2, e3];
  }

  lemma RunNone<T>(env: Env<T>, st: State<T>)
    ensures ValidRun(env, st, []) && Run(env, st, []) == st
  {
  }

  lemma RunOne<T>(env: Env<T>, st: State<T>, e: Event, rest: seq<Event>)
    requires Deliverable(st, e)
    ensures ValidRun(env, st, [e] + rest) <==> ValidRun(env, Step(env, st, e), rest)
    ensures ValidRun(env, st, [e] + rest) ==> Run(env, st, [e] + rest) == Run(env, Step(env, st, e), rest)
  {
    hide Step, Deliverable;
    var es := [e] + rest;
    assert es[0] == e && es[1..] == rest;
  }

  /** The first read of a session is a header it rejects. */
  lemma RejectedRead<T>(env: Env<T>, fd: nat, trans: T, bytes: seq<byte>)
    requires |bytes| == HEADER_SIZE && !ValidateHeader(DecodeHeader(bytes))
    ensures var st0, st1 := Accepted(fd, trans), ProcessRead(env, Accepted(fd, trans), bytes);
            var reply := ErrorReply(DecodeHeader(bytes).sequenceId, ERR_INVALID_MAGIC);
            && st1 == st0.(closing := true, pending := 1, pool := st0.pool[0 := true], assembled := bytes,
                           log := [ArmRecv(fd), Submit(Slot(0), fd, reply)])
  {
    hide DecodeHeader, ErrorReply, ValidateHeader;
    var st0 := Accepted(fd, trans);
    assert st0.assembled + bytes == bytes && bytes[..HEADER_SIZE] == bytes;
    assert Messages(Server, bytes) == [] && Rest(Server, bytes) == bytes;
    assert DispatchAll(env, st0, []) == st0;
    var reply := ErrorReply(DecodeHeader(bytes).sequenceId, ERR_INVALID_MAGIC);
    assert ResponseSize(reply) <= MAX_WRITE_PAYLOAD by { ErrorFits(DecodeHeader(bytes).sequenceId); }
    assert FirstFree(st0.pool) == 0;
  }

  lemma ErrorFits(id: uint32)
    ensures ResponseSize(ErrorReply(id, ERR_INVALID_MAGIC)) == HEADER_SIZE + 4
  {
  }
}
