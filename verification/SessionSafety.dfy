/** Lifetime and write-buffer ownership of a session, over every run of completions. */
module SessionSafety {
  import opened Bytes
  import opened Protocol
  import opened Framing
  import opened Session

  // ---------------------------------------------------------------- the effect log

  predicate Freed(log: seq<Effect>) { FreeSession in log }

  predicate Closed(log: seq<Effect>) {
    exists i :: 0 <= i < |log| && log[i].CloseFd?
  }

  /** Nothing follows a free; after a close there is no second close and no send. */
  predicate MayFollow(earlier: Effect, later: Effect) {
    && !earlier.FreeSession?
    && (earlier.CloseFd? ==> !later.CloseFd? && !later.Submit?)
  }

  predicate Ordered(log: seq<Effect>) {
    forall i, j :: 0 <= i < j < |log| ==> MayFollow(log[i], log[j])
  }

  // ---------------------------------------------------------------- counting busy slots

  function Busy(pool: seq<bool>): nat {
    if pool == [] then 0 else (if pool[0] then 1 else 0) + Busy(pool[1..])
  }

  lemma {:induction false} BusyUpdate(pool: seq<bool>, i: nat, b: bool)
    requires i < |pool|
    ensures Busy(pool[i := b]) == Busy(pool) - (if pool[i] then 1 else 0) + (if b then 1 else 0)
    decreases |pool|
  {
    if i > 0 {
      assert pool[i := b][1..] == pool[1..][i - 1 := b];
      BusyUpdate(pool[1..], i - 1, b);
    } else {
      assert pool[i := b][1..] == pool[1..];
    }
  }

  lemma {:induction false} BusyBounds(pool: seq<bool>)
    ensures Busy(pool) <= |pool|
    ensures Busy(pool) == 0 <==> forall i :: 0 <= i < |pool| ==> !pool[i]
    ensures Busy(pool) == |pool| <==> forall i :: 0 <= i < |pool| ==> pool[i]
    decreases |pool|
  {
    if pool != [] {
      BusyBounds(pool[1..]);
      assert pool == [pool[0]] + pool[1..];
    }
  }

  // ---------------------------------------------------------------- the invariant

  /** Ownership: the pending count is exactly the number of buffers in flight. */
  predicate Owned<T>(st: State<T>) {
    && |st.pool| == MAX_CONCURRENT_WRITES
    && st.pending == Busy(st.pool) + |st.heap|
    && (forall id :: id in st.heap ==> id < st.mallocs)
  }

  /** Holds at every point of the code that runs on a live session. */
  predicate Live<T>(st: State<T>) {
    && Owned(st)
    && Ordered(st.log)
    && !Freed(st.log)
    && (Closed(st.log) <==> st.fd == -1)
    && (st.fd == -1 ==> st.closing && st.pending == 0)
  }

  /** Holds between completions: a live session that is not closing has a receive armed, and a
      closing one still waits for the kernel, so none is stranded; a freed one waits for nothing. */
  predicate Inv<T>(st: State<T>) {
    if Freed(st.log) then
      Owned(st) && Ordered(st.log) && Closed(st.log) && !st.recvActive && st.pending == 0 && st.closing
    else
      && Live(st)
      && (!st.closing ==> st.recvActive)
      && (st.closing ==> st.recvActive || st.pending > 0)
  }

  lemma LogGrows(log: seq<Effect>, e: Effect)
    requires Ordered(log) && !Freed(log)
    requires Closed(log) ==> !e.CloseFd? && !e.Submit?
    ensures Ordered(log + [e])
    ensures Freed(log + [e]) <==> e.FreeSession?
    ensures Closed(log + [e]) <==> Closed(log) || e.CloseFd?
  {
    var next := log + [e];
    assert e == next[|log|];
    if Closed(log) {
      var i :| 0 <= i < |log| && log[i].CloseFd?;
      assert next[i].CloseFd?;
    }
  }

  lemma AcceptedInv<T>(fd: nat, trans: T)
    ensures Inv(Accepted(fd, trans))
  {
    BusyBounds(Accepted(fd, trans).pool);
  }

  /** Acquiring takes a slot that was free, or a fresh heap response and then only when every slot
      is busy; it fails only for an oversized response or when every slot is busy and the
      allocation fails. */
  lemma AcquireFresh<T>(env: Env<T>, st: State<T>, size: nat)
    requires Owned(st)
    ensures var (next, buf) := Acquire(env, st, size);
            && (buf.Some? ==> !InUse(st, buf.value) && InUse(next, buf.value))
            && (forall b :: InUse(next, b) <==> InUse(st, b) || buf == Some(b))
            && (buf.Some? && buf.value.Heap? ==> forall i :: 0 <= i < |st.pool| ==> st.pool[i])
            && (buf.None? <==> size > MAX_WRITE_PAYLOAD ||
                               ((forall i :: 0 <= i < |st.pool| ==> st.pool[i]) && !env.malloc(st.mallocs)))
            && (buf.Some? ==> Owned(next.(pending := st.pending + 1)))
            && (buf.None? ==> Owned(next))
  {
    var i := FirstFree(st.pool);
    if i < |st.pool| {
      BusyUpdate(st.pool, i, true);
    }
  }

  /** A release returns exactly that buffer. */
  lemma ReleaseOwned<T>(st: State<T>, buf: BufRef)
    requires Owned(st) && InUse(st, buf)
    ensures Owned(Release(st.(pending := st.pending - 1), buf))
    ensures st.pending > 0
    ensures forall b :: InUse(Release(st, buf), b) <==> InUse(st, b) && b != buf
  {
    match buf
    case Slot(i) =>
      BusyUpdate(st.pool, i, false);
    case Heap(id) =>
      assert id in st.heap;
  }

  /** Nothing in flight means nothing pending, and conversely. */
  lemma IdleWhenNonePending<T>(st: State<T>)
    requires Owned(st)
    ensures st.pending == 0 <==> forall b :: !InUse(st, b)
  {
    BusyBounds(st.pool);
    if st.pending == 0 {
    } else if |st.heap| > 0 {
      var id :| id in st.heap;
      assert InUse(st, Heap(id));
    } else {
      var i :| 0 <= i < |st.pool| && st.pool[i];
      assert InUse(st, Slot(i));
    }
  }

  // ---------------------------------------------------------------- the code keeps it

  /** A step of message handling: it may only send, and only when not closing. */
  predicate Progress<T>(st: State<T>, next: State<T>) {
    && next.fd == st.fd && next.closing == st.closing && next.recvActive == st.recvActive
    && next.assembled == st.assembled
    && (if st.closing then next.log == st.log && next.pending == st.pending && next.pool == st.pool &&
       next.heap == st.heap
        else next.pending >= st.pending)
  }

  lemma SendLive<T>(env: Env<T>, st: State<T>, r: Response)
    requires Live(st)
    ensures Live(SendUnlessClosing(env, st, r)) && Progress(st, SendUnlessClosing(env, st, r))
  {
    if !st.closing {
      AcquireFresh(env, st, ResponseSize(r));
      var (next, buf) := Acquire(env, st, ResponseSize(r));
      if buf.Some? {
        LogGrows(st.log, Submit(buf.value, st.fd, r));
      }
    }
  }

  lemma {:induction false} DispatchAllLive<T>(env: Env<T>, st: State<T>, ms: seq<Message>)
    requires Live(st)
    ensures Live(DispatchAll(env, st, ms)) && Progress(st, DispatchAll(env, st, ms))
    decreases |ms|
  {
    if ms != [] {
      var (trans, reply) := Reply(env, st.trans, ms[0]);
      if reply.Some? {
        SendLive(env, st.(trans := trans), reply.value);
      }
      DispatchAllLive(env, Dispatch(env, st, ms[0]), ms[1..]);
    }
  }

  lemma ProcessReadLive<T>(env: Env<T>, st: State<T>, data: seq<byte>)
    requires Live(st)
    ensures var next := ProcessRead(env, st, data);
            && Live(next) && next.fd == st.fd && next.recvActive == st.recvActive
            && (st.closing ==> next.closing && next.log == st.log && next.pending == st.pending)
  {
    hide DispatchAll, Messages, Rest, Front, Rejected;
    var bytes := st.assembled + data;
    DispatchAllLive(env, st, Messages(Server, bytes));
    var done := DispatchAll(env, st, Messages(Server, bytes));
    if Rejected(Server, Rest(Server, bytes)) {
      RejectedHasHeader(Rest(Server, bytes));
      SendLive(env, done, ErrorReply(Front(Rest(Server, bytes)).sequenceId, ERR_INVALID_MAGIC));
    }
  }

  lemma RejectedHasHeader(s: seq<byte>)
    requires Rejected(Server, s)
    ensures |s| >= HEADER_SIZE
  {
  }

  /** Arming a receive keeps everything, on a closed descriptor too. */
  lemma ArmLive<T>(st: State<T>)
    requires Live(st)
    ensures Live(Arm(st)) && Inv(Arm(st))
  {
    LogGrows(st.log, ArmRecv(st.fd));
  }

  /** The cleanup frees exactly when nothing is outstanding, and leaves the invariant. */
  lemma CleanupInv<T>(env: Env<T>, st: State<T>)
    requires Live(st) && (!st.closing ==> st.recvActive)
    ensures Inv(Cleanup(env, st))
    ensures Freed(Cleanup(env, st).log) <==> st.closing && st.pending == 0 && !st.recvActive
    ensures Cleanup(env, st).pending == st.pending && (st.closing ==> Cleanup(env, st).closing)
  {
    if st.closing && st.pending == 0 {
      var closed := if st.fd != -1 then st.(fd := -1, log := st.log + [CloseFd(st.fd)]) else st;
      if st.fd != -1 {
        LogGrows(st.log, CloseFd(st.fd));
      }
      if !closed.recvActive {
        LogGrows(closed.log, FreeSession);
      }
    }
  }

  /** Every completion keeps the invariant. Once closing, a session stays closing, its pending
      count never grows, and nothing more is submitted. */
  lemma StepInv<T>(env: Env<T>, st: State<T>, e: Event)
    requires Inv(st) && Deliverable(st, e)
    ensures !Freed(st.log)
    ensures Inv(Step(env, st, e))
    ensures st.closing ==> Step(env, st, e).closing && Step(env, st, e).pending <= st.pending
  {
    hide ProcessRead, Cleanup, Arm, Release, Acquire, Ordered, Closed;
    IdleWhenNonePending(st);
    match e
    case Read(res, more, data) =>
      var st1 := if more then st else st.(recvActive := false);
      if res == -ENOBUFS {
        ArmLive(st1);
        ArmEffect(st1);
      } else if res <= 0 {
        CleanupInv(env, st1.(closing := true));
      } else {
        var st2 := if data.Some? then ProcessRead(env, st1, data.value) else st1;
        if data.Some? {
          ProcessReadLive(env, st1, data.value);
        }
        if st2.closing {
          CleanupInv(env, st2);
        } else if !more {
          ArmLive(st2);
        }
      }
    case WriteDone(buf, res) =>
      ReleaseOwned(st, buf);
      var st1 := Release(st.(pending := st.pending - 1), buf);
      ReleaseEffect(st.(pending := st.pending - 1), buf);
      CleanupInv(env, if res < 0 then st1.(closing := true) else st1);
  }

  lemma ArmEffect<T>(st: State<T>)
    ensures Arm(st).pending == st.pending && Arm(st).closing == st.closing
  {
  }

  lemma ReleaseEffect<T>(st: State<T>, buf: BufRef)
    requires InUse(st, buf)
    ensures var next := Release(st, buf);
            && next.fd == st.fd && next.closing == st.closing && next.recvActive == st.recvActive
            && next.pending == st.pending && next.log == st.log
  {
  }

  /** Safety over every run. In particular the log of every run is ordered: the descriptor is
      closed at most once, no send follows the close, the session is freed at most once and
      nothing happens after that. */
  lemma {:induction false} RunInv<T>(env: Env<T>, st: State<T>, es: seq<Event>)
    requires Inv(st) && ValidRun(env, st, es)
    ensures Inv(Run(env, st, es))
    decreases |es|
  {
    hide Inv, Step, Deliverable;
    if es != [] {
      StepInv(env, st, es[0]);
      RunInv(env, Step(env, st, es[0]), es[1..]);
    }
  }

  /** What the invariant says of a run that starts with an accepted connection. */
  lemma SessionLifetime<T>(env: Env<T>, fd: nat, trans: T, es: seq<Event>)
    requires ValidRun(env, Accepted(fd, trans), es)
    ensures var st := Run(env, Accepted(fd, trans), es);
            && (forall i, j :: 0 <= i < j < |st.log| ==> MayFollow(st.log[i], st.log[j]))
            && (Freed(st.log) ==> !st.recvActive && (forall b :: !InUse(st, b)) && (forall e :: !Deliverable(st, e)))
            && (!Freed(st.log) && !st.closing ==> st.recvActive)
            && (!Freed(st.log) && st.closing ==> st.recvActive || exists b :: InUse(st, b))
            && st.pending == Busy(st.pool) + |st.heap|
  {
    AcceptedInv(fd, trans);
    RunInv(env, Accepted(fd, trans), es);
    IdleWhenNonePending(Run(env, Accepted(fd, trans), es));
  }

  /** The session is freed as soon as its last outstanding operation completes while closing. */
  lemma FreedWhenDrained<T>(env: Env<T>, st: State<T>, e: Event)
    requires Inv(st) && Deliverable(st, e)
    ensures var next := Step(env, st, e);
            Freed(next.log) <==> next.closing && next.pending == 0 && !next.recvActive
  {
    StepInv(env, st, e);
  }
}
