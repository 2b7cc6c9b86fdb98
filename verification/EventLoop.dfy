/** The event loop of src/core/server.c as a state machine over its completions: many sessions, the
    kernel's armed receives and in-flight sends, the completion queue and the provided buffers. */
module EventLoop {
  import opened Bytes
  import opened Session
  import opened SessionSafety
  import opened SessionEffects
  import opened MachServer

  datatype Cqe =
    | AcceptCqe(fd: int)
    | ReadCqe(sid: nat, res: int, more: bool, buffer: Option<nat>, data: seq<byte>)
    | WriteCqe(sid: nat, buf: BufRef, res: int)

  /** Sessions are the live ones, by address; the kernel holds armed receives, in-flight sends, the
      ring and the queue of completions the loop has not handled yet. */
  datatype World<T> = World(sessions: map<nat, State<T>>, next: nat,
                            armed: set<nat>, sends: set<(nat, BufRef)>,
                            ring: seq<Entry>, cq: seq<Cqe>)

  datatype Action =
    | KernelAccept(fd: int)
    | KernelRead(sid: nat, res: int, more: bool, select: bool, data: seq<byte>)
    | KernelWrite(sid: nat, buf: BufRef, res: int)
    | Handle(memory: bool)

  // ---------------------------------------------------------------- the environment

  /** What the kernel may do: a send completes once; an armed receive completes until a completion
      without MORE; ENOBUFS has no MORE and no buffer; a read with data selects the next buffer of the ring. */
  predicate Enabled<T>(w: World<T>, a: Action) {
    match a
    case KernelAccept(_) => true
    case KernelRead(sid, res, more, select, data) =>
      && sid in w.armed
      && (res == -ENOBUFS ==> !more && !select)
      && (select ==> w.ring != [])
      && (res > 0 && select ==> |data| == res && res <= BUF_SIZE)
    case KernelWrite(sid, buf, _) => (sid, buf) in w.sends
    case Handle(_) => w.cq != []
  }

  function EventOf(c: Cqe): Event
    requires !c.AcceptCqe?
  {
    match c
    case ReadCqe(_, res, more, buffer, data) => Read(res, more, if buffer.Some? then Some(data) else None)
    case WriteCqe(_, buf, res) => WriteDone(buf, res)
  }

  /** The code the loop runs for a completion of a session touches that session: it must exist, and
      the completion must be one the session waits for. */
  predicate Safe<T>(w: World<T>, c: Cqe) {
    c.AcceptCqe? || (c.sid in w.sessions && Deliverable(w.sessions[c.sid], EventOf(c)))
  }

  function NewSends<T>(sid: nat, st: State<T>, next: State<T>): set<(nat, BufRef)> {
    set i | |st.log| <= i < |next.log| && next.log[i].Submit? :: (sid, next.log[i].buf)
  }

  function HandleSession<T>(env: Env<T>, base: int, w: World<T>, c: Cqe): World<T>
    requires !c.AcceptCqe? && Safe(w, c)
  {
    var st := w.sessions[c.sid];
    var next := Step(env, st, EventOf(c));
    w.(sessions := if SessionSafety.Freed(next.log) then w.sessions - {c.sid} else w.sessions[c.sid := next],
       armed := if ArmedSince(next.log, |st.log|) then w.armed + {c.sid} else w.armed,
       sends := w.sends + NewSends(c.sid, st, next),
       ring := if c.ReadCqe? && c.buffer.Some? then w.ring + [BufferEntry(base, c.buffer.value)] else w.ring)
  }

  function HandleAccept<T>(w: World<T>, fd: int, memory: bool, trans: T): World<T> {
    if fd < 0 || !memory then w
    else w.(sessions := w.sessions[w.next := Accepted(fd, trans)], armed := w.armed + {w.next}, next := w.next + 1)
  }

  function Next<T>(env: Env<T>, base: int, trans: T, w: World<T>, a: Action): World<T>
    requires Enabled(w, a) && (a.Handle? ==> Safe(w, w.cq[0]))
  {
    match a
    case KernelAccept(fd) => w.(cq := w.cq + [AcceptCqe(fd)])
    case KernelRead(sid, res, more, select, data) =>
      var c := ReadCqe(sid, res, more, if select then Some(w.ring[0].bid) else None, data);
      w.(armed := if more then w.armed else w.armed - {sid},
         ring := if select then w.ring[1..] else w.ring,
         cq := w.cq + [c])
    case KernelWrite(sid, buf, res) =>
      w.(sends := w.sends - {(sid, buf)}, cq := w.cq + [WriteCqe(sid, buf, res)])
    case Handle(memory) =>
      var c, rest := w.cq[0], w.(cq := w.cq[1..]);
      if c.AcceptCqe? then HandleAccept(rest, c.fd, memory, trans) else HandleSession(env, base, rest, c)
  }

  function Initial<T>(base: int): World<T> {
    World(map[], 0, {}, {}, InitialRing(base), [])
  }

  function InitialRing(base: int): seq<Entry> {
    seq(NUM_BUFFERS, bid requires 0 <= bid => BufferEntry(base, bid))
  }

  // ---------------------------------------------------------------- provided buffers

  function RingBids(ring: seq<Entry>): multiset<nat> {
    if ring == [] then multiset{} else multiset{ring[0].bid} + RingBids(ring[1..])
  }

  function CqeBid(c: Cqe): multiset<nat> {
    if c.ReadCqe? && c.buffer.Some? then multiset{c.buffer.value} else multiset{}
  }

  function QueueBids(cq: seq<Cqe>): multiset<nat> {
    if cq == [] then multiset{} else CqeBid(cq[0]) + QueueBids(cq[1..])
  }

  lemma {:induction false} RingBidsAppend(ring: seq<Entry>, e: Entry)
    ensures RingBids(ring + [e]) == RingBids(ring) + multiset{e.bid}
    decreases |ring|
  {
    if ring == [] {
      assert [e][1..] == [];
    } else {
      assert (ring + [e])[1..] == ring[1..] + [e];
      RingBidsAppend(ring[1..], e);
    }
  }

  lemma {:induction false} QueueBidsAppend(cq: seq<Cqe>, c: Cqe)
    ensures QueueBids(cq + [c]) == QueueBids(cq) + CqeBid(c)
    decreases |cq|
  {
    if cq == [] {
      assert [c][1..] == [];
    } else {
      assert (cq + [c])[1..] == cq[1..] + [c];
      QueueBidsAppend(cq[1..], c);
    }
  }

  lemma {:induction false} FilledBids(base: int, n: nat)
    ensures var ring := seq(n, bid requires 0 <= bid => BufferEntry(base, bid));
            forall b: nat :: RingBids(ring)[b] == if b < n then 1 else 0
  {
    var ring := seq(n, bid requires 0 <= bid => BufferEntry(base, bid));
    if n > 0 {
      var shorter := seq(n - 1, bid requires 0 <= bid => BufferEntry(base, bid));
      assert ring == shorter + [BufferEntry(base, n - 1)];
      FilledBids(base, n - 1);
      RingBidsAppend(shorter, BufferEntry(base, n - 1));
    }
  }

  // ---------------------------------------------------------------- the invariant

  predicate ReadOf(c: Cqe, sid: nat) { c.ReadCqe? && c.sid == sid }

  predicate FinalOf(c: Cqe, sid: nat) { ReadOf(c, sid) && !c.more }

  predicate FinalQueued(cq: seq<Cqe>, sid: nat) {
    exists i :: 0 <= i < |cq| && FinalOf(cq[i], sid)
  }

  predicate WriteQueued(cq: seq<Cqe>, sid: nat, buf: BufRef) {
    exists i :: 0 <= i < |cq| && cq[i].WriteCqe? && cq[i].sid == sid && cq[i].buf == buf
  }

  /** Receives: a session counts a receive as active exactly while the kernel holds one, armed or
      with its last completion queued; after a last completion there are no more. */
  ghost predicate ReceivesMatch<T>(w: World<T>) {
    && (forall sid :: sid in w.armed ==> sid in w.sessions && !FinalQueued(w.cq, sid))
    && (forall sid :: sid in w.sessions ==> (w.sessions[sid].recvActive <==> sid in w.armed || FinalQueued(w.cq, sid)))
    && (forall i :: 0 <= i < |w.cq| && w.cq[i].ReadCqe? ==>
          && w.cq[i].sid in w.sessions && w.sessions[w.cq[i].sid].recvActive
          && (w.cq[i].res == -ENOBUFS ==> !w.cq[i].more))
    && (forall i, j :: 0 <= i < j < |w.cq| && w.cq[i].ReadCqe? && w.cq[j].ReadCqe? && w.cq[i].sid == w.cq[j].sid ==>
       w.cq[i].more)
  }

  /** Sends: a write buffer is in use exactly while the kernel holds it, in flight or with its
      completion queued, and only once. */
  ghost predicate SendsMatch<T>(w: World<T>) {
    && (forall p :: p in w.sends ==> p.0 in w.sessions && InUse(w.sessions[p.0], p.1) && !WriteQueued(w.cq, p.0, p.1))
    && (forall i :: 0 <= i < |w.cq| && w.cq[i].WriteCqe? ==>
          w.cq[i].sid in w.sessions && InUse(w.sessions[w.cq[i].sid], w.cq[i].buf))
    && (forall i, j :: 0 <= i < j < |w.cq| && w.cq[i].WriteCqe? && w.cq[j].WriteCqe? && w.cq[i].sid == w.cq[j].sid ==>
          w.cq[i].buf != w.cq[j].buf)
    && (forall sid, b :: sid in w.sessions && InUse(w.sessions[sid], b) ==>
          (sid, b) in w.sends || WriteQueued(w.cq, sid, b))
  }

  ghost predicate SessionsOk<T>(w: World<T>) {
    forall sid :: sid in w.sessions ==>
      sid < w.next && Inv(w.sessions[sid]) && !SessionSafety.Freed(w.sessions[sid].log)
  }

  /** Conservation: the ids in the ring and in queued completions are the initial ones, and every
      ring entry has its own buffer's address. */
  ghost predicate BuffersConserved<T>(base: int, w: World<T>) {
    && RingBids(w.ring) + QueueBids(w.cq) == RingBids(InitialRing(base))
    && forall e :: e in w.ring ==> e == BufferEntry(base, e.bid)
  }

  ghost predicate WorldInv<T>(base: int, w: World<T>) {
    SessionsOk(w) && ReceivesMatch(w) && SendsMatch(w) && BuffersConserved(base, w)
  }

  lemma InitialInv<T>(base: int)
    ensures WorldInv<T>(base, Initial(base))
  {
    assert RingBids(InitialRing(base)) + QueueBids([]) == RingBids(InitialRing(base));
  }

  /** No completion is ever handled for a session that is gone, nor one it does not wait for. */
  lemma AlwaysSafe<T>(base: int, w: World<T>, i: nat)
    requires WorldInv(base, w) && i < |w.cq|
    ensures Safe(w, w.cq[i])
  {
    hide Inv, InUse;
  }

  // ---------------------------------------------------------------- kernel steps

  lemma QueuedAppend(cq: seq<Cqe>, c: Cqe, sid: nat, b: BufRef)
    ensures FinalQueued(cq + [c], sid) <==> FinalQueued(cq, sid) || FinalOf(c, sid)
    ensures WriteQueued(cq + [c], sid, b) <==> WriteQueued(cq, sid, b) || (c.WriteCqe? && c.sid == sid && c.buf == b)
  {
    var next := cq + [c];
    assert next[|cq|] == c;
    assert forall i :: 0 <= i < |cq| ==> next[i] == cq[i];
  }

  lemma QueuedTail(cq: seq<Cqe>, sid: nat, b: BufRef)
    requires cq != []
    ensures FinalQueued(cq, sid) <==> FinalQueued(cq[1..], sid) || FinalOf(cq[0], sid)
    ensures WriteQueued(cq, sid, b) <==>
            (WriteQueued(cq[1..], sid, b) || (cq[0].WriteCqe? && cq[0].sid == sid && cq[0].buf == b))
  {
    assert cq == [cq[0]] + cq[1..];
    assert forall i :: 0 <= i < |cq[1..]| ==> cq[1..][i] == cq[i + 1];
    if FinalQueued(cq, sid) && !FinalOf(cq[0], sid) {
      var i :| 0 <= i < |cq| && FinalOf(cq[i], sid);
      assert FinalOf(cq[1..][i - 1], sid);
    }
    if WriteQueued(cq, sid, b) && !(cq[0].WriteCqe? && cq[0].sid == sid && cq[0].buf == b) {
      var i :| 0 <= i < |cq| && cq[i].WriteCqe? && cq[i].sid == sid && cq[i].buf == b;
      assert cq[1..][i - 1].buf == b;
    }
  }

  lemma FinalIsQueued(cq: seq<Cqe>, i: nat)
    requires i < |cq| && cq[i].ReadCqe?
    ensures cq[i].more || FinalQueued(cq, cq[i].sid)
  {
    assert cq[i].more || FinalOf(cq[i], cq[i].sid);
  }

  lemma KernelReceives<T>(w: World<T>, next: World<T>, c: Cqe)
    requires ReceivesMatch(w)
    requires next.cq == w.cq + [c] && next.sessions == w.sessions
    requires c.ReadCqe? ==> c.sid in w.armed && (c.res == -ENOBUFS ==> !c.more)
    requires next.armed == if c.ReadCqe? && !c.more then w.armed - {c.sid} else w.armed
    ensures ReceivesMatch(next)
  {
    forall sid ensures FinalQueued(next.cq, sid) <==> FinalQueued(w.cq, sid) || FinalOf(c, sid) {
      QueuedAppend(w.cq, c, sid, Slot(0));
    }
    forall i, j | 0 <= i < j < |next.cq| && next.cq[i].ReadCqe? && next.cq[j].ReadCqe? &&
      next.cq[i].sid == next.cq[j].sid
      ensures next.cq[i].more
    {
      FinalIsQueued(w.cq, i);
    }
  }

  lemma KernelSends<T>(w: World<T>, next: World<T>, c: Cqe)
    requires SendsMatch(w)
    requires next.cq == w.cq + [c] && next.sessions == w.sessions
    requires c.WriteCqe? ==> (c.sid, c.buf) in w.sends
    requires next.sends == if c.WriteCqe? then w.sends - {(c.sid, c.buf)} else w.sends
    ensures SendsMatch(next)
  {
    hide InUse;
    forall sid, b ensures WriteQueued(next.cq, sid, b) <==>
      (WriteQueued(w.cq, sid, b) || (c.WriteCqe? && c.sid == sid && c.buf == b)) {
      QueuedAppend(w.cq, c, sid, b);
    }
    forall i, j | 0 <= i < j < |next.cq| && next.cq[i].WriteCqe? && next.cq[j].WriteCqe? &&
      next.cq[i].sid == next.cq[j].sid
      ensures next.cq[i].buf != next.cq[j].buf
    {
      assert WriteQueued(w.cq, w.cq[i].sid, w.cq[i].buf);
    }
  }

  lemma KernelStep<T>(env: Env<T>, base: int, trans: T, w: World<T>, a: Action)
    requires WorldInv(base, w) && Enabled(w, a) && !a.Handle?
    ensures WorldInv(base, Next(env, base, trans, w, a))
  {
    hide Inv, InUse, ReceivesMatch, SendsMatch, QueueBids, RingBids, InitialRing;
    var next := Next(env, base, trans, w, a);
    var c := next.cq[|w.cq|];
    assert next.cq == w.cq + [c];
    KernelReceives(w, next, c);
    KernelSends(w, next, c);
    QueueBidsAppend(w.cq, c);
    if a.KernelRead? && a.select {
      RingBidsHead(w.ring);
    }
  }

  lemma RingBidsHead(ring: seq<Entry>)
    requires ring != []
    ensures RingBids(ring) == multiset{ring[0].bid} + RingBids(ring[1..])
    ensures forall e :: e in ring[1..] ==> e in ring
  {
  }

  // ---------------------------------------------------------------- handling a completion

  lemma HandleReceives<T>(env: Env<T>, base: int, w: World<T>)
    requires WorldInv(base, w) && w.cq != [] && !w.cq[0].AcceptCqe? && Safe(w, w.cq[0])
    ensures ReceivesMatch(HandleSession(env, base, w.(cq := w.cq[1..]), w.cq[0]))
  {
    hide Inv, InUse, Grew, OneArm, ArmedSince, Step, SendsMatch, BuffersConserved;
    var c := w.cq[0];
    var st := w.sessions[c.sid];
    var next := HandleSession(env, base, w.(cq := w.cq[1..]), c);
    var after := Step(env, st, EventOf(c));
    StepInv(env, st, EventOf(c));
    StepEffects(env, st, EventOf(c));
    FreedIdle(after);
    forall sid ensures FinalQueued(w.cq, sid) <==> FinalQueued(next.cq, sid) || FinalOf(c, sid) {
      QueuedTail(w.cq, sid, Slot(0));
    }
    assert forall i :: 0 <= i < |next.cq| ==> next.cq[i] == w.cq[i + 1];
    forall i | FinalOf(c, c.sid) && 0 <= i < |next.cq| ensures !ReadOf(next.cq[i], c.sid) {
      assert next.cq[i] == w.cq[i + 1];
    }
    assert after.recvActive <==> c.sid in next.armed || FinalQueued(next.cq, c.sid);
    assert forall sid :: sid in next.armed ==> sid in next.sessions && !FinalQueued(next.cq, sid);
    forall i | 0 <= i < |next.cq| && next.cq[i].ReadCqe?
      ensures next.cq[i].sid in next.sessions && next.sessions[next.cq[i].sid].recvActive
      ensures next.cq[i].res == -ENOBUFS ==> !next.cq[i].more
    {
      assert next.cq[i] == w.cq[i + 1];
    }
    forall i, j | 0 <= i < j < |next.cq| && next.cq[i].ReadCqe? && next.cq[j].ReadCqe? &&
      next.cq[i].sid == next.cq[j].sid
      ensures next.cq[i].more
    {
      assert next.cq[i] == w.cq[i + 1] && next.cq[j] == w.cq[j + 1];
    }
  }

  lemma FreedIdle<T>(st: State<T>)
    requires Inv(st)
    ensures SessionSafety.Freed(st.log) ==> !st.recvActive && forall b :: !InUse(st, b)
  {
    if SessionSafety.Freed(st.log) {
      IdleWhenNonePending(st);
    }
  }

  lemma HandleSends<T>(env: Env<T>, base: int, w: World<T>)
    requires WorldInv(base, w) && w.cq != [] && !w.cq[0].AcceptCqe? && Safe(w, w.cq[0])
    ensures SendsMatch(HandleSession(env, base, w.(cq := w.cq[1..]), w.cq[0]))
  {
    hide Inv, InUse, OneArm, ArmedSince, Step, ReceivesMatch, BuffersConserved;
    var c := w.cq[0];
    var st := w.sessions[c.sid];
    var next := HandleSession(env, base, w.(cq := w.cq[1..]), c);
    var after := Step(env, st, EventOf(c));
    StepInv(env, st, EventOf(c));
    StepEffects(env, st, EventOf(c));
    FreedIdle(after);
    forall sid, b ensures WriteQueued(w.cq, sid, b) <==>
      (WriteQueued(next.cq, sid, b) || (c.WriteCqe? && c.sid == sid && c.buf == b)) {
      QueuedTail(w.cq, sid, b);
    }
    assert forall i :: 0 <= i < |next.cq| ==> next.cq[i] == w.cq[i + 1];
    forall i | c.WriteCqe? && 0 <= i < |next.cq| && next.cq[i].WriteCqe? && next.cq[i].sid == c.sid
      ensures next.cq[i].buf != c.buf {
      assert next.cq[i] == w.cq[i + 1];
    }
    forall b ensures InUse(after, b) <==> (c.sid, b) in next.sends || WriteQueued(next.cq, c.sid, b) {
      NewSendsAre(c.sid, st, after, b);
    }
    forall p | p in next.sends
      ensures p.0 in next.sessions && InUse(next.sessions[p.0], p.1) && !WriteQueued(next.cq, p.0, p.1)
    {
      if p.0 == c.sid {
        NewSendsAre(c.sid, st, after, p.1);
      }
    }
  }

  lemma NewSendsAre<T>(sid: nat, st: State<T>, next: State<T>, b: BufRef)
    ensures (sid, b) in NewSends(sid, st, next) <==> SubmittedSince(next.log, |st.log|, b)
  {
  }

  lemma HandleBuffers<T>(env: Env<T>, base: int, w: World<T>)
    requires BuffersConserved(base, w) && w.cq != [] && !w.cq[0].AcceptCqe? && Safe(w, w.cq[0])
    ensures BuffersConserved(base, HandleSession(env, base, w.(cq := w.cq[1..]), w.cq[0]))
  {
    hide Step, QueueBids, RingBids, InitialRing, ArmedSince, NewSends, Deliverable;
    var c := w.cq[0];
    QueueBidsHead(w.cq);
    if c.ReadCqe? && c.buffer.Some? {
      RingBidsAppend(w.ring, BufferEntry(base, c.buffer.value));
    }
  }

  lemma HandleSessions<T>(env: Env<T>, base: int, w: World<T>)
    requires SessionsOk(w) && w.cq != [] && !w.cq[0].AcceptCqe? && Safe(w, w.cq[0])
    ensures SessionsOk(HandleSession(env, base, w.(cq := w.cq[1..]), w.cq[0]))
  {
    hide Inv, Step, ArmedSince, NewSends, Deliverable;
    StepInv(env, w.sessions[w.cq[0].sid], EventOf(w.cq[0]));
  }

  lemma HandleStep<T>(env: Env<T>, base: int, trans: T, w: World<T>, memory: bool)
    requires WorldInv(base, w) && w.cq != [] && Safe(w, w.cq[0])
    ensures WorldInv(base, Next(env, base, trans, w, Handle(memory)))
  {
    hide SessionsOk, ReceivesMatch, SendsMatch, BuffersConserved, HandleSession, HandleAccept;
    if w.cq[0].AcceptCqe? {
      AcceptSessions(trans, w, memory);
      AcceptReceives(trans, w, memory);
      AcceptSends(trans, w, memory);
      AcceptBuffers(base, trans, w, memory);
    } else {
      HandleReceives(env, base, w);
      HandleSends(env, base, w);
      HandleSessions(env, base, w);
      HandleBuffers(env, base, w);
    }
  }

  lemma QueueBidsHead(cq: seq<Cqe>)
    requires cq != []
    ensures QueueBids(cq) == CqeBid(cq[0]) + QueueBids(cq[1..])
  {
  }

  lemma AcceptSessions<T>(trans: T, w: World<T>, memory: bool)
    requires SessionsOk(w) && w.cq != [] && w.cq[0].AcceptCqe?
    ensures SessionsOk(HandleAccept(w.(cq := w.cq[1..]), w.cq[0].fd, memory, trans))
  {
    hide Inv;
    if w.cq[0].fd >= 0 {
      AcceptedInv(w.cq[0].fd, trans);
    }
  }

  lemma AcceptReceives<T>(trans: T, w: World<T>, memory: bool)
    requires SessionsOk(w) && ReceivesMatch(w) && w.cq != [] && w.cq[0].AcceptCqe?
    ensures ReceivesMatch(HandleAccept(w.(cq := w.cq[1..]), w.cq[0].fd, memory, trans))
  {
    hide Inv, SessionSafety.Freed;
    var next := HandleAccept(w.(cq := w.cq[1..]), w.cq[0].fd, memory, trans);
    forall sid ensures FinalQueued(w.cq, sid) <==> FinalQueued(next.cq, sid) {
      QueuedTail(w.cq, sid, Slot(0));
    }
    assert forall i :: 0 <= i < |next.cq| ==> next.cq[i] == w.cq[i + 1];
  }

  lemma AcceptSends<T>(trans: T, w: World<T>, memory: bool)
    requires SessionsOk(w) && SendsMatch(w) && w.cq != [] && w.cq[0].AcceptCqe?
    ensures SendsMatch(HandleAccept(w.(cq := w.cq[1..]), w.cq[0].fd, memory, trans))
  {
    hide Inv, InUse, SessionSafety.Freed, Accepted;
    var next := HandleAccept(w.(cq := w.cq[1..]), w.cq[0].fd, memory, trans);
    forall sid, b ensures WriteQueued(w.cq, sid, b) <==> WriteQueued(next.cq, sid, b) {
      QueuedTail(w.cq, sid, b);
    }
    assert forall i :: 0 <= i < |next.cq| ==> next.cq[i] == w.cq[i + 1];
    if w.cq[0].fd >= 0 {
      AcceptedIdle(w.cq[0].fd, trans);
    }
  }

  lemma AcceptedIdle<T>(fd: nat, trans: T)
    ensures forall b :: !InUse(Accepted(fd, trans), b)
  {
  }

  lemma AcceptBuffers<T>(base: int, trans: T, w: World<T>, memory: bool)
    requires BuffersConserved(base, w) && w.cq != [] && w.cq[0].AcceptCqe?
    ensures BuffersConserved(base, HandleAccept(w.(cq := w.cq[1..]), w.cq[0].fd, memory, trans))
  {
    hide QueueBids, RingBids, InitialRing, Accepted;
    QueueBidsHead(w.cq);
  }

  // ---------------------------------------------------------------- every run

  predicate ValidActions<T>(env: Env<T>, base: int, trans: T, w: World<T>, actions: seq<Action>)
    decreases |actions|
  {
    actions == [] ||
    (&& Enabled(w, actions[0])
     && (actions[0].Handle? ==> Safe(w, w.cq[0]))
     && ValidActions(env, base, trans, Next(env, base, trans, w, actions[0]), actions[1..]))
  }

  /** As ValidActions, but only with what the kernel promises: the safety of each handled completion
      is then a theorem. */
  predicate EnabledActions<T>(env: Env<T>, base: int, trans: T, w: World<T>, actions: seq<Action>)
    decreases |actions|
  {
    actions == [] ||
    (&& Enabled(w, actions[0])
     && ((actions[0].Handle? ==> Safe(w, w.cq[0])) ==>
           EnabledActions(env, base, trans, Next(env, base, trans, w, actions[0]), actions[1..])))
  }

  function Execute<T>(env: Env<T>, base: int, trans: T, w: World<T>, actions: seq<Action>): World<T>
    requires ValidActions(env, base, trans, w, actions)
    decreases |actions|
  {
    if actions == [] then w
    else Execute(env, base, trans, Next(env, base, trans, w, actions[0]), actions[1..])
  }

  /** No run of the loop ever handles a completion of a freed session, and the invariant holds in
      every reachable state. */
  lemma {:induction false} EveryRunSafe<T>(env: Env<T>, base: int, trans: T, w: World<T>, actions: seq<Action>)
    requires WorldInv(base, w) && EnabledActions(env, base, trans, w, actions)
    ensures ValidActions(env, base, trans, w, actions)
    ensures WorldInv(base, Execute(env, base, trans, w, actions))
    decreases |actions|
  {
    hide WorldInv, Next, Enabled, Safe;
    if actions != [] {
      var a := actions[0];
      if a.Handle? {
        EnabledHandle(w, a);
        AlwaysSafe(base, w, 0);
        HandleStep(env, base, trans, w, a.memory);
      } else {
        KernelStep(env, base, trans, w, a);
      }
      EveryRunSafe(env, base, trans, Next(env, base, trans, w, a), actions[1..]);
    }
  }

  lemma EnabledHandle<T>(w: World<T>, a: Action)
    requires Enabled(w, a) && a.Handle?
    ensures w.cq != []
  {
  }

  /** Buffer conservation in counted form: each id 0..16383 is in exactly one place, once. */
  lemma EachBufferOnce<T>(base: int, w: World<T>, bid: nat)
    requires WorldInv(base, w)
    ensures RingBids(w.ring)[bid] + QueueBids(w.cq)[bid] == if bid < NUM_BUFFERS then 1 else 0
  {
    hide SessionsOk, ReceivesMatch, SendsMatch;
    FilledBids(base, NUM_BUFFERS);
    assert (RingBids(w.ring) + QueueBids(w.cq))[bid] == RingBids(InitialRing(base))[bid];
  }
}
