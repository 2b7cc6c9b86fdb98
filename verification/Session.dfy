/** The session state machine of src/core/server.c on values: what one completion does to a
    session, as a function. The class MachSession is proved against these functions. */
module Session {
  import opened Bytes
  import opened Protocol
  import opened Framing

  const MAX_CONCURRENT_WRITES := 32
  const MAX_WRITE_PAYLOAD := 8192
  const ENOBUFS := 105

  /** A write buffer: a slot of the session's pool, or a heap response named by its allocation. */
  datatype BufRef = Slot(index: nat) | Heap(id: nat)

  datatype Response = Response(command: uint16, sequenceId: uint32, payload: seq<byte>)

  function ResponseSize(r: Response): nat { HEADER_SIZE + |r.payload| }

  predicate Fits(r: Response) { ResponseSize(r) <= MAX_WRITE_PAYLOAD }

  /** What the session asks of the kernel and the allocator, in order. */
  datatype Effect =
    | Submit(buf: BufRef, fd: int, response: Response)
    | ArmRecv(fd: int)
    | CloseFd(fd: int)
    | FreeSession

  /** Result of the transcoding pipeline for one CMD_INPUT. */
  datatype Outcome = Failed | Done(durationNs: uint64, vadBits: uint32, data: seq<byte>)

  /** Everything a session does not decide itself: the audio pipeline on its own state T, whether
      the n-th heap allocation succeeds, and the worker count. */
  datatype Env<!T> = Env(start: (T, seq<byte>) -> T,
                         stop: T -> T,
                         process: (T, seq<byte>) -> (T, Outcome),
                         malloc: nat -> bool,
                         workers: uint32)

  datatype State<T> = State(fd: int, closing: bool, recvActive: bool, pending: int,
                            pool: seq<bool>, heap: set<nat>, mallocs: nat,
                            assembled: seq<byte>, trans: T, log: seq<Effect>)

  /** A session as the accept handler leaves it: zeroed, with its first receive armed. */
  function Accepted<T>(fd: nat, trans: T): State<T> {
    State(fd, false, true, 0, seq(MAX_CONCURRENT_WRITES, _ => false), {}, 0, [], trans, [ArmRecv(fd)])
  }

  // ---------------------------------------------------------------- write buffers

  function FirstFree(pool: seq<bool>): (i: nat)
    ensures i <= |pool| && (forall k :: 0 <= k < i ==> pool[k]) && (i < |pool| ==> !pool[i])
    decreases |pool|
  {
    if pool == [] || !pool[0] then 0 else 1 + FirstFree(pool[1..])
  }

  function Acquire<T>(env: Env<T>, st: State<T>, size: nat): (State<T>, Option<BufRef>) {
    if size > MAX_WRITE_PAYLOAD then (st, None)
    else
      var i := FirstFree(st.pool);
      if i < |st.pool| then (st.(pool := st.pool[i := true]), Some(Slot(i)))
      else if env.malloc(st.mallocs) then
        (st.(heap := st.heap + {st.mallocs}, mallocs := st.mallocs + 1), Some(Heap(st.mallocs)))
      else (st.(mallocs := st.mallocs + 1), None)
  }

  predicate InUse<T>(st: State<T>, b: BufRef) {
    match b
    case Slot(i) => i < |st.pool| && st.pool[i]
    case Heap(id) => id in st.heap
  }

  function Release<T>(st: State<T>, b: BufRef): State<T>
    requires InUse(st, b)
  {
    match b
    case Slot(i) => st.(pool := st.pool[i := false])
    case Heap(id) => st.(heap := st.heap - {id})
  }

  function Send<T>(env: Env<T>, st: State<T>, r: Response): State<T> {
    var (acquired, buf) := Acquire(env, st, ResponseSize(r));
    if buf.None? then acquired
    else acquired.(pending := st.pending + 1, log := st.log + [Submit(buf.value, st.fd, r)])
  }

  // ---------------------------------------------------------------- requests and replies

  function ErrorReply(sequenceId: uint32, code: uint32): Response {
    Response(CMD_ERROR, sequenceId, U32Net(code))
  }

  function OutputPayload(durationNs: uint64, vadBits: uint32, data: seq<byte>): seq<byte> {
    U64Net(durationNs) + U32Net(vadBits) + Zeros(4) + data
  }

  /** What one message does to the audio state, and the reply it calls for. */
  function Reply<T>(env: Env<T>, trans: T, m: Message): (T, Option<Response>) {
    var id := m.header.sequenceId;
    if m.header.command == CMD_START then
      if |m.payload| < START_SIZE then (trans, Some(ErrorReply(id, ERR_INVALID_PAYLOAD)))
      else (env.start(trans, m.payload), None)
    else if m.header.command == CMD_INPUT then
      if |m.payload| < INPUT_SIZE then (trans, Some(ErrorReply(id, ERR_INVALID_PAYLOAD)))
      else
        var (next, outcome) := env.process(trans, m.payload);
        (next, Some(match outcome
                    case Failed => ErrorReply(id, ERR_PROCESSING_FAILED)
                    case Done(ns, vad, data) => Response(CMD_OUTPUT, id, OutputPayload(ns, vad, data))))
    else if m.header.command == CMD_STOP then (env.stop(trans), None)
    else if m.header.command == CMD_PING then (trans, Some(Response(CMD_PONG, id, [])))
    else if m.header.command == CMD_DISCOVER then
      (trans, Some(Response(CMD_DISCOVER_REPLY, id, U32Net(env.workers) + Zeros(4))))
    else (trans, Some(ErrorReply(id, ERR_INVALID_COMMAND)))
  }

  function SendUnlessClosing<T>(env: Env<T>, st: State<T>, r: Response): State<T> {
    if st.closing then st else Send(env, st, r)
  }

  function Dispatch<T>(env: Env<T>, st: State<T>, m: Message): State<T> {
    var (trans, reply) := Reply(env, st.trans, m);
    if reply.None? then st.(trans := trans)
    else SendUnlessClosing(env, st.(trans := trans), reply.value)
  }

  function DispatchAll<T>(env: Env<T>, st: State<T>, ms: seq<Message>): State<T>
    decreases |ms|
  {
    if ms == [] then st else DispatchAll(env, Dispatch(env, st, ms[0]), ms[1..])
  }

  /** process_client_read: the messages that are now complete are dispatched in order, the rest is
      kept; a rejected header is answered once and closes the session. */
  function ProcessRead<T>(env: Env<T>, st: State<T>, data: seq<byte>): State<T> {
    if |st.assembled| + |data| > ASSEMBLE_SIZE then st.(closing := true)
    else
      var bytes := st.assembled + data;
      var rest := Rest(Server, bytes);
      var done := DispatchAll(env, st, Messages(Server, bytes));
      if Rejected(Server, rest) then
        SendUnlessClosing(env, done, ErrorReply(Front(rest).sequenceId, ERR_INVALID_MAGIC)).(
          closing := true, assembled := rest)
      else done.(assembled := rest)
  }

  // ---------------------------------------------------------------- completions

  function Arm<T>(st: State<T>): State<T> {
    st.(recvActive := true, log := st.log + [ArmRecv(st.fd)])
  }

  /** cleanup_session_if_needed. */
  function Cleanup<T>(env: Env<T>, st: State<T>): State<T> {
    if !st.closing || st.pending != 0 then st
    else
      var closed := if st.fd != -1 then st.(fd := -1, log := st.log + [CloseFd(st.fd)]) else st;
      if closed.recvActive then closed
      else closed.(trans := env.stop(st.trans), log := closed.log + [FreeSession])
  }

  datatype Event =
    | Read(res: int, more: bool, data: Option<seq<byte>>)
    | WriteDone(buf: BufRef, res: int)

  function OnRead<T>(env: Env<T>, st: State<T>, res: int, more: bool, data: Option<seq<byte>>): State<T> {
    var st1 := if more then st else st.(recvActive := false);
    if res == -ENOBUFS then Arm(st1)
    else if res <= 0 then Cleanup(env, st1.(closing := true))
    else
      var st2 := if data.Some? then ProcessRead(env, st1, data.value) else st1;
      if st2.closing then Cleanup(env, st2)
      else if more then st2
      else Arm(st2)
  }

  function OnWrite<T>(env: Env<T>, st: State<T>, buf: BufRef, res: int): State<T>
    requires InUse(st, buf)
  {
    var st1 := Release(st.(pending := st.pending - 1), buf);
    Cleanup(env, if res < 0 then st1.(closing := true) else st1)
  }

  /** What the kernel may deliver: a read completion only while a receive is armed, ENOBUFS only as
      the last completion of a receive, a write completion only for a buffer that is in flight. This allows
      more than the kernel does, which ends a receive with every result of 0 or less: what holds of every
      run here holds of its runs. */
  predicate Deliverable<T>(st: State<T>, e: Event) {
    match e
    case Read(res, more, data) => st.recvActive && (res == -ENOBUFS ==> !more)
    case WriteDone(buf, _) => InUse(st, buf)
  }

  function Step<T>(env: Env<T>, st: State<T>, e: Event): State<T>
    requires Deliverable(st, e)
  {
    match e
    case Read(res, more, data) => OnRead(env, st, res, more, data)
    case WriteDone(buf, res) => OnWrite(env, st, buf, res)
  }

  /** A run: every event is deliverable when it happens. */
  predicate ValidRun<T>(env: Env<T>, st: State<T>, es: seq<Event>)
    decreases |es|
  {
    es == [] ||
    (Deliverable(st, es[0]) && ValidRun(env, Step(env, st, es[0]), es[1..]))
  }

  function Run<T>(env: Env<T>, st: State<T>, es: seq<Event>): State<T>
    requires ValidRun(env, st, es)
    decreases |es|
  {
    if es == [] then st else Run(env, Step(env, st, es[0]), es[1..])
  }
}
