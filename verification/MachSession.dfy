/** The mutable session and buffer ring of src/core/server.c, proved against the functions of
    module Session. */
module MachServer {
  import opened Bytes
  import opened Protocol
  import opened Framing
  import opened Session

  const NUM_BUFFERS := 16384
  const BUF_SIZE := 16384

  /** A provided buffer: its address and its id. */
  datatype Entry = Entry(address: int, bid: nat)

  function BufferEntry(base: int, bid: nat): Entry { Entry(base + bid * BUF_SIZE, bid) }

  /** The 16384 buffers of 16384 bytes lie side by side from the base on, no two in the same place. */
  lemma BuffersApart(base: int, i: nat, j: nat)
    requires i < j < NUM_BUFFERS
    ensures NUM_BUFFERS == 16384 && BufferEntry(base, i).bid == i
    ensures base <= BufferEntry(base, i).address
    ensures BufferEntry(base, i).address + 16384 <= BufferEntry(base, j).address <= base + 16384 * 16384 - 16384
  {
  }

  /** The registered buffer ring: entries become visible to the kernel when the tail advances. */
  class BufRing {
    const base: int
    var entries: seq<Entry>
    var staged: seq<Entry>

    constructor (base: int)
      ensures this.base == base && entries == [] && staged == []
    {
      this.base := base;
      entries, staged := [], [];
    }

    method Add(address: int, bid: nat, offset: nat)
      requires offset == |staged|
      modifies this`staged
      ensures staged == old(staged) + [Entry(address, bid)]
    {
      staged := staged + [Entry(address, bid)];
    }

    method Advance(count: nat)
      requires count == |staged|
      modifies this
      ensures entries == old(entries + staged) && staged == []
    {
      entries := entries + staged;
      staged := [];
    }

    /** The add-and-advance pair that hands one buffer back. */
    method Return(address: int, bid: nat)
      requires staged == []
      modifies this
      ensures entries == old(entries) + [Entry(address, bid)] && staged == []
    {
      Add(address, bid, 0);
      Advance(1);
    }
  }

  /** The initial fill: every buffer once, each at its own address. */
  method InitRegisteredBufferRing(base: int) returns (ring: BufRing)
    ensures fresh(ring) && ring.base == base && ring.staged == []
    ensures ring.entries == seq(NUM_BUFFERS, bid requires 0 <= bid => BufferEntry(base, bid))
  {
    ring := new BufRing(base);
    for i := 0 to NUM_BUFFERS
      invariant ring.entries == [] && ring.base == base
      invariant ring.staged == seq(i, bid requires 0 <= bid => BufferEntry(base, bid))
    {
      ring.Add(base + i * BUF_SIZE, i, i);
    }
    ring.Advance(NUM_BUFFERS);
  }

  /** Dispatching does not look at the reassembly buffer. */
  lemma {:induction false} DispatchAllFrame<T>(env: Env<T>, st: State<T>, ms: seq<Message>, x: seq<byte>)
    ensures DispatchAll(env, st.(assembled := x), ms) == DispatchAll(env, st, ms).(assembled := x)
    decreases |ms|
  {
    hide Reply;
    if ms != [] {
      assert Dispatch(env, st.(assembled := x), ms[0]) == Dispatch(env, st, ms[0]).(assembled := x);
      DispatchAllFrame(env, Dispatch(env, st, ms[0]), ms[1..], x);
    }
  }

  lemma SendFrame<T>(env: Env<T>, st: State<T>, r: Response, x: seq<byte>)
    ensures SendUnlessClosing(env, st.(assembled := x), r) == SendUnlessClosing(env, st, r).(assembled := x)
  {
  }

  class MachSession<T> {
    const env: Env<T>
    const ring: BufRing
    const writePool: array<bool>
    const assembleBuf: array<byte>
    var clientFd: int
    var closing: bool
    var recvActive: bool
    var pendingWrites: int
    var heap: set<nat>
    var mallocs: nat
    var assembleLen: nat
    var trans: T
    ghost var log: seq<Effect>

    ghost predicate Valid()
      reads this, ring
    {
      && writePool.Length == MAX_CONCURRENT_WRITES
      && assembleBuf.Length == ASSEMBLE_SIZE
      && assembleLen <= ASSEMBLE_SIZE
      && ring.staged == []
    }

    ghost function Abs(): State<T>
      requires assembleLen <= assembleBuf.Length
      reads this, writePool, assembleBuf
    {
      State(clientFd, closing, recvActive, pendingWrites, writePool[..], heap, mallocs,
            assembleBuf[..assembleLen], trans, log)
    }

    /** The accept handler: a zeroed session with its first receive armed. */
    constructor (env: Env<T>, ring: BufRing, fd: nat, trans: T)
      requires ring.staged == []
      ensures Valid() && this.env == env && this.ring == ring
      ensures fresh(writePool) && fresh(assembleBuf)
      ensures Abs() == Accepted(fd, trans)
    {
      this.env, this.ring := env, ring;
      writePool := new bool[MAX_CONCURRENT_WRITES](_ => false);
      assembleBuf := new byte[ASSEMBLE_SIZE](_ => 0);
      clientFd, closing, recvActive, pendingWrites := fd, false, false, 0;
      heap, mallocs, assembleLen := {}, 0, 0;
      this.trans := trans;
      log := [];
      new;
      ArmReceive();
    }

    method ArmReceive()
      requires assembleLen <= assembleBuf.Length
      modifies this`recvActive, this`log
      ensures Abs() == Arm(old(Abs()))
    {
      recvActive := true;
      log := log + [ArmRecv(clientFd)];
    }

    method GetWriteResponse(size: nat) returns (buf: Option<BufRef>)
      requires Valid()
      modifies this`heap, this`mallocs, writePool
      ensures Valid() && (Abs(), buf) == Acquire(env, old(Abs()), size)
    {
      if size > MAX_WRITE_PAYLOAD {
        return None;
      }
      for i := 0 to MAX_CONCURRENT_WRITES
        invariant writePool[..] == old(writePool[..])
        invariant forall k :: 0 <= k < i ==> writePool[..][k]
      {
        if !writePool[i] {
          assert !writePool[..][i];
          writePool[i] := true;
          return Some(Slot(i));
        }
      }
      if env.malloc(mallocs) {
        heap := heap + {mallocs};
        buf := Some(Heap(mallocs));
      } else {
        buf := None;
      }
      mallocs := mallocs + 1;
    }

    method FreeWriteResponse(buf: BufRef)
      requires Valid() && InUse(Abs(), buf)
      modifies this`heap, writePool
      ensures Valid() && Abs() == Release(old(Abs()), buf)
    {
      match buf
      case Slot(i) => writePool[i] := false;
      case Heap(id) => heap := heap - {id};
    }

    /** Takes a buffer, fills in the response and submits it. */
    method SubmitResponse(r: Response)
      requires Valid()
      modifies this`heap, this`mallocs, this`pendingWrites, this`log, writePool
      ensures Valid() && Abs() == Send(env, old(Abs()), r)
    {
      var buf := GetWriteResponse(ResponseSize(r));
      if buf.Some? {
        pendingWrites := pendingWrites + 1;
        log := log + [Submit(buf.value, clientFd, r)];
      }
    }

    method SendError(sequenceId: uint32, code: uint32)
      requires Valid()
      modifies this`heap, this`mallocs, this`pendingWrites, this`log, writePool
      ensures Valid() && Abs() == SendUnlessClosing(env, old(Abs()), ErrorReply(sequenceId, code))
    {
      if closing {
        return;
      }
      SubmitResponse(ErrorReply(sequenceId, code));
    }

    /** The switch over the command of one complete message. */
    method DispatchMessage(header: Header, payload: seq<byte>)
      requires Valid()
      modifies this`heap, this`mallocs, this`pendingWrites, this`log, this`trans, writePool
      ensures Valid() && Abs() == Dispatch(env, old(Abs()), Message(header, payload))
    {
      hide Send, ErrorReply;
      var id := header.sequenceId;
      if header.command == CMD_START {
        if |payload| < START_SIZE {
          SendError(id, ERR_INVALID_PAYLOAD);
        } else {
          trans := env.start(trans, payload);
        }
      } else if header.command == CMD_INPUT {
        if |payload| < INPUT_SIZE {
          SendError(id, ERR_INVALID_PAYLOAD);
        } else {
          var (next, outcome) := env.process(trans, payload);
          trans := next;
          match outcome
          case Failed =>
            SendError(id, ERR_PROCESSING_FAILED);
          case Done(ns, vad, data) =>
            if !closing {
              SubmitResponse(Response(CMD_OUTPUT, id, OutputPayload(ns, vad, data)));
            }
        }
      } else if header.command == CMD_STOP {
        trans := env.stop(trans);
      } else if header.command == CMD_PING {
        if !closing {
          SubmitResponse(Response(CMD_PONG, id, []));
        }
      } else if header.command == CMD_DISCOVER {
        if !closing {
          SubmitResponse(Response(CMD_DISCOVER_REPLY, id, U32Net(env.workers) + Zeros(4)));
        }
      } else {
        SendError(id, ERR_INVALID_COMMAND);
      }
    }

    /** Appends the received bytes to the reassembly buffer. */
    method Assemble(data: seq<byte>)
      requires Valid() && assembleLen + |data| <= ASSEMBLE_SIZE
      modifies this`assembleLen, assembleBuf
      ensures Valid() && Abs() == old(Abs()).(assembled := old(Abs()).assembled + data)
    {
      forall i | 0 <= i < |data| {
        assembleBuf[assembleLen + i] := data[i];
      }
      assembleLen := assembleLen + |data|;
    }

    /** Moves the unconsumed suffix to the front. */
    method Compact(offset: nat)
      requires Valid() && offset <= assembleLen
      modifies this`assembleLen, assembleBuf
      ensures Valid() && Abs() == old(Abs()).(assembled := old(Abs()).assembled[offset..])
    {
      if 0 < offset < assembleLen {
        forall i | 0 <= i < assembleLen - offset {
          assembleBuf[i] := assembleBuf[offset + i];
        }
        assembleLen := assembleLen - offset;
      } else if offset == assembleLen {
        assembleLen := 0;
      }
    }

    /** process_client_read. Every path hands the provided buffer back exactly once. */
    method ProcessClientRead(data: seq<byte>, address: int, bid: nat)
      requires Valid()
      modifies this, writePool, assembleBuf, ring
      ensures Valid() && Abs() == ProcessRead(env, old(Abs()), data)
      ensures ring.entries == old(ring.entries) + [Entry(address, bid)]
    {
      hide DispatchAll, Dispatch, Messages, Rest, Front, DecodeHeader, ErrorReply, SendUnlessClosing;
      if assembleLen + |data| > ASSEMBLE_SIZE {
        closing := true;
      } else {
        Assemble(data);
        var offset := DispatchComplete(old(Abs()));
        Compact(offset);
      }
      ring.Return(address, bid);
    }

    /** The framing loop. It returns how many bytes it consumed. */
    method DispatchComplete(ghost start: State<T>) returns (offset: nat)
      requires Valid() && Abs() == start.(assembled := Abs().assembled)
      modifies this`heap, this`mallocs, this`pendingWrites, this`log, this`trans, this`closing, writePool
      ensures Valid() && offset <= assembleLen
      ensures var bytes := old(Abs()).assembled;
              var rest := Rest(Server, bytes);
              var done := DispatchAll(env, start, Messages(Server, bytes));
              && Abs().assembled == bytes && bytes[offset..] == rest
              && Abs().(assembled := rest) ==
                 if Rejected(Server, rest) then
                   SendUnlessClosing(env, done, ErrorReply(Front(rest).sequenceId, ERR_INVALID_MAGIC)).(
                     closing := true, assembled := rest)
                 else done.(assembled := rest)
    {
      hide Dispatch, DecodeHeader, ErrorReply, Send, ValidateHeader, Messages, Rest, Ready, Rejected, Front,
           DispatchAll, SendUnlessClosing;
      ghost var st0, bytes := Abs(), Abs().assembled;
      DispatchAllFrame(env, start, Messages(Server, bytes), bytes);
      offset := 0;
      assert bytes[0..] == bytes;
      while assembleLen - offset >= HEADER_SIZE
        invariant Valid() && offset <= assembleLen
        invariant Abs().assembled == bytes
        invariant DispatchAll(env, Abs(), Messages(Server, bytes[offset..])) ==
                  DispatchAll(env, st0, Messages(Server, bytes))
        invariant Rest(Server, bytes[offset..]) == Rest(Server, bytes)
      {
        FrameAt(Server, bytes, offset);
        NothingDispatched(Abs());
        assert bytes[offset..offset + HEADER_SIZE] == assembleBuf[offset..offset + HEADER_SIZE];
        var header := ReadHeader(assembleBuf[offset..offset + HEADER_SIZE]);
        if !ValidateHeader(header) {
          SendFrame(env, DispatchAll(env, start, Messages(Server, bytes)),
            ErrorReply(header.sequenceId, ERR_INVALID_MAGIC), bytes);
          SendError(header.sequenceId, ERR_INVALID_MAGIC);
          closing := true;
          return;
        }
        if assembleLen - offset < MessageSize(header) {
          return;
        }
        offset := DispatchNext(header, offset);
      }
      FrameAt(Server, bytes, offset);
      NothingDispatched(Abs());
    }

    lemma NothingDispatched(st: State<T>)
      ensures DispatchAll(env, st, []) == st
    {
    }

    /** One turn of it: the complete message at an offset is dispatched. */
    method DispatchNext(header: Header, offset: nat) returns (end: nat)
      requires Valid() && offset + MessageSize(header) <= assembleLen
      requires Ready(Server, Abs().assembled[offset..]) && header == Front(Abs().assembled[offset..])
      modifies this`heap, this`mallocs, this`pendingWrites, this`log, this`trans, writePool
      ensures Valid() && offset < end == offset + MessageSize(header) && Abs().assembled == old(Abs()).assembled
      ensures var bytes := old(Abs()).assembled;
              && Rest(Server, bytes[end..]) == Rest(Server, bytes[offset..])
              && DispatchAll(env, Abs(), Messages(Server, bytes[end..])) ==
                 DispatchAll(env, old(Abs()), Messages(Server, bytes[offset..]))
    {
      hide Dispatch, DecodeHeader, ErrorReply, Send, ValidateHeader, Messages, Rest, Ready, Rejected, Front,
           DispatchAll;
      ghost var bytes := Abs().assembled;
      end := offset + MessageSize(header);
      FrameAt(Server, bytes, offset);
      var payload := assembleBuf[offset + HEADER_SIZE..end];
      Part(assembleBuf[..], assembleLen, offset + HEADER_SIZE, end);
      NextDispatched(Abs(), Message(header, payload), Messages(Server, bytes[end..]));
      DispatchMessage(header, payload);
    }

    lemma Part(buf: seq<byte>, n: nat, lo: nat, hi: nat)
      requires lo <= hi <= n <= |buf|
      ensures buf[..n][lo..hi] == buf[lo..hi]
    {
    }

    lemma NextDispatched(st: State<T>, m: Message, ms: seq<Message>)
      ensures DispatchAll(env, st, [m] + ms) == DispatchAll(env, Dispatch(env, st, m), ms)
    {
      assert ([m] + ms)[1..] == ms;
    }

    method CleanupIfNeeded()
      requires Valid()
      modifies this`clientFd, this`trans, this`log
      ensures Valid() && Abs() == Cleanup(env, old(Abs()))
    {
      if closing && pendingWrites == 0 {
        if clientFd != -1 {
          log := log + [CloseFd(clientFd)];
          clientFd := -1;
        }
        if !recvActive {
          trans := env.stop(trans);
          log := log + [FreeSession];
        }
      }
    }

    /** The IO_OP_READ case: result, MORE flag, and the selected buffer if there is one. */
    method HandleRead(res: int, more: bool, buffer: Option<nat>, data: seq<byte>)
      requires Valid() && (res > 0 && buffer.Some? ==> |data| == res)
      modifies this, writePool, assembleBuf, ring
      ensures Valid()
      ensures Abs() == OnRead(env, old(Abs()), res, more, if buffer.Some? then Some(data) else None)
      ensures ring.entries == old(ring.entries) + (if buffer.Some? then [BufferEntry(ring.base, buffer.value)] else [])
    {
      hide Cleanup, Arm, ProcessRead;
      if !more {
        recvActive := false;
      }
      var address := 0;
      if buffer.Some? {
        address := ring.base + buffer.value * BUF_SIZE;
      }
      if res <= 0 {
        if buffer.Some? {
          ring.Return(address, buffer.value);
        }
        if res == -ENOBUFS {
          ArmReceive();
        } else {
          closing := true;
          CleanupIfNeeded();
        }
      } else {
        if buffer.Some? {
          ProcessClientRead(data, address, buffer.value);
        }
        if !closing && !more {
          ArmReceive();
        }
        if closing {
          CleanupIfNeeded();
        }
      }
    }

    /** The IO_OP_WRITE case. */
    method HandleWrite(buf: BufRef, res: int)
      requires Valid() && InUse(Abs(), buf)
      modifies this, writePool
      ensures Valid() && Abs() == OnWrite(env, old(Abs()), buf, res)
    {
      hide Cleanup;
      pendingWrites := pendingWrites - 1;
      if res < 0 {
        if !closing {
          closing := true;
        }
      }
      FreeWriteResponse(buf);
      CleanupIfNeeded();
    }
  }
}
