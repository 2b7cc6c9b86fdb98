/** The client connection of src/client/main.c: the growing reassembly buffer with its framing loop and
    statistics, and the timer tick that sends the next chunk. */
module Client {
  import opened Bytes
  import opened Memory
  import opened Protocol
  import opened Framing
  import opened ClientStats
  import opened ClientChunks

  const FIRST_CAPACITY := 8192

  /** The buffer never grows past twice what some read needed, apart from its first size. */
  predicate Economical(capacity: nat, needed: nat) {
    capacity <= FIRST_CAPACITY || capacity < 2 * needed
  }

  /** A zeroed buffer that has been written up to some point. */
  ghost predicate Written(buf: seq<byte>, at: nat, s: seq<byte>) {
    at <= |buf| && buf[..at] == s && forall i :: at <= i < |buf| ==> buf[i] == 0
  }

  /** Both offsets now have a whole chunk after them. */
  ghost predicate Rewound(c: ClientConfig, st: SendState, next: SendState) {
    && next.sequenceId == st.sequenceId && next.totalSent == st.totalSent
    && next.offset + ChunkSize(c) <= |c.input| && Rewind(c, st.offset, |c.input|) == Some(next.offset)
    && (if c.input2.None? then next.offset2 == st.offset2
        else
          next.offset2 + ChunkSize(c) <= |c.input2.value| &&
          Rewind(c, st.offset2, |c.input2.value|) == Some(next.offset2))
  }

  /** The chunks at the offsets were taken and counted. */
  ghost predicate Taken(c: ClientConfig, st: SendState, next: SendState, bs: seq<Buffer>)
    requires st.offset + ChunkSize(c) <= |c.input| && (c.input2.Some? ==> st.offset2 + ChunkSize(c) <= |c.input2.value|)
  {
    var size := ChunkSize(c);
    && next.sequenceId == st.sequenceId && next.offset == st.offset + size
    && (if c.input2.None? then
          bs == [ChunkAt(c, c.input, st.offset)] && next.offset2 == st.offset2 &&
            next.totalSent == Wrap64(st.totalSent as int + size)
        else
          && bs == [ChunkAt(c, c.input, st.offset), ChunkAt(c, c.input2.value, st.offset2)]
          && next.offset2 == st.offset2 + size
          && next.totalSent == Wrap64(Wrap64(st.totalSent as int + size) as int + size))
  }

  lemma TickFrom(c: ClientConfig, st: SendState, rewound: SendState, taken: SendState, bs: seq<Buffer>)
    requires Sendable(c) && Rewound(c, st, rewound) && Taken(c, rewound, taken, bs)
    ensures Tick(c, st) == (taken.(sequenceId := Wrap32(st.sequenceId as int + 1)), Some(bs))
  {
    hide ChunkSize, PayloadLen, Wrap64, Rewind;
    WrapAdd(st.totalSent, ChunkSize(c), ChunkSize(c));
  }

  class ClientConnection {
    const config: ClientConfig
    var offset: nat
    var offset2: nat
    var sequenceId: uint32
    var totalSent: uint64
    /** read_buf; its length is read_buf_cap, 0 while read_buf is NULL. */
    var readBuf: array<byte>
    var readBufLen: nat
    var totalReceived: uint64
    var minDurationNs: uint64
    var maxDurationNs: uint64
    var sumDurationNs: uint64
    var countReceived: uint64
    /** There is an output file, and what has been written to it. */
    const recording: bool
    var outputFile: seq<byte>

    constructor (config: ClientConfig, recording: bool)
      ensures this.config == config && this.recording == recording && Sending() == SendState(0, 0, 0, 0)
      ensures Valid() && fresh(readBuf) && Buffered() == [] && Statistics() == NO_STATS && outputFile == []
    {
      this.config, this.recording := config, recording;
      offset, offset2, sequenceId, totalSent := 0, 0, 0, 0;
      readBuf, readBufLen := new byte[0], 0;
      totalReceived, minDurationNs, maxDurationNs, sumDurationNs, countReceived := 0, UINT64_MAX, 0, 0, 0;
      outputFile := [];
    }

    ghost predicate Valid()
      reads this
    {
      readBufLen <= readBuf.Length
    }

    /** The unconsumed bytes. */
    ghost function Buffered(): seq<byte>
      requires Valid()
      reads this, readBuf
    {
      readBuf[..readBufLen]
    }

    function Statistics(): Stats
      reads this
    {
      Stats(totalReceived, minDurationNs, maxDurationNs, sumDurationNs, countReceived)
    }

    function Sending(): SendState
      reads this
    {
      SendState(offset, offset2, sequenceId, totalSent)
    }

    /** Makes room by doubling. A failed realloc leaves the old buffer. */
    method Grow(needed: nat, reallocOk: bool) returns (ok: bool)
      requires Valid() && needed > readBuf.Length
      modifies this`readBuf
      ensures Valid() && ok == reallocOk
      ensures ok ==> fresh(readBuf) && needed <= readBuf.Length && Economical(readBuf.Length, needed)
      ensures !ok ==> readBuf == old(readBuf)
      ensures readBuf[..readBufLen] == old(readBuf[..readBufLen])
    {
      var newCap := if readBuf.Length == 0 then FIRST_CAPACITY else readBuf.Length * 2;
      while needed > newCap
        invariant newCap > 0 && Economical(newCap, needed)
        decreases needed - newCap
      {
        newCap := newCap * 2;
      }
      ok := reallocOk;
      if ok {
        var newBuf := new byte[newCap];
        forall i | 0 <= i < readBuf.Length {
          newBuf[i] := readBuf[i];
        }
        readBuf := newBuf;
      }
    }

    /** on_read. A positive nread appends that much of the libuv buffer and consumes whole messages; a
        failed realloc drops the read; a negative nread closes the stream. */
    method OnRead(nread: int, data: seq<byte>, reallocOk: bool) returns (closed: bool)
      requires Valid() && nread <= |data|
      requires nread > 0 ==> Readable(recording, Messages(Client, Buffered() + data[..nread]))
      modifies this, readBuf
      ensures Valid() && closed == (nread < 0) && Sending() == old(Sending())
      ensures var taken := nread > 0 && (old(readBufLen) + nread <= old(readBuf.Length) || reallocOk);
              if !taken then
                readBuf == old(readBuf) && Buffered() == old(Buffered()) && Statistics() == old(Statistics()) &&
                  outputFile == old(outputFile)
              else
                var stream := old(Buffered()) + data[..nread];
                && Buffered() == Rest(Client, stream)
                && Statistics() == RecordAll(old(Statistics()), Messages(Client, stream))
                && outputFile == old(outputFile) + AudioFor(recording, Messages(Client, stream))
      ensures readBuf == old(readBuf) || (fresh(readBuf) && Economical(readBuf.Length, old(readBufLen) + nread))
    {
      hide Messages, Rest, AudioFor, RecordAll, Readable;
      closed := nread < 0;
      if nread <= 0 {
        return;
      }
      if readBufLen + nread > readBuf.Length {
        var ok := Grow(readBufLen + nread, reallocOk);
        if !ok {
          return;
        }
      }
      CopyIn(readBuf, readBufLen, data[..nread]);
      ghost var stream := old(Buffered()) + data[..nread];
      readBufLen := readBufLen + nread;
      assert readBuf[..readBufLen] == stream;
      Consume(stream);
    }

    /** send_input_chunk: one tick. Nothing is sent when the timer stops. */
    method SendInputChunk() returns (sent: Option<seq<byte>>)
      requires Sendable(config)
      modifies this`offset, this`offset2, this`sequenceId, this`totalSent
      ensures var (next, bs) := Tick(config, old(Sending()));
              && Sending() == next
              && sent == if bs.None? then None else Some(RequestBytes(config, old(sequenceId), bs.value))
    {
      hide ChunkSize, PayloadLen, RequestBytes, Wrap64, Wrap32;
      ChunkFits(config);
      ghost var st := Sending();
      var ok := RewindFiles();
      if !ok {
        return None;
      }
      ghost var rewound := Sending();
      var bs := TakeChunks();
      TickFrom(config, st, rewound, Sending(), bs);
      var bytes := Print(config, sequenceId, bs);
      sequenceId := Wrap32(sequenceId as int + 1);
      sent := Some(bytes);
    }

    /** Back to the start of a used-up file, or give up. */
    method RewindFiles() returns (ok: bool)
      requires Sendable(config)
      modifies this`offset, this`offset2
      ensures sequenceId == old(sequenceId) && totalSent == old(totalSent)
      ensures ok ==> Rewound(config, old(Sending()), Sending())
      ensures !ok ==> Sending() == Tick(config, old(Sending())).0 && Tick(config, old(Sending())).1.None?
    {
      hide ChunkSize, PayloadLen;
      ok := true;
      var chunkSize := ChunkSize(config);
      if offset + chunkSize > |config.input| {
        if !config.loop {
          return false;
        }
        offset := 0;
      }
      if config.input2.Some? && offset2 + chunkSize > |config.input2.value| {
        if !config.loop {
          return false;
        }
        offset2 := 0;
      }
    }

    method TakeChunks() returns (bs: seq<Buffer>)
      requires offset + ChunkSize(config) <= |config.input|
      requires config.input2.Some? ==> offset2 + ChunkSize(config) <= |config.input2.value|
      modifies this`offset, this`offset2, this`totalSent
      ensures Taken(config, old(Sending()), Sending(), bs)
    {
      hide ChunkSize, Wrap64;
      var chunkSize := ChunkSize(config);
      bs := [ChunkAt(config, config.input, offset)];
      offset := offset + chunkSize;
      totalSent := Wrap64(totalSent as int + chunkSize);
      if config.input2.Some? {
        bs := bs + [ChunkAt(config, config.input2.value, offset2)];
        offset2 := offset2 + chunkSize;
        totalSent := Wrap64(totalSent as int + chunkSize);
      }
    }

    /** The framing loop and the move of the unconsumed bytes to the front. */
    method Consume(ghost stream: seq<byte>)
      requires Valid() && readBuf[..readBufLen] == stream && Readable(recording, Messages(Client, stream))
      modifies this`readBufLen, this`totalReceived, this`minDurationNs, this`maxDurationNs, this`sumDurationNs,
               this`countReceived,
               this`outputFile, readBuf
      ensures Valid() && Buffered() == Rest(Client, stream)
      ensures Statistics() == RecordAll(old(Statistics()), Messages(Client, stream))
      ensures outputFile == old(outputFile) + AudioFor(recording, Messages(Client, stream))
    {
      hide Messages, Rest, AudioFor, RecordAll, Readable, LoopState, Ready, Front, DecodeHeader;
      ghost var stats0, file0 := Statistics(), outputFile;
      ghost var done: seq<Message> := [];
      var ptr: nat, remaining: nat := 0, readBufLen;
      LoopStart(recording, stream, stats0, file0);
      var more := remaining >= HEADER_SIZE;
      if !more {
        LoopStuck(stream, ptr);
      }
      while more
        invariant Valid() && ptr + remaining == readBufLen && readBuf[..readBufLen] == stream
        invariant LoopState(recording, stream, ptr, done, stats0, Statistics(), file0, outputFile)
        invariant if more then remaining >= HEADER_SIZE else !Ready(Client, stream[ptr..])
        decreases remaining, more
      {
        more, ptr, remaining, done := TakeMessage(ptr, remaining, stream, done, stats0, file0);
      }
      LoopEnd(recording, stream, ptr, done, stats0, Statistics(), file0, outputFile);
      if remaining < readBufLen {
        MoveBytes(readBuf, 0, ptr, remaining);
        readBufLen := remaining;
      }
    }

    /** One turn: stop at a bad magic or a partial message, else record the message and step over it. */
    method TakeMessage(ptr0: nat, remaining0: nat, ghost stream: seq<byte>, ghost done0: seq<Message>,
        ghost stats0: Stats, ghost file0: seq<byte>)
      returns (more: bool, ptr: nat, remaining: nat, ghost done: seq<Message>)
      requires Valid() && ptr0 + remaining0 == readBufLen && remaining0 >= HEADER_SIZE &&
               readBuf[..readBufLen] == stream
      requires LoopState(recording, stream, ptr0, done0, stats0, Statistics(), file0, outputFile)
      modifies this`totalReceived, this`minDurationNs, this`maxDurationNs, this`sumDurationNs, this`countReceived,
               this`outputFile
      ensures ptr + remaining == readBufLen
      ensures LoopState(recording, stream, ptr, done, stats0, Statistics(), file0, outputFile)
      ensures if more then HEADER_SIZE <= remaining < remaining0
              else remaining <= remaining0 && !Ready(Client, stream[ptr..])
    {
      hide LoopState, Ready, Front, DecodeHeader, WellFormed, Readable, SeenRecord, AudioPart, Timed;
      more, ptr, remaining, done := false, ptr0, remaining0, done0;
      var header := ReadHeader(readBuf[ptr..ptr + HEADER_SIZE]);
      assert readBuf[ptr..ptr + HEADER_SIZE] == stream[ptr..ptr + HEADER_SIZE];
      LoopHeader(recording, stream, ptr, done, stats0, Statistics(), file0, outputFile);
      if header.magic != AUDIO_MAGIC {
        return;
      }
      if remaining < HEADER_SIZE + header.payloadLen {
        return;
      }
      var msgTotal := HEADER_SIZE + header.payloadLen;
      ghost var m := Message(header, stream[ptr + HEADER_SIZE..ptr + msgTotal]);
      ghost var before, file := Statistics(), outputFile;
      OutputRoom(recording, m);
      RecordMessage(header, ptr);
      LoopRecorded(recording, stream, readBuf[..], ptr, done, stats0, before, file0, file);
      ptr, remaining := ptr + msgTotal, remaining - msgTotal;
      done := done + [m];
      more := remaining >= HEADER_SIZE;
      if !more {
        LoopStuck(stream, ptr);
      }
    }

    /** The part of a turn that reads an output: the statistics from the eight bytes after its header, and the
        audio behind the payload header, if there is a file for it. */
    method RecordMessage(header: Header, ptr: nat)
      requires header.command == CMD_OUTPUT ==> ptr + HEADER_SIZE + 8 <= readBuf.Length
      requires header.command == CMD_OUTPUT && recording ==>
                 OUTPUT_SIZE <= header.payloadLen && ptr + MessageSize(header) <= readBuf.Length
      modifies this`totalReceived, this`minDurationNs, this`maxDurationNs, this`sumDurationNs, this`countReceived,
               this`outputFile
      ensures Statistics() == SeenRecord(old(Statistics()), readBuf[..], ptr, header)
      ensures outputFile == old(outputFile) +
              (if header.command == CMD_OUTPUT && recording
               then readBuf[..][ptr + HEADER_SIZE + OUTPUT_SIZE..ptr + MessageSize(header)] else [])
    {
      hide NetU64, Wrap64;
      if header.command == CMD_OUTPUT {
        var payload := ptr + HEADER_SIZE;
        var durationNs := NetU64(readBuf[payload..payload + 8]);
        assert readBuf[payload..payload + 8] == readBuf[..][payload..payload + 8];
        countReceived := Wrap64(countReceived as int + 1);
        totalReceived := Wrap64(totalReceived as int + header.payloadLen - OUTPUT_SIZE);
        sumDurationNs := Wrap64(sumDurationNs as int + durationNs);
        if durationNs < minDurationNs {
          minDurationNs := durationNs;
        }
        if durationNs > maxDurationNs {
          maxDurationNs := durationNs;
        }
        if recording {
          outputFile := outputFile + readBuf[payload + OUTPUT_SIZE..payload + header.payloadLen];
        }
      }
    }
  }

  /** Messages that the client can read: with room for their durations, and for their payload headers if the
      audio is written to a file. */
  predicate Readable(recording: bool, ms: seq<Message>) {
    AllTimed(ms) && (recording ==> AllWellFormed(ms))
  }

  /** The audio that goes to the file, if there is one. */
  function AudioFor(recording: bool, ms: seq<Message>): seq<byte>
    requires Readable(recording, ms)
  {
    if recording then Audio(ms) else []
  }

  /** One message's part of it. */
  function AudioPart(recording: bool, m: Message): seq<byte>
    requires Readable(recording, [m])
  {
    assert m in [m];
    if recording && m.header.command == CMD_OUTPUT then m.payload[OUTPUT_SIZE..] else []
  }

  /** Midway through a stream: the messages before ptr are recorded, the rest is still framed from there. */
  ghost predicate LoopState(recording: bool, stream: seq<byte>, ptr: nat, done: seq<Message>, stats0: Stats,
      stats: Stats,
      file0: seq<byte>, file: seq<byte>) {
    && ptr <= |stream| && Readable(recording, Messages(Client, stream)) && Readable(recording, done)
    && Messages(Client, stream) == done + Messages(Client, stream[ptr..])
    && Rest(Client, stream) == Rest(Client, stream[ptr..])
    && stats == RecordAll(stats0, done) && file == file0 + AudioFor(recording, done)
  }

  lemma LoopStart(recording: bool, stream: seq<byte>, stats0: Stats, file0: seq<byte>)
    requires Readable(recording, Messages(Client, stream))
    ensures LoopState(recording, stream, 0, [], stats0, stats0, file0, file0)
  {
    hide Messages, Rest, WellFormed;
    assert stream[0..] == stream;
    assert [] + Messages(Client, stream) == Messages(Client, stream);
    assert file0 + [] == file0;
  }

  lemma LoopStuck(stream: seq<byte>, ptr: nat)
    requires ptr <= |stream| < ptr + HEADER_SIZE
    ensures !Ready(Client, stream[ptr..])
  {
  }

  /** What the header at ptr decides. */
  lemma LoopHeader(recording: bool, stream: seq<byte>, ptr: nat, done: seq<Message>, stats0: Stats, stats: Stats,
      file0: seq<byte>, file: seq<byte>)
    requires ptr + HEADER_SIZE <= |stream| && LoopState(recording, stream, ptr, done, stats0, stats, file0, file)
    ensures var h := DecodeHeader(stream[ptr..ptr + HEADER_SIZE]);
            var end := ptr + HEADER_SIZE + h.payloadLen;
            && (Ready(Client, stream[ptr..]) <==> h.magic == AUDIO_MAGIC && end <= |stream|)
            && (Ready(Client, stream[ptr..]) ==> Readable(recording, [Message(h, stream[ptr + HEADER_SIZE..end])]))
  {
    hide Messages, Rest, AudioFor, RecordAll, Ready, Front, DecodeHeader, WellFormed, Timed;
    FrameAt(Client, stream, ptr);
    if Ready(Client, stream[ptr..]) {
      var m := Messages(Client, stream[ptr..])[0];
      assert Messages(Client, stream)[|done|] == m;
    }
  }

  /** What RecordMessage computes from the buffer is the next message's part. */
  lemma LoopRecorded(recording: bool, stream: seq<byte>, buffer: seq<byte>, ptr: nat, done: seq<Message>,
      stats0: Stats, stats: Stats, file0: seq<byte>, file: seq<byte>)
    requires ptr + HEADER_SIZE <= |stream| <= |buffer| && buffer[..|stream|] == stream
    requires LoopState(recording, stream, ptr, done, stats0, stats, file0, file) && Ready(Client, stream[ptr..])
    ensures var h := DecodeHeader(stream[ptr..ptr + HEADER_SIZE]);
            var end := ptr + MessageSize(h);
            && end <= |stream|
            && (h.command == CMD_OUTPUT ==> h.payloadLen >= 8 && (recording ==> h.payloadLen >= OUTPUT_SIZE))
            && (var audio := if h.command == CMD_OUTPUT && recording
                             then buffer[ptr + HEADER_SIZE + OUTPUT_SIZE..end] else [];
                LoopState(recording, stream, end, done + [Message(h, stream[ptr + HEADER_SIZE..end])], stats0,
                          SeenRecord(stats, buffer, ptr, h), file0, file + audio))
  {
    hide LoopState, Ready, DecodeHeader, Record, SeenRecord, Timed, AudioPart, Readable;
    LoopTaken(recording, stream, ptr, done, stats0, stats, file0, file);
    var h := DecodeHeader(stream[ptr..ptr + HEADER_SIZE]);
    var m := Message(h, stream[ptr + HEADER_SIZE..ptr + MessageSize(h)]);
    assert buffer[ptr + HEADER_SIZE..ptr + MessageSize(h)] == m.payload;
    OutputRoom(recording, m);
    SeenIsRecorded(stats, buffer, ptr, m);
    if h.command == CMD_OUTPUT && recording {
      assert buffer[ptr + HEADER_SIZE + OUTPUT_SIZE..ptr + MessageSize(h)] == m.payload[OUTPUT_SIZE..];
    }
  }

  lemma LoopTaken(recording: bool, stream: seq<byte>, ptr: nat, done: seq<Message>, stats0: Stats, stats: Stats,
      file0: seq<byte>,
      file: seq<byte>)
    requires ptr + HEADER_SIZE <= |stream| && LoopState(recording, stream, ptr, done, stats0, stats, file0, file)
    requires Ready(Client, stream[ptr..])
    ensures var h := DecodeHeader(stream[ptr..ptr + HEADER_SIZE]);
            var end := ptr + HEADER_SIZE + h.payloadLen;
            && end <= |stream|
            && (var m := Message(h, stream[ptr + HEADER_SIZE..end]);
                && Readable(recording, [m]) && Timed(m)
                && LoopState(recording, stream, end, done + [m], stats0, Record(stats, m), file0,
                             file + AudioPart(recording, m)))
  {
    hide Messages, Rest, AudioFor, AudioPart, RecordAll, Ready, Front, DecodeHeader, Readable, Record, Timed;
    LoopHeader(recording, stream, ptr, done, stats0, stats, file0, file);
    FrameAt(Client, stream, ptr);
    var h := DecodeHeader(stream[ptr..ptr + HEADER_SIZE]);
    var end := ptr + HEADER_SIZE + h.payloadLen;
    var m := Message(h, stream[ptr + HEADER_SIZE..end]);
    ReadSnoc(recording, stats0, done, m);
    assert done + ([m] + Messages(Client, stream[end..])) == done + [m] + Messages(Client, stream[end..]);
    var audio := AudioPart(recording, m);
    assert file0 + (AudioFor(recording, done) + audio) == file0 + AudioFor(recording, done) + audio;
  }

  lemma ReadSnoc(recording: bool, s: Stats, ms: seq<Message>, m: Message)
    requires Readable(recording, ms) && Readable(recording, [m])
    ensures Timed(m) && Readable(recording, ms + [m])
    ensures RecordAll(s, ms + [m]) == Record(RecordAll(s, ms), m)
    ensures AudioFor(recording, ms + [m]) == AudioFor(recording, ms) + AudioPart(recording, m)
  {
    assert m in [m];
    hide RecordAll, Record, Audio, Timed;
    RecordSnoc(s, ms, m);
    if recording {
      AudioSnoc(ms, m);
    } else {
      assert [] + AudioPart(recording, m) == AudioFor(recording, ms + [m]);
    }
  }

  lemma OutputRoom(recording: bool, m: Message)
    requires Readable(recording, [m])
    ensures m.header.command == CMD_OUTPUT ==>
              |m.payload| >= 8 && (recording ==> |m.payload| >= OUTPUT_SIZE)
    ensures Timed(m)
    ensures AudioPart(recording, m) ==
            if recording && m.header.command == CMD_OUTPUT then m.payload[OUTPUT_SIZE..] else []
  {
    assert m in [m];
  }

  lemma LoopEnd(recording: bool, stream: seq<byte>, ptr: nat, done: seq<Message>, stats0: Stats, stats: Stats,
      file0: seq<byte>,
      file: seq<byte>)
    requires LoopState(recording, stream, ptr, done, stats0, stats, file0, file) && !Ready(Client, stream[ptr..])
    ensures done == Messages(Client, stream) && stream[ptr..] == Rest(Client, stream)
    ensures stats == RecordAll(stats0, Messages(Client, stream)) &&
            file == file0 + AudioFor(recording, Messages(Client, stream))
  {
    hide Ready, AudioFor, RecordAll, Readable;
    assert done + [] == done;
  }

  // ---------------------------------------------------------------- printing a request

  /** Writes data, then skips zeroed bytes. */
  method Append(buf: array<byte>, at: nat, data: seq<byte>, skip: nat, ghost s: seq<byte>) returns (next: nat)
    requires Written(buf[..], at, s) && at + |data| + skip <= buf.Length
    modifies buf
    ensures next == at + |data| + skip && Written(buf[..], next, s + data + Zeros(skip))
  {
    ghost var before := buf[..];
    CopyIn(buf, at, data);
    next := at + |data| + skip;
    AppendedBytes(before, buf[..], at, data, skip, s);
  }

  lemma AppendedBytes(before: seq<byte>, after: seq<byte>, at: nat, data: seq<byte>, skip: nat, s: seq<byte>)
    requires Written(before, at, s) && at + |data| + skip <= |before|
    requires SameOutside(before, after, at, at + |data|) && after[at..at + |data|] == data
    ensures Written(after, at + |data| + skip, s + data + Zeros(skip))
  {
    var a, b := after[..at + |data| + skip], s + data + Zeros(skip);
    forall i | 0 <= i < |a| ensures a[i] == b[i] {
      if i < at {
        assert before[..at][i] == after[i];
      } else if i < at + |data| {
        assert after[at..at + |data|][i - at] == after[i];
      }
    }
  }

  method AppendBuffer(buf: array<byte>, at: nat, b: Buffer, ghost s: seq<byte>) returns (next: nat)
    requires |b.data| < TWO32 && Written(buf[..], at, s) && at + BUFFER_HEADER_SIZE + PaddedSize(|b.data|) <= buf.Length
    modifies buf
    ensures next == at + BUFFER_HEADER_SIZE + PaddedSize(|b.data|) && Written(buf[..], next, s + EncodeBuffer(b))
  {
    var pad := PaddedSize(|b.data|) - |b.data|;
    assert s + EncodeBuffer(b) == s + U32Net(|b.data|) + Zeros(0) + U32Net(b.volumeBits) + Zeros(0) + b.data +
      Zeros(pad);
    hide Written, U32Net, EncodeBuffer, PaddedSize;
    next := Append(buf, at, U32Net(|b.data|), 0, s);
    next := Append(buf, next, U32Net(b.volumeBits), 0, s + U32Net(|b.data|) + Zeros(0));
    next := Append(buf, next, b.data, pad, s + U32Net(|b.data|) + Zeros(0) + U32Net(b.volumeBits) + Zeros(0));
  }

  method AppendHeader(buf: array<byte>, h: Header) returns (next: nat)
    requires Written(buf[..], 0, []) && HEADER_SIZE <= buf.Length
    modifies buf
    ensures next == HEADER_SIZE && Written(buf[..], next, EncodeHeader(h))
  {
    ghost var s1 := [] + U32Net(h.magic) + Zeros(0);
    ghost var s2 := s1 + U16Net(h.version) + Zeros(0);
    ghost var s3 := s2 + U16Net(h.command) + Zeros(0);
    ghost var s4 := s3 + U32Net(h.sequenceId) + Zeros(0);
    assert s4 + U32Net(h.payloadLen) + Zeros(0) == EncodeHeader(h);
    hide Written, U32Net, U16Net, EncodeHeader;
    next := Append(buf, 0, U32Net(h.magic), 0, []);
    next := Append(buf, next, U16Net(h.version), 0, s1);
    next := Append(buf, next, U16Net(h.command), 0, s2);
    next := Append(buf, next, U32Net(h.sequenceId), 0, s3);
    next := Append(buf, next, U32Net(h.payloadLen), 0, s4);
  }

  /** Fills a zeroed buffer with the message. */
  method Print(c: ClientConfig, sequenceId: uint32, bs: seq<Buffer>) returns (bytes: seq<byte>)
    requires PayloadLen(c) < TWO32 && |bs| == (if c.input2.Some? then 2 else 1) && forall b :: b in bs ==>
             |b.data| == ChunkSize(c)
    ensures ChunkSize(c) < TWO32 && bytes == RequestBytes(c, sequenceId, bs)
  {
    ChunkFits(c);
    PayloadSize(c, bs);
    PrintedAs(c, sequenceId, bs);
    hide ChunkSize, Written, EncodeHeader, EncodeBuffer, EncodeBuffers, U32Net, RequestBytes, PaddedSize;
    var payloadLen := PayloadLen(c);
    var totalLen := HEADER_SIZE + payloadLen;
    var buf := new byte[totalLen](_ => 0);
    NothingWritten(buf[..]);
    var h := RequestHeader(sequenceId, payloadLen);
    var at := AppendHeader(buf, h);
    at := Append(buf, at, U32Net(|bs|), 4, EncodeHeader(h));
    ghost var s := EncodeHeader(h) + U32Net(|bs|) + Zeros(4);
    assert bs[0] in bs;
    at := AppendBuffer(buf, at, bs[0], s);
    if |bs| > 1 {
      assert bs[1] in bs;
      at := AppendBuffer(buf, at, bs[1], s + EncodeBuffer(bs[0]));
    }
    bytes := buf[..];
    AllWritten(bytes, at, RequestBytes(c, sequenceId, bs));
  }

  lemma NothingWritten(buf: seq<byte>)
    requires forall i :: 0 <= i < |buf| ==> buf[i] == 0
    ensures Written(buf, 0, [])
  {
  }

  lemma AllWritten(buf: seq<byte>, at: nat, s: seq<byte>)
    requires Written(buf, at, s) && at == |buf|
    ensures buf == s
  {
  }

  /** The parts of a request in printing order. */
  lemma PrintedAs(c: ClientConfig, sequenceId: uint32, bs: seq<Buffer>)
    requires PayloadLen(c) < TWO32 && 1 <= |bs| <= 2 && forall b :: b in bs ==> |b.data| < TWO32
    ensures bs[0] in bs && (|bs| > 1 ==> bs[1] in bs)
    ensures var s := EncodeHeader(RequestHeader(sequenceId, PayloadLen(c))) + U32Net(|bs|) + Zeros(4);
            RequestBytes(c, sequenceId, bs) == if |bs| > 1 then s + EncodeBuffer(bs[0]) + EncodeBuffer(bs[1])
              else s + EncodeBuffer(bs[0])
  {
    assert U32Net(0) == Zeros(4);
    hide PayloadLen, EncodeHeader, EncodeBuffer, U32Net;
    if |bs| > 1 {
      assert bs[1..][0] == bs[1] && bs[1..][1..] == [];
      assert EncodeBuffers(bs[1..]) == EncodeBuffer(bs[1]);
    } else {
      assert bs[1..] == [];
      assert EncodeBuffers(bs) == EncodeBuffer(bs[0]);
    }
  }
}
