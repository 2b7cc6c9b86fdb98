/** What the client learns from the replies it reads (src/client/main.c:412-463), and why it does not
    depend on how the stream was cut into reads. */
module ClientStats {
  import opened Bytes
  import opened Protocol
  import opened Framing

  datatype Stats = Stats(received: uint64, least: uint64, most: uint64, sum: uint64, count: uint64)

  const UINT64_MAX: uint64 := 0xFFFF_FFFF_FFFF_FFFF

  const NO_STATS := Stats(0, UINT64_MAX, 0, 0, 0)

  /** An output message has room for its payload header, which the client takes off the audio unchecked. */
  predicate WellFormed(m: Message) {
    m.header.command == CMD_OUTPUT ==> |m.payload| >= OUTPUT_SIZE
  }

  /** An output message has room for its duration, which is all the statistics read of it. */
  predicate Timed(m: Message) {
    m.header.command == CMD_OUTPUT ==> |m.payload| >= 8
  }

  predicate AllWellFormed(ms: seq<Message>) {
    forall m :: m in ms ==> WellFormed(m)
  }

  predicate AllTimed(ms: seq<Message>) {
    forall m :: m in ms ==> Timed(m)
  }

  function Duration(m: Message): uint64
    requires Timed(m) && m.header.command == CMD_OUTPUT
  {
    NetU64(m.payload[0..8])
  }

  /** One message's effect on the statistics, in 64-bit arithmetic. */
  function Record(s: Stats, m: Message): Stats
    requires Timed(m)
  {
    if m.header.command != CMD_OUTPUT then s else Recorded(s, |m.payload|, Duration(m))
  }

  /** An output of some payload length and duration. A length below 16 wraps around in the amount. */
  function Recorded(s: Stats, length: nat, d: uint64): Stats {
    Stats(Wrap64(s.received as int + length - OUTPUT_SIZE),
          if d < s.least then d else s.least,
          if d > s.most then d else s.most,
          Wrap64(s.sum as int + d), Wrap64(s.count as int + 1))
  }

  // ---------------------------------------------------------------- what the client reads

  /** The duration the client takes from its read buffer for an output whose header is at ptr. It reads eight
      bytes after the header without asking how long the payload is. */
  function SeenDuration(buffer: seq<byte>, ptr: nat): uint64
    requires ptr + HEADER_SIZE + 8 <= |buffer|
  {
    NetU64(buffer[ptr + HEADER_SIZE..ptr + HEADER_SIZE + 8])
  }

  /** The effect of the message whose header is at ptr, as the client computes it. */
  function SeenRecord(s: Stats, buffer: seq<byte>, ptr: nat, h: Header): Stats
    requires h.command == CMD_OUTPUT ==> ptr + HEADER_SIZE + 8 <= |buffer|
  {
    if h.command != CMD_OUTPUT then s else Recorded(s, h.payloadLen, SeenDuration(buffer, ptr))
  }

  /** With room for the duration that is the message's effect. */
  lemma SeenIsRecorded(s: Stats, buffer: seq<byte>, ptr: nat, m: Message)
    requires ptr + MessageSize(m.header) <= |buffer| && m.header.payloadLen == |m.payload| && Timed(m)
    requires buffer[ptr + HEADER_SIZE..ptr + MessageSize(m.header)] == m.payload
    ensures SeenRecord(s, buffer, ptr, m.header) == Record(s, m)
  {
    hide NetU64, Recorded;
    if m.header.command == CMD_OUTPUT {
      assert buffer[ptr + HEADER_SIZE..ptr + HEADER_SIZE + 8] == m.payload[0..8];
    }
  }

  /** A message in the read buffer, and what happens to follow it: the next message, if it came in the same
      read, or old bytes. */
  function InBuffer(m: Message, after: seq<byte>): seq<byte> { EncodeHeader(m.header) + m.payload + after }

  /** What follows an output in the buffer matters to the statistics, so that the cut does, exactly when the
      payload is shorter than its duration. Even then it matters to neither the count nor the amount. */
  lemma StatsFromMessage(s: Stats, m: Message)
    requires m.header.command == CMD_OUTPUT && m.header.payloadLen == |m.payload|
    ensures (forall after1: seq<byte>, after2: seq<byte> :: |after1| >= 8 && |after2| >= 8 ==>
               SeenRecord(s, InBuffer(m, after1), 0, m.header) == SeenRecord(s, InBuffer(m, after2), 0, m.header)) <==>
            |m.payload| >= 8
    ensures forall after: seq<byte> :: |after| >= 8 ==>
              var t := SeenRecord(s, InBuffer(m, after), 0, m.header);
              && t.count == Wrap64(s.count as int + 1)
              && t.received == Wrap64(s.received as int + |m.payload| - OUTPUT_SIZE)
  {
    hide NetU64, EncodeHeader, Wrap64;
    if |m.payload| >= 8 {
      forall after1: seq<byte>, after2: seq<byte> | |after1| >= 8 && |after2| >= 8
        ensures SeenRecord(s, InBuffer(m, after1), 0, m.header) == SeenRecord(s, InBuffer(m, after2), 0, m.header)
      {
        SameDuration(m, after1, after2);
      }
    } else {
      var zeros, ones := Zeros(8), seq<byte>(8, _ => 1);
      LastByte(InBuffer(m, zeros));
      LastByte(InBuffer(m, ones));
      SumsDiffer(s.sum, SeenDuration(InBuffer(m, zeros), 0), SeenDuration(InBuffer(m, ones), 0));
      assert SeenRecord(s, InBuffer(m, zeros), 0, m.header) != SeenRecord(s, InBuffer(m, ones), 0, m.header);
    }
  }

  lemma SameDuration(m: Message, after1: seq<byte>, after2: seq<byte>)
    requires |m.payload| >= 8
    ensures SeenDuration(InBuffer(m, after1), 0) == SeenDuration(InBuffer(m, after2), 0)
  {
    hide NetU64, EncodeHeader;
    var a, b := InBuffer(m, after1), InBuffer(m, after2);
    assert a[HEADER_SIZE..HEADER_SIZE + 8] == m.payload[..8] == b[HEADER_SIZE..HEADER_SIZE + 8];
  }

  lemma SumsDiffer(sum: uint64, d1: uint64, d2: uint64)
    requires d1 != d2
    ensures Wrap64(sum as int + d1) != Wrap64(sum as int + d2)
  {
  }

  lemma LastByte(buffer: seq<byte>)
    requires |buffer| >= HEADER_SIZE + 8
    ensures SeenDuration(buffer, 0) % 0x100 == buffer[HEADER_SIZE + 7]
  {
    hide NetU32;
    var b := buffer[HEADER_SIZE..HEADER_SIZE + 8];
    LastDigit(b[4..]);
    assert b[4..][3] == buffer[HEADER_SIZE + 7];
    LowWord(NetU32(b[..4]), NetU32(b[4..]));
  }

  lemma LastDigit(b: seq<byte>)
    requires |b| == 4
    ensures NetU32(b) % 0x100 == b[3]
  {
  }

  lemma LowWord(hi: int, lo: int)
    ensures (hi * 0x1_0000_0000 + lo) % 0x100 == lo % 0x100
  {
  }

  // ---------------------------------------------------------------- many messages

  function RecordAll(s: Stats, ms: seq<Message>): Stats
    requires AllTimed(ms)
    decreases |ms|
  {
    if ms == [] then s else RecordAll(Record(s, ms[0]), ms[1..])
  }

  lemma {:induction false} RecordSnoc(s: Stats, ms: seq<Message>, m: Message)
    requires AllTimed(ms) && Timed(m)
    ensures AllTimed(ms + [m]) && RecordAll(s, ms + [m]) == Record(RecordAll(s, ms), m)
    decreases |ms|
  {
    hide Record, Timed;
    if ms == [] {
      assert ms + [m] == [m] && [m][1..] == [];
    } else {
      assert (ms + [m])[0] == ms[0] && (ms + [m])[1..] == ms[1..] + [m];
      RecordSnoc(Record(s, ms[0]), ms[1..], m);
    }
  }

  // ---------------------------------------------------------------- what the numbers mean

  /** The reported durations, in order. */
  function Durations(ms: seq<Message>): seq<uint64>
    requires AllTimed(ms)
  {
    if ms == [] then []
    else if ms[0].header.command == CMD_OUTPUT then [Duration(ms[0])] + Durations(ms[1..])
    else Durations(ms[1..])
  }

  /** The audio of all outputs, in order: what the output file receives. */
  function Audio(ms: seq<Message>): seq<byte>
    requires AllWellFormed(ms)
  {
    if ms == [] then []
    else if assert WellFormed(ms[0]); ms[0].header.command == CMD_OUTPUT
      then ms[0].payload[OUTPUT_SIZE..] + Audio(ms[1..])
    else Audio(ms[1..])
  }

  lemma {:induction false} AudioSnoc(ms: seq<Message>, m: Message)
    requires AllWellFormed(ms) && WellFormed(m)
    ensures AllWellFormed(ms + [m])
    ensures Audio(ms + [m]) == Audio(ms) + (if m.header.command == CMD_OUTPUT then m.payload[OUTPUT_SIZE..] else [])
    decreases |ms|
  {
    if ms == [] {
      assert ms + [m] == [m] && [m][1..] == [];
    } else {
      assert (ms + [m])[0] == ms[0] && (ms + [m])[1..] == ms[1..] + [m];
      AudioSnoc(ms[1..], m);
    }
  }

  /** How much audio the lengths of all outputs say. */
  function Amount(ms: seq<Message>): int {
    if ms == [] then 0
    else (if ms[0].header.command == CMD_OUTPUT then |ms[0].payload| - OUTPUT_SIZE else 0) + Amount(ms[1..])
  }

  lemma {:induction false} AmountIsAudio(ms: seq<Message>)
    requires AllWellFormed(ms)
    ensures Amount(ms) == |Audio(ms)|
    decreases |ms|
  {
    if ms != [] {
      assert WellFormed(ms[0]);
      AmountIsAudio(ms[1..]);
    }
  }

  function Sum(ds: seq<uint64>): nat {
    if ds == [] then 0 else ds[0] as int + Sum(ds[1..])
  }

  lemma WrapAdd(a: int, b: int, c: int)
    ensures Wrap64(Wrap64(a + b) as int + c) == Wrap64(a + (b + c))
  {
    var q := (a + b) / 0x1_0000_0000_0000_0000;
    assert a + b == q * 0x1_0000_0000_0000_0000 + Wrap64(a + b);
  }

  /** Some value bounds all durations and is one of them, or the starting value. */
  predicate Extreme(v: uint64, start: uint64, ds: seq<uint64>, least: bool) {
    && (if least then v <= start else start <= v)
    && (forall d :: d in ds ==> if least then v <= d else d <= v)
    && (v == start || v in ds)
  }

  /** The statistics are the number, sum, minimum and maximum of the reported durations and the amount
      of audio, the sums modulo 2^64. */
  lemma {:induction false} StatsMeaning(s: Stats, ms: seq<Message>)
    requires AllTimed(ms)
    ensures var t, ds := RecordAll(s, ms), Durations(ms);
            && t.count == Wrap64(s.count as int + |ds|) && t.sum == Wrap64(s.sum as int + Sum(ds))
            && t.received == Wrap64(s.received as int + Amount(ms))
            && (AllWellFormed(ms) ==> t.received == Wrap64(s.received as int + |Audio(ms)|))
            && Extreme(t.least, s.least, ds, true) && Extreme(t.most, s.most, ds, false)
    decreases |ms|
  {
    hide Wrap64, Duration, Audio, AllWellFormed;
    if AllWellFormed(ms) {
      AmountIsAudio(ms);
    }
    if ms == [] {
      Unwrapped(s.count);
      Unwrapped(s.sum);
      Unwrapped(s.received);
    } else {
      assert Timed(ms[0]);
      var s1 := Record(s, ms[0]);
      StatsMeaning(s1, ms[1..]);
      if ms[0].header.command == CMD_OUTPUT {
        var d, ds := Duration(ms[0]), Durations(ms[1..]);
        WrapAdd(s.count, 1, |ds|);
        WrapAdd(s.sum, d, Sum(ds));
        WrapAdd(s.received, |ms[0].payload| - OUTPUT_SIZE, Amount(ms[1..]));
        SumCons(d, ds);
      }
    }
  }

  lemma SumCons(d: uint64, ds: seq<uint64>)
    ensures Sum([d] + ds) == d as int + Sum(ds)
  {
    assert ([d] + ds)[1..] == ds;
  }

  lemma Unwrapped(n: uint64)
    ensures Wrap64(n) == n
  {
  }

  /** The statistics and the recorded audio after a connection's reads. */
  function AfterReads(s: Stats, buffered: seq<byte>, chunks: seq<seq<byte>>): Stats
    requires AllTimed(FeedMessages(Client, buffered, chunks))
  {
    RecordAll(s, FeedMessages(Client, buffered, chunks))
  }

  /** Statistics after some messages and then more. */
  lemma {:induction false} RecordAppend(s: Stats, a: seq<Message>, b: seq<Message>)
    requires AllTimed(a) && AllTimed(b)
    ensures AllTimed(a + b) && RecordAll(s, a + b) == RecordAll(RecordAll(s, a), b)
    decreases |a|
  {
    hide Record, Timed;
    if a == [] {
      assert a + b == b;
    } else {
      assert (a + b)[0] == a[0] && (a + b)[1..] == a[1..] + b;
      RecordAppend(Record(s, a[0]), a[1..], b);
    }
  }

  /** One more read, recorded by itself, is the run with that read in front. */
  lemma ReadsCompose(s: Stats, buffered: seq<byte>, chunk: seq<byte>, chunks: seq<seq<byte>>)
    requires AllTimed(FeedMessages(Client, buffered, [chunk] + chunks))
    ensures var ms, rest := Messages(Client, buffered + chunk), Rest(Client, buffered + chunk);
            && AllTimed(ms) && AllTimed(FeedMessages(Client, rest, chunks))
            && AfterReads(s, buffered, [chunk] + chunks) == AfterReads(RecordAll(s, ms), rest, chunks)
  {
    hide Messages, Rest, Timed, RecordAll;
    var ms, rest := Messages(Client, buffered + chunk), Rest(Client, buffered + chunk);
    var later := FeedMessages(Client, rest, chunks);
    assert ([chunk] + chunks)[1..] == chunks;
    assert FeedMessages(Client, buffered, [chunk] + chunks) == ms + later;
    assert forall m :: m in ms ==> m in ms + later;
    assert forall m :: m in later ==> m in ms + later;
    RecordAppend(s, ms, later);
  }

  /** Two cuts of the same stream give the same statistics, if its outputs have room for their durations, and
      the same recorded audio, if they have room for their payload headers: those of the stream's frames. */
  lemma StatsChunkingIndependence(s: Stats, chunks1: seq<seq<byte>>, chunks2: seq<seq<byte>>)
    requires Concat(chunks1) == Concat(chunks2)
    ensures var ms := Messages(Client, Concat(chunks1));
            && FeedMessages(Client, [], chunks1) == FeedMessages(Client, [], chunks2) == ms
            && (AllTimed(ms) ==> AfterReads(s, [], chunks1) == AfterReads(s, [], chunks2) == RecordAll(s, ms))
            && (AllWellFormed(ms) ==>
                  Audio(FeedMessages(Client, [], chunks1)) == Audio(FeedMessages(Client, [], chunks2)) == Audio(ms))
  {
    hide Messages, FeedMessages, Concat, AllTimed, AllWellFormed;
    FeedIsFrames(Client, [], chunks1);
    FeedIsFrames(Client, [], chunks2);
    assert [] + Concat(chunks1) == Concat(chunks1) && [] + Concat(chunks2) == Concat(chunks2);
  }
}
