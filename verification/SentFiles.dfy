/** The audio a client sends: its files' chunks, decoded and mixed request by request, are the files decoded
    and mixed as whole streams. */
module SentFiles {
  import opened Arith
  import opened Bytes
  import opened Protocol
  import opened Memory
  import opened G711
  import opened SampleLoops
  import opened ResampleStream
  import opened Pipeline
  import opened Requests
  import opened RequestRuns
  import opened ClientChunks

  /** The client's sending state once its start message has taken sequence id 0. */
  const STARTED := SendState(0, 0, 1, 0)

  /** A chunk size of whole sample instants, and one that the G.711 decoders take. */
  predicate WholeChunks(s: Settings, size: nat)
    requires s.channels > 0
  {
    if IsLaw(s.inType) then size % 16 == 0 else size % (2 * s.channels) == 0
  }

  lemma DecodeAppend(s: Settings, a: seq<byte>, b: seq<byte>)
    requires s.channels > 0 && WholeChunks(s, |a|)
    ensures DecodeBuffer(s, a + b) == DecodeBuffer(s, a) + DecodeBuffer(s, b)
  {
    if IsLaw(s.inType) {
      LawAppend(LawOf(s.inType), a, b);
    } else {
      hide Instants, Samples, SwapAll;
      var m, n := WholeInstants(s, a), WholeInstants(s, b);
      InstantsAppend(|a|, |b|, s.channels);
      SamplesAppend(a, b, m, n);
      SwapAppend(Samples(a, 0, m), Samples(b, 0, n));
    }
  }

  lemma LawAppend(law: Law, a: seq<byte>, b: seq<byte>)
    ensures DecodeAll(law, a + b) == DecodeAll(law, a) + DecodeAll(law, b)
  {
    hide Decode;
  }

  lemma InstantsAppend(a: nat, b: nat, channels: nat)
    requires channels > 0 && a % (2 * channels) == 0
    ensures Instants(a + b, channels) == Instants(a, channels) + Instants(b, channels)
    ensures Instants(a + b, channels) * channels == Instants(a, channels) * channels + Instants(b, channels) * channels
    ensures 2 * (Instants(a, channels) * channels) == a
  {
    var w := 2 * channels;
    var p, q := Instants(a, channels), Instants(b, channels);
    assert a == p * w;
    DivBounds(b, w);
    MulDistr(w, p, q);
    MulDistr(w, q, 1);
    DivUnique(a + b, w, p + q, b - q * w);
    MulDistr(channels, p, q);
    MulAssoc(p, 2, channels);
  }

  lemma SamplesAppend(a: seq<byte>, b: seq<byte>, m: nat, n: nat)
    requires 2 * m == |a| && 2 * n <= |b|
    ensures Samples(a + b, 0, m + n) == Samples(a, 0, m) + Samples(b, 0, n)
  {
    var x, y := Samples(a + b, 0, m + n), Samples(a, 0, m) + Samples(b, 0, n);
    forall i | 0 <= i < m + n ensures x[i] == y[i] {
      if i >= m {
        assert y[i] == Samples(b, 0, n)[i - m];
      }
    }
  }

  lemma SwapAppend(x: seq<int16>, y: seq<int16>)
    ensures SwapAll(x + y) == SwapAll(x) + SwapAll(y)
  {
    hide SwapSample;
  }

  /** Mixing two streams is mixing them piece by piece, if the pieces are equally long. */
  lemma MixAppend(a1: seq<int16>, a2: seq<int16>, b1: seq<int16>, b2: seq<int16>)
    requires |a1| == |b1|
    ensures MixInto(a1 + a2, b1 + b2) == MixInto(a1, b1) + MixInto(a2, b2)
  {
    hide SatAdd;
  }

  /** The bytes of n chunks of a file from chunk j on. */
  function FileBytes(c: ClientConfig, data: seq<byte>, j: nat, n: nat): seq<byte>
    requires ChunkSize(c) > 0 && forall i :: j <= i < j + n ==> InFile(c, |data|, i)
    decreases n
  {
    if n == 0 then [] else FileChunkAt(c, data, j).data + FileBytes(c, data, j + 1, n - 1)
  }

  /** Where chunk j starts. */
  function Start(size: nat, j: nat): nat { j * size }

  lemma StartStep(size: nat, j: nat)
    ensures Start(size, 0) == 0 && Start(size, j + 1) == Start(size, j) + size
  {
    MulDistr(size, j, 1);
  }

  /** Without looping they are a part of the file. */
  lemma {:induction false} FileBytesOnce(c: ClientConfig, data: seq<byte>, j: nat, n: nat)
    requires ChunkSize(c) > 0 && !c.loop && Start(ChunkSize(c), j) <= |data|
    requires forall i :: j <= i < j + n ==> InFile(c, |data|, i)
    ensures Start(ChunkSize(c), j) <= Start(ChunkSize(c), j + n) <= |data|
    ensures FileBytes(c, data, j, n) == data[Start(ChunkSize(c), j)..Start(ChunkSize(c), j + n)]
    decreases n
  {
    hide ChunkSize, InFile, Chunks, Start, FileChunkAt;
    if n == 0 {
      assert j + n == j;
    } else {
      assert InFile(c, |data|, j);
      ChunkOnce(c, data, j);
      FileBytesOnce(c, data, j + 1, n - 1);
      assert j + 1 + (n - 1) == j + n;
      Joined(data, Start(ChunkSize(c), j), Start(ChunkSize(c), j + 1), Start(ChunkSize(c), j + n));
    }
  }

  lemma ChunkOnce(c: ClientConfig, data: seq<byte>, j: nat)
    requires ChunkSize(c) > 0 && !c.loop && InFile(c, |data|, j)
    ensures Start(ChunkSize(c), j) <= Start(ChunkSize(c), j + 1) <= |data|
    ensures FileChunkAt(c, data, j).data == data[Start(ChunkSize(c), j)..Start(ChunkSize(c), j + 1)]
  {
    ChunkInside(c, |data|, j);
    StartStep(ChunkSize(c), j);
    hide ChunkSize;
  }

  lemma Joined(data: seq<byte>, lo: nat, mid: nat, hi: nat)
    requires lo <= mid <= hi <= |data|
    ensures data[lo..mid] + data[mid..hi] == data[lo..hi]
  {
  }

  lemma {:induction false} FileBytesLength(c: ClientConfig, data: seq<byte>, j: nat, n: nat)
    requires ChunkSize(c) > 0 && forall i :: j <= i < j + n ==> InFile(c, |data|, i)
    ensures |FileBytes(c, data, j, n)| == n * ChunkSize(c)
    decreases n
  {
    hide ChunkSize, FileChunkAt;
    if n > 0 {
      assert InFile(c, |data|, j);
      ChunkLength(c, data, j);
      FileBytesLength(c, data, j + 1, n - 1);
      MulDistr(ChunkSize(c), n - 1, 1);
    }
  }

  lemma IndexInside(i: nat, b: nat, n: nat, size: nat)
    requires i < n && b < size
    ensures Start(size, i) + b < n * size
    ensures Start(size, i) == if i == 0 then 0 else size + Start(size, i - 1)
  {
    MulMono(i + 1, n, size);
    MulDistr(size, i, 1);
    MulDistr(size, i - 1, 1);
  }

  /** Looping, they repeat the file's whole chunks: byte b of the i-th chunk sent is byte b of the file's
      chunk with that number modulo its chunks. */
  lemma {:induction false} FileBytesLoop(c: ClientConfig, data: seq<byte>, j: nat, n: nat, i: nat, b: nat)
    requires ChunkSize(c) > 0 && c.loop && Chunks(c, |data|) > 0 && i < n && b < ChunkSize(c)
    ensures Start(ChunkSize(c), i) + b < |FileBytes(c, data, j, n)|
    ensures FileBytes(c, data, j, n)[Start(ChunkSize(c), i) + b] == LoopByte(c, data, j + i, b)
    decreases n
  {
    FirstLoopByte(c, data, j, b);
    FileBytesLength(c, data, j, n);
    IndexInside(i, b, n, ChunkSize(c));
    hide ChunkSize, InFile, Chunks, Start, LoopByte, FileChunkAt;
    if i == 0 {
      assert j + i == j;
    } else {
      FileBytesLoop(c, data, j + 1, n - 1, i - 1, b);
      assert j + 1 + (i - 1) == j + i;
    }
  }

  lemma FirstLoopByte(c: ClientConfig, data: seq<byte>, j: nat, b: nat)
    requires ChunkSize(c) > 0 && c.loop && Chunks(c, |data|) > 0 && b < ChunkSize(c)
    ensures InFile(c, |data|, j) && |FileChunkAt(c, data, j).data| == ChunkSize(c)
    ensures FileChunkAt(c, data, j).data[b] == LoopByte(c, data, j, b)
  {
    ChunkInside(c, |data|, j);
    ChunkLength(c, data, j);
    hide ChunkSize;
  }

  /** Byte b of chunk j of a looped file. */
  function LoopByte(c: ClientConfig, data: seq<byte>, j: nat, b: nat): byte
    requires ChunkSize(c) > 0 && c.loop && Chunks(c, |data|) > 0 && b < ChunkSize(c)
  {
    ChunkInside(c, |data|, j);
    data[j % Chunks(c, |data|) * ChunkSize(c) + b]
  }

  lemma BothFiles(c: ClientConfig, j: nat, n: nat)
    requires ChunkSize(c) > 0 && forall i :: j <= i < j + n ==> Available(c, i)
    ensures forall i :: j <= i < j + n ==> InFile(c, |c.input|, i)
    ensures c.input2.Some? ==> forall i :: j <= i < j + n ==> InFile(c, |c.input2.value|, i)
  {
    hide ChunkSize, InFile;
    forall i | j <= i < j + n ensures InFile(c, |c.input|, i) && (c.input2.Some? ==> InFile(c, |c.input2.value|, i)) {
      assert Available(c, i);
    }
  }

  /** The audio of n chunks of the client's one or two files: decoded and mixed as whole streams. */
  function FileAudio(s: Settings, c: ClientConfig, j: nat, n: nat): seq<int16>
    requires s.channels > 0 && ChunkSize(c) > 0 && forall i :: j <= i < j + n ==> Available(c, i)
  {
    BothFiles(c, j, n);
    var x := DecodeBuffer(s, FileBytes(c, c.input, j, n));
    if c.input2.None? then x else MixInto(x, DecodeBuffer(s, FileBytes(c, c.input2.value, j, n)))
  }

  /** The requests, mixed one by one, are the files mixed as a whole. */
  lemma {:induction false} SentStream(s: Settings, c: ClientConfig, requests: seq<seq<Buffer>>, j: nat)
    requires s.channels > 0 && ChunkSize(c) > 0 && WholeChunks(s, ChunkSize(c)) && InOrder(c, requests, j)
    ensures forall i :: j <= i < j + |requests| ==> Available(c, i)
    ensures Flatten(Mixes(s, requests)) == FileAudio(s, c, j, |requests|)
    decreases |requests|
  {
    hide ChunkSize, WholeChunks, DecodeBuffer, Request, Mixes, Flatten, MixOf, FileAudio, Available;
    if requests == [] {
      NoAudio(s, c, j);
    } else {
      var first, rest := requests[0], requests[1..];
      assert Available(c, j) && first == Request(c, j);
      forall i | j + 1 <= i < j + 1 + |rest| ensures Available(c, i) && rest[i - (j + 1)] == Request(c, i) {
        assert rest[i - (j + 1)] == requests[i - j];
      }
      SentStream(s, c, rest, j + 1);
      forall i | j <= i < j + |requests| ensures Available(c, i) {
      }
      AudioStep(s, c, j, |requests|);
      FlattenMixes(s, first, rest);
      assert requests == [first] + rest;
    }
  }

  lemma FlattenMixes(s: Settings, first: seq<Buffer>, rest: seq<seq<Buffer>>)
    requires s.channels > 0
    ensures Flatten(Mixes(s, [first] + rest)) == MixOf(s, first) + Flatten(Mixes(s, rest))
  {
    hide MixOf;
    assert ([first] + rest)[1..] == rest;
    var ms := Mixes(s, [first] + rest);
    assert ms[0] == MixOf(s, first) && ms[1..] == Mixes(s, rest);
  }

  lemma NoAudio(s: Settings, c: ClientConfig, j: nat)
    requires s.channels > 0 && ChunkSize(c) > 0
    ensures Flatten(Mixes(s, [])) == [] && FileAudio(s, c, j, 0) == []
  {
    hide ChunkSize;
    InstantsFit(0, s.channels);
  }

  lemma AudioStep(s: Settings, c: ClientConfig, j: nat, n: nat)
    requires s.channels > 0 && ChunkSize(c) > 0 && WholeChunks(s, ChunkSize(c)) && n > 0
    requires forall i :: j <= i < j + n ==> Available(c, i)
    ensures FileAudio(s, c, j, n) == MixOf(s, Request(c, j)) + FileAudio(s, c, j + 1, n - 1)
  {
    hide ChunkSize, WholeChunks, DecodeBuffer, MixInto, InFile, FileChunkAt, MixOf, FileBytes;
    assert Available(c, j);
    BothFiles(c, j, n);
    BothFiles(c, j + 1, n - 1);
    DecodeStep(s, c, c.input, j, n);
    if c.input2.None? {
      MixOfOne(s, FileChunkAt(c, c.input, j));
    } else {
      DecodeStep(s, c, c.input2.value, j, n);
      var b1, b2 := FileChunkAt(c, c.input, j), FileChunkAt(c, c.input2.value, j);
      MixOfTwo(s, b1, b2);
      SameChunkLength(s, c, j);
      MixAppend(DecodeBuffer(s, b1.data), DecodeBuffer(s, FileBytes(c, c.input, j + 1, n - 1)),
                DecodeBuffer(s, b2.data), DecodeBuffer(s, FileBytes(c, c.input2.value, j + 1, n - 1)));
    }
  }

  lemma DecodeStep(s: Settings, c: ClientConfig, data: seq<byte>, j: nat, n: nat)
    requires s.channels > 0 && ChunkSize(c) > 0 && WholeChunks(s, ChunkSize(c)) && n > 0
    requires forall i :: j <= i < j + n ==> InFile(c, |data|, i)
    ensures DecodeBuffer(s, FileBytes(c, data, j, n)) ==
            DecodeBuffer(s, FileChunkAt(c, data, j).data) + DecodeBuffer(s, FileBytes(c, data, j + 1, n - 1))
  {
    hide ChunkSize, WholeChunks, DecodeBuffer, InFile;
    assert InFile(c, |data|, j);
    ChunkLength(c, data, j);
    hide FileChunkAt;
    DecodeAppend(s, FileChunkAt(c, data, j).data, FileBytes(c, data, j + 1, n - 1));
  }

  lemma ChunkLength(c: ClientConfig, data: seq<byte>, j: nat)
    requires ChunkSize(c) > 0 && InFile(c, |data|, j)
    ensures |FileChunkAt(c, data, j).data| == ChunkSize(c)
  {
    hide ChunkSize;
    ChunkInside(c, |data|, j);
  }

  lemma SameChunkLength(s: Settings, c: ClientConfig, j: nat)
    requires s.channels > 0 && ChunkSize(c) > 0 && c.input2.Some? && Available(c, j)
    ensures var b1, b2 := FileChunkAt(c, c.input, j), FileChunkAt(c, c.input2.value, j);
            |DecodeBuffer(s, b1.data)| == |DecodeBuffer(s, b2.data)|
  {
    hide ChunkSize, DecodeBuffer, InFile, FileChunkAt, SampleCount;
    ChunkLength(c, c.input, j);
    ChunkLength(c, c.input2.value, j);
    DecodedLength(s, FileChunkAt(c, c.input, j).data);
    DecodedLength(s, FileChunkAt(c, c.input2.value, j).data);
  }

  lemma MixOfOne(s: Settings, b: Buffer)
    requires s.channels > 0
    ensures MixOf(s, [b]) == DecodeBuffer(s, b.data)
  {
    hide DecodeBuffer;
  }

  lemma MixOfTwo(s: Settings, b1: Buffer, b2: Buffer)
    requires s.channels > 0
    ensures MixOf(s, [b1, b2]) == MixInto(DecodeBuffer(s, b1.data), DecodeBuffer(s, b2.data))
  {
    hide DecodeBuffer, MixInto;
    var xs := DecodeBuffers(s, [b1, b2]);
    assert xs[1..] == [DecodeBuffer(s, b2.data)];
    assert MixAll(xs[0], xs[1..]) == MixAll(MixInto(xs[0], xs[1]), []);
  }

  /** The audio of a client's first k ticks. */
  function SentAudio(s: Settings, c: ClientConfig, k: nat): seq<int16>
    requires s.channels > 0 && Sendable(c) && ChunkSize(c) > 0
  {
    AllInOrder(c, k);
    FileAudio(s, c, 0, |Sends(c, STARTED, k)|)
  }

  lemma AllInOrder(c: ClientConfig, k: nat)
    requires Sendable(c) && ChunkSize(c) > 0
    ensures InOrder(c, Sends(c, STARTED, k), 0)
    ensures forall i :: 0 <= i < |Sends(c, STARTED, k)| ==> Available(c, i)
  {
    SendsInOrder(c, STARTED, 0, k);
  }

  lemma SentIsFileAudio(s: Settings, c: ClientConfig, k: nat)
    requires s.channels > 0 && Sendable(c) && ChunkSize(c) > 0 && WholeChunks(s, ChunkSize(c))
    ensures Flatten(Mixes(s, Sends(c, STARTED, k))) == SentAudio(s, c, k)
  {
    hide ChunkSize, Sends, Mixes, Sendable, WholeChunks, Flatten, FileAudio, Available, Request;
    AllInOrder(c, k);
    SentStream(s, c, Sends(c, STARTED, k), 0);
  }

  /** For files that are not looped it is a prefix of the files, decoded and mixed. */
  lemma AudioOfPrefix(s: Settings, c: ClientConfig, n: nat)
    requires s.channels > 0 && ChunkSize(c) > 0 && !c.loop && forall i :: 0 <= i < 0 + n ==> Available(c, i)
    ensures var total := Start(ChunkSize(c), n);
            && total <= |c.input| && (c.input2.Some? ==> total <= |c.input2.value|)
            && FileAudio(s, c, 0, n) ==
               (var x := DecodeBuffer(s, c.input[..total]);
                if c.input2.None? then x else MixInto(x, DecodeBuffer(s, c.input2.value[..total])))
  {
    hide ChunkSize, DecodeBuffer, MixInto, InFile, Start;
    var size := ChunkSize(c);
    StartStep(size, 0);
    assert 0 + n == n;
    BothFiles(c, 0, n);
    FileBytesOnce(c, c.input, 0, n);
    assert c.input[0..Start(size, n)] == c.input[..Start(size, n)];
    if c.input2.Some? {
      FileBytesOnce(c, c.input2.value, 0, n);
      assert c.input2.value[0..Start(size, n)] == c.input2.value[..Start(size, n)];
    }
  }

  lemma SentAligned(s: Settings, c: ClientConfig, k: nat)
    requires s.channels > 0 && Sendable(c) && ChunkSize(c) > 0 && WholeChunks(s, ChunkSize(c))
    ensures AllRequestsAligned(s, Sends(c, STARTED, k))
  {
    hide ChunkSize, Sends, Sendable, FileChunkAt;
    AllInOrder(c, k);
    var sent := Sends(c, STARTED, k);
    forall bs | bs in sent ensures AlignedBuffers(s, bs) {
      var i :| 0 <= i < |sent| && sent[i] == bs;
      assert bs == Request(c, i) by {
        assert Available(c, i) && sent[i - 0] == Request(c, i);
      }
      ChunkLength(c, c.input, i);
      if c.input2.Some? {
        ChunkLength(c, c.input2.value, i);
      }
    }
  }
}
