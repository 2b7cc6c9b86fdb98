/** Splitting a byte stream into messages, and the law that makes the splitting independent of
    how the stream was cut into reads (src/core/server.c:174-400, src/client/main.c:395-473). */
module Framing {
  import opened Bytes
  import opened Protocol

  datatype Message = Message(header: Header, payload: seq<byte>)

  /** The two ends accept different headers: the server checks magic and version, the client
      only the magic. */
  datatype Side = Server | Client

  predicate Accepts(side: Side, h: Header) {
    match side
    case Server => ValidateHeader(h)
    case Client => h.magic == AUDIO_MAGIC
  }

  /** The header at the front of a buffer that holds at least one header. */
  function Front(s: seq<byte>): Header
    requires |s| >= HEADER_SIZE
  {
    DecodeHeader(s[..HEADER_SIZE])
  }

  function MessageSize(h: Header): nat { HEADER_SIZE + h.payloadLen }

  /** A complete, accepted message is at the front. */
  predicate Ready(side: Side, s: seq<byte>) {
    |s| >= HEADER_SIZE && Accepts(side, Front(s)) && MessageSize(Front(s)) <= |s|
  }

  /** A header that this side rejects is at the front. */
  predicate Rejected(side: Side, s: seq<byte>) {
    |s| >= HEADER_SIZE && !Accepts(side, Front(s))
  }

  function FirstMessage(side: Side, s: seq<byte>): Message
    requires Ready(side, s)
  {
    Message(Front(s), s[HEADER_SIZE..MessageSize(Front(s))])
  }

  /** The complete messages at the front of a stream, up to the first rejected header. */
  function Messages(side: Side, s: seq<byte>): seq<Message> {
    if !Ready(side, s) then []
    else [FirstMessage(side, s)] + Messages(side, s[MessageSize(Front(s))..])
  }

  /** The bytes after those messages. */
  function Rest(side: Side, s: seq<byte>): seq<byte> {
    if !Ready(side, s) then s else Rest(side, s[MessageSize(Front(s))..])
  }

  lemma {:induction false} RestNotReady(side: Side, s: seq<byte>)
    ensures !Ready(side, Rest(side, s))
    ensures |Rest(side, s)| <= |s|
    ensures Rest(side, s) == s[|s| - |Rest(side, s)|..]
    decreases |s|
  {
    hide Ready, Front;
    if Ready(side, s) {
      assert MessageSize(Front(s)) <= |s| by { SizeWithin(side, s); }
      RestNotReady(side, s[MessageSize(Front(s))..]);
    }
  }

  lemma SizeWithin(side: Side, s: seq<byte>)
    requires Ready(side, s)
    ensures |s| >= HEADER_SIZE && MessageSize(Front(s)) <= |s|
  {
  }

  /** More bytes do not change what is at the front once it is decided. */
  lemma FrontStable(side: Side, s: seq<byte>, t: seq<byte>)
    requires |s| >= HEADER_SIZE
    ensures Front(s + t) == Front(s)
    ensures Ready(side, s) ==> Ready(side, s + t) && FirstMessage(side, s + t) == FirstMessage(side, s)
    ensures Rejected(side, s) ==> Rejected(side, s + t)
  {
    assert (s + t)[..HEADER_SIZE] == s[..HEADER_SIZE];
    if Ready(side, s) {
      var n := MessageSize(Front(s));
      assert (s + t)[HEADER_SIZE..n] == s[HEADER_SIZE..n];
    }
  }

  /** The framing law: reading s and then t is reading s + t. It holds after a rejected header
      too, where both sides stop for good. */
  lemma {:induction false} FramesAppend(side: Side, s: seq<byte>, t: seq<byte>)
    ensures Messages(side, s + t) == Messages(side, s) + Messages(side, Rest(side, s) + t)
    ensures Rest(side, s + t) == Rest(side, Rest(side, s) + t)
    decreases |s|
  {
    hide Front, Accepts;
    if Ready(side, s) {
      var n := MessageSize(Front(s));
      FrontStable(side, s, t);
      assert (s + t)[n..] == s[n..] + t;
      FramesAppend(side, s[n..], t);
    }
  }

  /** What a framing loop finds at an offset, in the loop's own terms. */
  lemma FrameAt(side: Side, s: seq<byte>, offset: nat)
    requires offset <= |s|
    ensures var t := s[offset..];
            if |t| < HEADER_SIZE then !Ready(side, t) && !Rejected(side, t)
            else
              var h := DecodeHeader(s[offset..offset + HEADER_SIZE]);
              var end := offset + MessageSize(h);
              && Front(t) == h
              && (Rejected(side, t) <==> !Accepts(side, h))
              && (Ready(side, t) <==> Accepts(side, h) && end <= |s|)
              && (Ready(side, t) ==>
                    && Messages(side, t) == [Message(h, s[offset + HEADER_SIZE..end])] + Messages(side, s[end..])
                    && Rest(side, t) == Rest(side, s[end..]))
    ensures !Ready(side, s[offset..]) ==> Messages(side, s[offset..]) == [] && Rest(side, s[offset..]) == s[offset..]
  {
    hide DecodeHeader, ValidateHeader;
    var t := s[offset..];
    if |t| >= HEADER_SIZE {
      assert t[..HEADER_SIZE] == s[offset..offset + HEADER_SIZE];
      var end := offset + MessageSize(Front(t));
      if end <= |s| {
        assert t[HEADER_SIZE..MessageSize(Front(t))] == s[offset + HEADER_SIZE..end];
        assert t[MessageSize(Front(t))..] == s[end..];
      }
    }
  }

  function Concat(chunks: seq<seq<byte>>): seq<byte> {
    if chunks == [] then [] else chunks[0] + Concat(chunks[1..])
  }

  /** What a reader that keeps the unconsumed suffix gets out of a sequence of reads. */
  function FeedMessages(side: Side, buffered: seq<byte>, chunks: seq<seq<byte>>): seq<Message>
    decreases |chunks|
  {
    if chunks == [] then []
    else
      Messages(side, buffered + chunks[0]) +
      FeedMessages(side, Rest(side, buffered + chunks[0]), chunks[1..])
  }

  function FeedRest(side: Side, buffered: seq<byte>, chunks: seq<seq<byte>>): seq<byte>
    decreases |chunks|
  {
    if chunks == [] then buffered
    else FeedRest(side, Rest(side, buffered + chunks[0]), chunks[1..])
  }

  lemma {:induction false} FeedIsFrames(side: Side, buffered: seq<byte>, chunks: seq<seq<byte>>)
    requires !Ready(side, buffered)
    ensures FeedMessages(side, buffered, chunks) == Messages(side, buffered + Concat(chunks))
    ensures FeedRest(side, buffered, chunks) == Rest(side, buffered + Concat(chunks))
    decreases |chunks|
  {
    hide Ready, Front, Accepts;
    if chunks == [] {
      assert buffered + Concat(chunks) == buffered;
    } else {
      var s, t := buffered + chunks[0], Concat(chunks[1..]);
      RestNotReady(side, s);
      FeedIsFrames(side, Rest(side, s), chunks[1..]);
      FramesAppend(side, s, t);
      assert buffered + Concat(chunks) == s + t;
    }
  }

  /** Chunking independence: two cuts of one stream give the same messages and the same suffix. */
  lemma ChunkingIndependence(side: Side, chunks1: seq<seq<byte>>, chunks2: seq<seq<byte>>)
    requires Concat(chunks1) == Concat(chunks2)
    ensures FeedMessages(side, [], chunks1) == FeedMessages(side, [], chunks2)
    ensures FeedRest(side, [], chunks1) == FeedRest(side, [], chunks2)
  {
    FeedIsFrames(side, [], chunks1);
    FeedIsFrames(side, [], chunks2);
  }

  lemma {:induction false} ConcatAppend(a: seq<seq<byte>>, b: seq<seq<byte>>)
    ensures Concat(a + b) == Concat(a) + Concat(b)
    decreases |a|
  {
    if a == [] {
      assert a + b == b;
    } else {
      assert (a + b)[1..] == a[1..] + b;
      ConcatAppend(a[1..], b);
    }
  }

  // ---------------------------------------------------------------- the reassembly buffer

  const ASSEMBLE_SIZE := 32768
  const READ_SIZE := 16384

  /** The largest message for which no chunking can overflow the reassembly buffer. */
  const LARGEST_SAFE_MESSAGE := ASSEMBLE_SIZE - READ_SIZE + 1

  /** Every header in the stream is accepted and every message, complete or not, is small. */
  predicate BoundedStream(side: Side, s: seq<byte>, bound: nat) {
    |s| < HEADER_SIZE ||
    (&& Accepts(side, Front(s))
     && MessageSize(Front(s)) <= bound
     && (MessageSize(Front(s)) <= |s| ==> BoundedStream(side, s[MessageSize(Front(s))..], bound)))
  }

  predicate NeverOverflows(side: Side, buffered: seq<byte>, chunks: seq<seq<byte>>)
    decreases |chunks|
  {
    chunks == [] ||
    (&& |buffered| + |chunks[0]| <= ASSEMBLE_SIZE
     && NeverOverflows(side, Rest(side, buffered + chunks[0]), chunks[1..]))
  }

  /** What the buffer can hold: a stream that fits it as a whole, or one that starts with a small accepted
      message and of which it holds what follows. */
  predicate BufferHolds(side: Side, s: seq<byte>) {
    |s| <= ASSEMBLE_SIZE ||
    (&& Accepts(side, Front(s))
     && MessageSize(Front(s)) <= LARGEST_SAFE_MESSAGE
     && BufferHolds(side, s[MessageSize(Front(s))..]))
  }

  /** A cut of a stream into reads. */
  predicate IsCut(s: seq<byte>, chunks: seq<seq<byte>>) {
    Concat(chunks) == s && forall c :: c in chunks ==> 0 < |c| <= READ_SIZE
  }

  /** The exact bound. No cut of a stream overflows the buffer if and only if the buffer holds the stream. */
  lemma ReassemblyExactly(side: Side, s: seq<byte>)
    ensures BufferHolds(side, s) <==> forall chunks :: IsCut(s, chunks) ==> NeverOverflows(side, [], chunks)
  {
    hide BufferHolds, NeverOverflows, Concat;
    if BufferHolds(side, s) {
      forall chunks | IsCut(s, chunks) ensures NeverOverflows(side, [], chunks) {
        assert [] + Concat(chunks) == s;
        HeldIsEnough(side, [], chunks);
      }
    } else {
      var chunks := OverflowingCut(side, s);
      assert IsCut(s, chunks);
    }
  }

  /** What is left of a held stream is held, and what is buffered of it leaves room for a read. */
  lemma {:induction false} HeldRest(side: Side, seen: seq<byte>, t: seq<byte>)
    requires BufferHolds(side, seen + t)
    ensures |Rest(side, seen)| + |t| <= ASSEMBLE_SIZE || |Rest(side, seen)| < LARGEST_SAFE_MESSAGE
    decreases |seen|
  {
    hide Front, Accepts;
    if |seen + t| <= ASSEMBLE_SIZE {
      RestNotReady(side, seen);
    } else if Ready(side, seen) {
      FrontStable(side, seen, t);
      var n := MessageSize(Front(seen));
      assert (seen + t)[n..] == seen[n..] + t;
      HeldRest(side, seen[n..], t);
    } else if |seen| >= HEADER_SIZE {
      FrontStable(side, seen, t);
    }
  }

  lemma {:induction false} HeldIsEnough(side: Side, seen: seq<byte>, chunks: seq<seq<byte>>)
    requires BufferHolds(side, seen + Concat(chunks)) && forall c :: c in chunks ==> |c| <= READ_SIZE
    ensures NeverOverflows(side, Rest(side, seen), chunks)
    decreases |chunks|
  {
    hide Front, Ready, Accepts, Rest, BufferHolds;
    if chunks != [] {
      var c := chunks[0];
      assert seen + Concat(chunks) == (seen + c) + Concat(chunks[1..]);
      HeldRest(side, seen, Concat(chunks));
      FramesAppend(side, seen, c);
      HeldIsEnough(side, seen + c, chunks[1..]);
    }
  }

  /** If every message is at most 16385 bytes and every read at most 16384 bytes, the overflow
      branch is unreachable, however the stream is cut. */
  lemma ReassemblyBound(side: Side, seen: seq<byte>, chunks: seq<seq<byte>>)
    requires BoundedStream(side, seen + Concat(chunks), LARGEST_SAFE_MESSAGE)
    requires forall c :: c in chunks ==> |c| <= READ_SIZE
    ensures NeverOverflows(side, Rest(side, seen), chunks)
  {
    BoundedHeld(side, seen + Concat(chunks));
    HeldIsEnough(side, seen, chunks);
  }

  lemma {:induction false} BoundedHeld(side: Side, s: seq<byte>)
    requires BoundedStream(side, s, LARGEST_SAFE_MESSAGE)
    ensures BufferHolds(side, s)
    decreases |s|
  {
    hide Front, Accepts;
    if |s| > ASSEMBLE_SIZE {
      BoundedHeld(side, s[MessageSize(Front(s))..]);
    }
  }

  /** Reads of the largest size. */
  function Pieces(s: seq<byte>): (chunks: seq<seq<byte>>)
    ensures IsCut(s, chunks)
  {
    if s == [] then [] else if |s| <= READ_SIZE then [s] else [s[..READ_SIZE]] + Pieces(s[READ_SIZE..])
  }

  lemma CutAppend(a: seq<byte>, b: seq<byte>, cut1: seq<seq<byte>>, cut2: seq<seq<byte>>)
    requires IsCut(a, cut1) && IsCut(b, cut2)
    ensures IsCut(a + b, cut1 + cut2)
  {
    ConcatAppend(cut1, cut2);
  }

  lemma {:induction false} NeverOverflowsAppend(side: Side, buffered: seq<byte>, a: seq<seq<byte>>, b: seq<seq<byte>>)
    ensures NeverOverflows(side, buffered, a + b) <==>
            NeverOverflows(side, buffered, a) && NeverOverflows(side, FeedRest(side, buffered, a), b)
    decreases |a|
  {
    hide Rest;
    if a == [] {
      assert a + b == b;
    } else {
      assert (a + b)[0] == a[0] && (a + b)[1..] == a[1..] + b;
      NeverOverflowsAppend(side, Rest(side, buffered + a[0]), a[1..], b);
    }
  }

  /** A stream that the buffer does not hold is overflowed by some cut: whole messages up to the first one
      that is too long or rejected, and there the cut of BoundIsSharp. */
  lemma {:induction false} OverflowingCut(side: Side, s: seq<byte>) returns (chunks: seq<seq<byte>>)
    requires !BufferHolds(side, s)
    ensures IsCut(s, chunks) && !NeverOverflows(side, [], chunks)
    decreases |s|
  {
    hide Front, Accepts, NeverOverflows, IsCut, Concat;
    if Accepts(side, Front(s)) && MessageSize(Front(s)) <= LARGEST_SAFE_MESSAGE {
      var n := MessageSize(Front(s));
      var later := OverflowingCut(side, s[n..]);
      chunks := Pieces(s[..n]) + later;
      assert s[..n] + s[n..] == s;
      CutAppend(s[..n], s[n..], Pieces(s[..n]), later);
      NeverOverflowsAppend(side, [], Pieces(s[..n]), later);
      OneMessage(side, s, n);
    } else {
      chunks := BoundIsSharp(side, s);
    }
  }

  lemma OneMessage(side: Side, s: seq<byte>, n: nat)
    requires |s| >= HEADER_SIZE && Accepts(side, Front(s)) && n == MessageSize(Front(s)) <= |s|
    ensures FeedRest(side, [], Pieces(s[..n])) == []
  {
    hide Accepts, DecodeHeader;
    assert s[..n][..HEADER_SIZE] == s[..HEADER_SIZE];
    assert s[..n][n..] == [];
    assert [] + Concat(Pieces(s[..n])) == s[..n] by { assert IsCut(s[..n], Pieces(s[..n])); }
    FeedIsFrames(side, [], Pieces(s[..n]));
  }

  /** One byte more than the largest safe message is too much: with a full buffer's bytes to come, a read of
      one byte leaves 16385 bytes of it, and the next full read overflows. A rejected header does the same. */
  lemma BoundIsSharp(side: Side, s: seq<byte>) returns (chunks: seq<seq<byte>>)
    requires |s| > ASSEMBLE_SIZE
    requires !Accepts(side, Front(s)) || MessageSize(Front(s)) > LARGEST_SAFE_MESSAGE
    ensures chunks == [s[..READ_SIZE], s[READ_SIZE..READ_SIZE + 1]] + Pieces(s[READ_SIZE + 1..])
    ensures IsCut(s, chunks) && !NeverOverflows(side, [], chunks)
  {
    hide Front, Accepts, Pieces, Rest;
    var c0, c1, later := s[..READ_SIZE], s[READ_SIZE..READ_SIZE + 1], Pieces(s[READ_SIZE + 1..]);
    chunks := [c0, c1] + later;
    assert [c0, c1] + later == [c0] + ([c1] + later);
    SharpCut(s, c0, c1, later);
    NotYet(side, s, READ_SIZE);
    NotYet(side, s, READ_SIZE + 1);
    assert [] + c0 == s[..READ_SIZE] && c0 + c1 == s[..READ_SIZE + 1];
    FullPiece(s[READ_SIZE + 1..]);
    assert chunks[1..] == [c1] + later && ([c1] + later)[1..] == later;
    assert !NeverOverflows(side, c0 + c1, later);
    assert !NeverOverflows(side, c0, [c1] + later);
  }

  lemma SharpCut(s: seq<byte>, c0: seq<byte>, c1: seq<byte>, later: seq<seq<byte>>)
    requires |s| > READ_SIZE && c0 == s[..READ_SIZE] && c1 == s[READ_SIZE..READ_SIZE + 1]
    requires IsCut(s[READ_SIZE + 1..], later)
    ensures IsCut(s, [c0, c1] + later)
  {
    var first := [c0, c1];
    assert first[1..] == [c1] && Concat([c1]) == c1 + [];
    assert Concat(first) == c0 + c1 == s[..READ_SIZE + 1];
    assert s[..READ_SIZE + 1] + s[READ_SIZE + 1..] == s;
    CutAppend(s[..READ_SIZE + 1], s[READ_SIZE + 1..], first, later);
  }

  lemma FullPiece(s: seq<byte>)
    requires |s| >= READ_SIZE
    ensures Pieces(s) != [] && |Pieces(s)[0]| == READ_SIZE
  {
  }

  lemma NotYet(side: Side, s: seq<byte>, n: nat)
    requires HEADER_SIZE <= n <= |s| && (!Accepts(side, Front(s)) || n < MessageSize(Front(s)))
    ensures Rest(side, s[..n]) == s[..n]
  {
    assert s[..n][..HEADER_SIZE] == s[..HEADER_SIZE];
  }

  /** Absorbing failure: after a rejected header no further bytes ever produce a message. */
  lemma {:induction false} RejectedForever(side: Side, buffered: seq<byte>, chunks: seq<seq<byte>>)
    requires Rejected(side, buffered)
    ensures FeedMessages(side, buffered, chunks) == []
    ensures Rejected(side, FeedRest(side, buffered, chunks))
    decreases |chunks|
  {
    if chunks != [] {
      FrontStable(side, buffered, chunks[0]);
      RejectedForever(side, buffered + chunks[0], chunks[1..]);
    }
  }
}
