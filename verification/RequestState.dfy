/** What is in the arena between the stages of one request: the facts that the methods of module
    Transcode pass from one stage to the next. */
module RequestState {
  import opened Bytes
  import opened Memory
  import opened Protocol
  import opened Arenas
  import opened SampleLoops
  import opened ResampleStream
  import opened Pipeline
  import ResampleClock
  import Vad

  /** A request to a session: its payload, the arena's cursor and its bytes when it arrives. */
  datatype Job = Job(s: Settings, payload: seq<byte>, start: nat, before: seq<byte>) {
    ghost predicate WellPosed() {
      s.channels > 0 && INPUT_SIZE <= |payload| < TWO32 && start <= |before|
    }

    function Chunks(): seq<Chunk>
      requires INPUT_SIZE <= |payload| < TWO32
    {
      RequestChunks(payload)
    }

    predicate Decodable(cs: seq<Chunk>) {
      Decodes(s, payload, before, start, cs)
    }

    function End(cs: seq<Chunk>): Option<nat> {
      DecodeEnd(s, start, cs, |before|)
    }

    function Mixed(cs: seq<Chunk>): seq<int16>
      requires Decodable(cs)
    {
      MixedIn(s, payload, before, start, cs)
    }
  }

  // ---------------------------------------------------------------- the parse loop

  /** Some buffers are decoded and mixed: their mix is in the arena, and nothing is written past the cursor. */
  ghost predicate Partial(j: Job, cs: seq<Chunk>, curr: nat, mem: seq<byte>, off: nat, samples: nat) {
    && j.WellPosed() && j.start <= curr <= |mem| == |j.before|
    && j.Decodable(cs) && j.End(cs) == Some(curr)
    && SameOutside(j.before, mem, j.start, curr)
    && |j.Mixed(cs)| == samples * j.s.channels
    && (cs == [] ==> samples == 0)
    && (cs != [] ==> MixAt(j, cs, curr, mem, off, samples))
  }

  ghost predicate MixAt(j: Job, cs: seq<Chunk>, curr: nat, mem: seq<byte>, off: nat, samples: nat)
    requires j.s.channels > 0 && curr <= |mem| && j.Decodable(cs)
  {
    && j.start <= off && off + 2 * (samples * j.s.channels) <= curr
    && Samples(mem, off, samples * j.s.channels) == j.Mixed(cs)
  }

  /** The parse loop's state: the buffers still to come are those the parser will return. */
  ghost predicate MixState(j: Job, done: seq<Chunk>, offset: uint32, header: BufferHeader, left: nat,
                           curr: nat, mem: seq<byte>, off: nat, samples: nat)
  {
    && Partial(j, done, curr, mem, off, samples)
    && j.Chunks() == done + ParseAll(j.payload, offset, header, left)
  }

  /** All buffers of the request are decoded and mixed. */
  ghost predicate MixDone(j: Job, curr: nat, mem: seq<byte>, off: nat, samples: nat) {
    j.WellPosed() && Partial(j, j.Chunks(), curr, mem, off, samples)
  }

  lemma PartialFacts(j: Job, cs: seq<Chunk>, curr: nat, mem: seq<byte>, off: nat, samples: nat)
    requires Partial(j, cs, curr, mem, off, samples)
    ensures j.WellPosed() && j.Decodable(cs) && j.End(cs) == Some(curr)
    ensures j.start <= curr <= |mem| == |j.before|
    ensures SameOutside(j.before, mem, j.start, |mem|) && SameOutside(j.before, mem, j.start, curr)
  {
    hide MixedIn, DecodeEnd, Decodes, MixAt;
  }

  lemma SameLength(a: seq<byte>, b: seq<byte>, lo: nat, hi: nat)
    requires SameOutside(a, b, lo, hi)
    ensures |a| == |b|
  {
  }

  lemma MixStart(j: Job)
    requires j.WellPosed()
    ensures MixState(j, [], INPUT_SIZE, BufferHeader(0, 0), NetU32(j.payload[0..4]), j.start, j.before, 0, 0)
  {
    hide ParseAll, NetU32;
    assert [] + j.Chunks() == j.Chunks();
  }

  lemma MixEnd(j: Job, done: seq<Chunk>, offset: uint32, header: BufferHeader,
               curr: nat, mem: seq<byte>, off: nat, samples: nat)
    requires MixState(j, done, offset, header, 0, curr, mem, off, samples)
    ensures MixDone(j, curr, mem, off, samples) && SameOutside(j.before, mem, j.start, |mem|)
  {
    hide RequestChunks, Decodes, DecodeEnd, MixedIn, MixAt;
    assert done + [] == done;
  }

  /** The parser returned NULL: nothing is left. */
  lemma TurnNull(j: Job, done: seq<Chunk>, offset: uint32, header: BufferHeader, left: nat,
                 curr: nat, mem: seq<byte>, off: nat, samples: nat)
    requires left > 0 && MixState(j, done, offset, header, left, curr, mem, off, samples)
    requires NextBuffer(j.payload, offset, header).data.None?
    ensures MixDone(j, curr, mem, off, samples) && SameOutside(j.before, mem, j.start, |mem|)
  {
    hide RequestChunks, Decodes, DecodeEnd, MixedIn, MixAt, NextBuffer, ParseAll;
    ParseStep(j.payload, offset, header, left);
    assert done + [] == done;
  }

  lemma ChunkFacts(payload: seq<byte>)
    requires INPUT_SIZE <= |payload| < TWO32
    ensures RequestChunks(payload) == ParseAll(payload, INPUT_SIZE, BufferHeader(0, 0), NetU32(payload[0..4]))
    ensures forall c :: c in RequestChunks(payload) ==>
              c.start <= |payload| && (InBounds(payload, c) <==> c.header.length < TWO32 - c.start)
  {
    ParsedBuffers(payload, INPUT_SIZE, BufferHeader(0, 0), NetU32(payload[0..4]));
  }

  /** The parser returned a buffer: it is the request's next one. */
  lemma TurnChunk(j: Job, done: seq<Chunk>, offset: uint32, header: BufferHeader, left: nat,
                  curr: nat, mem: seq<byte>, off: nat, samples: nat)
    requires left > 0 && MixState(j, done, offset, header, left, curr, mem, off, samples)
    requires NextBuffer(j.payload, offset, header).data.Some?
    ensures var p := NextBuffer(j.payload, offset, header);
            var chunk := Chunk(p.data.value, p.header);
            && j.Chunks() == done + [chunk] + ParseAll(j.payload, p.offset, p.header, left - 1)
            && chunk.start <= |j.payload|
            && (InBounds(j.payload, chunk) <==> chunk.header.length < TWO32 - chunk.start)
    ensures Partial(j, done, curr, mem, off, samples) && SameOutside(j.before, mem, j.start, |mem|)
  {
    hide RequestChunks, InBounds, NextBuffer, ParseAll, Decodes, DecodeEnd, MixedIn, MixAt;
    ParseStep(j.payload, offset, header, left);
    var p := NextBuffer(j.payload, offset, header);
    var chunk, rest := Chunk(p.data.value, p.header), ParseAll(j.payload, p.offset, p.header, left - 1);
    assert done + ([chunk] + rest) == done + [chunk] + rest;
    assert j.Chunks()[|done|] == chunk;
    ChunkFacts(j.payload);
  }

  /** It could not be decoded: then neither can the request. */
  lemma TurnFailed(j: Job, done: seq<Chunk>, offset: uint32, header: BufferHeader, left: nat,
                   curr: nat, mem: seq<byte>, off: nat, samples: nat)
    requires left > 0 && MixState(j, done, offset, header, left, curr, mem, off, samples)
    requires var p := NextBuffer(j.payload, offset, header);
             p.data.Some? && !(Known(j.s.inType) && Allocates(curr, DecodeSize(j.s, p.header.length), |mem|))
    ensures j.End(j.Chunks()).None?
  {
    hide RequestChunks, InBounds, NextBuffer, ParseAll, DecodeEnd, Allocates, Known, DecodeSize, BlockStart, MixedIn,
         MixAt;
    TurnChunk(j, done, offset, header, left, curr, mem, off, samples);
    var p := NextBuffer(j.payload, offset, header);
    var chunk := Chunk(p.data.value, p.header);
    DecodeEndSnoc(j.s, j.start, done, chunk, |mem|);
    DecodeEndPrefix(j.s, j.start, done + [chunk], ParseAll(j.payload, p.offset, p.header, left - 1), |mem|);
  }

  lemma TurnTaken(j: Job, done: seq<Chunk>, offset: uint32, header: BufferHeader, left: nat,
                  curr: nat, mem: seq<byte>, off: nat, samples: nat,
                  curr': nat, mem': seq<byte>, off': nat, samples': nat)
    requires left > 0 && MixState(j, done, offset, header, left, curr, mem, off, samples)
    requires var p := NextBuffer(j.payload, offset, header);
             p.data.Some? && Partial(j, done + [Chunk(p.data.value, p.header)], curr', mem', off', samples')
    ensures var p := NextBuffer(j.payload, offset, header);
            MixState(j, done + [Chunk(p.data.value, p.header)], p.offset, p.header, left - 1,
                     curr', mem', off', samples')
  {
    hide RequestChunks, InBounds, NextBuffer, ParseAll, Partial;
    TurnChunk(j, done, offset, header, left, curr, mem, off, samples);
  }

  /** What the arena held above the cursor, it still holds. */
  lemma StaleKept(j: Job, mem: seq<byte>, curr: nat, at: nat, chunk: Chunk)
    requires j.s.channels > 0 && SameOutside(j.before, mem, j.start, curr) && curr <= at
    requires InBounds(j.payload, chunk) && at + DecodeSize(j.s, chunk.header.length) <= |mem|
    ensures DecodedChunk(j.s, j.payload, j.before, at, chunk) == DecodedChunk(j.s, j.payload, mem, at, chunk)
  {
    hide DecodeBuffer, InBounds;
    if !Aligned(j.s, chunk.header.length) {
      SamplesUnchanged(j.before, mem, j.start, curr, at, chunk.header.length);
    }
  }

  /** The next buffer is decoded into a new block. */
  ghost predicate NextBlock(j: Job, curr: nat, limit: nat, chunk: Chunk, curr': nat) {
    && Known(j.s.inType) && InBounds(j.payload, chunk)
    && Allocates(curr, DecodeSize(j.s, chunk.header.length), limit)
    && curr' == BlockStart(curr) + DecodeSize(j.s, chunk.header.length)
  }

  lemma NextEnd(j: Job, cs: seq<Chunk>, curr: nat, mem: seq<byte>, chunk: Chunk, curr': nat)
    requires j.s.channels > 0 && j.Decodable(cs) && j.End(cs) == Some(curr) && |mem| == |j.before|
    requires SameOutside(j.before, mem, j.start, curr) && NextBlock(j, curr, |mem|, chunk, curr')
    ensures j.Decodable(cs + [chunk]) && j.End(cs + [chunk]) == Some(curr') && curr <= curr' <= |mem|
    ensures BlockStart(curr) + DecodeSize(j.s, chunk.header.length) <= |mem|
    ensures var x := DecodedChunk(j.s, j.payload, mem, BlockStart(curr), chunk);
            j.Mixed(cs + [chunk]) == if cs == [] then x else MixInto(j.Mixed(cs), x)
  {
    AllocatesWithin(curr, DecodeSize(j.s, chunk.header.length), |mem|);
    hide MixInto, DecodedChunk, DecodeSize, BlockStart, Allocates, SameOutside, InBounds, Decodes, DecodeEnd, MixedIn,
         Known;
    StaleKept(j, mem, curr, BlockStart(curr), chunk);
    NextDecoded(j, cs, curr, chunk, curr');
  }

  lemma NextDecoded(j: Job, cs: seq<Chunk>, curr: nat, chunk: Chunk, curr': nat)
    requires j.s.channels > 0 && j.Decodable(cs) && j.End(cs) == Some(curr)
    requires NextBlock(j, curr, |j.before|, chunk, curr')
    ensures j.Decodable(cs + [chunk]) && j.End(cs + [chunk]) == Some(curr')
    ensures BlockStart(curr) + DecodeSize(j.s, chunk.header.length) <= |j.before|
    ensures var x := DecodedChunk(j.s, j.payload, j.before, BlockStart(curr), chunk);
            j.Mixed(cs + [chunk]) == if cs == [] then x else MixInto(j.Mixed(cs), x)
  {
    hide InBounds, Allocates, BlockStart, DecodeSize, Known, MixInto, MixedIn, DecodeEnd, DecodedChunk, Decodes;
    MixedInSnoc(j.s, j.payload, j.before, j.start, cs, curr, chunk);
  }

  lemma FirstPartial(j: Job, curr: nat, mem: seq<byte>, off0: nat, samples0: nat, chunk: Chunk,
                     curr': nat, mem': seq<byte>, samples: nat)
    requires Partial(j, [], curr, mem, off0, samples0) && NextBlock(j, curr, |mem|, chunk, curr')
    requires SameOutside(mem, mem', BlockStart(curr), curr')
    requires var x := DecodedChunk(j.s, j.payload, mem, BlockStart(curr), chunk);
             && |x| == samples * j.s.channels && BlockStart(curr) + 2 * |x| <= curr'
             && Samples(mem', BlockStart(curr), |x|) == x
    ensures Partial(j, [chunk], curr', mem', BlockStart(curr), samples)
  {
    PartialFacts(j, [], curr, mem, off0, samples0);
    NextEnd(j, [], curr, mem, chunk, curr');
    assert [] + [chunk] == [chunk];
    hide InBounds, Allocates, DecodeSize, Known, MixedIn, DecodeEnd, DecodedChunk, Samples;
  }

  lemma LaterPartial(j: Job, cs: seq<Chunk>, curr: nat, mem: seq<byte>, off: nat, samples: nat, chunk: Chunk,
                     curr': nat, mem': seq<byte>)
    requires Partial(j, cs, curr, mem, off, samples) && NextBlock(j, curr, |mem|, chunk, curr') && cs != []
    requires SameOutside(mem, mem', j.start, curr') && off + 2 * (samples * j.s.channels) <= |mem|
    requires var n := samples * j.s.channels;
             Samples(mem', off, n) ==
             MixInto(Samples(mem, off, n), DecodedChunk(j.s, j.payload, mem, BlockStart(curr), chunk))
    ensures Partial(j, cs + [chunk], curr', mem', off, samples)
  {
    PartialFacts(j, cs, curr, mem, off, samples);
    NextEnd(j, cs, curr, mem, chunk, curr');
    hide InBounds, Allocates, DecodeSize, Known, MixedIn, DecodeEnd, DecodedChunk, Samples, MixInto, BlockStart;
  }

  /** Where the mix lies. */
  lemma MixedRegion(j: Job, cs: seq<Chunk>, curr: nat, mem: seq<byte>, off: nat, samples: nat)
    requires Partial(j, cs, curr, mem, off, samples) && cs != []
    ensures j.start <= off && off + 2 * (samples * j.s.channels) <= curr <= |mem|
    ensures Samples(mem, off, samples * j.s.channels) == j.Mixed(cs)
  {
  }

  lemma Within(m0: seq<byte>, a: seq<byte>, b: seq<byte>, c0: nat, limit: nat, lo: nat, hi: nat)
    requires SameOutside(m0, a, c0, limit) && SameOutside(a, b, lo, hi) && c0 <= lo && hi <= limit
    ensures SameOutside(m0, b, c0, limit)
  {
  }

  lemma Wider(a: seq<byte>, b: seq<byte>, lo: nat, hi: nat, lo': nat, hi': nat)
    requires SameOutside(a, b, lo, hi) && lo' <= lo && hi <= hi'
    ensures SameOutside(a, b, lo', hi')
  {
  }

  // ---------------------------------------------------------------- resampling and the VAD

  /** The resampled output is in the arena. */
  ghost predicate ResampledAt(s: Settings, st: Resampler, next: Resampler, mixed: seq<int16>, samples: nat,
                              mem: seq<byte>, off: nat, curr: nat, curr': nat, outOff: nat, outSamples: nat)
  {
    && Defined(s) && |st.history| == ResampleClock.HISTORY
    && ResampleEnd(s, curr, samples, |mem|) == Some(curr') && curr <= curr' <= |mem|
    && off <= outOff && outOff + 2 * (outSamples * s.channels) <= curr' && outSamples == OutSamples(s, samples)
    && Samples(mem, outOff, outSamples * s.channels) == Resampled(s, st, mixed)
    && next == AfterResample(s, st, mixed)
  }

  lemma SameRateAt(s: Settings, st: Resampler, samples: nat, mem: seq<byte>, off: nat, curr: nat)
    requires Defined(s) && |st.history| == ResampleClock.HISTORY && s.resample.None?
    requires off + 2 * (samples * s.channels) <= curr <= |mem|
    ensures ResampledAt(s, st, st, Samples(mem, off, samples * s.channels), samples, mem, off, curr, curr, off, samples)
  {
    hide Samples;
  }

  lemma FrameIsAt(s: Settings, st: Resampler, next: Resampler, mixed: seq<int16>,
                  mem: seq<byte>, off: nat, curr: nat, curr': nat, outOff: nat, outSamples: nat)
    requires Defined(s) && |st.history| == ResampleClock.HISTORY && s.resample.Some? && off <= curr
    requires Allocates(curr, ResampleSize(s, |mixed|), |mem|)
    requires outOff == BlockStart(curr) && curr' == outOff + ResampleSize(s, |mixed|)
    requires outSamples == OutSamples(s, |mixed|) && outOff + 2 * outSamples <= curr' <= |mem|
    requires Samples(mem, outOff, outSamples) == FrameOutputs(s.resample.value, st, mixed)
    requires next == AfterFrame(s.resample.value, st, mixed)
    ensures ResampledAt(s, st, next, mixed, |mixed|, mem, off, curr, curr', outOff, outSamples)
  {
    hide Samples, ResampleClock.OutCount, FrameOutputs, AfterFrame, ResampleClock.Rates.Valid;
    assert outSamples * s.channels == outSamples;
  }

  /** The VAD pass of a request, if there is one: on the mixed input at 16 kHz, else on the output
      at 16 kHz. */
  function VadInput(s: Settings, mixed: seq<int16>, resampled: seq<int16>): Option<seq<int16>> {
    if s.vad.None? then None
    else if s.inRate == Vad.VAD_RATE then Some(mixed)
    else if s.outRate == Vad.VAD_RATE then Some(resampled)
    else None
  }

  /** The pass that happens before resampling. */
  function EarlyVadInput(s: Settings, mixed: seq<int16>): Option<seq<int16>> {
    if s.vad.Some? && s.inRate == Vad.VAD_RATE then Some(mixed) else None
  }

  /** One pass: the state after the input's complete frames, each once, and the reported value. */
  function VadPass(n: Vad.Network, h: seq<real>, pcm: seq<int16>, channels: nat): (seq<real>, real)
    requires |h| == Vad.HIDDEN && channels > 0
  {
    if pcm == [] then (h, -1.0)
    else
      var frames := Vad.Frames(pcm, Vad.FRAME * channels);
      (Vad.AfterFrames(n, h, frames, channels), Vad.MaxProbability(n, h, frames, channels, 0.0))
  }

  /** The VAD state and reported value after the request's one pass, or untouched and -1. */
  ghost predicate VadDone(s: Settings, input: Option<seq<int16>>, h: seq<real>, h': seq<real>, prob: real)
    requires s.channels > 0 && |h| == Vad.HIDDEN
  {
    if input.None? || s.vad.None? then h' == h && prob == -1.0
    else (h', prob) == VadPass(s.vad.value, h, input.value, s.channels)
  }

  /** What a call site does when it runs, and when it does not. */
  ghost predicate AtSite(s: Settings, run: bool, pcm: seq<int16>, h: seq<real>, h': seq<real>, p: real, p': real) {
    if run then
      s.vad.Some? && |h| == Vad.HIDDEN && s.channels > 0 && (h', p') == VadPass(s.vad.value, h, pcm, s.channels)
    else h' == h && p' == p
  }

  /** The mixed input has been resampled, and the VAD has run over what it should. */
  ghost predicate AtOutputRate(s: Settings, st: Resampler, next: Resampler, mixed: seq<int16>, samples: nat,
                               mem: seq<byte>, off: nat, curr: nat, curr': nat, outOff: nat, outSamples: nat,
                               h: seq<real>, h': seq<real>, prob: real)
  {
    && ResampledAt(s, st, next, mixed, samples, mem, off, curr, curr', outOff, outSamples) && |h| == Vad.HIDDEN
    && VadDone(s, VadInput(s, mixed, Resampled(s, st, mixed)), h, h', prob)
  }

  /** At most one of the two call sites runs. */
  lemma VadOnce(s: Settings, st: Resampler, next: Resampler, mixed: seq<int16>, samples: nat, mem: seq<byte>,
                off: nat, curr: nat, curr': nat, outOff: nat, outSamples: nat,
                h: seq<real>, h1: seq<real>, h2: seq<real>, p1: real, p2: real)
    requires ResampledAt(s, st, next, mixed, samples, mem, off, curr, curr', outOff, outSamples)
    requires |h| == Vad.HIDDEN && |h1| == Vad.HIDDEN && outOff + 2 * (outSamples * s.channels) <= |mem|
    requires var first := s.vad.Some? && s.inRate == Vad.VAD_RATE;
             && AtSite(s, first, mixed, h, h1, -1.0, p1) && (first ==> p1 >= 0.0)
             && AtSite(s, s.vad.Some? && p1 == -1.0 && s.outRate == Vad.VAD_RATE,
                       Samples(mem, outOff, outSamples * s.channels), h1, h2, p1, p2)
    ensures AtOutputRate(s, st, next, mixed, samples, mem, off, curr, curr', outOff, outSamples, h, h2, p2)
  {
    hide VadPass, Resampled, Samples, AfterResample;
  }

  lemma EarlyVad(s: Settings, mixed: seq<int16>, h: seq<real>, h1: seq<real>, p1: real)
    requires s.channels > 0 && |h| == Vad.HIDDEN
    requires AtSite(s, s.vad.Some? && s.inRate == Vad.VAD_RATE, mixed, h, h1, -1.0, p1)
    ensures VadDone(s, EarlyVadInput(s, mixed), h, h1, p1)
  {
    hide VadPass;
  }

  lemma StageFacts(s: Settings, st: Resampler, next: Resampler, mixed: seq<int16>, samples: nat,
                   mem: seq<byte>, off: nat, curr: nat, curr': nat, outOff: nat, outSamples: nat)
    requires ResampledAt(s, st, next, mixed, samples, mem, off, curr, curr', outOff, outSamples)
    ensures s.channels > 0 && outOff + 2 * (outSamples * s.channels) <= curr' <= |mem|
  {
  }

  lemma OutputRateFacts(s: Settings, st: Resampler, next: Resampler, mixed: seq<int16>, samples: nat, mem: seq<byte>,
                        off: nat, curr: nat, curr': nat, outOff: nat, outSamples: nat,
                        h: seq<real>, h': seq<real>, prob: real)
    requires AtOutputRate(s, st, next, mixed, samples, mem, off, curr, curr', outOff, outSamples, h, h', prob)
    ensures Defined(s) && |st.history| == ResampleClock.HISTORY && |h| == Vad.HIDDEN
    ensures ResampleEnd(s, curr, samples, |mem|) == Some(curr') && outSamples == OutSamples(s, samples)
    ensures off <= outOff && outOff + 2 * (outSamples * s.channels) <= curr' <= |mem|
    ensures Samples(mem, outOff, outSamples * s.channels) == Resampled(s, st, mixed)
    ensures MixedState(s, st, next, mixed, samples, curr, |mem|, h, h', prob)
  {
    hide Samples, Resampled, AfterResample, ResampleEnd, OutSamples, VadDone, VadInput;
  }

  /** Resampler, VAD and reported value once the mixed input has been processed: with no room to
      resample only the early VAD pass happened, else the resampler has moved on too. */
  ghost predicate MixedState(s: Settings, st: Resampler, st': Resampler, mixed: seq<int16>, samples: nat,
                             curr: nat, limit: nat, h: seq<real>, h': seq<real>, prob: real)
    requires Defined(s) && |st.history| == ResampleClock.HISTORY && |h| == Vad.HIDDEN
  {
    if ResampleEnd(s, curr, samples, limit).None? then
      st' == st && VadDone(s, EarlyVadInput(s, mixed), h, h', prob)
    else
      && st' == AfterResample(s, st, mixed)
      && VadDone(s, VadInput(s, mixed, Resampled(s, st, mixed)), h, h', prob)
  }

  // ---------------------------------------------------------------- the whole request

  /** Resampler, VAD and reported value after a request, whether it succeeded or not. */
  ghost predicate StateAfter(j: Job, st: Resampler, st': Resampler, h: seq<real>, h': seq<real>, prob0: real,
      prob: real) {
    && Defined(j.s) && |st.history| == ResampleClock.HISTORY && |h| == Vad.HIDDEN && j.WellPosed()
    && (var cs := j.Chunks();
        if MixLength(j.s, cs) == 0 || !j.Decodable(cs) then st' == st && h' == h && prob == prob0
        else
          MixedState(j.s, st, st', j.Mixed(cs), MixLength(j.s, cs), j.End(cs).value, |j.before|, h, h', prob))
  }

  /** The arena holds exactly the request's output at the front. */
  ghost predicate OutputAt(j: Job, st: Resampler, mem: seq<byte>, curr: nat) {
    && Defined(j.s) && |st.history| == ResampleClock.HISTORY && j.WellPosed() && j.Decodable(j.Chunks())
    && (var out := OutputIn(j.s, st, j.payload, j.before, j.start, j.Chunks());
        curr == j.start + |out| <= |mem| && mem[j.start..curr] == out)
  }

  lemma Untouched(m: seq<byte>, c0: nat)
    ensures SameOutside(m, m, c0, |m|)
  {
  }

  /** The mix loop failed or gave no samples: so does the specification. */
  lemma NotMixed(j: Job, curr: nat, mem: seq<byte>, off: nat, samples: nat, ok: bool, st: Resampler, h: seq<real>,
      prob: real)
    requires Defined(j.s) && j.WellPosed() && |j.payload| + |j.before| < TWO32
    requires |st.history| == ResampleClock.HISTORY && |h| == Vad.HIDDEN
    requires NetU32(j.payload[0..4]) > 0
    requires if ok then samples == 0 && MixDone(j, curr, mem, off, samples) else j.End(j.Chunks()).None?
    ensures !Succeeds(j.s, j.payload, j.start, |j.before|)
    ensures StateAfter(j, st, st, h, h, prob, prob)
  {
    hide RequestChunks, DecodeEnd, MixedIn, TailFits, NetU32, MixLength, MixAt;
    if ok {
      assert |j.Mixed(j.Chunks())| == MixLength(j.s, j.Chunks()) == 0;
    }
  }

  /** What the mix loop left in the arena. */
  lemma MixedFacts(j: Job, curr: nat, mem: seq<byte>, off: nat, samples: nat) returns (mixed: seq<int16>)
    requires MixDone(j, curr, mem, off, samples) && samples > 0
    ensures j.WellPosed() && j.start <= off && off + 2 * (samples * j.s.channels) <= curr <= |mem| == |j.before|
    ensures Samples(mem, off, samples * j.s.channels) == mixed
    ensures j.Decodable(j.Chunks()) && j.End(j.Chunks()) == Some(curr)
    ensures mixed == j.Mixed(j.Chunks()) && |mixed| == MixLength(j.s, j.Chunks()) == samples * j.s.channels > 0
  {
    hide RequestChunks, DecodeEnd, MixedIn, Samples, MixLength;
    PositiveProduct(samples, j.s.channels);
    mixed := j.Mixed(j.Chunks());
  }

  /** Where the tail's arena use depends on the sample count there is one channel. */
  lemma SameTail(s: Settings, curr: nat, samples: nat, limit: nat)
    requires Defined(s)
    ensures TailFits(s, curr, samples * s.channels, limit) <==> TailFits(s, curr, samples, limit)
    ensures ResampleEnd(s, curr, samples * s.channels, limit) == ResampleEnd(s, curr, samples, limit)
  {
    hide Allocates, ResampleClock.OutCount, BlockStart, ResampleClock.Rates.Valid;
    if s.resample.Some? || IsLaw(s.outType) {
      assert samples * s.channels == samples;
    }
  }

  lemma SuccessIs(j: Job, curr: nat, mem: seq<byte>, off: nat, samples: nat)
    requires Defined(j.s) && j.WellPosed() && NetU32(j.payload[0..4]) > 0
    requires MixDone(j, curr, mem, off, samples) && samples > 0
    ensures Succeeds(j.s, j.payload, j.start, |j.before|) <==> TailFits(j.s, curr, samples, |j.before|)
  {
    hide RequestChunks, DecodeEnd, MixedIn, NetU32, Samples, TailFits, MixDone, MixLength;
    var mixed := MixedFacts(j, curr, mem, off, samples);
    SameTail(j.s, curr, samples, |j.before|);
  }

  /** From the mixed input's state to the request's. */
  lemma StateIs(j: Job, curr: nat, mem: seq<byte>, off: nat, samples: nat, mixed: seq<int16>,
                st: Resampler, st': Resampler, h: seq<real>, h': seq<real>, prob0: real, prob: real)
    requires Defined(j.s) && |st.history| == ResampleClock.HISTORY && |h| == Vad.HIDDEN
    requires j.WellPosed() && MixDone(j, curr, mem, off, samples) && samples > 0
    requires j.Decodable(j.Chunks()) && mixed == j.Mixed(j.Chunks())
    requires MixedState(j.s, st, st', mixed, samples, curr, |j.before|, h, h', prob)
    ensures StateAfter(j, st, st', h, h', prob0, prob)
  {
    hide RequestChunks, DecodeEnd, MixedIn, Samples, MixLength, MixDone, VadDone, Resampled, AfterResample, ResampleEnd;
    var _ := MixedFacts(j, curr, mem, off, samples);
    SameTail(j.s, curr, samples, |j.before|);
  }

  lemma OutputIs(j: Job, curr: nat, m1: seq<byte>, off: nat, samples: nat, mixed: seq<int16>, st: Resampler,
                 mem: seq<byte>, curr': nat)
    requires Defined(j.s) && |st.history| == ResampleClock.HISTORY
    requires j.WellPosed() && MixDone(j, curr, m1, off, samples) && samples > 0
    requires j.Decodable(j.Chunks()) && mixed == j.Mixed(j.Chunks())
    requires var out := EncodeOutput(j.s, Resampled(j.s, st, mixed));
             curr' == j.start + |out| <= |mem| && mem[j.start..curr'] == out
    ensures OutputAt(j, st, mem, curr')
  {
    hide RequestChunks, MixedIn, MixDone, Resampled, EncodeOutput, Decodes;
  }

  lemma PositiveProduct(a: nat, b: nat)
    requires b > 0
    ensures a * b == 0 <==> a == 0
  {
  }

  // ---------------------------------------------------------------- samples in memory

  lemma CommonLength(a: nat, b: nat, c: nat)
    ensures var m := if b < a then b else a;
            m * c <= a * c && m * c <= b * c && (m * c == a * c || m * c == b * c)
  {
  }

  /** Mixing over the common length is mixing the sequences. */
  lemma MixedPrefix(m0: seq<byte>, m: seq<byte>, off: nat, n: nat, other: nat, k: nat, total: nat)
    requires off + 2 * n <= other && other + 2 * k <= |m0| && total == (if k < n then k else n)
    requires SameOutside(m0, m, off, off + 2 * total)
    requires Samples(m, off, total) == AddLanes(Samples(m0, off, total), Samples(m0, other, total))
    ensures Samples(m, off, n) == MixInto(Samples(m0, off, n), Samples(m0, other, k))
    ensures SameOutside(m0, m, off, off + 2 * n)
  {
    hide SampleAt, SatAdd;
    var a, b := Samples(m, off, n), MixInto(Samples(m0, off, n), Samples(m0, other, k));
    forall i | 0 <= i < n ensures a[i] == b[i] {
      if i < total {
        assert a[i] == Samples(m, off, total)[i];
        assert Samples(m0, off, total)[i] == Samples(m0, off, n)[i];
        assert Samples(m0, other, total)[i] == Samples(m0, other, k)[i];
      } else {
        KeptSample(m0, m, off, off + 2 * total, off + 2 * i);
      }
    }
  }

  lemma CopiedSamples(m: seq<byte>, off: nat, data: seq<byte>, n: nat)
    requires off + |data| <= |m| && 2 * n <= |data| && m[off..off + |data|] == data
    ensures Samples(m, off, n) == Samples(data, 0, n)
  {
    var a, b := Samples(m, off, n), Samples(data, 0, n);
    forall i | 0 <= i < n ensures a[i] == b[i] {
      assert m[off + 2 * i] == data[2 * i] && m[off + 2 * i + 1] == data[2 * i + 1];
    }
  }

  /** The resampling buffer always has room for the frame's outputs. */
  lemma CapacityEnough(s: Settings, n: nat)
    requires Defined(s) && s.resample.Some?
    ensures s.inRate > 0 && ResampleClock.OutCount(s.resample.value.rates, n) == n * s.outRate / s.inRate
  {
  }
}
