/** The windowed-sinc resampler as a function of one frame, and what it computes over a whole
    stream (src/processing/resample_adv.c:139-295). The kernel's arithmetic is a parameter: an
    output is some function of its phase and of the samples it reads. */
module ResampleStream {
  import opened Bytes
  import opened Arith
  import opened ResampleClock
  import opened ResampleWindow

  /** up: phase and 128 samples; down: fraction and samples; block: the same for one of 8 lanes. */
  datatype Kernel = Kernel(up: (int, seq<int16>) -> int16,
                           down: (nat, seq<int16>) -> int16,
                           block: (nat, seq<int16>, nat) -> int16)

  /** avx2 says which build it is: only there downsampling works in blocks of eight. */
  datatype Config = Config(rates: Rates, kernel: Kernel, avx2: bool)

  datatype Resampler = Resampler(pos: int, history: seq<int16>)

  /** The polyphase branch: the fraction's top ten bits. */
  function Phase(pos: int): int {
    var p := Frac(pos) * PHASES / 0x1_0000_0000;
    if p >= PHASES then PHASES - 1 else p
  }

  lemma PhaseInTable(pos: int)
    ensures 0 <= Phase(pos) < PHASES && Phase(pos) == Frac(pos) / 0x40_0000
  {
  }

  // ---------------------------------------------------------------- the code, one frame

  /** A sample by its index relative to the frame: history before it, the last sample after it. */
  function Fetch(history: seq<int16>, frame: seq<int16>, k: int): int16
    requires |history| == HISTORY
  {
    if k < 0 then history[if HISTORY + k < 0 then 0 else HISTORY + k]
    else if k < |frame| then frame[k]
    else if frame == [] then 0
    else frame[|frame| - 1]
  }

  function FetchRange(history: seq<int16>, frame: seq<int16>, lo: int, hi: int): seq<int16>
    requires |history| == HISTORY
  {
    if hi < lo then [] else seq<int16>(hi - lo + 1, j => Fetch(history, frame, lo + j))
  }

  lemma RangeSnoc(history: seq<int16>, frame: seq<int16>, lo: int, hi: int)
    requires |history| == HISTORY && lo <= hi
    ensures FetchRange(history, frame, lo, hi) == FetchRange(history, frame, lo, hi - 1) + [Fetch(history, frame, hi)]
  {
    hide Fetch;
  }

  function Single(c: Config, history: seq<int16>, frame: seq<int16>, pos: int): int16
    requires c.rates.Valid() && |history| == HISTORY
  {
    if c.rates.Up() then
      c.kernel.up(Phase(pos), FetchRange(history, frame, Floor(pos) - CENTER, Floor(pos) + 64))
    else
      c.kernel.down(Frac(pos), FetchRange(history, frame, FirstDown(c.rates, pos), LastDown(c.rates, pos, 0)))
  }

  function Lane(c: Config, history: seq<int16>, frame: seq<int16>, pos: int, lane: nat): int16
    requires c.rates.Valid() && |history| == HISTORY
  {
    c.kernel.block(Frac(pos), FetchRange(history, frame, FirstDown(c.rates, pos), LastDown(c.rates, pos, LANES - 1)),
      lane)
  }

  /** How many of a frame's outputs the block kernel makes; the rest are made one at a time. */
  function Blocked(c: Config, m: nat): nat {
    if c.rates.Up() || !c.avx2 then 0 else m / 8 * 8
  }

  function FrameOutput(c: Config, st: Resampler, frame: seq<int16>, m: nat, i: nat): int16
    requires c.rates.Valid() && |st.history| == HISTORY
  {
    if i < Blocked(c, m) then Lane(c, st.history, frame, st.pos + i / 8 * 8 * Step(c.rates), i % 8)
    else Single(c, st.history, frame, st.pos + i * Step(c.rates))
  }

  function FrameOutputs(c: Config, st: Resampler, frame: seq<int16>): (out: seq<int16>)
    requires c.rates.Valid() && |st.history| == HISTORY
    ensures |out| == OutCount(c.rates, |frame|)
  {
    var m := OutCount(c.rates, |frame|);
    seq(m, i requires 0 <= i => FrameOutput(c, st, frame, m, i))
  }

  /** The history update: a long frame replaces it, a short one shifts it. */
  function NextHistory(history: seq<int16>, frame: seq<int16>): (h: seq<int16>)
    requires |history| == HISTORY
    ensures |h| == HISTORY
  {
    if |frame| >= HISTORY then frame[|frame| - HISTORY..] else history[|frame|..] + frame
  }

  function AfterFrame(c: Config, st: Resampler, frame: seq<int16>): (next: Resampler)
    requires c.rates.Valid() && |st.history| == HISTORY
    ensures |next.history| == HISTORY
  {
    Resampler(st.pos + OutCount(c.rates, |frame|) * Step(c.rates) - |frame| * 0x1_0000_0000,
      NextHistory(st.history, frame))
  }

  function Start(c: Config): (st: Resampler)
    requires c.rates.Valid()
    ensures |st.history| == HISTORY
  {
    Resampler(Origin(c.rates), Silence())
  }

  function Silence(): seq<int16> { seq(HISTORY, _ => 0) }

  // ---------------------------------------------------------------- the stream

  /** The stream's samples, silence before it. */
  function StreamAt(s: seq<int16>, g: int): int16 {
    if 0 <= g < |s| then s[g] else 0
  }

  function Segment(s: seq<int16>, lo: int, hi: int): seq<int16> {
    if hi < lo then [] else seq<int16>(hi - lo + 1, j => StreamAt(s, lo + j))
  }

  /** Output i of the uncut stream: the kernel at the phase of G = -delay + i * step, over the
      stream's samples around floor(G). */
  function IdealSingle(c: Config, s: seq<int16>, i: nat): int16
    requires c.rates.Valid()
  {
    var g := Position(c.rates, i, 0);
    if c.rates.Up() then c.kernel.up(Phase(g), Segment(s, Floor(g) - CENTER, Floor(g) + 64))
    else c.kernel.down(Frac(g), Segment(s, FirstDown(c.rates, g), LastDown(c.rates, g, 0)))
  }

  function IdealLane(c: Config, s: seq<int16>, i: nat, lane: nat): int16
    requires c.rates.Valid()
  {
    var g := Position(c.rates, i, 0);
    c.kernel.block(Frac(g), Segment(s, FirstDown(c.rates, g), LastDown(c.rates, g, LANES - 1)), lane)
  }

  function IdealOutput(c: Config, s: seq<int16>, produced: nat, m: nat, i: nat): int16
    requires c.rates.Valid()
  {
    if i < Blocked(c, m) then IdealLane(c, s, produced + i / 8 * 8, i % 8) else IdealSingle(c, s, produced + i)
  }

  /** The last 1024 samples of silence followed by the stream. */
  function History(s: seq<int16>): (h: seq<int16>)
    ensures |h| == HISTORY
  {
    (Silence() + s)[|s|..]
  }

  lemma HistoryAt(s: seq<int16>, k: int)
    requires -HISTORY <= k < 0
    ensures History(s)[HISTORY + k] == StreamAt(s, |s| + k)
  {
  }

  /** History refinement: whatever the frame's length, the updated buffer is the last 1024 samples of
      silence followed by all input so far. */
  lemma HistoryRefinement(s: seq<int16>, frame: seq<int16>)
    ensures NextHistory(History(s), frame) == History(s + frame)
  {
    var all, next, h := Silence() + (s + frame), NextHistory(History(s), frame), History(s + frame);
    forall i | 0 <= i < HISTORY ensures next[i] == h[i] {
      assert h[i] == all[|s| + |frame| + i];
      if |frame| >= HISTORY {
        assert next[i] == frame[|frame| - HISTORY + i];
      } else if i < HISTORY - |frame| {
        assert next[i] == History(s)[|frame| + i] == (Silence() + s)[|s| + |frame| + i];
      } else {
        assert next[i] == frame[i - (HISTORY - |frame|)];
      }
    }
  }

  lemma {:induction false} HistoryOfRun(s: seq<int16>, frames: seq<seq<int16>>)
    ensures HistoryAfter(History(s), frames) == History(s + Flatten(frames))
    decreases |frames|
  {
    hide History, NextHistory;
    if frames == [] {
      assert s + Flatten(frames) == s;
    } else {
      HistoryRefinement(s, frames[0]);
      HistoryOfRun(s + frames[0], frames[1..]);
      assert s + Flatten(frames) == s + frames[0] + Flatten(frames[1..]);
    }
  }

  function HistoryAfter(history: seq<int16>, frames: seq<seq<int16>>): seq<int16>
    requires |history| == HISTORY
    decreases |frames|
  {
    if frames == [] then history else HistoryAfter(NextHistory(history, frames[0]), frames[1..])
  }

  function Flatten(frames: seq<seq<int16>>): seq<int16> {
    if frames == [] then [] else frames[0] + Flatten(frames[1..])
  }

  // ---------------------------------------------------------------- one frame against the stream

  /** Within reach, fetching from history and frame is reading the stream; the clamps do not act. */
  lemma FetchIsStream(s: seq<int16>, frame: seq<int16>, k: int)
    requires -HISTORY <= k < |frame|
    ensures Fetch(History(s), frame, k) == StreamAt(s + frame, |s| + k)
  {
    if k < 0 {
      HistoryAt(s, k);
    }
  }

  lemma RangeIsSegment(s: seq<int16>, frame: seq<int16>, lo: int, hi: int)
    requires -HISTORY <= lo && hi < |frame|
    ensures FetchRange(History(s), frame, lo, hi) == Segment(s + frame, |s| + lo, |s| + hi)
  {
    var a, b := FetchRange(History(s), frame, lo, hi), Segment(s + frame, |s| + lo, |s| + hi);
    assert |a| == |b|;
    forall j | 0 <= j < |a| ensures a[j] == b[j] {
      FetchIsStream(s, frame, lo + j);
    }
  }

  /** The state after some frames: the position law, the history, and outputs behind the input. */
  predicate Tracks(c: Config, st: Resampler, s: seq<int16>, produced: nat)
    requires c.rates.Valid()
  {
    && st.pos == Position(c.rates, produced, |s|)
    && st.history == History(s)
    && Behind(c.rates, produced, |s|)
  }

  predicate Reaches(c: Config, s: seq<int16>, produced: nat)
    requires c.rates.Valid()
  {
    HistoryReaches(c.rates, Lag(c.rates, produced, |s|))
  }

  lemma PositionForms(r: Rates, produced: nat, i: nat, consumed: nat)
    requires r.Valid()
    ensures Position(r, produced, consumed) + i * Step(r) == Position(r, produced + i, consumed)
    ensures Position(r, produced + i, 0) == Position(r, produced + i, consumed) + consumed * 0x1_0000_0000
  {
    hide Step, Origin;
    MulDistr(Step(r), produced, i);
  }

  lemma SamePhase(a: int, b: int)
    requires Frac(a) == Frac(b)
    ensures Phase(a) == Phase(b)
  {
    hide Frac;
  }

  lemma SingleIsIdeal(c: Config, st: Resampler, s: seq<int16>, produced: nat, frame: seq<int16>, i: nat)
    requires c.rates.Valid() && Tracks(c, st, s, produced) && Reaches(c, s, produced)
    requires i < OutCount(c.rates, |frame|)
    ensures Single(c, st.history, frame, st.pos + i * Step(c.rates)) == IdealSingle(c, s + frame, produced + i)
  {
    hide Step, Position, OutCount, Phase, Floor, Frac, FirstDown, LastDown, FetchRange, Segment, History,
         HistoryReaches, Lag;
    var r, p := c.rates, produced + i;
    var pos := Position(r, p, |s|);
    PositionForms(r, produced, i, |s|);
    IndexShift(r, pos, |s|, 0);
    SamePhase(pos, pos + |s| * 0x1_0000_0000);
    NeverPastEnd(r, produced, |s|, |frame|, p, 0);
    LaterKept(r, produced, |s|, p);
    if r.Up() {
      RangeIsSegment(s, frame, Floor(pos) - CENTER, Floor(pos) + 64);
    } else {
      RangeIsSegment(s, frame, FirstDown(r, pos), LastDown(r, pos, 0));
    }
  }

  lemma LaneIsIdeal(c: Config, st: Resampler, s: seq<int16>, produced: nat, frame: seq<int16>, i: nat, lane: nat)
    requires c.rates.Valid() && !c.rates.Up() && Tracks(c, st, s, produced) && Reaches(c, s, produced)
    requires i + 7 < OutCount(c.rates, |frame|)
    ensures Lane(c, st.history, frame, st.pos + i * Step(c.rates), lane) == IdealLane(c, s + frame, produced + i, lane)
  {
    hide Step, Position, OutCount, Floor, Frac, FirstDown, LastDown, FetchRange, Segment, History, HistoryReaches, Lag;
    var r, p := c.rates, produced + i;
    var pos := Position(r, p, |s|);
    PositionForms(r, produced, i, |s|);
    IndexShift(r, pos, |s|, 7);
    NeverPastEnd(r, produced, |s|, |frame|, p, 7);
    LaterKept(r, produced, |s|, p);
    RangeIsSegment(s, frame, FirstDown(r, pos), LastDown(r, pos, 7));
  }

  /** One frame: its outputs are the ideal ones, and the state law holds again. */
  lemma FrameIsIdeal(c: Config, st: Resampler, s: seq<int16>, produced: nat, frame: seq<int16>)
    requires c.rates.Valid() && Tracks(c, st, s, produced) && Reaches(c, s, produced)
    ensures var m := OutCount(c.rates, |frame|);
            && (forall i :: 0 <= i < m ==> FrameOutputs(c, st, frame)[i] == IdealOutput(c, s + frame, produced, m, i))
            && Tracks(c, AfterFrame(c, st, frame), s + frame, produced + m)
  {
    hide Step, Position, OutCount, Single, Lane, IdealSingle, IdealLane, NextHistory, History, Behind;
    var m := OutCount(c.rates, |frame|);
    FrameTracks(c, st, s, produced, frame);
    forall i | 0 <= i < m ensures FrameOutputs(c, st, frame)[i] == IdealOutput(c, s + frame, produced, m, i) {
      if i < Blocked(c, m) {
        BlockWithin(c, m, i);
        LaneIsIdeal(c, st, s, produced, frame, i / 8 * 8, i % 8);
      } else {
        SingleIsIdeal(c, st, s, produced, frame, i);
      }
    }
  }

  lemma BlockWithin(c: Config, m: nat, i: nat)
    requires i < Blocked(c, m)
    ensures i / 8 * 8 + 7 < m && !c.rates.Up()
  {
  }

  lemma FrameTracks(c: Config, st: Resampler, s: seq<int16>, produced: nat, frame: seq<int16>)
    requires c.rates.Valid() && Tracks(c, st, s, produced)
    ensures Tracks(c, AfterFrame(c, st, frame), s + frame, produced + OutCount(c.rates, |frame|))
  {
    hide Step, OutCount, Behind, NextHistory, History, Origin;
    HistoryRefinement(s, frame);
    BehindStep(c.rates, produced, |s|, |frame|);
    PositionForms(c.rates, produced, OutCount(c.rates, |frame|), |s|);
  }

  lemma StartTracks(c: Config)
    requires c.rates.Valid()
    ensures Tracks(c, Start(c), [], 0)
  {
    assert Silence() + [] == Silence();
    assert History([]) == Silence();
  }
}
