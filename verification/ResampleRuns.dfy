/** Whole streams: cutting the input into frames does not change the output. */
module ResampleRuns {
  import opened Bytes
  import opened Arith
  import opened ResampleClock
  import opened ResampleWindow
  import opened ResampleStream

  function Outputs(c: Config, st: Resampler, frames: seq<seq<int16>>): (out: seq<int16>)
    requires c.rates.Valid() && |st.history| == HISTORY
    ensures |out| == Total(c, frames)
    decreases |frames|
  {
    if frames == [] then []
    else FrameOutputs(c, st, frames[0]) + Outputs(c, AfterFrame(c, st, frames[0]), frames[1..])
  }

  function Final(c: Config, st: Resampler, frames: seq<seq<int16>>): Resampler
    requires c.rates.Valid() && |st.history| == HISTORY
    decreases |frames|
  {
    if frames == [] then st else Final(c, AfterFrame(c, st, frames[0]), frames[1..])
  }

  /** How many outputs a cutting of the input gives. */
  function Total(c: Config, frames: seq<seq<int16>>): nat
    requires c.rates.Valid()
  {
    if frames == [] then 0 else OutCount(c.rates, |frames[0]|) + Total(c, frames[1..])
  }

  /** At the start of every frame the history still reaches back far enough. */
  predicate Paced(c: Config, s: seq<int16>, produced: nat, frames: seq<seq<int16>>)
    requires c.rates.Valid()
    decreases |frames|
  {
    frames == [] ||
    (Reaches(c, s, produced) && Paced(c, s + frames[0], produced + OutCount(c.rates, |frames[0]|), frames[1..]))
  }

  predicate Exact(c: Config, frames: seq<seq<int16>>)
    requires c.rates.Valid()
  {
    forall f :: f in frames ==> ExactFrame(c.rates, |f|)
  }

  // ---------------------------------------------------------------- how outputs are made

  /** An output of the uncut stream: made alone, or as a lane of a block of eight. The AVX2 build makes
      blocks when downsampling, and which outputs they hold depends on where frames begin. */
  datatype Place = Alone(index: nat) | InBlock(first: nat, lane: nat)

  function At(c: Config, s: seq<int16>, place: Place): int16
    requires c.rates.Valid()
  {
    match place
    case Alone(i) => IdealSingle(c, s, i)
    case InBlock(first, lane) => IdealLane(c, s, first, lane)
  }

  function FramePlace(c: Config, produced: nat, m: nat, i: nat): Place {
    if i < Blocked(c, m) then InBlock(produced + i / 8 * 8, i % 8) else Alone(produced + i)
  }

  function FramePlan(c: Config, produced: nat, m: nat): (plan: seq<Place>)
    ensures |plan| == m && forall i :: 0 <= i < m ==> plan[i] == FramePlace(c, produced, m, i)
  {
    seq(m, i requires 0 <= i < m => FramePlace(c, produced, m, i))
  }

  /** How the outputs of a run are made. Only the lengths of the frames matter. */
  function Plan(c: Config, produced: nat, frames: seq<seq<int16>>): (plan: seq<Place>)
    requires c.rates.Valid()
    ensures |plan| == Total(c, frames)
    decreases |frames|
  {
    if frames == [] then []
    else
      var m := OutCount(c.rates, |frames[0]|);
      FramePlan(c, produced, m) + Plan(c, produced + m, frames[1..])
  }

  /** Outputs that are those of the uncut stream, made as planned. */
  predicate Follows(c: Config, out: seq<int16>, s: seq<int16>, plan: seq<Place>)
    requires c.rates.Valid()
  {
    |out| == |plan| && forall i :: 0 <= i < |out| ==> out[i] == At(c, s, plan[i])
  }

  /** Every frame fills whole blocks, or no block is ever made. */
  predicate Uniform(c: Config, frames: seq<seq<int16>>)
    requires c.rates.Valid()
  {
    c.rates.Up() || !c.avx2 || forall f :: f in frames ==> OutCount(c.rates, |f|) % 8 == 0
  }

  /** Then output i is always made in the same way. */
  function UniformPlace(c: Config, i: nat): Place {
    if c.rates.Up() || !c.avx2 then Alone(i) else InBlock(i / 8 * 8, i % 8)
  }

  lemma {:induction false} UniformPlan(c: Config, produced: nat, frames: seq<seq<int16>>)
    requires c.rates.Valid() && Uniform(c, frames) && (c.rates.Up() || !c.avx2 || produced % 8 == 0)
    ensures forall i :: 0 <= i < Total(c, frames) ==> Plan(c, produced, frames)[i] == UniformPlace(c, produced + i)
    decreases |frames|
  {
    hide OutCount, Rates.Valid;
    if frames != [] {
      assert frames[0] in frames && forall x :: x in frames[1..] ==> x in frames;
      var m, plan := OutCount(c.rates, |frames[0]|), Plan(c, produced, frames);
      var rest := Plan(c, produced + m, frames[1..]);
      UniformPlan(c, produced + m, frames[1..]);
      forall i | 0 <= i < |plan| ensures plan[i] == UniformPlace(c, produced + i) {
        if i < m {
          UniformFrame(c, produced, m, i);
        } else {
          assert plan[i] == rest[i - m] && produced + i == produced + m + (i - m);
        }
      }
    }
  }

  lemma UniformFrame(c: Config, produced: nat, m: nat, i: nat)
    requires i < m && (c.rates.Up() || !c.avx2 || (produced % 8 == 0 && m % 8 == 0))
    ensures FramePlan(c, produced, m)[i] == UniformPlace(c, produced + i)
  {
    if produced % 8 == 0 {
      LaneOf(produced, i);
    }
  }

  lemma LaneOf(produced: nat, i: nat)
    requires produced % 8 == 0
    ensures (produced + i) / 8 * 8 == produced + i / 8 * 8 && (produced + i) % 8 == i % 8
  {
  }

  /** Two uniform cuttings that give equally many outputs make them alike. */
  lemma UniformPlansAgree(c: Config, frames1: seq<seq<int16>>, frames2: seq<seq<int16>>)
    requires c.rates.Valid() && Uniform(c, frames1) && Uniform(c, frames2)
    ensures Total(c, frames1) <= Total(c, frames2) ==> Plan(c, 0, frames1) <= Plan(c, 0, frames2)
    ensures Total(c, frames1) == Total(c, frames2) ==> Plan(c, 0, frames1) == Plan(c, 0, frames2)
  {
    hide Plan, Uniform, UniformPlace;
    UniformPlan(c, 0, frames1);
    UniformPlan(c, 0, frames2);
  }

  /** Two cuttings make their outputs alike. */
  predicate Alike(c: Config, frames1: seq<seq<int16>>, frames2: seq<seq<int16>>)
    requires c.rates.Valid()
  {
    Plan(c, 0, frames1) == Plan(c, 0, frames2) || (Uniform(c, frames1) && Uniform(c, frames2))
  }

  // ---------------------------------------------------------------- later input does not matter

  lemma SegmentStable(s: seq<int16>, t: seq<int16>, lo: int, hi: int)
    requires hi < |s|
    ensures Segment(s + t, lo, hi) == Segment(s, lo, hi)
  {
    var a, b := Segment(s + t, lo, hi), Segment(s, lo, hi);
    assert |a| == |b|;
    forall j | 0 <= j < |a| ensures a[j] == b[j] {
      assert a[j] == StreamAt(s + t, lo + j) && b[j] == StreamAt(s, lo + j);
    }
  }

  /** An output of a frame does not change when more input follows. */
  lemma PlaceStable(c: Config, s: seq<int16>, frame: seq<int16>, t: seq<int16>, produced: nat, i: nat)
    requires c.rates.Valid() && Behind(c.rates, produced, |s|) && i < OutCount(c.rates, |frame|)
    ensures var place := FramePlan(c, produced, OutCount(c.rates, |frame|))[i];
            At(c, s + frame + t, place) == At(c, s + frame, place)
  {
    hide OutCount, IdealSingle, IdealLane, Rates.Valid, Behind;
    var m := OutCount(c.rates, |frame|);
    if i < Blocked(c, m) {
      BlockWithin(c, m, i);
      LaneStable(c, s, frame, t, produced, produced + i / 8 * 8, i % 8);
    } else {
      SingleStable(c, s, frame, t, produced, produced + i);
    }
  }

  lemma SingleStable(c: Config, s: seq<int16>, frame: seq<int16>, t: seq<int16>, produced: nat, p: nat)
    requires c.rates.Valid() && Behind(c.rates, produced, |s|)
    requires produced <= p < produced + OutCount(c.rates, |frame|)
    ensures IdealSingle(c, s + frame + t, p) == IdealSingle(c, s + frame, p)
  {
    hide Step, Position, OutCount, Floor, FirstDown, LastDown, Segment, Frac, Phase, Behind;
    var r, g := c.rates, Position(c.rates, p, 0);
    NeverPastEnd(r, produced, |s|, |frame|, p, 0);
    PositionForms(r, 0, p, |s|);
    IndexShift(r, Position(r, p, |s|), |s|, 0);
    if r.Up() {
      SegmentStable(s + frame, t, Floor(g) - CENTER, Floor(g) + 64);
    } else {
      SegmentStable(s + frame, t, FirstDown(r, g), LastDown(r, g, 0));
    }
  }

  lemma LaneStable(c: Config, s: seq<int16>, frame: seq<int16>, t: seq<int16>, produced: nat, p: nat, lane: nat)
    requires c.rates.Valid() && Behind(c.rates, produced, |s|)
    requires produced <= p && p + 7 < produced + OutCount(c.rates, |frame|)
    ensures IdealLane(c, s + frame + t, p, lane) == IdealLane(c, s + frame, p, lane)
  {
    hide Step, Position, OutCount, Floor, FirstDown, LastDown, Segment, Frac, Phase, Behind;
    var r, g := c.rates, Position(c.rates, p, 0);
    NeverPastEnd(r, produced, |s|, |frame|, p, 7);
    PositionForms(r, 0, p, |s|);
    IndexShift(r, Position(r, p, |s|), |s|, 7);
    SegmentStable(s + frame, t, FirstDown(r, g), LastDown(r, g, 7));
  }

  lemma FollowsAppend(c: Config, a: seq<int16>, b: seq<int16>, s: seq<int16>, plan1: seq<Place>, plan2: seq<Place>)
    requires c.rates.Valid() && Follows(c, a, s, plan1) && Follows(c, b, s, plan2)
    ensures Follows(c, a + b, s, plan1 + plan2)
  {
    hide At;
    var out, plan := a + b, plan1 + plan2;
    forall i | 0 <= i < |out| ensures out[i] == At(c, s, plan[i]) {
      if i >= |a| {
        assert out[i] == b[i - |a|] && plan[i] == plan2[i - |a|];
      }
    }
  }

  /** A frame's outputs in the terms of the uncut stream. */
  lemma FrameOutputsAre(c: Config, st: Resampler, s: seq<int16>, produced: nat, frame: seq<int16>, t: seq<int16>)
    requires c.rates.Valid() && Tracks(c, st, s, produced) && Reaches(c, s, produced)
    ensures Follows(c, FrameOutputs(c, st, frame), s + frame + t, FramePlan(c, produced, OutCount(c.rates, |frame|)))
  {
    hide Step, Position, OutCount, IdealSingle, IdealLane, History, Reaches, Behind, FrameOutputs;
    FrameIsIdeal(c, st, s, produced, frame);
    var m, out := OutCount(c.rates, |frame|), FrameOutputs(c, st, frame);
    var plan := FramePlan(c, produced, m);
    forall i | 0 <= i < m ensures out[i] == At(c, s + frame + t, plan[i]) {
      PlaceStable(c, s, frame, t, produced, i);
      assert out[i] == IdealOutput(c, s + frame, produced, m, i);
    }
  }

  // ---------------------------------------------------------------- whole runs

  /** The state law and the outputs of a run, together. */
  predicate RunMatches(c: Config, st: Resampler, s: seq<int16>, produced: nat, frames: seq<seq<int16>>)
    requires c.rates.Valid() && |st.history| == HISTORY
  {
    && Tracks(c, Final(c, st, frames), s + Flatten(frames), produced + Total(c, frames))
    && Follows(c, Outputs(c, st, frames), s + Flatten(frames), Plan(c, produced, frames))
  }

  lemma RunCons(c: Config, st: Resampler, s: seq<int16>, produced: nat, f: seq<int16>, rest: seq<seq<int16>>)
    requires c.rates.Valid() && |st.history| == HISTORY
    requires Follows(c, FrameOutputs(c, st, f), s + f + Flatten(rest), FramePlan(c, produced, OutCount(c.rates, |f|)))
    requires RunMatches(c, AfterFrame(c, st, f), s + f, produced + OutCount(c.rates, |f|), rest)
    ensures RunMatches(c, st, s, produced, [f] + rest)
  {
    hide Tracks, OutCount, FrameOutputs, AfterFrame, Follows, Rates.Valid, FramePlan;
    var frames, m := [f] + rest, OutCount(c.rates, |f|);
    assert frames[1..] == rest;
    assert s + Flatten(frames) == s + f + Flatten(rest);
    FollowsAppend(c, FrameOutputs(c, st, f), Outputs(c, AfterFrame(c, st, f), rest), s + f + Flatten(rest),
                  FramePlan(c, produced, m), Plan(c, produced + m, rest));
  }

  /** Over any paced run, in every build and at every frame length, the state law holds at the end and
      the outputs are exactly the next outputs of the uncut stream, in order. */
  lemma {:induction false} RunIsIdeal(c: Config, st: Resampler, s: seq<int16>, produced: nat, frames: seq<seq<int16>>)
    requires c.rates.Valid() && Tracks(c, st, s, produced) && Paced(c, s, produced, frames)
    ensures RunMatches(c, st, s, produced, frames)
    decreases |frames|
  {
    assert |st.history| == HISTORY;
    if frames == [] {
      assert s + Flatten(frames) == s;
    } else {
      hide Tracks, Reaches, OutCount, FrameOutputs, AfterFrame, Follows, RunMatches, Flatten, Rates.Valid, FramePlan;
      var f, rest := frames[0], frames[1..];
      assert frames == [f] + rest;
      FrameTracks(c, st, s, produced, f);
      FrameOutputsAre(c, st, s, produced, f, Flatten(rest));
      RunIsIdeal(c, AfterFrame(c, st, f), s + f, produced + OutCount(c.rates, |f|), rest);
      RunCons(c, st, s, produced, f, rest);
    }
  }

  /** The state law alone needs no pace. */
  lemma {:induction false} FinalTracks(c: Config, st: Resampler, s: seq<int16>, produced: nat, frames: seq<seq<int16>>)
    requires c.rates.Valid() && Tracks(c, st, s, produced)
    ensures Tracks(c, Final(c, st, frames), s + Flatten(frames), produced + Total(c, frames))
    decreases |frames|
  {
    assert |st.history| == HISTORY;
    hide Tracks, OutCount, AfterFrame, Rates.Valid;
    if frames == [] {
      assert s + Flatten(frames) == s;
    } else {
      var f, rest := frames[0], frames[1..];
      FrameTracks(c, st, s, produced, f);
      FinalTracks(c, AfterFrame(c, st, f), s + f, produced + OutCount(c.rates, |f|), rest);
      assert s + Flatten(frames) == s + f + Flatten(rest);
    }
  }

  /** Frame-cut independence, in general: of two paced cuttings of one stream that make their outputs
      alike as far as both go, the outputs of one are a prefix of the outputs of the other. */
  lemma CutsAgree(c: Config, frames1: seq<seq<int16>>, frames2: seq<seq<int16>>)
    requires c.rates.Valid() && Flatten(frames1) == Flatten(frames2)
    requires Paced(c, [], 0, frames1) && Paced(c, [], 0, frames2)
    requires Plan(c, 0, frames1) <= Plan(c, 0, frames2)
    ensures Outputs(c, Start(c), frames1) <= Outputs(c, Start(c), frames2)
    ensures Plan(c, 0, frames1) == Plan(c, 0, frames2) ==>
            Outputs(c, Start(c), frames1) == Outputs(c, Start(c), frames2)
  {
    hide At, Outputs, Start, Paced, Plan, Tracks;
    StartTracks(c);
    RunIsIdeal(c, Start(c), [], 0, frames1);
    RunIsIdeal(c, Start(c), [], 0, frames2);
    assert [] + Flatten(frames1) == [] + Flatten(frames2);
    SamePlan(c, Outputs(c, Start(c), frames1), Outputs(c, Start(c), frames2), [] + Flatten(frames1),
             Plan(c, 0, frames1), Plan(c, 0, frames2));
  }

  lemma SamePlan(c: Config, out1: seq<int16>, out2: seq<int16>, s: seq<int16>, plan1: seq<Place>, plan2: seq<Place>)
    requires c.rates.Valid() && Follows(c, out1, s, plan1) && Follows(c, out2, s, plan2) && plan1 <= plan2
    ensures out1 <= out2 && (plan1 == plan2 ==> out1 == out2)
  {
    hide At;
    forall i | 0 <= i < |out1| ensures out1[i] == out2[i] {
      assert plan1[i] == plan2[i];
    }
  }

  lemma {:induction false} ExactTotal(c: Config, frames: seq<seq<int16>>)
    requires c.rates.Valid() && Exact(c, frames)
    ensures Total(c, frames) * c.rates.input == |Flatten(frames)| * c.rates.output
  {
    hide OutCount;
    if frames != [] {
      assert frames[0] in frames;
      OutCountBounds(c.rates, |frames[0]|);
      ExactTotal(c, frames[1..]);
      var i, o := c.rates.input, c.rates.output;
      MulDistr(i, OutCount(c.rates, |frames[0]|), Total(c, frames[1..]));
      MulDistr(o, |frames[0]|, |Flatten(frames[1..])|);
    }
  }

  /** Exact frames are paced, for up to 261 * 2^32 outputs. */
  lemma {:induction false} ExactIsPaced(c: Config, s: seq<int16>, produced: nat, frames: seq<seq<int16>>)
    requires c.rates.Valid() && Exact(c, frames)
    requires produced * c.rates.input == |s| * c.rates.output && produced + Total(c, frames) <= MAX_OUTPUTS
    requires Behind(c.rates, produced, |s|)
    ensures Paced(c, s, produced, frames)
    decreases |frames|
  {
    hide OutCount, HistoryReaches, Lag;
    if frames != [] {
      assert frames[0] in frames;
      ExactReaches(c.rates, produced, |s|);
      BehindStep(c.rates, produced, |s|, |frames[0]|);
      ExactIsPaced(c, s + frames[0], produced + OutCount(c.rates, |frames[0]|), frames[1..]);
    }
  }

  /** Frame-cut independence for exact frames: two cuttings of one stream that make their outputs alike
      give the same output sequence, and output i is the kernel at G = -delay + i * step over the stream. */
  lemma FrameCutIndependence(c: Config, frames1: seq<seq<int16>>, frames2: seq<seq<int16>>)
    requires c.rates.Valid() && Flatten(frames1) == Flatten(frames2)
    requires Exact(c, frames1) && Exact(c, frames2) && Total(c, frames1) <= MAX_OUTPUTS
    requires Alike(c, frames1, frames2)
    ensures Outputs(c, Start(c), frames1) == Outputs(c, Start(c), frames2)
    ensures Follows(c, Outputs(c, Start(c), frames1), Flatten(frames1), Plan(c, 0, frames1))
  {
    hide Outputs, Start, Paced, Plan, Uniform, Exact, Total;
    SameTotal(c, frames1, frames2);
    if Uniform(c, frames1) && Uniform(c, frames2) {
      UniformPlansAgree(c, frames1, frames2);
    }
    ExactIsPaced(c, [], 0, frames1);
    ExactIsPaced(c, [], 0, frames2);
    CutsAgree(c, frames1, frames2);
    ExactRun(c, frames1);
  }

  lemma SameTotal(c: Config, frames1: seq<seq<int16>>, frames2: seq<seq<int16>>)
    requires c.rates.Valid() && |Flatten(frames1)| == |Flatten(frames2)| && Exact(c, frames1) && Exact(c, frames2)
    ensures Total(c, frames1) == Total(c, frames2)
  {
    assert c.rates.input > 0;
    hide Exact, Total;
    ExactTotal(c, frames1);
    ExactTotal(c, frames2);
    CancelMul(Total(c, frames1), Total(c, frames2), c.rates.input);
    CancelMul(Total(c, frames2), Total(c, frames1), c.rates.input);
  }

  /** Every run of exact frames from the start gives the outputs of the uncut stream. */
  lemma ExactRun(c: Config, frames: seq<seq<int16>>)
    requires c.rates.Valid() && Exact(c, frames) && Total(c, frames) <= MAX_OUTPUTS
    ensures Follows(c, Outputs(c, Start(c), frames), Flatten(frames), Plan(c, 0, frames))
    ensures |Outputs(c, Start(c), frames)| * c.rates.input == |Flatten(frames)| * c.rates.output
  {
    hide Outputs, Start, Paced, Plan, Exact, Total, Tracks, Follows;
    ExactTotal(c, frames);
    ExactIsPaced(c, [], 0, frames);
    StartTracks(c);
    RunIsIdeal(c, Start(c), [], 0, frames);
    assert [] + Flatten(frames) == Flatten(frames);
  }

  /** Without whole blocks the AVX2 build does depend on the cut: 40 ms from 48000 to 44100 Hz sent as two
      frames or as one make output 880 alone or in a block. */
  lemma PlansDiffer(c: Config, frames1: seq<seq<int16>>, frames2: seq<seq<int16>>)
    requires c.rates == Rates(48000, 44100) && c.avx2 && c.rates.Valid()
    requires |frames1| == 2 && |frames1[0]| == |frames1[1]| == 960 && |frames2| == 1 && |frames2[0]| == 1920
    ensures Exact(c, frames1) && Exact(c, frames2) && Total(c, frames1) == Total(c, frames2) == 1764
    ensures Plan(c, 0, frames1)[880] == Alone(880) && Plan(c, 0, frames2)[880] == InBlock(880, 0)
  {
    assert frames1[1..][0] == frames1[1] && frames1[1..][1..] == [] && frames2[1..] == [];
    assert OutCount(c.rates, 960) == 882 && OutCount(c.rates, 1920) == 1764;
    assert Plan(c, 0, frames1) == FramePlan(c, 0, 882) + Plan(c, 882, frames1[1..]);
    assert Plan(c, 0, frames2) == FramePlan(c, 0, 1764) + Plan(c, 1764, []);
    assert FramePlan(c, 0, 882)[880] == Alone(880) && FramePlan(c, 0, 1764)[880] == InBlock(880, 0);
  }

  // ---------------------------------------------------------------- when cutting matters

  predicate SameOutputs(c: Config, frames1: seq<seq<int16>>, frames2: seq<seq<int16>>)
    requires c.rates.Valid()
  {
    Outputs(c, Start(c), frames1) == Outputs(c, Start(c), frames2)
  }

  /** A place is that of its own output. */
  predicate PlaceOf(place: Place, i: nat) {
    match place
    case Alone(index) => index == i
    case InBlock(first, lane) => lane < 8 && first + lane == i
  }

  lemma {:induction false} PlanPlaces(c: Config, produced: nat, frames: seq<seq<int16>>, i: nat)
    requires c.rates.Valid() && i < Total(c, frames)
    ensures PlaceOf(Plan(c, produced, frames)[i], produced + i)
    decreases |frames|
  {
    hide OutCount, Rates.Valid;
    var m := OutCount(c.rates, |frames[0]|);
    if i >= m {
      PlanPlaces(c, produced + m, frames[1..], i - m);
      assert produced + i == produced + m + (i - m);
    }
  }

  /** Neither the plan nor the pace depends on the kernel. */
  lemma {:induction false} KernelFree(c: Config, k: Kernel, s: seq<int16>, produced: nat, frames: seq<seq<int16>>)
    requires c.rates.Valid()
    ensures Total(c.(kernel := k), frames) == Total(c, frames)
    ensures Plan(c.(kernel := k), produced, frames) == Plan(c, produced, frames)
    ensures Paced(c.(kernel := k), s, produced, frames) == Paced(c, s, produced, frames)
    decreases |frames|
  {
    hide OutCount, Rates.Valid, HistoryReaches, Lag;
    if frames != [] {
      KernelFree(c, k, s + frames[0], produced + OutCount(c.rates, |frames[0]|), frames[1..]);
    }
  }

  /** A kernel that shows how an output was made: its lane in a block, 8 alone. */
  const LABELS := Kernel((_, _) => 8, (_, _) => 8, (_, _, lane) => if lane < 8 then lane else 8)

  lemma LabelsAre(c: Config, s: seq<int16>, place: Place, i: nat)
    requires c.rates.Valid() && c.kernel == LABELS && PlaceOf(place, i)
    ensures At(c, s, place) == if place.Alone? then 8 else place.lane
  {
    hide Position, Segment, FirstDown, LastDown, Phase, Frac, Floor, Rates.Valid;
  }

  lemma PacedFollows(c: Config, frames: seq<seq<int16>>)
    requires c.rates.Valid() && Paced(c, [], 0, frames)
    ensures Follows(c, Outputs(c, Start(c), frames), Flatten(frames), Plan(c, 0, frames))
  {
    hide Outputs, Paced, Plan, Total, Tracks, Follows, Start;
    StartTracks(c);
    RunIsIdeal(c, Start(c), [], 0, frames);
    assert [] + Flatten(frames) == Flatten(frames);
  }

  /** The exact condition. Two cuttings of one stream give the same outputs, whatever the kernel, if and only
      if they make their outputs alike. */
  lemma CutsAgreeExactly(c: Config, frames1: seq<seq<int16>>, frames2: seq<seq<int16>>)
    requires c.rates.Valid() && Flatten(frames1) == Flatten(frames2)
    requires Paced(c, [], 0, frames1) && Paced(c, [], 0, frames2)
    ensures (forall k: Kernel :: SameOutputs(c.(kernel := k), frames1, frames2)) <==>
            Plan(c, 0, frames1) == Plan(c, 0, frames2)
  {
    hide Outputs, Paced, Plan, Total, Start, SameOutputs, Rates.Valid;
    if Plan(c, 0, frames1) == Plan(c, 0, frames2) {
      forall k: Kernel ensures SameOutputs(c.(kernel := k), frames1, frames2) {
        KernelFree(c, k, [], 0, frames1);
        KernelFree(c, k, [], 0, frames2);
        AlikeIsSame(c.(kernel := k), frames1, frames2);
      }
    } else {
      var d := c.(kernel := LABELS);
      KernelFree(c, LABELS, [], 0, frames1);
      KernelFree(c, LABELS, [], 0, frames2);
      assert !SameOutputs(d, frames1, frames2) by { LabelsDiffer(d, frames1, frames2); }
    }
  }

  lemma AlikeIsSame(c: Config, frames1: seq<seq<int16>>, frames2: seq<seq<int16>>)
    requires c.rates.Valid() && Flatten(frames1) == Flatten(frames2)
    requires Paced(c, [], 0, frames1) && Paced(c, [], 0, frames2) && Plan(c, 0, frames1) == Plan(c, 0, frames2)
    ensures SameOutputs(c, frames1, frames2)
  {
    hide Outputs, Paced, Plan, Total, Start;
    CutsAgree(c, frames1, frames2);
  }

  lemma LabelsDiffer(c: Config, frames1: seq<seq<int16>>, frames2: seq<seq<int16>>)
    requires c.rates.Valid() && c.kernel == LABELS && Flatten(frames1) == Flatten(frames2)
    requires Paced(c, [], 0, frames1) && Paced(c, [], 0, frames2) && Plan(c, 0, frames1) != Plan(c, 0, frames2)
    ensures !SameOutputs(c, frames1, frames2)
  {
    hide Outputs, Paced, Plan, Total, Start, At;
    PacedFollows(c, frames1);
    PacedFollows(c, frames2);
    var s, plan1, plan2 := Flatten(frames1), Plan(c, 0, frames1), Plan(c, 0, frames2);
    if |plan1| == |plan2| {
      var i :| 0 <= i < |plan1| && plan1[i] != plan2[i];
      PlanPlaces(c, 0, frames1, i);
      PlanPlaces(c, 0, frames2, i);
      LabelsAre(c, s, plan1[i], i);
      LabelsAre(c, s, plan2[i], i);
      assert At(c, s, plan1[i]) != At(c, s, plan2[i]);
    }
  }

  /** Without whole blocks the AVX2 build does depend on the cut: some kernel gives different outputs for 40 ms
      from 48000 to 44100 Hz sent as two frames or as one. */
  lemma CutsDiffer(c: Config, frames1: seq<seq<int16>>, frames2: seq<seq<int16>>)
    requires c.rates == Rates(48000, 44100) && c.avx2 && c.rates.Valid() && Flatten(frames1) == Flatten(frames2)
    requires |frames1| == 2 && |frames1[0]| == |frames1[1]| == 960 && |frames2| == 1 && |frames2[0]| == 1920
    ensures !forall k: Kernel :: SameOutputs(c.(kernel := k), frames1, frames2)
  {
    hide Plan, Total, Exact, SameOutputs, Paced;
    PlansDiffer(c, frames1, frames2);
    ExactIsPaced(c, [], 0, frames1);
    ExactIsPaced(c, [], 0, frames2);
    CutsAgreeExactly(c, frames1, frames2);
  }

  /** The run that ClientFramesDrift is about. */
  lemma ClientRunDrifts(c: Config, frames: seq<seq<int16>>)
    requires c.rates == Rates(44100, 48000) && c.rates.Valid() && forall f :: f in frames ==> |f| == CLIENT_FRAME
    ensures WindowKept(c.rates, Final(c, Start(c), frames).pos) <==> |frames| <= 1186
  {
    hide Outputs, Start, Total, Step, Final;
    StartTracks(c);
    FinalTracks(c, Start(c), [], 0, frames);
    ClientTotals(c, frames);
    assert [] + Flatten(frames) == Flatten(frames);
    ClientFramesDrift(|frames|);
  }

  lemma {:induction false} ClientTotals(c: Config, frames: seq<seq<int16>>)
    requires c.rates == Rates(44100, 48000) && c.rates.Valid() && forall f :: f in frames ==> |f| == CLIENT_FRAME
    ensures Total(c, frames) == CLIENT_OUTPUTS * |frames| && |Flatten(frames)| == CLIENT_FRAME * |frames|
    decreases |frames|
  {
    if frames != [] {
      assert frames[0] in frames && forall f :: f in frames[1..] ==> f in frames;
      ClientTotals(c, frames[1..]);
    }
  }

  /** The drift over a run of exact frames. */
  lemma DriftOfRun(c: Config, frames: seq<seq<int16>>)
    requires c.rates.Valid() && Exact(c, frames) && Total(c, frames) <= MAX_OUTPUTS
    ensures var drift := |Flatten(frames)| * ONE - Total(c, frames) * Step(c.rates);
            && 0 <= drift <= Total(c, frames)
            && Final(c, Start(c), frames).pos == Origin(c.rates) - drift
  {
    hide Outputs, Step, Origin, OutCount, Tracks, Exact, Total, Final, Start;
    ExactTotal(c, frames);
    ExactLag(c.rates, Total(c, frames), |Flatten(frames)|);
    StartTracks(c);
    FinalTracks(c, Start(c), [], 0, frames);
    assert [] + Flatten(frames) == Flatten(frames);
    FinalPosition(c, frames);
  }

  lemma FinalPosition(c: Config, frames: seq<seq<int16>>)
    requires c.rates.Valid() && Tracks(c, Final(c, Start(c), frames), Flatten(frames), Total(c, frames))
    ensures Final(c, Start(c), frames).pos == Position(c.rates, Total(c, frames), |Flatten(frames)|)
  {
  }
}
