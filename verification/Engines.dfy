/** An engine that meets what EndToEnd asks of one. Its clock moves with every request, so equal requests get
    different durations. */
module Engines {
  import opened Bytes
  import opened Protocol
  import opened Session
  import opened Replies
  import opened ResampleClock
  import opened ResampleStream
  import opened Pipeline
  import opened RequestState
  import opened EndToEnd

  datatype Engine = Engine(settings: Settings, resampler: Resampler, clock: uint64)

  ghost function Begin(build: Build, e: Engine, config: seq<byte>): Engine {
    if |config| >= START_SIZE && Transcode.Supported(Transcode.DecodeStart(config)) then
      var s := StartedSettings(build, config);
      StartedDefined(build, config);
      Engine(s, Transcode.StartState(s), e.clock)
    else e
  }

  /** One request through a cleared arena. */
  ghost function Process(e: Engine, p: seq<byte>): (Engine, Outcome) {
    if Serving(Looking(), e) && Answerable(e.settings, 0, p) then
      var j := Cleared(e.settings, p);
      ClearedDecodes(e.settings, p);
      (Engine(e.settings, AfterResample(e.settings, e.resampler, j.Mixed(j.Chunks())), Wrap64(e.clock + 1)),
       Done(e.clock, 0, OutputIn(e.settings, e.resampler, p, j.before, 0, j.Chunks())))
    else (e, Failed)
  }

  function Cleared(s: Settings, p: seq<byte>): Job { Job(s, p, 0, Requests.Filled(ARENA_SIZE, 0)) }

  function Looking(): View<Engine> {
    View((e: Engine) => e.settings, (e: Engine) => e.resampler, (e: Engine) => 0)
  }

  lemma ClearedDecodes(s: Settings, p: seq<byte>)
    requires Defined(s) && Answerable(s, 0, p)
    ensures var j := Cleared(s, p); j.WellPosed() && j.Decodable(j.Chunks())
  {
    hide RequestChunks, MixLength, TailFits, InBounds, NetU32;
    AllInBounds(s, p, 0, ARENA_SIZE);
  }

  lemma StartedDefined(build: Build, config: seq<byte>)
    requires |config| >= START_SIZE && Transcode.Supported(Transcode.DecodeStart(config))
    ensures Defined(StartedSettings(build, config))
  {
    hide Transcode.Supported, SupportedRate, Defined, NetU16, NetU32;
    Transcode.SupportedDefined(Transcode.DecodeStart(config), StartedSettings(build, config));
  }

  ghost function Running(build: Build): Env<Engine> {
    Env((e: Engine, config: seq<byte>) => Begin(build, e, config), (e: Engine) => e,
        (e: Engine, p: seq<byte>) => Process(e, p), (n: nat) => true, 1)
  }

  /** The assumptions of RecordedIsStream about the engine and the allocator can be met. */
  lemma EngineExists(build: Build)
    ensures Starts(Running(build), Looking(), build) && Implements(Running(build), Looking())
    ensures Generous(Running(build))
  {
    hide Begin, Process;
    forall e: Engine, config: seq<byte> |
      |config| >= START_SIZE && Transcode.Supported(Transcode.DecodeStart(config))
      ensures StartedBy(Running(build), Looking(), build, e, config)
    {
      Begun(build, e, config);
    }
    forall e: Engine, p: seq<byte> | Serving(Looking(), e) && Answerable(e.settings, 0, p)
      ensures RepliedBy(Running(build), Looking(), e, p)
    {
      Processed(build, e, p);
    }
  }

  lemma Begun(build: Build, e: Engine, config: seq<byte>)
    requires |config| >= START_SIZE && Transcode.Supported(Transcode.DecodeStart(config))
    ensures StartedBy(Running(build), Looking(), build, e, config)
  {
    hide Transcode.Supported, Defined, StartedSettings, Transcode.StartState;
    StartedDefined(build, config);
  }

  lemma Processed(build: Build, e: Engine, p: seq<byte>)
    requires Serving(Looking(), e) && Answerable(e.settings, 0, p)
    ensures RepliedBy(Running(build), Looking(), e, p)
  {
    hide RequestChunks, MixedIn, OutputIn, AfterResample, Decodes, Defined, NetU32, Succeeds;
    ClearedDecodes(e.settings, p);
    var j := Cleared(e.settings, p);
    var (next, o) := Process(e, p);
    assert Transcode.Replied(j, e.resampler, next.resampler, o.data);
    assert j == Job(e.settings, p, 0, j.before) && |j.before| == ARENA_SIZE;
  }
}
