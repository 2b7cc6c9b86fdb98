# MachAudio verification

A Dafny model of MachAudio's core and proofs about it. MachAudio is an audio server: clients connect over a
Unix or TCP socket, start a session with a codec and a sample rate on each side, and send audio in CMD_INPUT
messages. A worker drives all its sessions from one io_uring completion queue. For each request it parses the
audio buffers, decodes and mixes them, resamples, runs a voice-activity network at 16 kHz, encodes, and sends
the result back with the request's sequence id.

`dafny verify dfyconfig.toml` checks everything.

## What is proved

Three machines are modelled in the form the C code has, and each is proved against a short specification on
values. The theorems are about the specifications, over all inputs and all runs.

**The wire and the sessions** (`Protocol`, `Framing`, `Session`, `SessionSafety`, `SessionEffects`,
`SessionClosing`, `Replies`, `Commands`, `EventLoop`, `WorldRuns`, `MachSession`). `Framing` defines the messages
and the unconsumed suffix of a byte stream; `FramesAppend` says that reading s and then t is reading s + t, even
past a rejected header, and everything about reassembly follows from it. `Session` is the session as a state
machine over completions, with a log of what it asked of the kernel. Every run keeps lifetime, ownership and close
order (`SessionLifetime`), and submits a subsequence of the replies its bytes call for, in request order
(`ReplyOrder`); if nothing fails it submits exactly those, however the bytes were cut (`ReplyStream`). It closes
exactly when the peer is gone, a send fails or its input is rejected (`ClosesExactly`), and a disconnect ends it
as soon as its writes are done (`DisconnectEnds`). What each command is answered with is stated by number
(`CommandsAre`). `EventLoop` adds the kernel as a nondeterministic environment, any number of sessions and the
ring of provided buffers, and shows that the server never handles a completion for a freed session and never loses
or duplicates a buffer id. Each of its sessions takes a run of the session machine (`SessionRuns`), so the reply
theorems hold of the whole server (`ServerReplies`). Class `MachSession` is the C code's object, with its assemble
buffer, pool and loops, proved to take exactly the machine's steps.

**The streaming resampler** (`ResampleClock`, `ResampleWindow`, `ResampleTaps`, `ResampleStream`, `ResampleRuns`,
`StreamResampler`). The 32.32 position obeys an exact law; the branch that repeats the last sample never acts; no
window starts before the history as long as, and only as long as, the clock keeps up with it
(`NeverBeforeHistory`), as it does with exact frames (`ExactIsPaced`); the history buffer is the last 1024 samples
of the whole input; and over every run that keeps within the history, in both builds, every output is an output of
the uncut stream (`RunIsIdeal`), so that cutting the stream differently does not change it
(`FrameCutIndependence`). The 128-tap kernel is a parameter: what is proved is which samples and which fraction
every output uses, alone or as a lane of a block of eight (`WindowSpans`, `UpTaps`). `StreamResampler` has the
loops, the direct and the padded window, the blocks of eight and the history moves. `LinearResample` is the older
two-tap resampler.

**The request pipeline over one arena** (`Arena`, `G711`, `SampleLoops`, `Vad`, `VadGates`, `Pipeline`, `Mixing`,
`Codecs`, `RequestState`, `Transcode`). A request decodes into the session's bump arena, mixes into its first
buffer, resamples, encodes and moves the result to the front, all in the same bytes. `AudioProcessTranscode`
leaves there exactly encode(resample(saturating mix of the decoded buffers)), succeeds exactly when `Succeeds`
says so, and says what state it leaves when it fails. The samples of a buffer that a decoder refuses are the
arena's old bytes, as in the code. A mix is the sum of its buffers, or the nearest 16-bit value (`TwoBuffers`,
`MixIsSum`); what bytes and samples are is stated by codec number (`Codecs`); and `VadGates` says what the gates
of the recurrence do.

**From file to recording** (`Requests`, `RequestRuns`, `Client`, `ClientChunks`, `ClientStats`, `Conversations`,
`Oversize`, `SentFiles`, `EndToEnd`, `Engines`). What a client prints is what the server parses; a session run
receives exactly the client's messages (`ServerSeesRequests`); the chunks of one or two files, looped or not, are
the files decoded and mixed as whole streams (`SentIsFileAudio`); and over any clean run of the session, however
its input and its replies are cut, the client records the encoding of that audio under the settings its start
message asked for, resampled uncut (`RecordedIsStream`). The audio engine's state is open but for its settings,
resampler and arena start: it may hold a clock and the VAD state, so equal requests may be timed differently.
`EngineExists` gives one that does.

Some properties are false of the code as it stands. They are stated with the input that breaks them and the
exact condition under which they hold:

* A closing session that has closed its descriptor still re-arms a receive, on descriptor -1, if the buffer
  ring runs dry just then, and in no other case (`ArmedOnClosed`). A bad header, the completion of its error
  reply and ENOBUFS are enough (`ArmsClosedDescriptor`).
* The reassembly buffer can overflow. No cut of a stream into reads overflows it if and only if the stream, from
  some boundary before which all messages are accepted and have at most 16385 bytes, is at most 32768 bytes long
  (`ReassemblyExactly`, and `SafeMessages` for printed messages). A message above 32768 bytes overflows it under
  every cut, wherever it comes (`OversizeOverflows`), and over every run the session closes and answers at most
  what came before it (`OversizeUnanswered`): a client that sends 400 ms of 48 kHz L16 per request gets no answer at
  all (`LongRequestsUnanswered`).
* A G.711 buffer whose length is not a multiple of 16 is not decoded: the decoder's -1 is ignored and the answer
  is made of what the arena held before. PCMA to PCMA and PCMU to PCMU at one rate pass through if and only if the
  length is a multiple of 16 other than 0 and the blocks fit (`LawPassThrough`); eight zero bytes of A-law, 1 ms at
  8 kHz, come back as silence (`EightBytes`). L16 needs one whole sample instant (`L16PassThrough`).
* An upsampler's window lies within the kept history exactly as long as its clock is at most 897 samples behind
  (`WindowKeptExactly`, `NeverBeforeHistory`). The client's 20 ms frames at 44100 Hz have 880 samples, which is
  not a whole number of outputs at 48000 Hz; after 1187 such frames, 23.74 s, the next one reads before the history
  (`ClientFramesDrift`, `ClientRunDrifts`).
* Downsampling in the AVX2 build depends on how the stream is cut. Two cuttings give the same outputs, whatever the
  kernel, if and only if they make each output alike, alone or in the same lane of the same block, which the frame
  lengths decide (`CutsAgreeExactly`). They do when every frame gives a multiple of eight outputs
  (`UniformPlansAgree`). 48000 to 44100 Hz gives 882 per 20 ms frame, and output 880 is made alone in 20 ms frames
  and in a block in 40 ms frames (`PlansDiffer`, `CutsDiffer`).
* A downsampled output that is made alone uses the samples within 63 s on either side of its position t, where s is
  input / output. Its loop looks at those from t - 63 s to t + 64 s, while the kernel's 128 taps belong to those
  after t - 65 s and up to t + 63 s: the last taps are never used, and the samples past t + 63 s have none
  (`SingleTaps`; `SingleMisses` names a missed one at every position). In a block the lanes from the third on see
  every sample that has a tap, the first two do not (`LaneTaps`).
* The order of a request's buffers does not matter where nothing saturates (`MixOrder`), and does where something
  does (`OrderMatters`).
* The client reads the duration of a CMD_OUTPUT message without looking at the message's length. Its statistics
  depend on the message alone, and so not on the cut, if and only if the payload has at least 8 bytes; the count and
  the amount always do (`StatsFromMessage`). Writing the audio to a file needs 16.
* A looped file shorter than one chunk is read past its end: a tick reads inside the files if and only if looped
  files hold a chunk (`InsideExactly`).
* mu-law to mu-law is not the identity: code 0x7F becomes 0xFF, and nothing else changes (`EncodeDecode`). The
  sample -32768 encodes as 0x7F, silence (`UlawMinimum`).
* The 32-bit product of the linear resampler is right for every fraction exactly when adjacent samples are at
  most 32768 apart (`ProductFitsExactly`), and its truncated step makes the index one too small exactly when
  the accumulated loss exceeds the fraction (`IndexIsFloor`).
* The polyphase tables do not copy: the phase that falls on an input sample loses one unit of every positive
  sample (`CopiedPhase`).

Where code and documentation differ, the model follows the code: an unsupported version is answered with
ERR_INVALID_MAGIC, not ERR_UNSUPPORTED_VERSION (src/core/server.c:184-187 against docs/protocol.md:144), and
when all 32 write buffers are in flight the hot path allocates one (src/core/server.c:119-125 against
README.md:15).

Doubles that only hold rates, counts and positions are modelled as the exact integers they stand for:
`n * out / in` outputs per frame and a step of `in * 2^32 / out`, both rounded down. The host is little-endian,
as the build for AVX2 implies; both the AVX2 and the scalar loops are modelled, selected by a flag.

## Model

| member | source | states |
|---|---|---|
| Protocol.HeaderRoundTrip | include/machaudio/protocol.h:41-47 | a printed message header is read back field by field |
| Protocol.AudioMsgHeader.Decode | src/protocol/parser.c:22-31 | decoding in place swaps every field |
| Protocol.ReadHeader | src/core/server.c:180-182 | loading a header and decoding it gives the network-order fields of its 16 bytes |
| Protocol.BufferCursor.Next | src/protocol/parser.c:33-69 | one parser call: pointer, offset and header for every payload, with 32-bit wrap-around |
| Protocol.ReturnedBuffer | src/protocol/parser.c:56-63 | a returned buffer lies inside the payload unless its length field wrapped the 32-bit sum |
| Protocol.ParsedBuffers | src/processing/transcode.c:106-115 | the same for all buffers of a request, however many are asked for |
| Protocol.NextPrinted | src/protocol/parser.c:42-68 | a printed buffer is parsed back, and the offset moves to the next one |
| Protocol.PrintParse | src/client/main.c:560-597 | printing any list of buffers and parsing gives the same lengths, volumes and bytes in order, then NULL at the end of the payload |
| Framing.FramesAppend | src/core/server.c:174-400 | the framing law: messages and suffix of s + t are those of s, then of the suffix of s followed by t |
| Framing.FrameAt | src/core/server.c:179-194 | what the loop's tests at an offset mean for the rest of the stream |
| Framing.FeedIsFrames | src/core/server.c:174-400 | for any sequence of reads, the messages are those of the concatenated bytes and the buffer holds exactly the rest |
| Framing.ChunkingIndependence | src/core/server.c:174-400 | two cuts of one stream give the same messages and the same suffix, for server and client |
| Framing.ReassemblyBound | src/core/server.c:168-172 | messages of at most 16385 bytes and reads of at most 16384 never reach the overflow branch |
| Framing.ReassemblyExactly | src/core/server.c:168-172 | for every stream and either side: no cut into reads of 1 to 16384 bytes overflows the buffer if and only if the stream has at most 32768 bytes or starts with an accepted message of at most 16385 and the same holds of what follows it |
| Framing.BoundIsSharp | src/core/server.c:168-172 | a stream above 32768 bytes whose first message is longer than 16385 bytes, or rejected, overflows under a stated cut |
| Framing.RejectedForever | src/core/server.c:184-189 | after a rejected header no bytes ever produce another message |
| SessionSafety.AcquireFresh | src/core/server.c:107-127 | an acquired write buffer was not in use; the heap is used only when all 32 slots are busy; failure exactly when too large or out of memory |
| SessionSafety.ReleaseOwned | src/core/server.c:98-105 | a completed write frees its own buffer, no other, and keeps pending_writes equal to slots plus heap responses |
| SessionSafety.StepInv | src/core/server.c:699-789 | every completion keeps the session invariant; closing is permanent and pending_writes then only falls |
| SessionSafety.RunInv | src/core/server.c:563-790 | the same over every run of completions |
| SessionSafety.SessionLifetime | src/core/server.c:84-96 | over every run: freed at most once and with nothing outstanding, closed at most once with no send after it, never stranded, pending_writes counts the buffers in use |
| SessionSafety.FreedWhenDrained | src/core/server.c:84-96 | a step frees the session exactly when it is closing and its last send and receive are done |
| SessionClosing.ClosesExactly | src/core/server.c:699-789 | a completion leaves a session closing if and only if it was, or a read gave 0 or an error other than ENOBUFS, a send failed, the buffer overflowed, or a header was rejected |
| SessionClosing.OverflowDrops | src/core/server.c:168-172 | a read that finds no room is dropped whole and closes the session |
| SessionClosing.ArmsExactly | src/core/server.c:725-767 | a completion arms a receive if and only if it is ENOBUFS, or the last of a receive and brings data to a session that stays open |
| SessionClosing.ClosingArmsNothing | src/core/server.c:699-789 | a closing session arms no receive over any run without ENOBUFS |
| SessionClosing.DisconnectEnds | src/core/server.c:715-745 | after a disconnect only the writes in flight complete, nothing is armed, and the session is closed and freed exactly when the last of them has |
| SessionClosing.DisconnectedAtOnce | src/core/server.c:743-745 | a client that connects and goes away: one receive, one close, one free |
| SessionClosing.OwnDescriptor | src/core/server.c:84-292 | over every run each send, receive and close names the descriptor of the accept, but for a receive on -1 |
| SessionClosing.SendLimits | src/core/server.c:107-127 | a response can be sent if it has at most 8192 bytes and one of 32 buffers is free or the heap gives one |
| SessionClosing.FreedIsStopped | src/core/server.c:84-96 | a freed session has stopped its transcoding |
| SessionEffects.StepEffects | src/core/server.c:699-789 | what one completion may submit: sends use buffers that were free, a receive is armed at most once and only after the last one ended |
| SessionEffects.ArmedOnClosed | src/core/server.c:725-737 | a receive is armed on descriptor -1 exactly when ENOBUFS meets a session that has closed its descriptor |
| SessionEffects.ArmsClosedDescriptor | src/core/server.c:725-737 | a run in which that happens: a rejected header, the completion of its error reply, which closes the descriptor, and ENOBUFS for the receive still armed |
| Replies.OneReply | src/core/server.c:198-387 | a message submits at most one response, exactly one with its sequence id when it needs one and it can be sent |
| Replies.ReplyOrder | src/core/server.c:167-411 | over every run the submitted responses are a subsequence of the replies the bytes call for, in request order |
| Replies.ReplyStream | src/core/server.c:167-411 | over every run without failures they are exactly those replies, whatever the chunking and interleaving |
| Commands.CommandsAre | src/core/server.c:198-387 | each command by number: what it does to the audio state and what it is answered with, byte by byte |
| Commands.KeepAlive | src/core/server.c:309-340 | pings in a clean run, however cut, are answered by pongs with their ids in order, and the session stays as it was |
| Commands.BadHeader | src/core/server.c:184-189 | after any messages, a header of another magic or version is answered with error 1 and its id, and the session closes |
| Commands.HeaderBytes | src/protocol/parser.c:7-20 | a header is taken by a server if and only if its bytes begin with MACH and version 1; where command, id and length lie |
| Commands.ClientAccepts | src/client/main.c:397-408 | a client takes every version |
| EventLoop.AlwaysSafe | src/core/server.c:699-789 | a queued completion belongs to a session that is not freed and may take it |
| EventLoop.KernelStep | src/core/server.c:606-640 | what the kernel may do keeps the world's invariant |
| EventLoop.HandleStep | src/core/server.c:642-789 | handling any completion keeps the invariant of sessions, receives, sends and buffers |
| EventLoop.EveryRunSafe | src/core/server.c:563-790 | every run of kernel and server, from any state satisfying the invariant, is safe at every step |
| EventLoop.InitialInv | src/core/server.c:34-82 | the world with no session and a full ring satisfies the invariant |
| EventLoop.EachBufferOnce | src/core/server.c:66-78 | each of the 16384 buffer ids is exactly once in the ring or in an unhandled completion |
| WorldRuns.SessionRuns | src/core/server.c:563-790 | every session that a run of the loop accepts is, at its end, in the state of a valid run of the session machine over the completions handled for it, or was freed by them |
| WorldRuns.BytesArrive | src/core/server.c:699-765 | the bytes a session receives in a run of the loop are those in the buffers of its own completions |
| WorldRuns.ServerReplies | src/core/server.c:563-790 | in every run of the loop a session's responses are a subsequence of the replies its own bytes call for, and exactly those if its own run was clean |
| WorldRuns.AcceptAdds | src/core/server.c:642-695 | an accept with memory adds one open session under a new address, with a receive armed on its descriptor; nothing else adds one |
| WorldRuns.SessionsAreAccepts | src/core/server.c:563-695 | over every run there have been as many sessions as successful accepts |
| MachServer.InitRegisteredBufferRing | src/core/server.c:66-81 | the ring is filled with every id once, at base + id * 16384 |
| MachServer.BuffersApart | src/core/server.c:66-78 | the 16384 buffers of 16384 bytes lie side by side |
| MachServer.BufRing.Return | src/core/server.c:402-410 | a returned buffer is appended to the ring with its own address and id |
| MachServer.MachSession.GetWriteResponse | src/core/server.c:107-127 | the pool search and heap fallback are the machine's acquire step |
| MachServer.MachSession.FreeWriteResponse | src/core/server.c:98-105 | is the machine's release step |
| MachServer.MachSession.SubmitResponse | src/core/server.c:255-292 | acquires, submits and counts, or does nothing when no buffer is left |
| MachServer.MachSession.SendError | src/core/server.c:129-165 | is the machine's error reply, silent while closing |
| MachServer.MachSession.DispatchMessage | src/core/server.c:198-387 | the command switch is the machine's dispatch of the message |
| MachServer.MachSession.ProcessClientRead | src/core/server.c:167-411 | the framing loop over the assemble buffer dispatches exactly the complete messages, keeps exactly the suffix, and returns the buffer on every path |
| MachServer.MachSession.CleanupIfNeeded | src/core/server.c:84-96 | is the machine's cleanup |
| MachServer.MachSession.HandleRead | src/core/server.c:699-770 | a read completion is the machine's read step and returns its buffer id exactly once |
| MachServer.MachSession.HandleWrite | src/core/server.c:772-789 | a write completion is the machine's write step |
| StreamResampling.ResamplerInit | src/processing/resample.c:35-66 | fails exactly for unsupported rates; else zero history and a position of minus the delay |
| ResampleClock.SplitPosition | src/processing/resample_adv.c:171-173 | index and fraction together are the position |
| ResampleClock.BehindStep | src/processing/resample_adv.c:156-162 | outputs never run ahead of the input, and exact frames keep them level |
| ResampleClock.ExactLag | src/processing/resample_adv.c:158 | with exact frames the drift is at least 0 and at most the number of outputs |
| ResampleWindow.NeverPastEnd | src/processing/resample_adv.c:201-205 | no output, alone or in a block of eight, reads at or past the end of its frame: the repeat-last-sample branch never acts |
| ResampleWindow.NeverBeforeHistory | src/processing/resample_adv.c:257-259 | every later output keeps its window within the kept 1024 samples if and only if the clock reaches that far back at the start of the frame |
| ResampleWindow.WindowKeptExactly | src/processing/resample_adv.c:197-200 | the first sample an output reads lies within the kept history exactly when the lag, in rate units, is below the stated bound, up and down |
| ResampleWindow.ClientFramesDrift | src/client/main.c:528-531 | with the client's 880-sample frames at 44100 Hz, upsampled to 48000, the next window lies within the history if and only if at most 1186 frames have come |
| ResampleWindow.PositionRange | src/processing/resample_adv.c:272-292 | while the history reaches back far enough the position stays within -2048 samples and the frame length, so it fits 64 bits |
| ResampleWindow.IndexShift | src/processing/resample_adv.c:292 | rebasing by whole samples moves all indices alike and keeps the fraction |
| ResampleTaps.WindowSpans | src/processing/resample_adv.c:76-80 | the downsampling window has a sample if and only if it lies between t - 63 s and t + 64 s, or t + 71 s for a block |
| ResampleTaps.SingleTaps | src/processing/resample_adv.c:240-262 | which samples a single output looks at and gives a tap, looks at in vain, and misses, as equivalences |
| ResampleTaps.SingleMisses | src/processing/resample_adv.c:243-250 | at every position the sample just before the window has tap 126 and is missed |
| ResampleTaps.LaneTaps | src/processing/resample_adv.c:76-100 | a lane of a block looks at every sample that has a tap if and only if it is not one of the first two |
| ResampleTaps.UpTaps | src/processing/resample_adv.c:184-216 | tap j of an upsampled output multiplies the sample 63 - j before its position |
| ResampleTaps.FractionUsed | src/processing/resample_adv.c:171-190 | the fraction of its position, and its number in a block, reach every output |
| ResampleStream.HistoryRefinement | src/processing/resample_adv.c:275-290 | the history update appends a frame of any length to the last 1024 samples |
| ResampleStream.HistoryOfRun | src/processing/resample_adv.c:275-290 | after any frames the history is the last 1024 samples of zeros followed by all input |
| ResampleStream.FrameIsIdeal | src/processing/resample_adv.c:170-273 | output i of a frame is the kernel at its global position over the uncut stream |
| ResampleStream.PhaseInTable | src/processing/resample_adv.c:179-180 | the phase index is the upper ten bits of the fraction and below 1024: the clamp never acts |
| ResampleRuns.RunIsIdeal | src/processing/resample_adv.c:139-295 | over any paced run, in both builds and at all frame lengths, the state law holds and output i is that of the uncut stream, made alone or in the block that the run puts it in |
| ResampleRuns.CutsAgree | src/processing/resample_adv.c:139-295 | two paced cuttings of one stream whose outputs are made alike as far as the first one goes: its outputs are a prefix of the other ones |
| ResampleRuns.UniformPlansAgree | src/processing/resample_adv.c:217-239 | cuttings into frames of whole blocks, and all cuttings when no blocks are made, make their outputs alike as far as both go |
| ResampleRuns.CutsAgreeExactly | src/processing/resample_adv.c:139-295 | two paced cuttings of one stream give the same outputs for every kernel if and only if they make each output alike, which depends on the frame lengths alone |
| ResampleRuns.PlansDiffer | src/processing/resample_adv.c:217-239 | 48000 to 44100 Hz with AVX2: output 880 is made alone in 20 ms frames and in a block in one 40 ms frame |
| ResampleRuns.CutsDiffer | src/processing/resample_adv.c:217-239 | so some kernel gives different outputs for the two |
| ResampleRuns.ExactRun | src/processing/resample_adv.c:139-295 | a run of exact frames gives input * out / in outputs, each that of the uncut stream |
| ResampleRuns.ExactIsPaced | src/processing/resample_adv.c:160 | exact frames never exhaust the history, up to 261 * 2^32 outputs |
| ResampleRuns.FrameCutIndependence | src/processing/resample_adv.c:139-295 | two cuttings into exact frames that make their outputs alike give the same output sequence, that of the uncut stream |
| ResampleRuns.DriftOfRun | src/processing/resample_adv.c:272-292 | the position law over a run: minus the delay, minus a drift between 0 and the outputs produced |
| ResampleRuns.ClientRunDrifts | src/client/main.c:528-531 | the same drift for the resampler's state after a run of 880-sample frames, if and only if |
| StreamResampling.StreamResampler.UpSample | src/processing/resample_adv.c:177-216 | the direct and the padded window give the same output |
| StreamResampling.StreamResampler.DownSample | src/processing/resample_adv.c:242-268 | the convolution loop gathers exactly the samples from t - 63 s to t + 64 s, stated without the index functions, from history or frame |
| StreamResampling.StreamResampler.DownBlocks | src/processing/resample_adv.c:59-136 | the blocks of eight write the specified outputs, each from the samples between t - 63 s and t + 71 s, and advance the position by eight steps each |
| StreamResampling.StreamResampler.UpdateHistory | src/processing/resample_adv.c:275-290 | the moves give the specified history |
| StreamResampling.StreamResampler.ResampleAdvanced | src/processing/resample_adv.c:139-295 | a frame in byte memory: outputs, new state, and nothing else changed |
| LinearResample.PhaseError | src/processing/resample.c:101-102 | every table phase fits 16 bits and is within two units of exact interpolation |
| LinearResample.PolyphaseAccurate | src/processing/resample.c:90-111 | each slot of the polyphase output holds its own sample and phase, within two units |
| LinearResample.CopiedPhase | src/processing/resample.c:13-28 | what phase 0 does to a sample |
| LinearResample.ProductFitsExactly | src/processing/resample.c:126 | the 32-bit product is right for all fractions if and only if the samples are at most 32768 apart |
| LinearResample.BetweenNeighbours | src/processing/resample.c:126-127 | an interpolated sample lies between its neighbours |
| LinearResample.IndexInRange | src/processing/resample.c:118-123 | every index is below the input length |
| LinearResample.IndexIsFloor | src/processing/resample.c:115-119 | the index is the exact floor or one less, and when which |
| LinearResample.AccumulatorIs | src/processing/resample.c:114-129 | the accumulator is i times the truncated rate ratio |
| LinearResample.LinearAccurate | src/processing/resample.c:114-130 | each output lies between two adjacent samples at the exact index or one before |
| LinearResample.LinearValue | src/processing/resample.c:114-130 | each fixed-point output is the straight line through the samples around its accumulator, to within two units |
| LinearResample.TablePhases | src/processing/resample.c:13-33 | the polyphase path serves 8, 16 and 24 kHz to 48 kHz, with as many phases as the ratio |
| LinearResample.PolyphaseValue | src/processing/resample.c:90-111 | each polyphase output is the point p phases-ths of the way from its sample to the next, to within two units |
| LinearResample.ResampleL16 | src/processing/resample.c:68-133 | both loops and the copy give the specified outputs and leave the rest of the buffer alone |
| G711.TableIsFormula | src/processing/g711_tables.h:6-100 | both decode tables equal the closed segment formulas |
| G711.DecodeEncode | src/processing/g711.c:8-82 | decoding an encoded sample gives the level of its segment and step, with its sign |
| G711.EncodeDecode | src/processing/g711.c:8-82 | encoding a decoded code gives it back, except mu-law 0x7F, which becomes 0xFF |
| G711.AlawError | src/processing/g711.c:44-82 | A-law is within 2^(s+2) of the sample in segment s, 8 in segment 0 |
| G711.UlawError | src/processing/g711.c:8-42 | for samples up to 32635 the mu-law magnitude error is between -(4*2^s - 4) and 4*2^s + 3 |
| G711.UlawMinimum | src/processing/g711.c:13-21 | -32768 negates to itself and encodes as 0x7F |
| G711.UlawClipped | src/processing/g711.c:8-42 | above the clip mu-law gives the largest level with the sample's sign, except at -32768 |
| Codecs.LawSamples | src/processing/transcode.c:122-128 | number 0 decodes by the mu-law formula and number 8 by the A-law formula, byte by byte |
| Codecs.L16Samples | src/processing/transcode.c:130-138 | number 96 is two bytes a sample, in the byte order the session was started with |
| Codecs.LawCodes | src/processing/transcode.c:203-210 | number 0 gives mu-law codes and number 8 A-law codes, within the error of the segment |
| Codecs.L16Bytes | src/processing/transcode.c:211-218 | number 96 gives two bytes a sample, in the byte order asked for |
| Codecs.LawToL16 | src/processing/transcode.c:85-229 | a G.711 request to an L16 session without resampling: each byte's formula value, as two bytes |
| Codecs.L16ToLaw | src/processing/transcode.c:85-229 | an L16 request to a G.711 session: each sample as a code near to it |
| Codecs.SameLaw | src/processing/transcode.c:85-229 | numbers 8 to 8 give the same bytes; 0 to 0 too, but for 0x7F, which becomes 0xFF |
| Codecs.OtherLaw | src/processing/transcode.c:85-229 | from one law to the other: codes near to what the formulas give |
| SampleLoops.GatherIsDecode | src/processing/transcode_pcmu_to_l16.c:36-58 | gather, pack and permute put the decoded samples in order |
| SampleLoops.TranscodeToL16 | src/processing/transcode_pcma_to_l16.c:7-66 | the 16-lane loop and the table loop both decode the buffer; a length that is no multiple of 16 changes nothing and gives -1 |
| SampleLoops.TranscodeFromL16 | src/processing/transcode_l16_to_pcmu.c:6-22 | the encode loop writes the encoded samples and nothing else |
| SampleLoops.MixL16 | src/processing/mix.c:22-45 | blocks of 16 and a scalar tail add with saturation, also with the output over the first input |
| Mixing.SumOrNearest | src/processing/mix.c:12-19 | a saturating sum is the sum where it fits 16 bits and otherwise the nearest 16-bit value |
| Mixing.MixNearest | src/processing/transcode.c:147-157 | each further buffer leaves the value nearest to the mix so far plus its sample |
| Mixing.MixIsSum | src/processing/transcode.c:147-157 | where nothing saturates the mix is the sum of all buffers |
| Mixing.MixOrder | src/processing/transcode.c:147-157 | there the order of the later buffers does not matter |
| Mixing.OrderMatters | src/processing/mix.c:22-45 | where something saturates it can |
| Mixing.TwoBuffers | src/processing/transcode.c:101-157 | a request of two buffers has as many samples as the first and each is the value nearest to the sum of the two |
| SampleLoops.SwapEndianL16 | src/processing/transcode.c:78-83 | the samples of the region are byte-swapped in place |
| SampleLoops.SwapTwice | src/processing/transcode.c:78-83 | swapping twice changes nothing, once exchanges the bytes |
| SampleLoops.BufferRoundTrip | src/processing/transcode_l16_to_pcma.c:6-22 | decoding all codes of a sequence and re-encoding them is the identity up to mu-law 0x7F; the decode loops do so for multiples of 16 |
| Arenas.Arena.Alloc | src/util/arena.c:38-74 | succeeds exactly when the 8-aligned block ends within the buffer |
| Arenas.AllocatesExactly | src/util/arena.c:49-60 | an allocation succeeds if and only if some multiple of 8 from the cursor on leaves room; from an empty cursor up to the whole arena |
| Arenas.PlacementDisjoint | src/util/arena.c:49-62 | blocks allocated one after another are aligned, in order and disjoint |
| Arenas.Arena.AllocVadState | src/processing/vad_gru.c:14-35 | with an 8-aligned buffer the state's address is a multiple of 32, within 32 bytes of the cursor |
| Vad.HiddenStaysInRange | src/processing/vad_gru.c:76-94 | one step keeps all 24 hidden values in [-1, 1] |
| Vad.PassInRange | src/processing/vad_gru.c:334-365 | a pass keeps them there and returns a value in [0, 1] |
| Vad.RunInRange | src/processing/vad_gru.c:38-103 | so does every run of passes |
| Vad.EachSampleRead | src/processing/vad_gru.c:338-353 | every sample of a frame enters some feature |
| Vad.SampleReadOnce | src/processing/vad_gru.c:338-353 | and only one, once |
| VadGates.Kept | src/processing/vad_gru.c:81-93 | an update gate of 1 keeps the old value |
| VadGates.Replaced | src/processing/vad_gru.c:76-93 | an update gate of 0 takes the candidate: tanh of all that comes in with the reset gate at 1, of the input alone with it at 0 |
| VadGates.Between | src/processing/vad_gru.c:81-93 | in between the new value lies between candidate and old value, and the nearer to the old one the larger the gate |
| VadGates.Forgotten | src/processing/vad_gru.c:76-90 | a reset gate of 0 makes the candidate's recurrent weights and bias irrelevant |
| VadGates.Remembered | src/processing/vad_gru.c:76-90 | a reset gate of 1 makes state and input count alike |
| VadGates.StepIs | src/processing/vad_gru.c:62-93 | one step in terms of independently summed layers: the candidate, moved towards the old value by the update gate |
| VadGates.ResultIsLargest | src/processing/vad_gru.c:355-364 | the result of a pass is at least every frame's probability, and the start value or one of them |
| VadGates.FlatFeatures | src/processing/vad_gru.c:338-353 | a frame of one value v has the logarithm of 1 + 10 |v| / 32768 for every feature, whatever the channels |
| VadGates.OwnSegment | src/processing/vad_gru.c:338-353 | a feature depends on its own sixteen instants alone, and not on their sign |
| VadGates.FramesAre | src/processing/vad_gru.c:328-337 | frame j is the j-th 320 instants of the input |
| VadGates.OneFrameMore | src/processing/vad_gru.c:334-365 | each further frame moves the state on by one step of the recurrence |
| VadGates.ReportedValue | src/processing/transcode.c:163-201 | a request reports -1 without a network or 16 kHz audio, else the largest probability over the frames of its input at 16 kHz, or of its output if only that is |
| Vad.VadGru.ProcessFrame | src/processing/vad_gru.c:45-103 | the loops compute the recurrence and the output layer |
| Vad.VadGru.ProcessPcm | src/processing/vad_gru.c:314-366 | each complete 320-sample frame advances the state once; the result is the largest probability, or -1 for unusable input |
| Pipeline.MixAllSnoc | src/processing/transcode.c:147-157 | mixing one more buffer is one more saturating addition |
| Pipeline.MixedInSnoc | src/processing/transcode.c:122-157 | one more buffer: its block, its samples, stale where the decoder refuses its length, and the mix with it |
| Pipeline.AlignedMixed | src/processing/transcode.c:126-128 | when all lengths are decodable the mix does not depend on what the arena held |
| Pipeline.AllInBounds | src/processing/transcode.c:118-145 | if all decode buffers were allocated, every buffer lies inside the payload, wrapped lengths included |
| Pipeline.DecodeEndPrefix | src/processing/transcode.c:122-146 | if the first buffers do not fit, no continuation does |
| Transcode.TranscodeSession.Init | src/processing/transcode.c:12-67 | the fields are those of the payload; -1 exactly for differing, unsupported rates |
| Transcode.TranscodeSession.Stop | src/processing/transcode.c:69-75 | everything is cleared |
| Transcode.TranscodeSession.DecodeOne | src/processing/transcode.c:117-145 | allocation first: on success the buffer is in the payload and its samples are in the block, which keeps its old bytes when the decoder refuses the length; on failure nothing changed |
| Transcode.TranscodeSession.MixOne | src/processing/transcode.c:150-155 | mixes over the common length in place |
| Transcode.TranscodeSession.MixDown | src/processing/transcode.c:101-158 | the parse loop leaves the mix of all parsed buffers, of any length, and fails exactly when one cannot be placed |
| Transcode.TranscodeSession.ResampleStage | src/processing/transcode.c:174-186 | the resampled input is in the arena and the state advanced, or there was no room and it did not |
| Transcode.TranscodeSession.EncodeStage | src/processing/transcode.c:203-226 | encoding and the overlapping move leave exactly the encoded bytes at the front |
| RequestState.VadOnce | src/processing/transcode.c:163-201 | at most one of the two VAD calls runs, on the input at 16 kHz, else on the output at 16 kHz |
| Transcode.TranscodeSession.AudioProcessTranscode | src/processing/transcode.c:85-229 | 0 exactly when the request succeeds; then the arena from the initial cursor on holds exactly the specified output; resampler, VAD and last probability are stated for success and for each stage at which it fails; nothing below the cursor changed |
| Transcode.HandleStart | src/core/server.c:205-225 | start: session configured as the payload asks, resampler at its start state, VAD at zero, arena reset, requests begin less than 128 bytes in; a supported configuration is ready for requests and has the payload's settings |
| Commands.StartRoundTrip | src/client/main.c:633-644 | a printed start payload is parsed back field by field |
| Commands.StartMeans | src/processing/transcode.c:21-60 | what it asks for: codecs, channels, rates, swapped L16 sides, the network |
| Commands.ServedStarts | src/processing/transcode.c:53-64 | which start payloads are served, by number |
| Transcode.HandleInput | src/core/server.c:233-295 | input: the reply's data is the request's output, and the bytes before the requests' start are untouched |
| Transcode.FirstRequest | src/core/server.c:205-295 | a start and the first request: the reply's data is the request's output from the resampler's start state |
| Requests.PrintedRequest | src/processing/transcode.c:101-226 | for decodable buffers a client printed, and whatever the arena held, the output is encode(resample(mix of the decoded buffers)) |
| Requests.DecodingFits | src/processing/transcode.c:122-138 | decoding takes at most two arena bytes per payload byte |
| Requests.ArenaSufficiency | src/processing/transcode.c:122-218 | a mono request from the reassembly buffer whose output fits the reply never exhausts the arena, wherever the VAD state lies, and then succeeds exactly if it has samples |
| Requests.LawPassThrough | src/processing/transcode.c:118-218 | a same-rate PCMA or PCMU request succeeds and is answered with its own codes, up to 0x7F, whatever the arena held, if and only if the length is a multiple of 16 other than 0 and the two blocks fit |
| Requests.StaleOutput | src/processing/transcode.c:122-138 | for any other length the answer is the encoding of the old bytes of an arena filled with one value |
| Requests.EightBytes | src/processing/transcode.c:122-138 | eight A-law zero bytes through a cleared arena come back as eight times 0xD5 |
| Requests.L16PassThrough | src/processing/transcode.c:130-226 | a same-rate L16 request is answered with its whole instants, byte-swapped exactly when the two sides differ, if and only if it has one and its block fits |
| RequestRuns.AnswersAreStream | src/processing/transcode.c:85-229 | the answers to a sequence of exact requests are the encoding of the uncut mixed stream at the output rate: as many outputs as it calls for, each read from the whole stream |
| RequestRuns.RequestCutIndependence | src/processing/transcode.c:85-229 | two ways of sending one stream in decodable buffers and exact frames get the same answer bytes if they make the outputs alike, as without resampling they always do |
| RequestRuns.ExactIsSteady | src/processing/resample_adv.c:197-200 | throughout a conversation of exact requests the upsampler's first window lies within the history, as its code assumes |
| ClientStats.StatsMeaning | src/client/main.c:416-435 | the statistics are number, sum, minimum and maximum of the durations and the amount of audio, all sums modulo 2^64; the amount is the audio's length when every output has its payload header |
| ClientStats.ReadsCompose | src/client/main.c:378-473 | reads recorded one by one are the run recorded at once |
| ClientStats.StatsChunkingIndependence | src/client/main.c:378-473 | statistics, if outputs hold their durations, and recorded audio, if they hold their payload headers, do not depend on how the stream was cut |
| ClientStats.StatsFromMessage | src/client/main.c:417-427 | the statistics taken from an output are the same whatever follows it in the read buffer if and only if its payload has at least 8 bytes; count and amount always are |
| ClientStats.SeenIsRecorded | src/client/main.c:416-435 | with at least 8 payload bytes what the client computes from its buffer is what the message says |
| Client.ClientConnection.Grow | src/client/main.c:379-393 | doubling makes room, keeps the bytes, and overshoots by less than a factor of two |
| Client.ClientConnection.RecordMessage | src/client/main.c:412-451 | the part of a turn that reads an output, from the buffer: statistics, and the audio if there is a file |
| Client.ClientConnection.OnRead | src/client/main.c:375-482 | a read consumes exactly the frames, keeps the rest, records the statistics; a failed realloc drops the read and changes nothing |
| Client.ClientConnection.SendInputChunk | src/client/main.c:527-603 | a tick prints exactly the specified request and moves the offsets, or stops |
| ClientChunks.PrintFrame | src/client/main.c:395-473 | messages printed one after another are framed back exactly, in either direction |
| ClientChunks.RequestIsMessage | src/client/main.c:553-597 | a tick's bytes are one message the server accepts, with the right length field |
| ClientChunks.SendsInOrder | src/client/main.c:535-551 | request j carries chunk j of each file, cycling when looping, none skipped or repeated; the timer stops only when a file has run out |
| ClientChunks.InsideExactly | src/client/main.c:535-551 | at any offsets, a tick reads inside the files if and only if looped files hold a chunk |
| ClientChunks.ChunkDuration | src/client/main.c:528-531 | a chunk is ptime milliseconds of audio at whole kilohertz, and 880 samples per 20 ms at 44100 Hz |
| Conversations.ServerSeesRequests | src/core/server.c:167-411 | a clean session run over a client's start message and requests, cut into reads that its buffer holds, starts once, submits exactly the replies to the requests in order, keeps no bytes and stays open |
| Conversations.ServerSeesMessages | src/core/server.c:167-411 | the same for any messages printed one after another |
| Conversations.Numbers | src/client/main.c:557-563 | requests are numbered one after another |
| Conversations.FullVolume | src/client/main.c:573-590 | every buffer is sent with volume 1.0 |
| Conversations.SafeMessages | src/core/server.c:168-172 | for printed messages: no cut overflows if and only if all are at most 16385 bytes up to some boundary after which at most 32768 bytes remain |
| Conversations.SafeRequests | src/core/server.c:168-172 | a conversation of messages of at most 16385 bytes fits the buffer under every cut into reads of at most 16384 |
| Oversize.OversizeOverflows | src/core/server.c:168-172 | a message above 32768 bytes, after any messages and before any bytes, overflows the buffer under every cut, and until then only the messages before it were framed |
| Oversize.OversizeUnanswered | src/core/server.c:167-411 | over every session run that receives such a stream, the session closes and its responses are a subsequence of the replies to the messages before it |
| Oversize.LongRequestsUnanswered | src/client/main.c:553-597 | a client whose requests are that long gets no response |
| SentFiles.SentStream | src/client/main.c:527-603 | the mixed audio of requests i, i+1, ... is the mix of the bytes of those chunks of both files, decoded as whole streams |
| SentFiles.FileBytesOnce | src/client/main.c:535-551 | without looping those bytes are a contiguous part of the file |
| SentFiles.FileBytesLoop | src/client/main.c:535-551 | looping, byte b of the i-th chunk is byte b of the file's chunk i modulo its whole chunks |
| SentFiles.SentIsFileAudio | src/client/main.c:527-603 | the requests of k ticks, decoded, mixed and joined, are the files' audio |
| SentFiles.AudioOfPrefix | src/client/main.c:527-603 | which for files that are not looped is the decoded prefix of one file, or the mix of the decoded prefixes of two |
| EndToEnd.PacketTimeIrrelevant | src/client/main.c:528-531 | clients that send the same part of one or two files in decodable chunks of different sizes get the same answer bytes, if the chunks are exact and make the outputs alike |
| EndToEnd.RepliesAudio | src/core/server.c:246-293 | the replies on the wire carry exactly the audio the server computed |
| EndToEnd.ClientRecordsServed | src/client/main.c:441-447 | however the replies are cut, the client records exactly that audio |
| EndToEnd.DurationArrives | src/client/main.c:416-435 | the duration a reply carries is the one the client's statistics get, and its audio the one recorded |
| EndToEnd.RequestServed | src/core/server.c:233-295 | a modest request of decodable buffers to a mono session is always answered, with the answer specified for its buffers, whatever the arena, VAD state and clock; settings and arena start stay and the resampler moves on |
| EndToEnd.RepliesFit | src/core/server.c:247-255 | the replies to such requests all fit a write buffer |
| EndToEnd.ServedIsStream | src/core/server.c:233-295 | what the server computes for a client's requests is the encoding of the files' audio, resampled uncut |
| EndToEnd.RecordedIsStream | src/client/main.c:395-473 | over any clean run of a session started with a supported mono configuration, whose buffer holds its reads, every submitted reply fits, and however the replies are cut the client records the encoding of its files' audio under that configuration, decoded and mixed as whole streams and resampled uncut |
| Engines.EngineExists | src/core/server.c:205-295 | an engine whose clock times equal requests differently meets what the theorems above ask of one |

## Left out

- FrameCutIndependence: the two cuttings make their outputs alike; with AVX2 downsampling that is a condition
  on the frame lengths (`UniformPlansAgree`), and false for some lengths (`CutsDiffer`).
- RunIsIdeal: runs that keep within the history; an upsampler outside it reads before its buffer, and a
  downsampler repeats the oldest sample.
- RequestCutIndependence: the same as for `FrameCutIndependence`, for decodable buffers; other G.711 lengths
  answer old arena bytes (`LawPassThrough`), so nothing holds of them.
- PacketTimeIrrelevant: the same as for `FrameCutIndependence`, for decodable chunk sizes.
- RecordedIsStream: mono sessions, exact and decodable requests with some audio, no overflow and no failure of an
  allocation or a system call; the properties above say what happens otherwise. The engine behind the session has
  the contracts of `HandleStart` and `HandleInput`.
- PositionRange: needs the history to reach back; without it the position falls by the drift of each frame.
- UpSample: the window starts within the kept history. Otherwise the code reads before delay_buf, which has no
  value to state; `WindowKeptExactly` says when.
- ResampleAdvanced: the same when upsampling. The sinc values, float accumulation, rounding and the difference
  between the scalar and the 8-lane downsampling kernel are one parameter. Equal rates never reach it.
- ResampleStage: the same when upsampling.
- HandleInput: the same when upsampling; `FirstRequest` has it from a start, `ExactIsSteady` over exact requests.
- AudioProcessTranscode: the same when upsampling. Sessions with one channel wherever samples are companded or
  resampled, equal channel counts, at least one channel and a known output codec; elsewhere the code gives the
  bytes no meaning. The VAD state is an object of its own rather than bytes of the arena.
- LinearAccurate: covers the first 2^32 outputs of a frame; later the step's truncation costs more than one index.
- ArenaSufficiency: one channel, as the resampler and the G.711 loops assume.
- ProcessPcm: the network runs in real arithmetic, with sigmoid and tanh known by their range and weights as
  parameters; rounding and the AVX2 approximations are not modelled.
- OnRead: an output has room for its 8-byte duration and, if there is an output file, for its 16-byte payload
  header. The client checks neither and reads past a shorter one (`StatsFromMessage`). The latency samples, the VAD
  file and log lines are not modelled.
- RecordMessage: the bytes it reads lie in the buffer, and the payload header in the message if there is a file.
- SendInputChunk: a looped file holds at least one chunk (`InsideExactly`), and the request fits its 32-bit length
  field.
- ResampleL16: adjacent samples at most 32768 apart in the fixed-point path, where the source's product is
  otherwise undefined.
- Sockets, io_uring setup, signals and shutdown: system calls. The kernel is the environment of `EventLoop`:
  every submitted send completes once, an armed receive completes until a completion without MORE, and
  ENOBUFS has no MORE.
- Submission queue exhaustion: the code spins until an entry is free, so submitting never fails here.
- Short sends and the order on the wire: the code ignores both, so only submission order is stated.
- The batch loop over completions: one completion is one step of the machine.
- Unsupported rates accepted after a failed start, and the audio engine, which is a stub.
- 64-bit overflow of sizes: lengths are far below it; counters that do wrap are modelled modulo 2^32 or 2^64.
- Getters such as the arena's used count, logging, pinning, the training data, dashboard and scripts.
