/** Codec numbers and byte orders, as a client writes them in its start message: what samples its bytes are, and
    what bytes its answers are made of (include/machaudio/protocol.h:51-64, src/processing/transcode.c:118-138,
    203-218). */
module Codecs {
  import opened Bytes
  import opened Memory
  import opened Protocol
  import opened G711
  import opened SampleLoops
  import opened ResampleClock
  import opened ResampleStream
  import opened Pipeline
  import opened Requests

  /** A 16-bit two's complement number from its two bytes. */
  function TwosComplement(high: byte, low: byte): int {
    256 * high + low - (if high >= 128 then 65536 else 0)
  }

  lemma LittleEndian(m: seq<byte>, off: nat)
    requires off + 2 <= |m|
    ensures SampleAt(m, off) == TwosComplement(m[off + 1], m[off])
    ensures SwapSample(SampleAt(m, off)) == TwosComplement(m[off], m[off + 1])
  {
    SwapTwice(SampleAt(m, off));
    BytesOfSample(m[off], m[off + 1]);
    SampleBytes(SwapSample(SampleAt(m, off)));
  }

  // ---------------------------------------------------------------- in

  /** PCMU is number 0 and PCMA number 8, one sample a byte. */
  lemma LawSamples(s: Settings, data: seq<byte>, i: nat)
    requires s.channels > 0 && i < |data|
    ensures s.inType == 0 ==> |DecodeBuffer(s, data)| == |data| && DecodeBuffer(s, data)[i] == Formula(Mu, data[i])
    ensures s.inType == 8 ==> |DecodeBuffer(s, data)| == |data| && DecodeBuffer(s, data)[i] == Formula(A, data[i])
  {
    hide Decode, Formula;
    TableIsFormula(Mu, data[i]);
    TableIsFormula(A, data[i]);
  }

  /** L16 is number 96, two bytes a sample, the high one first if the session swaps its input. */
  lemma L16Samples(s: Settings, data: seq<byte>, i: nat)
    requires s.channels > 0 && s.inType == 96 && i < WholeInstants(s, data)
    ensures |DecodeBuffer(s, data)| == WholeInstants(s, data)
    ensures DecodeBuffer(s, data)[i] ==
            if s.swapIn then TwosComplement(data[2 * i], data[2 * i + 1])
            else TwosComplement(data[2 * i + 1], data[2 * i])
  {
    hide SwapSample, Instants, SampleAt;
    LittleEndian(data, 2 * i);
  }

  // ---------------------------------------------------------------- out

  /** PCMU and PCMA codes are as near to their samples as the laws allow. */
  lemma LawCodes(s: Settings, x: seq<int16>, i: nat)
    requires i < |x|
    ensures s.outType == 0 || s.outType == 8 ==> |EncodeOutput(s, x)| == |x|
    ensures s.outType == 0 && -32635 <= x[i] <= 32635 ==> UlawNear(x[i], EncodeOutput(s, x)[i])
    ensures s.outType == 8 ==> AlawNear(x[i], EncodeOutput(s, x)[i])
  {
    hide Encode, Decode, Formula, SegmentOf, Scale, UlawMagnitude, AlawMagnitude;
    if s.outType == 0 {
      TableIsFormula(Mu, Encode(Mu, x[i]));
      if -32635 <= x[i] <= 32635 {
        UlawError(x[i]);
      }
    } else if s.outType == 8 {
      TableIsFormula(A, Encode(A, x[i]));
      AlawError(x[i]);
    }
  }

  /** The mu-law code of a sample: its sign, and its magnitude to within the step of its segment. */
  predicate UlawNear(v: int16, code: byte)
    requires -32635 <= v <= 32635
  {
    var seg := SegmentOf(UlawMagnitude(v));
    var error := if v < 0 then Formula(Mu, code) - v else v - Formula(Mu, code);
    -(4 * Scale(seg) - 4) <= error <= 4 * Scale(seg) + 3
  }

  /** The A-law code of a sample, likewise. */
  predicate AlawNear(v: int16, code: byte) {
    var seg := SegmentOf(AlawMagnitude(v));
    var bound := if seg == 0 then 8 else 4 * Scale(seg);
    -bound <= v - Formula(A, code) <= bound
  }

  /** L16 bytes, the high one first if the session swaps its output. */
  lemma L16Bytes(s: Settings, x: seq<int16>, i: nat)
    requires s.outType == 96 && i < |x|
    ensures |EncodeOutput(s, x)| == 2 * |x|
    ensures var b := EncodeOutput(s, x);
            x[i] == if s.swapOut then TwosComplement(b[2 * i], b[2 * i + 1])
                    else TwosComplement(b[2 * i + 1], b[2 * i])
  {
    hide SwapSample;
    var y := if s.swapOut then SwapAll(x) else x;
    var b := SampleBytesOf(y);
    SampleBytes(y[i]);
    LittleEndian(b, 2 * i);
    SwapTwice(x[i]);
  }

  // ---------------------------------------------------------------- sessions

  /** One buffer through a session without resampling. */
  lemma OneAnswer(s: Settings, st: Resampler, b: Buffer)
    requires Defined(s) && |st.history| == HISTORY && s.resample.None? && AlignedBuffers(s, [b])
    ensures Answer(s, st, [b]) == EncodeOutput(s, DecodeBuffer(s, b.data))
  {
    hide DecodeBuffer, EncodeOutput;
    assert MixOf(s, [b]) == DecodeBuffer(s, b.data);
  }

  /** G.711 to L16: every byte of the request becomes the sample its law's formula gives. */
  lemma LawToL16(s: Settings, st: Resampler, b: Buffer, i: nat)
    requires Defined(s) && |st.history| == HISTORY && s.resample.None? && AlignedBuffers(s, [b])
    requires (s.inType == 0 || s.inType == 8) && s.outType == 96 && i < |b.data|
    ensures |Answer(s, st, [b])| == 2 * |b.data|
    ensures var a := Answer(s, st, [b]);
            (if s.swapOut then TwosComplement(a[2 * i], a[2 * i + 1]) else TwosComplement(a[2 * i + 1], a[2 * i])) ==
            Formula(if s.inType == 0 then Mu else A, b.data[i])
  {
    hide DecodeBuffer, EncodeOutput, Formula, Answer;
    OneAnswer(s, st, b);
    LawSamples(s, b.data, i);
    L16Bytes(s, DecodeBuffer(s, b.data), i);
  }

  /** L16 to G.711: every sample of the request becomes a code near to it. */
  lemma L16ToLaw(s: Settings, st: Resampler, b: Buffer, i: nat)
    requires Defined(s) && |st.history| == HISTORY && s.resample.None?
    requires s.inType == 96 && (s.outType == 0 || s.outType == 8) && i < WholeInstants(s, b.data)
    ensures AlignedBuffers(s, [b]) && |Answer(s, st, [b])| == WholeInstants(s, b.data)
    ensures var v := if s.swapIn then TwosComplement(b.data[2 * i], b.data[2 * i + 1])
                     else TwosComplement(b.data[2 * i + 1], b.data[2 * i]);
            && (s.outType == 0 && -32635 <= v <= 32635 ==> UlawNear(v, Answer(s, st, [b])[i]))
            && (s.outType == 8 ==> AlawNear(v, Answer(s, st, [b])[i]))
  {
    hide DecodeBuffer, EncodeOutput, Formula, Answer, UlawNear, AlawNear, WholeInstants;
    OneAnswer(s, st, b);
    L16Samples(s, b.data, i);
    LawCodes(s, DecodeBuffer(s, b.data), i);
  }

  /** The same law on both sides: PCMA bytes come back as they were, PCMU bytes too, but for 0x7F, which comes
      back as 0xFF. */
  lemma SameLaw(s: Settings, st: Resampler, b: Buffer, i: nat)
    requires Defined(s) && |st.history| == HISTORY && s.resample.None? && AlignedBuffers(s, [b])
    requires s.inType == s.outType && (s.inType == 0 || s.inType == 8) && i < |b.data|
    ensures |Answer(s, st, [b])| == |b.data|
    ensures s.inType == 0 ==> Answer(s, st, [b])[i] == if b.data[i] == 0x7F then 0xFF else b.data[i]
    ensures s.inType == 8 ==> Answer(s, st, [b])[i] == b.data[i]
  {
    hide Encode, Decode, Answer;
    OneAnswer(s, st, b);
    EncodeDecode(Mu, b.data[i]);
    EncodeDecode(A, b.data[i]);
  }

  /** From one law to the other: the codes of what the formulas give. */
  lemma OtherLaw(s: Settings, st: Resampler, b: Buffer, i: nat)
    requires Defined(s) && |st.history| == HISTORY && s.resample.None? && AlignedBuffers(s, [b])
    requires ((s.inType == 0 && s.outType == 8) || (s.inType == 8 && s.outType == 0)) && i < |b.data|
    ensures |Answer(s, st, [b])| == |b.data|
    ensures s.inType == 0 ==>
              -32768 <= Formula(Mu, b.data[i]) <= 32767 && AlawNear(Formula(Mu, b.data[i]), Answer(s, st, [b])[i])
    ensures s.inType == 8 ==>
              -32635 <= Formula(A, b.data[i]) <= 32635 && UlawNear(Formula(A, b.data[i]), Answer(s, st, [b])[i])
  {
    hide DecodeBuffer, EncodeOutput, Formula, Answer, UlawNear, AlawNear;
    OneAnswer(s, st, b);
    LawSamples(s, b.data, i);
    AlawRange(b.data[i]);
    LawCodes(s, DecodeBuffer(s, b.data), i);
  }

  lemma AlawRange(code: byte)
    ensures -32635 <= Formula(A, code) <= 32635
  {
    hide Xor8;
    var x := Xor8(code, NegativeMask(A));
    LevelRange(x % 128 / 16, x % 16);
  }

  lemma LevelRange(seg: nat, mant: nat)
    requires seg < 8 && mant < 16
    ensures 0 <= Level(A, seg, mant) <= 32256
  {
  }
}
