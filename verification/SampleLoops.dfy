/** The in-place sample loops: mixing (src/processing/mix.c), G.711 buffers
    (src/processing/transcode_*.c) and byte swapping (src/processing/transcode.c:78-83). */
module SampleLoops {
  import opened Bytes
  import opened Memory
  import opened G711

  // ---------------------------------------------------------------- what they compute

  /** clamp_add_int16. */
  function SatAdd(a: int, b: int): int16 {
    if a + b > 0x7FFF then 0x7FFF else if a + b < -0x8000 then -0x8000 else a + b
  }

  function DecodeAll(law: Law, data: seq<byte>): (s: seq<int16>)
    ensures |s| == |data|
  {
    seq(|data|, i requires 0 <= i < |data| => Decode(law, data[i]))
  }

  function EncodeAll(law: Law, s: seq<int16>): (data: seq<byte>)
    ensures |data| == |s|
  {
    seq(|s|, i requires 0 <= i < |s| => Encode(law, s[i]))
  }

  /** (val << 8) | (val >> 8) on the unsigned 16-bit value. */
  function SwapSample(v: int16): int16 {
    Signed(Unsigned(v) % 0x100 * 0x100 + Unsigned(v) / 0x100)
  }

  function SwapAll(s: seq<int16>): (r: seq<int16>)
    ensures |r| == |s|
  {
    seq(|s|, i requires 0 <= i < |s| => SwapSample(s[i]))
  }

  lemma SwapTwice(v: int16)
    ensures SwapSample(SwapSample(v)) == v
    ensures LowByte(SwapSample(v)) == HighByte(v) && HighByte(SwapSample(v)) == LowByte(v)
  {
    var u: int := Unsigned(v);
    var w := u % 0x100 * 0x100 + u / 0x100;
    assert w % 0x100 == u / 0x100 && w / 0x100 == u % 0x100;
  }

  /** Buffer round trip: A-law is the identity for buffers of any length; mu-law is the identity
      except that 0x7F becomes 0xFF. */
  lemma BufferRoundTrip(law: Law, data: seq<byte>)
    ensures EncodeAll(law, DecodeAll(law, data)) == Canonical(law, data)
    ensures law == A ==> Canonical(law, data) == data
    ensures law == Mu && 0x7F !in data ==> Canonical(law, data) == data
  {
    hide Encode, Decode;
    forall i | 0 <= i < |data| ensures Encode(law, Decode(law, data[i])) == Canonical(law, data)[i] {
      EncodeDecode(law, data[i]);
    }
  }

  function Canonical(law: Law, data: seq<byte>): seq<byte> {
    seq(|data|, i requires 0 <= i < |data| => if law == Mu && data[i] == 0x7F then 0xFF else data[i])
  }

  // ---------------------------------------------------------------- storing

  /** The first i samples of a region are those of a sequence. */
  ghost predicate Stored(mem: seq<byte>, off: nat, s: seq<int16>, i: nat)
    requires i <= |s| && off + 2 * i <= |mem|
  {
    forall j :: 0 <= j < i ==> SampleAt(mem, off + 2 * j) == s[j]
  }

  lemma StoredMore(a: seq<byte>, b: seq<byte>, off: nat, s: seq<int16>, i: nat, k: nat)
    requires i + k <= |s| && off + 2 * (i + k) <= |a| && Stored(a, off, s, i)
    requires SameOutside(a, b, off + 2 * i, off + 2 * (i + k))
    requires Samples(b, off + 2 * i, k) == s[i..i + k]
    ensures Stored(b, off, s, i + k)
  {
    hide SampleAt;
    forall j | 0 <= j < i + k ensures SampleAt(b, off + 2 * j) == s[j] {
      if j < i {
        KeptSample(a, b, off + 2 * i, off + 2 * (i + k), off + 2 * j);
      } else {
        assert Samples(b, off + 2 * i, k)[j - i] == SampleAt(b, off + 2 * i + 2 * (j - i));
        assert s[i..i + k][j - i] == s[j];
      }
    }
  }

  lemma StoredOne(a: seq<byte>, b: seq<byte>, off: nat, s: seq<int16>, i: nat)
    requires i < |s| && off + 2 * (i + 1) <= |a| && Stored(a, off, s, i)
    requires SameOutside(a, b, off + 2 * i, off + 2 * i + 2) && SampleAt(b, off + 2 * i) == s[i]
    ensures Stored(b, off, s, i + 1)
  {
    hide SampleAt;
    forall j | 0 <= j < i ensures SampleAt(b, off + 2 * j) == s[j] {
      KeptSample(a, b, off + 2 * i, off + 2 * i + 2, off + 2 * j);
    }
  }

  lemma KeptSample(a: seq<byte>, b: seq<byte>, lo: nat, hi: nat, off: nat)
    requires SameOutside(a, b, lo, hi) && off + 2 <= |a| && (off + 2 <= lo || hi <= off)
    ensures SampleAt(a, off) == SampleAt(b, off)
  {
  }

  lemma StoredAll(mem: seq<byte>, off: nat, s: seq<int16>)
    requires off + 2 * |s| <= |mem| && Stored(mem, off, s, |s|)
    ensures Samples(mem, off, |s|) == s
  {
    hide SampleAt;
  }

  lemma Unchanged(a: seq<byte>, at: nat)
    ensures SameOutside(a, a, at, at)
  {
  }

  /** A vector store of consecutive samples. */
  method StoreLanes(mem: array<byte>, off: nat, lanes: seq<int16>)
    requires off + 2 * |lanes| <= mem.Length
    modifies mem
    ensures SameOutside(old(mem[..]), mem[..], off, off + 2 * |lanes|)
    ensures Samples(mem[..], off, |lanes|) == lanes
  {
    hide SampleAt, Stored, SameOutside;
    ghost var m0 := mem[..];
    Unchanged(m0, off);
    assert Stored(m0, off, lanes, 0) by { NoneStored(m0, off, lanes); }
    for i := 0 to |lanes|
      invariant SameOutside(m0, mem[..], off, off + 2 * i)
      invariant Stored(mem[..], off, lanes, i)
    {
      ghost var before := mem[..];
      StoreSample(mem, off + 2 * i, lanes[i]);
      StoredOne(before, mem[..], off, lanes, i);
      SameOutsideTrans(m0, before, mem[..], off, off + 2 * i, off + 2 * i, off + 2 * i + 2, off, off + 2 * i + 2);
    }
    StoredAll(mem[..], off, lanes);
  }

  lemma NoneStored(mem: seq<byte>, off: nat, s: seq<int16>)
    requires off <= |mem|
    ensures Stored(mem, off, s, 0)
  {
  }

  // ---------------------------------------------------------------- mixing

  /** _mm256_adds_epi16 on sixteen lanes. */
  function AddLanes(a: seq<int16>, b: seq<int16>): (r: seq<int16>)
    requires |a| == |b|
    ensures |r| == |a|
  {
    seq(|a|, i requires 0 <= i < |a| => SatAdd(a[i], b[i]))
  }

  /** One turn of the block loop. */
  method MixBlock(mem: array<byte>, inA: nat, inB: nat, out: nat, samples: nat, i: nat, ghost m0: seq<byte>)
    requires |m0| == mem.Length && i + 16 <= samples
    requires inA + 2 * samples <= |m0| && inB + 2 * samples <= |m0| && out + 2 * samples <= |m0|
    requires out == inA || out + 2 * samples <= inA || inA + 2 * samples <= out
    requires out + 2 * samples <= inB || inB + 2 * samples <= out
    requires SameOutside(m0, mem[..], out, out + 2 * i)
    requires Stored(mem[..], out, AddLanes(Samples(m0, inA, samples), Samples(m0, inB, samples)), i)
    modifies mem
    ensures SameOutside(m0, mem[..], out, out + 2 * (i + 16))
    ensures Stored(mem[..], out, AddLanes(Samples(m0, inA, samples), Samples(m0, inB, samples)), i + 16)
  {
    hide SampleAt, Stored, SameOutside, Samples, AddLanes;
    ghost var sum, before := AddLanes(Samples(m0, inA, samples), Samples(m0, inB, samples)), mem[..];
    var a, b := Samples(mem[..], inA + 2 * i, 16), Samples(mem[..], inB + 2 * i, 16);
    LanesOf(m0, mem[..], inA, inB, out, samples, i, 16);
    StoreLanes(mem, out + 2 * i, AddLanes(a, b));
    StoredMore(before, mem[..], out, sum, i, 16);
    SameOutsideTrans(m0, before, mem[..], out, out + 2 * i, out + 2 * i, out + 2 * (i + 16), out, out + 2 * (i + 16));
  }

  /** One turn of the tail loop. */
  method MixTail(mem: array<byte>, inA: nat, inB: nat, out: nat, samples: nat, i: nat, ghost m0: seq<byte>)
    requires |m0| == mem.Length && i < samples
    requires inA + 2 * samples <= |m0| && inB + 2 * samples <= |m0| && out + 2 * samples <= |m0|
    requires out == inA || out + 2 * samples <= inA || inA + 2 * samples <= out
    requires out + 2 * samples <= inB || inB + 2 * samples <= out
    requires SameOutside(m0, mem[..], out, out + 2 * i)
    requires Stored(mem[..], out, AddLanes(Samples(m0, inA, samples), Samples(m0, inB, samples)), i)
    modifies mem
    ensures SameOutside(m0, mem[..], out, out + 2 * (i + 1))
    ensures Stored(mem[..], out, AddLanes(Samples(m0, inA, samples), Samples(m0, inB, samples)), i + 1)
  {
    hide SampleAt, Stored, SameOutside, Samples, AddLanes, SatAdd;
    ghost var sum, before := AddLanes(Samples(m0, inA, samples), Samples(m0, inB, samples)), mem[..];
    var a := LoadSample(mem, inA + 2 * i);
    var b := LoadSample(mem, inB + 2 * i);
    TailOf(m0, mem[..], inA, inB, out, samples, i);
    StoreSample(mem, out + 2 * i, SatAdd(a, b));
    StoredOne(before, mem[..], out, sum, i);
    SameOutsideTrans(m0, before, mem[..], out, out + 2 * i, out + 2 * i, out + 2 * i + 2, out, out + 2 * (i + 1));
  }

  /** mix_l16_avx2: sixteen lanes at a time, then one by one. The output may be the first input. */
  method MixL16(mem: array<byte>, inA: nat, inB: nat, out: nat, samples: nat)
    requires inA + 2 * samples <= mem.Length && inB + 2 * samples <= mem.Length && out + 2 * samples <= mem.Length
    requires out == inA || out + 2 * samples <= inA || inA + 2 * samples <= out
    requires out + 2 * samples <= inB || inB + 2 * samples <= out
    modifies mem
    ensures Samples(mem[..], out, samples) == AddLanes(Samples(old(mem[..]), inA, samples),
            Samples(old(mem[..]), inB, samples))
    ensures SameOutside(old(mem[..]), mem[..], out, out + 2 * samples)
  {
    hide SampleAt, Stored, SameOutside, Samples, AddLanes;
    ghost var m0 := mem[..];
    ghost var sum := AddLanes(Samples(m0, inA, samples), Samples(m0, inB, samples));
    var simd := samples / 16 * 16;
    Unchanged(m0, out);
    NoneStored(m0, out, sum);
    var i := 0;
    while i < simd
      invariant i % 16 == 0 && i <= simd
      invariant SameOutside(m0, mem[..], out, out + 2 * i) && Stored(mem[..], out, sum, i)
    {
      MixBlock(mem, inA, inB, out, samples, i, m0);
      i := i + 16;
    }
    while i < samples
      invariant i <= samples
      invariant SameOutside(m0, mem[..], out, out + 2 * i) && Stored(mem[..], out, sum, i)
    {
      MixTail(mem, inA, inB, out, samples, i, m0);
      i := i + 1;
    }
    StoredAll(mem[..], out, sum);
  }

  /** The inputs not yet mixed are still the original ones, the aliased input included. */
  lemma LanesOf(m0: seq<byte>, m: seq<byte>, inA: nat, inB: nat, out: nat, samples: nat, i: nat, k: nat)
    requires |m0| == |m| && i + k <= samples
    requires inA + 2 * samples <= |m0| && inB + 2 * samples <= |m0| && out + 2 * samples <= |m0|
    requires out == inA || out + 2 * samples <= inA || inA + 2 * samples <= out
    requires out + 2 * samples <= inB || inB + 2 * samples <= out
    requires SameOutside(m0, m, out, out + 2 * i)
    ensures var sum := AddLanes(Samples(m0, inA, samples), Samples(m0, inB, samples));
            var lanes := AddLanes(Samples(m, inA + 2 * i, k), Samples(m, inB + 2 * i, k));
            lanes == sum[i..i + k]
  {
    hide SampleAt, SatAdd;
    SamplesUnchanged(m0, m, out, out + 2 * i, inA + 2 * i, k);
    SamplesUnchanged(m0, m, out, out + 2 * i, inB + 2 * i, k);
    SamplesSlice(m0, inA, samples, i, k);
    SamplesSlice(m0, inB, samples, i, k);
  }

  lemma SamplesSlice(m: seq<byte>, off: nat, n: nat, i: nat, k: nat)
    requires i + k <= n && off + 2 * n <= |m|
    ensures Samples(m, off + 2 * i, k) == Samples(m, off, n)[i..i + k]
  {
    hide SampleAt;
    var a, b := Samples(m, off + 2 * i, k), Samples(m, off, n);
    forall j | 0 <= j < k ensures a[j] == b[i..i + k][j] {
      assert a[j] == SampleAt(m, off + 2 * i + 2 * j) && b[i + j] == SampleAt(m, off + 2 * (i + j));
    }
  }

  lemma TailOf(m0: seq<byte>, m: seq<byte>, inA: nat, inB: nat, out: nat, samples: nat, i: nat)
    requires |m0| == |m| && i < samples
    requires inA + 2 * samples <= |m0| && inB + 2 * samples <= |m0| && out + 2 * samples <= |m0|
    requires out == inA || out + 2 * samples <= inA || inA + 2 * samples <= out
    requires out + 2 * samples <= inB || inB + 2 * samples <= out
    requires SameOutside(m0, m, out, out + 2 * i)
    ensures AddLanes(Samples(m0, inA, samples), Samples(m0, inB, samples))[i] == SatAdd(SampleAt(m, inA + 2 * i),
            SampleAt(m, inB + 2 * i))
  {
    hide SampleAt, SatAdd;
    KeptSample(m0, m, out, out + 2 * i, inA + 2 * i);
    KeptSample(m0, m, out, out + 2 * i, inB + 2 * i);
  }

  // ---------------------------------------------------------------- G.711 buffers

  /** Saturation to 16 bits. */
  function Saturate(x: seq<int>): (r: seq<int16>)
    ensures |r| == |x|
  {
    seq(|x|, k requires 0 <= k < |x| => SatAdd(x[k], 0))
  }

  /** _mm256_packs_epi32: saturate to 16 bits and interleave the two operands by 128-bit halves. */
  function Packs(lo: seq<int>, hi: seq<int>): (p: seq<int16>)
    requires |lo| == 8 && |hi| == 8
    ensures |p| == 16
  {
    Saturate(lo[..4]) + Saturate(hi[..4]) + Saturate(lo[4..]) + Saturate(hi[4..])
  }

  /** _mm256_permute4x64_epi64 with selector 3, 1, 2, 0: the middle 64-bit quarters change places. */
  function Permute3120(p: seq<int16>): (r: seq<int16>)
    requires |p| == 16
    ensures |r| == 16
  {
    p[0..4] + p[8..12] + p[4..8] + p[12..16]
  }

  /** The gather kernel on sixteen codes. */
  function Gather16(law: Law, codes: seq<byte>): (r: seq<int16>)
    requires |codes| == 16
    ensures |r| == 16
  {
    var lo: seq<int> := seq(8, k requires 0 <= k < 8 => Decode(law, codes[k]));
    var hi: seq<int> := seq(8, k requires 0 <= k < 8 => Decode(law, codes[8 + k]));
    Permute3120(Packs(lo, hi))
  }

  /** Gather, pack and permute decode sixteen codes in order. */
  lemma GatherIsDecode(law: Law, codes: seq<byte>, k: nat)
    requires |codes| == 16 && k < 16
    ensures Gather16(law, codes)[k] == Decode(law, codes[k])
  {
    hide Decode, Packs, Permute3120, Saturate;
    var lo: seq<int> := seq(8, j requires 0 <= j < 8 => Decode(law, codes[j]));
    var hi: seq<int> := seq(8, j requires 0 <= j < 8 => Decode(law, codes[8 + j]));
    PermutedPacks(lo, hi);
    Saturated(lo + hi, k, Decode(law, codes[k]));
  }

  lemma PermutedPacks(lo: seq<int>, hi: seq<int>)
    requires |lo| == 8 && |hi| == 8
    ensures Permute3120(Packs(lo, hi)) == Saturate(lo + hi)
  {
    hide SatAdd;
    var p := Packs(lo, hi);
    assert p[0..4] == Saturate(lo[..4]) && p[4..8] == Saturate(hi[..4]);
    assert p[8..12] == Saturate(lo[4..]) && p[12..16] == Saturate(hi[4..]);
    assert Permute3120(p) == Saturate(lo[..4]) + Saturate(lo[4..]) + Saturate(hi[..4]) + Saturate(hi[4..]);
  }

  lemma Saturated(x: seq<int>, k: nat, v: int16)
    requires k < |x| && x[k] == v
    ensures Saturate(x)[k] == v
  {
  }

  lemma GatherIsSlice(law: Law, data: seq<byte>, i: nat)
    requires i + 16 <= |data|
    ensures Gather16(law, data[i..i + 16]) == DecodeAll(law, data)[i..i + 16]
  {
    hide Decode, Gather16;
    var a, b := Gather16(law, data[i..i + 16]), DecodeAll(law, data)[i..i + 16];
    forall j | 0 <= j < 16 ensures a[j] == b[j] {
      GatherIsDecode(law, data[i..i + 16], j);
    }
  }

  lemma DecodedAt(law: Law, data: seq<byte>, i: nat)
    requires i < |data|
    ensures DecodeAll(law, data)[i] == Decode(law, data[i])
  {
  }

  /** transcode_pcmu_to_l16 and transcode_pcma_to_l16, in the gather and in the scalar build. */
  method TranscodeToL16(law: Law, data: seq<byte>, mem: array<byte>, off: nat, avx2: bool) returns (r: int)
    requires off + 2 * |data| <= mem.Length
    modifies mem
    ensures if |data| % 16 != 0 then r == -1 && mem[..] == old(mem[..])
            else r == |data| && Samples(mem[..], off, |data|) == DecodeAll(law, data)
    ensures SameOutside(old(mem[..]), mem[..], off, off + 2 * |data|)
  {
    if |data| % 16 != 0 {
      return -1;
    }
    hide SampleAt, Stored, SameOutside, Samples, Decode, Gather16, DecodeAll;
    ghost var m0, all := mem[..], DecodeAll(law, data);
    Unchanged(m0, off);
    NoneStored(m0, off, all);
    var i := 0;
    while i < |data|
      invariant i <= |data| && i % (if avx2 then 16 else 1) == 0
      invariant SameOutside(m0, mem[..], off, off + 2 * i) && Stored(mem[..], off, all, i)
    {
      ghost var before := mem[..];
      var k := if avx2 then 16 else 1;
      if avx2 {
        GatherIsSlice(law, data, i);
        StoreLanes(mem, off + 2 * i, Gather16(law, data[i..i + 16]));
        StoredMore(before, mem[..], off, all, i, 16);
      } else {
        DecodedAt(law, data, i);
        StoreSample(mem, off + 2 * i, Decode(law, data[i]));
        StoredOne(before, mem[..], off, all, i);
      }
      SameOutsideTrans(m0, before, mem[..], off, off + 2 * i, off + 2 * i, off + 2 * (i + k), off, off + 2 * (i + k));
      i := i + k;
    }
    StoredAll(mem[..], off, all);
    r := |data|;
  }

  /** transcode_l16_to_pcmu and transcode_l16_to_pcma. */
  method TranscodeFromL16(law: Law, mem: array<byte>, inOff: nat, n: nat, outOff: nat)
    requires inOff + 2 * n <= outOff && outOff + n <= mem.Length
    modifies mem
    ensures mem[..][outOff..outOff + n] == EncodeAll(law, Samples(old(mem[..]), inOff, n))
    ensures SameOutside(old(mem[..]), mem[..], outOff, outOff + n)
  {
    hide SampleAt, Encode;
    ghost var m0 := mem[..];
    for i := 0 to n
      invariant SameOutside(m0, mem[..], outOff, outOff + i)
      invariant forall j :: 0 <= j < i ==> mem[outOff + j] == Encode(law, Samples(m0, inOff, n)[j])
    {
      var v := LoadSample(mem, inOff + 2 * i);
      KeptSample(m0, mem[..], outOff, outOff + i, inOff + 2 * i);
      mem[outOff + i] := Encode(law, v);
    }
  }

  /** swap_endian_l16, in place. */
  method SwapEndianL16(mem: array<byte>, off: nat, n: nat)
    requires off + 2 * n <= mem.Length
    modifies mem
    ensures Samples(mem[..], off, n) == SwapAll(Samples(old(mem[..]), off, n))
    ensures SameOutside(old(mem[..]), mem[..], off, off + 2 * n)
  {
    hide SampleAt, Stored, SameOutside, SwapSample;
    ghost var m0 := mem[..];
    ghost var all := SwapAll(Samples(m0, off, n));
    Unchanged(m0, off);
    NoneStored(m0, off, all);
    for i := 0 to n
      invariant SameOutside(m0, mem[..], off, off + 2 * i) && Stored(mem[..], off, all, i)
    {
      ghost var before := mem[..];
      var v := LoadSample(mem, off + 2 * i);
      KeptSample(m0, mem[..], off, off + 2 * i, off + 2 * i);
      StoreSample(mem, off + 2 * i, SwapSample(v));
      StoredOne(before, mem[..], off, all, i);
      SameOutsideTrans(m0, before, mem[..], off, off + 2 * i, off + 2 * i, off + 2 * i + 2, off, off + 2 * i + 2);
    }
    StoredAll(mem[..], off, all);
  }
}
