/** Byte memory with typed views: 16-bit samples stored little-endian, as in the session arena. */
module Memory {
  import opened Bytes

  function SampleAt(m: seq<byte>, off: nat): int16
    requires off + 2 <= |m|
  {
    SampleOf(m[off], m[off + 1])
  }

  /** The samples of a region. */
  function Samples(m: seq<byte>, off: nat, n: nat): (s: seq<int16>)
    requires off + 2 * n <= |m|
    ensures |s| == n
    ensures forall i :: 0 <= i < n ==> s[i] == SampleAt(m, off + 2 * i)
  {
    seq(n, i requires 0 <= i < n => SampleAt(m, off + 2 * i))
  }

  /** Two memories that differ at most in [lo, hi). */
  ghost predicate SameOutside(a: seq<byte>, b: seq<byte>, lo: nat, hi: nat) {
    |a| == |b| && forall i :: 0 <= i < |a| && !(lo <= i < hi) ==> a[i] == b[i]
  }

  method LoadSample(mem: array<byte>, off: nat) returns (v: int16)
    requires off + 2 <= mem.Length
    ensures v == SampleAt(mem[..], off)
  {
    v := SampleOf(mem[off], mem[off + 1]);
  }

  method StoreSample(mem: array<byte>, off: nat, v: int16)
    requires off + 2 <= mem.Length
    modifies mem
    ensures SampleAt(mem[..], off) == v
    ensures SameOutside(old(mem[..]), mem[..], off, off + 2)
  {
    mem[off], mem[off + 1] := LowByte(v), HighByte(v);
    SampleBytes(v);
  }

  /** A region outside the changed bytes keeps its samples. */
  lemma SamplesUnchanged(a: seq<byte>, b: seq<byte>, lo: nat, hi: nat, off: nat, n: nat)
    requires SameOutside(a, b, lo, hi) && off + 2 * n <= |a|
    requires off + 2 * n <= lo || hi <= off
    ensures Samples(a, off, n) == Samples(b, off, n)
  {
  }

  lemma SameOutsideTrans(a: seq<byte>, b: seq<byte>, c: seq<byte>, lo: nat, hi: nat, lo': nat, hi': nat, lo'': nat,
      hi'': nat)
    requires SameOutside(a, b, lo, hi) && SameOutside(b, c, lo', hi')
    requires lo'' <= lo && lo'' <= lo' && hi <= hi'' && hi' <= hi''
    ensures SameOutside(a, c, lo'', hi'')
  {
  }

  /** The bytes of a sequence of samples. */
  function SampleBytesOf(s: seq<int16>): (b: seq<byte>)
    ensures |b| == 2 * |s|
    ensures forall i :: 0 <= i < |s| ==> b[2 * i] == LowByte(s[i]) && b[2 * i + 1] == HighByte(s[i])
  {
    if s == [] then [] else [LowByte(s[0]), HighByte(s[0])] + SampleBytesOf(s[1..])
  }

  lemma BytesOfSamples(m: seq<byte>, off: nat, n: nat)
    requires off + 2 * n <= |m|
    ensures SampleBytesOf(Samples(m, off, n)) == m[off..off + 2 * n]
  {
    var s := Samples(m, off, n);
    var b := SampleBytesOf(s);
    forall k | 0 <= k < 2 * n ensures b[k] == m[off + k] {
      var i := k / 2;
      BytesOfSample(m[off + 2 * i], m[off + 2 * i + 1]);
      assert s[i] == SampleAt(m, off + 2 * i);
      assert b[2 * i] == m[off + 2 * i] && b[2 * i + 1] == m[off + 2 * i + 1];
      assert k == 2 * i || k == 2 * i + 1;
    }
  }

  /** memcpy and memmove: the destination gets the source's old bytes, overlapping or not. */
  method MoveBytes(mem: array<byte>, dst: nat, src: nat, n: nat)
    requires dst + n <= mem.Length && src + n <= mem.Length
    modifies mem
    ensures mem[..][dst..dst + n] == old(mem[..])[src..src + n]
    ensures SameOutside(old(mem[..]), mem[..], dst, dst + n)
  {
    forall i | 0 <= i < n {
      mem[dst + i] := mem[src + i];
    }
  }

  method CopyIn(mem: array<byte>, dst: nat, data: seq<byte>)
    requires dst + |data| <= mem.Length
    modifies mem
    ensures mem[..][dst..dst + |data|] == data
    ensures SameOutside(old(mem[..]), mem[..], dst, dst + |data|)
  {
    forall i | 0 <= i < |data| {
      mem[dst + i] := data[i];
    }
  }
}
