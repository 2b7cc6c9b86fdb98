/** Machine integers, network byte order and the in-memory layout of 16-bit samples. */
module Bytes {

  const TWO32 := 0x1_0000_0000

  type byte = x: int | 0 <= x < 0x100
  type uint16 = x: int | 0 <= x < 0x1_0000
  type uint32 = x: int | 0 <= x < 0x1_0000_0000
  type uint64 = x: int | 0 <= x < 0x1_0000_0000_0000_0000
  type int16 = x: int | -0x8000 <= x < 0x8000

  /** The value a 32-bit unsigned variable keeps of a sum. */
  function Wrap32(n: int): uint32 { n % 0x1_0000_0000 }

  function Wrap64(n: int): uint64 { n % 0x1_0000_0000_0000_0000 }

  datatype Option<+T> = None | Some(value: T)

  // ---------------------------------------------------------------- network byte order

  /** The number whose base-256 digits are given, most significant first. */
  function Digits2(b1: int, b0: int): int { b1 * 0x100 + b0 }

  function Digits4(b3: int, b2: int, b1: int, b0: int): int {
    b3 * 0x100_0000 + b2 * 0x1_0000 + b1 * 0x100 + b0
  }

  function NetU16(b: seq<byte>): uint16
    requires |b| == 2
  {
    Digits2(b[0], b[1])
  }

  function U16Net(n: uint16): (b: seq<byte>)
    ensures |b| == 2
  {
    [n / 0x100, n % 0x100]
  }

  function NetU32(b: seq<byte>): uint32
    requires |b| == 4
  {
    Digits4(b[0], b[1], b[2], b[3])
  }

  function U32Net(n: uint32): (b: seq<byte>)
    ensures |b| == 4
  {
    [n / 0x100_0000, n / 0x1_0000 % 0x100, n / 0x100 % 0x100, n % 0x100]
  }

  function NetU64(b: seq<byte>): uint64
    requires |b| == 8
  {
    NetU32(b[..4]) as int * 0x1_0000_0000 + NetU32(b[4..])
  }

  function U64Net(n: uint64): (b: seq<byte>)
    ensures |b| == 8
  {
    U32Net(n / 0x1_0000_0000) + U32Net(n % 0x1_0000_0000)
  }

  lemma NetU16RoundTrip(n: uint16)
    ensures NetU16(U16Net(n)) == n
  {
  }

  lemma NetU32RoundTrip(n: uint32)
    ensures NetU32(U32Net(n)) == n
  {
    assert n == n / 0x100 * 0x100 + n % 0x100;
    assert n / 0x100 == n / 0x1_0000 * 0x100 + n / 0x100 % 0x100;
    assert n / 0x1_0000 == n / 0x100_0000 * 0x100 + n / 0x1_0000 % 0x100;
  }

  lemma NetU64RoundTrip(n: uint64)
    ensures NetU64(U64Net(n)) == n
  {
    var hi, lo := U32Net(n / 0x1_0000_0000), U32Net(n % 0x1_0000_0000);
    assert (hi + lo)[..4] == hi && (hi + lo)[4..] == lo;
    NetU32RoundTrip(n / 0x1_0000_0000);
    NetU32RoundTrip(n % 0x1_0000_0000);
  }

  // ---------------------------------------------------------------- 16-bit samples in memory

  /** The unsigned view of a signed 16-bit value. */
  function Unsigned(v: int16): uint16 {
    if v < 0 then v + 0x1_0000 else v
  }

  function Signed(u: uint16): int16 {
    if u < 0x8000 then u else u - 0x1_0000
  }

  /** The host is little-endian: the low byte comes first. */
  function SampleOf(lo: byte, hi: byte): int16 {
    Signed(Digits2(hi, lo))
  }

  function LowByte(v: int16): byte { Unsigned(v) % 0x100 }

  function HighByte(v: int16): byte { Unsigned(v) / 0x100 }

  lemma SampleBytes(v: int16)
    ensures SampleOf(LowByte(v), HighByte(v)) == v
  {
  }

  lemma BytesOfSample(lo: byte, hi: byte)
    ensures LowByte(SampleOf(lo, hi)) == lo && HighByte(SampleOf(lo, hi)) == hi
  {
  }

  function Zeros(n: nat): (z: seq<byte>)
    ensures |z| == n && forall i :: 0 <= i < n ==> z[i] == 0
  {
    seq(n, _ => 0)
  }
}
