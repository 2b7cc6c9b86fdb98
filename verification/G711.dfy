/** G.711 companding (src/processing/g711.c, src/processing/g711_tables.h): the encoder's branch
    chains, the decode tables, and how exactly they are inverse to each other. */
module G711 {
  import opened Arith
  import opened Bytes
  import opened G711Tables

  datatype Law = Mu | A

  // ---------------------------------------------------------------- exclusive or

  predicate Odd(n: nat) { n % 2 == 1 }

  function Bit(on: bool, weight: nat): nat { if on then weight else 0 }

  function NibbleXor(a: nat, b: nat): (r: nat)
    ensures r < 16
  {
    Bit(Odd(a) != Odd(b), 1) + Bit(Odd(a / 2) != Odd(b / 2), 2) +
    Bit(Odd(a / 4) != Odd(b / 4), 4) + Bit(Odd(a / 8) != Odd(b / 8), 8)
  }

  function Xor8(a: byte, b: byte): byte {
    16 * NibbleXor(a / 16, b / 16) + NibbleXor(a % 16, b % 16)
  }

  function PositiveMask(law: Law): byte { if law == Mu then 0xFF else 0xD5 }

  function NegativeMask(law: Law): byte { if law == Mu then 0x7F else 0x55 }

  lemma Bits(k: nat)
    requires k < 16
    ensures k == Bit(Odd(k), 1) + Bit(Odd(k / 2), 2) + Bit(Odd(k / 4), 4) + Bit(Odd(k / 8), 8)
  {
    assert k == k / 2 * 2 + k % 2;
    assert k / 2 == k / 4 * 2 + k / 2 % 2;
    assert k / 4 == k / 8 * 2 + k / 4 % 2;
  }

  /** A digit with its bits of weight 1 and 4 flipped. */
  function Flip5(k: nat): int {
    k + (if Odd(k) then -1 else 1) + (if Odd(k / 4) then -4 else 4)
  }

  lemma MaskDigits()
    ensures Odd(15) && Odd(15 / 2) && Odd(15 / 4) && Odd(15 / 8)
    ensures Odd(7) && Odd(7 / 2) && Odd(7 / 4) && !Odd(7 / 8)
    ensures Odd(5) && !Odd(5 / 2) && Odd(5 / 4) && !Odd(5 / 8)
    ensures Odd(13) && !Odd(13 / 2) && Odd(13 / 4) && Odd(13 / 8)
  {
  }

  lemma TopBit(k: nat)
    requires k < 16
    ensures Odd(k / 8) <==> k >= 8
  {
  }

  /** What the masks' digits do to a digit. */
  lemma NibbleMasks(k: nat)
    requires k < 16
    ensures NibbleXor(k, 15) == 15 - k
    ensures NibbleXor(k, 7) == if k < 8 then 7 - k else 23 - k
    ensures NibbleXor(k, 5) == Flip5(k)
    ensures NibbleXor(k, 13) == if k < 8 then Flip5(k) + 8 else Flip5(k) - 8
  {
    hide NibbleXor, Flip5;
    MuNibbles(k);
    ANibbles(k);
  }

  lemma MuNibbles(k: nat)
    requires k < 16
    ensures NibbleXor(k, 15) == 15 - k
    ensures NibbleXor(k, 7) == if k < 8 then 7 - k else 23 - k
  {
    hide Odd;
    Bits(k);
    TopBit(k);
    MaskDigits();
  }

  lemma ANibbles(k: nat)
    requires k < 16
    ensures NibbleXor(k, 5) == Flip5(k)
    ensures NibbleXor(k, 13) == if k < 8 then Flip5(k) + 8 else Flip5(k) - 8
  {
    hide Odd;
    Bits(k);
    TopBit(k);
    MaskDigits();
  }

  /** Flipping twice changes nothing, and flipping keeps the top bit. */
  lemma Flip5Twice(k: nat)
    requires k < 16
    ensures 0 <= Flip5(k) < 16 && Flip5(Flip5(k)) == k && (Flip5(k) < 8 <==> k < 8)
  {
    Flip5Bits(k);
    hide Odd;
    Bits(k);
    TopBit(k);
  }

  lemma Flip5Bits(k: nat)
    requires k < 16
    ensures 0 <= Flip5(k) < 16 && Odd(Flip5(k)) == !Odd(k) && Odd(Flip5(k) / 4) == !Odd(k / 4)
  {
    var q, r := k / 4, k % 4;
    assert k == 4 * q + r;
    assert Odd(k) == Odd(r);
    var r' := if Odd(k) then r - 1 else r + 1;
    var q' := if Odd(q) then q - 1 else q + 1;
    assert Flip5(k) == 4 * q' + r' && 0 <= r' < 4;
  }

  /** Removing a mask digit by digit. */
  lemma XorParts(a: byte, b: byte)
    ensures Xor8(a, b) / 16 == NibbleXor(a / 16, b / 16) && Xor8(a, b) % 16 == NibbleXor(a % 16, b % 16)
  {
    hide NibbleXor;
  }

  /** A mask undoes itself, and the two masks of a law differ in the sign bit alone. */
  lemma Masks(law: Law, m: nat)
    requires m < 128
    ensures Xor8(Xor8(m, NegativeMask(law)), NegativeMask(law)) == m
    ensures Xor8(Xor8(m, PositiveMask(law)), NegativeMask(law)) == m + 128
  {
    hide NibbleXor, Flip5;
    var h, l := m / 16, m % 16;
    var neg, pos := NegativeMask(law), PositiveMask(law);
    XorParts(m, neg);
    XorParts(m, pos);
    NibbleMasks(h);
    NibbleMasks(l);
    Flip5Twice(h);
    Flip5Twice(l);
    NibbleMasks(NibbleXor(h, neg / 16));
    NibbleMasks(NibbleXor(h, pos / 16));
    NibbleMasks(NibbleXor(l, neg % 16));
    Flip8(h);
  }

  /** The top bit does not disturb the flip of the others. */
  lemma Flip8(h: nat)
    requires h < 8
    ensures 0 <= Flip5(h) < 8 && Flip5(Flip5(h) + 8) == h + 8
  {
    Flip5Twice(h);
    Flip5Twice(h + 8);
    assert Odd(h + 8) == Odd(h) && Odd((h + 8) / 4) == Odd(h / 4);
  }

  /** A code is what its mask makes of its sign and magnitude. */
  lemma CodeOf(law: Law, code: byte)
    ensures var x := Xor8(code, NegativeMask(law));
            code == if x >= 128 then Xor8(x - 128, PositiveMask(law)) else Xor8(x, NegativeMask(law))
  {
    hide NibbleXor, Flip5, Xor8;
    var neg, pos := NegativeMask(law), PositiveMask(law);
    var h, l := code / 16, code % 16;
    var x := Xor8(code, neg);
    XorParts(code, neg);
    NibbleMasks(h);
    NibbleMasks(l);
    Flip5Twice(h);
    Flip5Twice(l);
    NibbleMasks(x / 16);
    NibbleMasks(x % 16);
    if x >= 128 {
      var y: byte := x - 128;
      assert y / 16 == x / 16 - 8 && y % 16 == x % 16;
      XorParts(y, pos);
      NibbleMasks(y / 16);
      if law == A {
        Flip8(y / 16);
        Flip5Twice(Flip5(y / 16) + 8);
      }
      SameDigits(code, Xor8(y, pos));
    } else {
      XorParts(x, neg);
    }
  }

  lemma SameDigits(a: byte, b: byte)
    ensures a / 16 == b / 16 && a % 16 == b % 16 ==> a == b
  {
  }

  /** The chain of comparisons both encoders share. */
  function SegmentOf(pcm: int): (seg: nat)
    ensures seg < 8
  {
    if pcm < 256 then 0
    else if pcm < 512 then 1
    else if pcm < 1024 then 2
    else if pcm < 2048 then 3
    else if pcm < 4096 then 4
    else if pcm < 8192 then 5
    else if pcm < 16384 then 6
    else 7
  }

  /** 2^seg. */
  function Scale(seg: nat): (p: nat)
    requires seg < 8
    ensures p > 0
  {
    match seg
    case 0 => 1
    case 1 => 2
    case 2 => 4
    case 3 => 8
    case 4 => 16
    case 5 => 32
    case 6 => 64
    case _ => 128
  }

  /** (pcm >> (seg + 3)) & 0xF, with the arithmetic shift of a negative value rounding down. */
  function Mantissa(pcm: int, seg: nat): (m: nat)
    requires seg < 8
    ensures m < 16
  {
    pcm / (8 * Scale(seg)) % 16
  }

  /** Negation of a 16-bit value, which leaves -32768 unchanged. */
  function Negate16(v: int16): int16 {
    if v == -0x8000 then -0x8000 else -v
  }

  function UlawMagnitude(v: int16): int {
    var m: int := if v < 0 then Negate16(v) else v;
    (if m > 32635 then 32635 else m) + 128
  }

  function LinearToUlaw(v: int16): byte {
    var pcm := UlawMagnitude(v);
    var seg := SegmentOf(pcm);
    Xor8(seg * 16 + Mantissa(pcm, seg), if v < 0 then NegativeMask(Mu) else PositiveMask(Mu))
  }

  function AlawMagnitude(v: int16): nat {
    if v >= 0 then v else -(v as int) - 1
  }

  function LinearToAlaw(v: int16): byte {
    var pcm := AlawMagnitude(v);
    var seg := SegmentOf(pcm);
    var m := if seg == 0 then pcm / 16 % 16 else seg * 16 + Mantissa(pcm, seg);
    Xor8(m, if v >= 0 then PositiveMask(A) else NegativeMask(A))
  }

  function Encode(law: Law, v: int16): byte {
    if law == Mu then LinearToUlaw(v) else LinearToAlaw(v)
  }

  // ---------------------------------------------------------------- decoders

  lemma TableShape()
    ensures |PCMU_TO_L16| == 16 && forall r :: 0 <= r < 16 ==> |PCMU_TO_L16[r]| == 16
    ensures |PCMA_TO_L16| == 16 && forall r :: 0 <= r < 16 ==> |PCMA_TO_L16[r]| == 16
  {
  }

  /** Table lookup. */
  function Decode(law: Law, code: byte): int16 {
    TableShape();
    if law == Mu then PCMU_TO_L16[code / 16][code % 16] else PCMA_TO_L16[code / 16][code % 16]
  }

  /** The quantisation level of a segment and mantissa. */
  function Level(law: Law, seg: nat, mant: nat): int
    requires seg < 8 && mant < 16
  {
    if law == Mu then (mant * 8 + 132) * Scale(seg) - 132
    else if seg == 0 then mant * 16 + 8
    else (mant * 16 + 264) * Scale(seg - 1)
  }

  /** The decoder as a formula: remove the mask, then sign, segment and mantissa. */
  function Formula(law: Law, code: byte): int {
    var x := Xor8(code, NegativeMask(law));
    var level := Level(law, x % 128 / 16, x % 16);
    if x >= 128 then level else -level
  }

  // ---------------------------------------------------------------- the tables are the formula

  lemma MuRows0(row: nat, k: nat)
    requires 0 <= row < 4 && k < 16
    ensures PCMU_TO_L16[row][k] == -Level(Mu, 7 - row, 15 - k)
  {
    TableShape();
    match row
    case 0 =>
    case 1 =>
    case 2 =>
    case 3 =>
  }

  lemma MuRows4(row: nat, k: nat)
    requires 4 <= row < 8 && k < 16
    ensures PCMU_TO_L16[row][k] == -Level(Mu, 7 - row, 15 - k)
  {
    TableShape();
    match row
    case 4 =>
    case 5 =>
    case 6 =>
    case 7 =>
  }

  lemma MuRows8(row: nat, k: nat)
    requires 8 <= row < 12 && k < 16
    ensures PCMU_TO_L16[row][k] == Level(Mu, 15 - row, 15 - k)
  {
    TableShape();
    match row
    case 8 =>
    case 9 =>
    case 10 =>
    case 11 =>
  }

  lemma MuRows12(row: nat, k: nat)
    requires 12 <= row < 16 && k < 16
    ensures PCMU_TO_L16[row][k] == Level(Mu, 15 - row, 15 - k)
  {
    TableShape();
    match row
    case 12 =>
    case 13 =>
    case 14 =>
    case 15 =>
  }

  lemma ARows0(row: nat, k: nat)
    requires 0 <= row < 2 && k < 16 && 0 <= Flip5(k) < 16 && 0 <= Flip5(row) < 8
    ensures PCMA_TO_L16[row][k] == -Level(A, Flip5(row), Flip5(k))
  {
    TableShape();
    match row
    case 0 =>
    case 1 =>
  }

  lemma ARows2(row: nat, k: nat)
    requires 2 <= row < 4 && k < 16 && 0 <= Flip5(k) < 16 && 0 <= Flip5(row) < 8
    ensures PCMA_TO_L16[row][k] == -Level(A, Flip5(row), Flip5(k))
  {
    TableShape();
    match row
    case 2 =>
    case 3 =>
  }

  lemma ARows4(row: nat, k: nat)
    requires 4 <= row < 6 && k < 16 && 0 <= Flip5(k) < 16 && 0 <= Flip5(row) < 8
    ensures PCMA_TO_L16[row][k] == -Level(A, Flip5(row), Flip5(k))
  {
    TableShape();
    match row
    case 4 =>
    case 5 =>
  }

  lemma ARows6(row: nat, k: nat)
    requires 6 <= row < 8 && k < 16 && 0 <= Flip5(k) < 16 && 0 <= Flip5(row) < 8
    ensures PCMA_TO_L16[row][k] == -Level(A, Flip5(row), Flip5(k))
  {
    TableShape();
    match row
    case 6 =>
    case 7 =>
  }

  lemma ARows8(row: nat, k: nat)
    requires 8 <= row < 10 && k < 16 && 0 <= Flip5(k) < 16 && 8 <= Flip5(row) < 16
    ensures PCMA_TO_L16[row][k] == Level(A, Flip5(row) - 8, Flip5(k))
  {
    TableShape();
    match row
    case 8 =>
    case 9 =>
  }

  lemma ARows10(row: nat, k: nat)
    requires 10 <= row < 12 && k < 16 && 0 <= Flip5(k) < 16 && 8 <= Flip5(row) < 16
    ensures PCMA_TO_L16[row][k] == Level(A, Flip5(row) - 8, Flip5(k))
  {
    TableShape();
    match row
    case 10 =>
    case 11 =>
  }

  lemma ARows12(row: nat, k: nat)
    requires 12 <= row < 14 && k < 16 && 0 <= Flip5(k) < 16 && 8 <= Flip5(row) < 16
    ensures PCMA_TO_L16[row][k] == Level(A, Flip5(row) - 8, Flip5(k))
  {
    TableShape();
    match row
    case 12 =>
    case 13 =>
  }

  lemma ARows14(row: nat, k: nat)
    requires 14 <= row < 16 && k < 16 && 0 <= Flip5(k) < 16 && 8 <= Flip5(row) < 16
    ensures PCMA_TO_L16[row][k] == Level(A, Flip5(row) - 8, Flip5(k))
  {
    TableShape();
    match row
    case 14 =>
    case 15 =>
  }

  lemma ARows(row: nat, k: nat)
    requires row < 16 && k < 16 && 0 <= Flip5(k) < 16 && 0 <= Flip5(row) < 16 && (Flip5(row) < 8 <==> row < 8)
    ensures |PCMA_TO_L16| == 16 && |PCMA_TO_L16[row]| == 16
    ensures PCMA_TO_L16[row][k] ==
            if row < 8 then -Level(A, Flip5(row), Flip5(k)) else Level(A, Flip5(row) - 8, Flip5(k))
  {
    TableShape();
    hide Level, Flip5;
    if row < 2 {
      ARows0(row, k);
    } else if row < 4 {
      ARows2(row, k);
    } else if row < 6 {
      ARows4(row, k);
    } else if row < 8 {
      ARows6(row, k);
    } else if row < 10 {
      ARows8(row, k);
    } else if row < 12 {
      ARows10(row, k);
    } else if row < 14 {
      ARows12(row, k);
    } else {
      ARows14(row, k);
    }
  }

  lemma MuRows(row: nat, k: nat)
    requires row < 16 && k < 16
    ensures |PCMU_TO_L16| == 16 && |PCMU_TO_L16[row]| == 16
    ensures PCMU_TO_L16[row][k] ==
            if row < 8 then -Level(Mu, 7 - row, 15 - k) else Level(Mu, 15 - row, 15 - k)
  {
    TableShape();
    hide Level;
    if row < 4 {
      MuRows0(row, k);
    } else if row < 8 {
      MuRows4(row, k);
    } else if row < 12 {
      MuRows8(row, k);
    } else {
      MuRows12(row, k);
    }
  }

  /** Every entry of both tables is the formula's value. */
  lemma TableIsFormula(law: Law, code: byte)
    ensures Decode(law, code) == Formula(law, code)
  {
    hide Level, NibbleXor, Flip5, Scale, Xor8;
    var row, k := code / 16, code % 16;
    XorParts(code, NegativeMask(law));
    NibbleMasks(row);
    NibbleMasks(k);
    Flip5Twice(row);
    Flip5Twice(k);
    var x := Xor8(code, NegativeMask(law));
    Digits(x);
    if law == Mu {
      MuRows(row, k);
    } else {
      ARows(row, k);
    }
  }

  lemma Digits(x: byte)
    ensures x >= 128 <==> x / 16 >= 8
    ensures x % 128 / 16 == if x >= 128 then x / 16 - 8 else x / 16
  {
  }

  // ---------------------------------------------------------------- encode against decode

  function Magnitude(law: Law, v: int16): int {
    if law == Mu then UlawMagnitude(v) else AlawMagnitude(v)
  }

  /** Segment and mantissa the encoder picks for a magnitude. */
  function EncodedMantissa(law: Law, pcm: int): (m: nat)
    ensures m < 16
  {
    var seg := SegmentOf(pcm);
    if law == A && seg == 0 then pcm / 16 % 16 else Mantissa(pcm, seg)
  }

  /** Decoding a code gives the level of the segment and mantissa it was made from. */
  lemma DecodeEncode(law: Law, v: int16)
    ensures var pcm := Magnitude(law, v);
            var level := Level(law, SegmentOf(pcm), EncodedMantissa(law, pcm));
            Decode(law, Encode(law, v)) == if v < 0 then -level else level
  {
    hide Xor8, Level, EncodedMantissa, SegmentOf, Decode, Encode, Magnitude;
    var pcm := Magnitude(law, v);
    var seg, mant := SegmentOf(pcm), EncodedMantissa(law, pcm);
    Masks(law, seg * 16 + mant);
    EncodeParts(law, v);
    TableIsFormula(law, Encode(law, v));
    CodeDigits(seg, mant);
  }

  lemma CodeDigits(seg: nat, mant: nat)
    requires seg < 8 && mant < 16
    ensures var m := seg * 16 + mant;
            && m < 128 && m / 16 == seg && m % 16 == mant && m % 128 == m && (m + 128) % 128 == m
            && (m + 128) % 16 == mant
  {
  }

  /** The comparison chain finds the segment whose range holds the magnitude. */
  lemma SegmentRange(pcm: int)
    requires 0 <= pcm < 0x8000
    ensures var seg := SegmentOf(pcm);
            pcm < 256 * Scale(seg) && (seg > 0 ==> 128 * Scale(seg) <= pcm)
  {
  }

  lemma SegmentUnique(pcm: int, seg: nat)
    requires seg < 8 && 128 * Scale(seg) <= pcm < 256 * Scale(seg)
    ensures SegmentOf(pcm) == seg
  {
  }

  /** A magnitude between 16 and 32 steps of size w. */
  lemma StepSplit(pcm: int, w: nat, k: nat, rest: nat)
    requires k < 16 && rest < w && pcm == (16 + k) * w + rest
    ensures pcm / w % 16 == k
  {
    DivUnique(pcm, w, 16 + k, rest);
  }

  lemma MantissaSplit(pcm: int, seg: nat)
    requires seg < 8 && 128 * Scale(seg) <= pcm < 256 * Scale(seg)
    ensures 0 <= pcm - 128 * Scale(seg) - Mantissa(pcm, seg) * (8 * Scale(seg)) < 8 * Scale(seg)
  {
    var w := 8 * Scale(seg);
    DivRange(pcm, w, 16, 32);
    DivBounds(pcm, w);
    MulDistr(w, pcm / w, -16);
  }

  /** A magnitude against the level it is encoded as: within half a step. */
  lemma AlawLevelError(pcm: int)
    requires 0 <= pcm < 0x8000
    ensures var seg := SegmentOf(pcm);
            var bound := if seg == 0 then 8 else 4 * Scale(seg);
            -bound <= pcm - Level(A, seg, EncodedMantissa(A, pcm)) <= bound - 1
  {
    hide Mantissa, SegmentOf, Scale;
    var seg := SegmentOf(pcm);
    SegmentRange(pcm);
    ScaleStep(seg);
    if seg > 0 {
      var m, s := Mantissa(pcm, seg), Scale(seg);
      MantissaSplit(pcm, seg);
      assert (m * 16 + 264) * Scale(seg - 1) == m * (8 * s) + 132 * s by {
        MulDistr(Scale(seg - 1), m * 16, 264);
        MulAssoc(m, 16, Scale(seg - 1));
      }
    }
  }

  /** A-law quantisation error: at most half a step, 8 in segment 0 and 2^(s+2) in segment s. */
  lemma AlawError(v: int16)
    ensures var seg := SegmentOf(AlawMagnitude(v));
            var error := v as int - Decode(A, Encode(A, v));
            var bound := if seg == 0 then 8 else 4 * Scale(seg);
            -bound <= error <= bound
  {
    hide Decode, Encode, EncodedMantissa, SegmentOf, Scale, Level;
    DecodeEncode(A, v);
    AlawLevelError(AlawMagnitude(v));
  }

  lemma ScaleStep(seg: nat)
    requires seg < 8
    ensures if seg > 0 then Scale(seg) == 2 * Scale(seg - 1) else Scale(seg) == 1
    ensures Scale(seg) <= 128
  {
  }

  lemma UlawLevelError(pcm: int)
    requires 128 <= pcm < 0x8000
    ensures var seg := SegmentOf(pcm);
            -(4 * Scale(seg) - 4) <= pcm - 128 - Level(Mu, seg, EncodedMantissa(Mu, pcm)) <= 4 * Scale(seg) + 3
  {
    hide Mantissa, SegmentOf, Scale;
    var seg := SegmentOf(pcm);
    SegmentRange(pcm);
    ScaleStep(seg);
    var m, s := Mantissa(pcm, seg), Scale(seg);
    MantissaSplit(pcm, seg);
    assert (m * 8 + 132) * s == m * (8 * s) + 132 * s by {
      MulDistr(s, m * 8, 132);
      MulAssoc(m, 8, s);
    }
  }

  /** mu-law quantisation error below the clip: the level is off by less than half a step, with the
      encoder's bias of 128 against the table's of 132. */
  lemma UlawError(v: int16)
    requires -32635 <= v <= 32635
    ensures var seg := SegmentOf(UlawMagnitude(v));
            var magnitude: int := if v < 0 then -(v as int) else v;
            var decoded: int := Decode(Mu, Encode(Mu, v));
            var error := magnitude - (if v < 0 then -decoded else decoded);
            -(4 * Scale(seg) - 4) <= error <= 4 * Scale(seg) + 3
  {
    hide Decode, Encode, EncodedMantissa, SegmentOf, Scale, Level;
    DecodeEncode(Mu, v);
    UlawLevelError(UlawMagnitude(v));
  }

  /** The one mu-law sample whose negation wraps encodes as negative zero. */
  lemma UlawMinimum()
    ensures LinearToUlaw(-0x8000) == 0x7F && Decode(Mu, LinearToUlaw(-0x8000)) == 0
  {
    hide Xor8, Decode, Encode, EncodedMantissa, Level, SegmentOf;
    ZeroCodes();
    MinimumParts();
    EncodeParts(Mu, -0x8000);
    DecodeEncode(Mu, -0x8000);
  }

  lemma MinimumParts()
    ensures Magnitude(Mu, -0x8000) == -32640 && SegmentOf(-32640) == 0 && EncodedMantissa(Mu, -32640) == 0
    ensures Level(Mu, 0, 0) == 0 && Encode(Mu, -0x8000) == LinearToUlaw(-0x8000)
  {
    hide Xor8;
  }

  lemma ZeroCodes()
    ensures Xor8(0x7F, 0x7F) == 0 && Xor8(0, 0x7F) == 0x7F && Xor8(0, 0xFF) == 0xFF
  {
    hide NibbleXor;
    NibbleMasks(0);
    NibbleMasks(7);
    NibbleMasks(15);
  }

  /** Encoding a level gives back its segment and mantissa. */
  lemma UlawLevelEncodes(seg: nat, mant: nat)
    requires seg < 8 && mant < 16
    ensures var level := Level(Mu, seg, mant);
            && 0 <= level <= 32124 && (level == 0 <==> seg == 0 && mant == 0)
            && SegmentOf(level + 128) == seg && Mantissa(level + 128, seg) == mant
  {
    hide Scale, SegmentOf;
    ScaleStep(seg);
    ScaleMono(seg);
    var s, pcm := Scale(seg), Level(Mu, seg, mant) + 128;
    assert pcm == (16 + mant) * (8 * s) + (4 * s - 4);
    Between(mant, s, 4 * s - 4);
    SegmentUnique(pcm, seg);
    StepSplit(pcm, 8 * s, mant, 4 * s - 4);
  }

  lemma ScaleMono(seg: nat)
    requires seg < 8
    ensures 1 <= Scale(seg) <= 128 && (seg > 0 ==> Scale(seg) >= 2)
  {
  }

  lemma Between(mant: nat, s: nat, rest: nat)
    requires mant < 16 && 1 <= s <= 128 && rest < 8 * s
    ensures 128 * s <= (16 + mant) * (8 * s) + rest < 256 * s
    ensures (16 + mant) * (8 * s) <= 31 * (8 * s)
  {
    assert mant * (8 * s) <= 15 * (8 * s);
    assert (16 + mant) * (8 * s) == 16 * (8 * s) + mant * (8 * s);
  }

  lemma AlawLevelEncodes(seg: nat, mant: nat, down: nat)
    requires seg < 8 && mant < 16 && down <= 1
    ensures var pcm := Level(A, seg, mant) - down;
            && 0 <= pcm < 0x8000 - down && SegmentOf(pcm) == seg && EncodedMantissa(A, pcm) == mant
  {
    if seg == 0 {
      AlawFirstSegment(mant, down);
    } else {
      AlawSegment(seg, mant, down, Scale(seg));
    }
  }

  lemma AlawFirstSegment(mant: nat, down: nat)
    requires mant < 16 && down <= 1
    ensures var pcm := Level(A, 0, mant) - down;
            && 0 <= pcm < 0x8000 - down && SegmentOf(pcm) == 0 && EncodedMantissa(A, pcm) == mant
  {
  }

  lemma AlawSegment(seg: nat, mant: nat, down: nat, s: nat)
    requires 0 < seg < 8 && mant < 16 && down <= 1 && s == Scale(seg)
    ensures var pcm := Level(A, seg, mant) - down;
            && 0 <= pcm < 0x8000 - down && SegmentOf(pcm) == seg && EncodedMantissa(A, pcm) == mant
  {
    ScaleStep(seg);
    ScaleMono(seg);
    hide Scale, SegmentOf;
    var pcm := Level(A, seg, mant) - down;
    assert pcm == (16 + mant) * (8 * s) + (4 * s - down);
    Between(mant, s, 4 * s - down);
    SegmentUnique(pcm, seg);
    StepSplit(pcm, 8 * s, mant, 4 * s - down);
  }

  /** Decode then encode is the identity on codes, except that mu-law has two codes for zero and
      the encoder produces only 0xFF. */
  lemma EncodeDecode(law: Law, code: byte)
    ensures Encode(law, Decode(law, code)) == if law == Mu && code == 0x7F then 0xFF else code
  {
    hide Level, SegmentOf, Decode, Xor8, EncodedMantissa, Encode, Magnitude;
    TableIsFormula(law, code);
    CodeOf(law, code);
    var x := Xor8(code, NegativeMask(law));
    var v := Decode(law, code);
    EncodeParts(law, v);
    ZeroCodes();
    LevelSplit(law, v, x);
  }

  /** A decoded sample's magnitude splits into the code's own segment and mantissa, and its sign is
      the code's, except for mu-law's negative zero. */
  lemma LevelSplit(law: Law, v: int16, x: byte)
    requires var level := Level(law, x % 128 / 16, x % 16);
             v as int == if x >= 128 then level else -level
    ensures var pcm := Magnitude(law, v);
            SegmentOf(pcm) * 16 + EncodedMantissa(law, pcm) == x % 128
    ensures v < 0 <==> x < 128 && !(law == Mu && x == 0)
  {
    var seg, mant := x % 128 / 16, x % 16;
    Halves(x);
    hide Level, SegmentOf, EncodedMantissa, Magnitude;
    if law == Mu {
      UlawSplit(v, seg, mant, x >= 128);
    } else {
      AlawSplit(v, seg, mant, x >= 128);
    }
  }

  lemma Halves(x: byte)
    ensures x % 128 / 16 * 16 + x % 16 == x % 128
    ensures x < 128 ==> (x == 0 <==> x % 128 / 16 == 0 && x % 16 == 0)
  {
  }

  lemma UlawSplit(v: int16, seg: nat, mant: nat, positive: bool)
    requires seg < 8 && mant < 16 && v as int == if positive then Level(Mu, seg, mant) else -Level(Mu, seg, mant)
    ensures SegmentOf(Magnitude(Mu, v)) == seg && EncodedMantissa(Mu, Magnitude(Mu, v)) == mant
    ensures v < 0 <==> !positive && !(seg == 0 && mant == 0)
  {
    hide Level, SegmentOf, Mantissa, UlawMagnitude;
    UlawLevelEncodes(seg, mant);
    UlawMagnitudeOf(v, Level(Mu, seg, mant));
  }

  lemma AlawSplit(v: int16, seg: nat, mant: nat, positive: bool)
    requires seg < 8 && mant < 16 && v as int == if positive then Level(A, seg, mant) else -Level(A, seg, mant)
    ensures SegmentOf(Magnitude(A, v)) == seg && EncodedMantissa(A, Magnitude(A, v)) == mant
    ensures v < 0 <==> !positive
  {
    AlawPositive(seg, mant);
    hide Level, SegmentOf, EncodedMantissa;
    AlawLevelEncodes(seg, mant, 0);
    AlawLevelEncodes(seg, mant, 1);
  }

  lemma AlawPositive(seg: nat, mant: nat)
    requires seg < 8 && mant < 16
    ensures Level(A, seg, mant) > 0
  {
  }

  lemma UlawMagnitudeOf(v: int16, level: nat)
    requires level <= 32124 && (v as int == level || v as int + level == 0)
    ensures UlawMagnitude(v) == level + 128
  {
  }

  lemma EncodeParts(law: Law, v: int16)
    ensures var pcm := Magnitude(law, v);
            Encode(law, v) ==
              Xor8(SegmentOf(pcm) * 16 + EncodedMantissa(law, pcm),
                   if v < 0 then NegativeMask(law) else PositiveMask(law))
  {
    hide Xor8, Mantissa, SegmentOf;
  }

  /** Above the clip mu-law gives the largest level with the sample's sign, but for -32768. */
  lemma UlawClipped(v: int16)
    requires v > 32635 || -32768 < v < -32635
    ensures Encode(Mu, v) == if v < 0 then 0x00 else 0x80
    ensures Decode(Mu, Encode(Mu, v)) == if v < 0 then -32124 else 32124
  {
    hide Decode, Encode, EncodedMantissa, SegmentOf, Xor8;
    DecodeEncode(Mu, v);
    EncodeParts(Mu, v);
    ClippedParts(UlawMagnitude(v));
    Masks(Mu, 127);
    LoudestCodes();
  }

  lemma ClippedParts(pcm: int)
    requires pcm == 32763
    ensures SegmentOf(pcm) == 7 && EncodedMantissa(Mu, pcm) == 15 && Level(Mu, 7, 15) == 32124
  {
  }

  lemma LoudestCodes()
    ensures Xor8(127, 0xFF) == 0x80 && Xor8(127, 0x7F) == 0x00
  {
    hide NibbleXor;
    NibbleMasks(7);
    NibbleMasks(15);
  }
}
