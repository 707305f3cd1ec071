/** The 32-bit CRC of the HX packets: the table-free byte loop of `crc32_ieee`, proved equal
    to the bit-serial shift register of IEEE 802.3 section 3.2.9. */
module Crc32 {
  import opened Bytes

  const ONES: bv32 := 0xFFFF_FFFF

  // ----- the reference: a shift register fed one message bit at a time

  /** The register clocked once: the polynomial enters exactly when a one falls out. */
  function Shift(r: bv32): bv32 {
    if r & 1 == 1 then (r >> 1) ^ 0xEDB8_8320 else r >> 1
  }

  /** The register after one message bit. */
  function Clock(r: bv32, bit: bool): bv32 {
    Shift(if bit then Flip(r) else r)
  }

  function Flip(r: bv32): bv32 {
    r ^ 1
  }

  /** The register after a whole bit string. */
  function Register(r: bv32, bits: seq<bool>): bv32
    decreases bits
  {
    if |bits| == 0 then r else Register(Clock(r, bits[0]), bits[1..])
  }

  predicate Odd(w: bv32) {
    w & 1 == 1
  }

  function Rest(w: bv32): bv32 {
    w >> 1
  }

  /** The `n` low bits of a word, least significant first, and what is left above them. */
  function LowBits(w: bv32, n: nat): (bits: seq<bool>)
    ensures |bits| == n
    decreases n
  {
    if n == 0 then [] else [Odd(w)] + LowBits(Rest(w), n - 1)
  }

  function Above(w: bv32, n: nat): bv32
    decreases n
  {
    if n == 0 then w else Above(Rest(w), n - 1)
  }

  function ByteBits(b: byte): (bits: seq<bool>)
    ensures |bits| == 8
  {
    LowBits(b as bv32, 8)
  }

  /** The bits of a byte string in the order in which they are sent. */
  function Bits(s: seq<byte>): (bits: seq<bool>)
    ensures |bits| == 8 * |s|
  {
    if s == [] then [] else ByteBits(s[0]) + Bits(s[1..])
  }

  /** The checksum: the register preset to ones, complemented at the end. */
  function Crc(s: seq<byte>): bv32 {
    Complement(Register(ONES, Bits(s)))
  }

  function Complement(r: bv32): bv32 {
    !r
  }

  // ----- the byte loop of the source

  /** A whole byte is exclusive-ored in at once, and the register is then clocked eight times
      without input. */
  method Crc32Ieee(bytes: seq<byte>) returns (crc: bv32)
    ensures crc == Crc(bytes)
  {
    hide Shift, Clock, ByteBits, Register;
    crc := 0xFFFF_FFFF;
    for n := 0 to |bytes|
      invariant Register(crc, Bits(bytes[n..])) == Register(ONES, Bits(bytes))
    {
      ghost var r := crc;
      crc := crc ^ (bytes[n] as bv32);
      for bit := 0 to 8
        invariant crc == ShiftBy(r ^ (bytes[n] as bv32), bit)
      {
        ShiftIsMasked(crc);
        var mask: bv32 := 0 - (crc & 1);
        crc := (crc >> 1) ^ (0xEDB8_8320 & mask);
      }
      RegisterOfNextByte(r, bytes, n);
    }
    RegisterOfNothing(crc);
    crc := !crc;
  }

  /** Exclusive or under a name, so that proofs about whole words need not look at their bits. */
  function Xor(a: bv32, b: bv32): bv32 {
    a ^ b
  }

  function ShiftBy(r: bv32, n: nat): bv32
    decreases n
  {
    if n == 0 then r else Shift(ShiftBy(r, n - 1))
  }

  function FeedByte(r: bv32, b: byte): bv32 {
    ShiftBy(r ^ (b as bv32), 8)
  }

  lemma RegisterOfNothing(r: bv32)
    ensures Register(r, Bits([])) == r
  {
  }

  lemma RegisterOfNextByte(r: bv32, bytes: seq<byte>, n: nat)
    requires n < |bytes|
    ensures Register(r, Bits(bytes[n..])) == Register(FeedByte(r, bytes[n]), Bits(bytes[n + 1..]))
  {
    hide FeedByte, ByteBits, Register;
    assert bytes[n..][1..] == bytes[n + 1..];
    RegisterOfByte(r, bytes[n]);
    RegisterAppend(r, ByteBits(bytes[n]), Bits(bytes[n + 1..]));
  }

  lemma {:induction false} RegisterAppend(r: bv32, a: seq<bool>, b: seq<bool>)
    ensures Register(r, a + b) == Register(Register(r, a), b)
    decreases a
  {
    hide Shift, Clock;
    if |a| == 0 {
      assert a + b == b;
    } else {
      assert (a + b)[1..] == a[1..] + b;
      RegisterAppend(Clock(r, a[0]), a[1..], b);
    }
  }

  lemma {:induction false} BitsAppend(a: seq<byte>, b: seq<byte>)
    ensures Bits(a + b) == Bits(a) + Bits(b)
  {
    hide ByteBits;
    if a == [] {
      assert a + b == b;
    } else {
      assert (a + b)[1..] == a[1..] + b;
      BitsAppend(a[1..], b);
      var first := ByteBits(a[0]);
      assert first + (Bits(a[1..]) + Bits(b)) == first + Bits(a[1..]) + Bits(b);
    }
  }

  /** A word may be exclusive-ored in bit by bit, or at once: a bit that enters later equals one
      exclusive-ored earlier at a shifted position. */
  lemma {:induction false} RegisterOfWord(r: bv32, w: bv32, n: nat)
    ensures ShiftBy(Xor(r, w), n) == Xor(Register(r, LowBits(w, n)), Above(w, n))
    decreases n
  {
    hide Xor, Odd, Rest, Shift, Clock, LowBits, Above, ShiftBy, Register;
    if n == 0 {
      RegisterOfNoBits(r, w);
    } else {
      AbsorbFirst(r, w, n);
      RegisterOfWord(Clock(r, Odd(w)), Rest(w), n - 1);
      FeedFirst(r, w, n);
    }
  }

  lemma AbsorbFirst(r: bv32, w: bv32, n: nat)
    requires n > 0
    ensures ShiftBy(Xor(r, w), n) == ShiftBy(Xor(Clock(r, Odd(w)), Rest(w)), n - 1)
  {
    hide Shift, Clock, ShiftBy, Odd, Rest, Xor;
    ShiftByFirst(Xor(r, w), n);
    ShiftAbsorbs(r, w);
  }

  lemma FeedFirst(r: bv32, w: bv32, n: nat)
    requires n > 0
    ensures Register(r, LowBits(w, n)) == Register(Clock(r, Odd(w)), LowBits(Rest(w), n - 1))
    ensures Above(w, n) == Above(Rest(w), n - 1)
  {
    hide Shift, Clock, Odd, Rest;
    assert LowBits(w, n)[1..] == LowBits(Rest(w), n - 1);
  }

  lemma LowBitsStep(w: bv32, n: nat)
    requires n > 0
    ensures LowBits(w, n) == [Odd(w)] + LowBits(Rest(w), n - 1)
    ensures Above(w, n) == Above(Rest(w), n - 1)
  {
    hide Odd, Rest;
  }

  lemma RegisterOfNoBits(r: bv32, w: bv32)
    ensures ShiftBy(Xor(r, w), 0) == Xor(Register(r, LowBits(w, 0)), Above(w, 0))
  {
  }

  lemma {:induction false} ShiftByFirst(r: bv32, n: nat)
    requires n > 0
    ensures ShiftBy(r, n) == ShiftBy(Shift(r), n - 1)
    decreases n
  {
    hide Shift;
    if n == 1 {
      assert ShiftBy(r, 1) == Shift(ShiftBy(r, 0));
    } else {
      ShiftByFirst(r, n - 1);
    }
  }

  lemma RegisterOfByte(r: bv32, b: byte)
    ensures Register(r, ByteBits(b)) == FeedByte(r, b)
  {
    hide Shift, Clock, LowBits, Above, Register, ShiftBy;
    RegisterOfWord(r, b as bv32, 8);
    NothingAboveAByte(b);
    XorZero(Register(r, LowBits(b as bv32, 8)));
  }

  lemma NothingAboveAByte(b: byte)
    ensures Above(b as bv32, 8) == 0
  {
    ByteRaw(b);
  }

  // ----- the check value

  lemma EightShifts(r: bv32)
    ensures ShiftBy(r, 8) == Shift(Shift(Shift(Shift(Shift(Shift(Shift(Shift(r))))))))
  {
    hide Shift;
    assert ShiftBy(r, 4) == Shift(Shift(Shift(Shift(r))));
    assert ShiftBy(r, 8) == Shift(Shift(Shift(Shift(ShiftBy(r, 4)))));
  }

  /** The published check value of the CRC-32 of IEEE 802.3: that of the digits one to nine. */
  lemma CheckValue()
    ensures Crc([0x31, 0x32, 0x33, 0x34, 0x35, 0x36, 0x37, 0x38, 0x39]) == 0xCBF4_3926
  {
    hide Bits, Register, ShiftBy;
    var digits: seq<byte> := [0x31, 0x32, 0x33, 0x34, 0x35, 0x36, 0x37, 0x38, 0x39];
    assert digits[0..] == digits && digits[9..] == [];
    RegisterOfNextByte(0xFFFF_FFFF, digits, 0);
    assert FeedByte(0xFFFF_FFFF, 0x31) == 0x7C23_1048 by { EightShifts(0xFFFF_FFFF ^ 0x31); }
    RegisterOfNextByte(0x7C23_1048, digits, 1);
    assert FeedByte(0x7C23_1048, 0x32) == 0xB0AC_BB32 by { EightShifts(0x7C23_1048 ^ 0x32); }
    RegisterOfNextByte(0xB0AC_BB32, digits, 2);
    assert FeedByte(0xB0AC_BB32, 0x33) == 0x77B7_9C2D by { EightShifts(0xB0AC_BB32 ^ 0x33); }
    RegisterOfNextByte(0x77B7_9C2D, digits, 3);
    assert FeedByte(0x77B7_9C2D, 0x34) == 0x641C_1F5C by { EightShifts(0x77B7_9C2D ^ 0x34); }
    RegisterOfNextByte(0x641C_1F5C, digits, 4);
    assert FeedByte(0x641C_1F5C, 0x35) == 0x340A_C5E3 by { EightShifts(0x641C_1F5C ^ 0x35); }
    RegisterOfNextByte(0x340A_C5E3, digits, 5);
    assert FeedByte(0x340A_C5E3, 0x36) == 0xF68D_2C9E by { EightShifts(0x340A_C5E3 ^ 0x36); }
    RegisterOfNextByte(0xF68D_2C9E, digits, 6);
    assert FeedByte(0xF68D_2C9E, 0x37) == 0xAFFC_9660 by { EightShifts(0xF68D_2C9E ^ 0x37); }
    RegisterOfNextByte(0xAFFC_9660, digits, 7);
    assert FeedByte(0xAFFC_9660, 0x38) == 0x651F_2550 by { EightShifts(0xAFFC_9660 ^ 0x38); }
    RegisterOfNextByte(0x651F_2550, digits, 8);
    assert FeedByte(0x651F_2550, 0x39) == 0x340B_C6D9 by { EightShifts(0x651F_2550 ^ 0x39); }
    RegisterOfNothing(0x340B_C6D9);
  }

  // ----- one clocking, case by case on the bit that falls out

  lemma LowBit(w: bv32)
    ensures w & 1 == 0 || w & 1 == 1
  {
  }

  lemma ShiftEven(r: bv32)
    requires r & 1 == 0
    ensures Shift(r) == r >> 1
  {
  }

  lemma ShiftOdd(r: bv32)
    requires r & 1 == 1
    ensures Shift(r) == (r >> 1) ^ 0xEDB8_8320
  {
  }

  /** The source avoids the branch: the subtraction turns the bit that falls out into a mask. */
  lemma ShiftIsMasked(r: bv32)
    ensures (r >> 1) ^ (0xEDB8_8320 & (0 - (r & 1))) == Shift(r)
  {
    hide Shift;
    LowBit(r);
    if r & 1 == 1 {
      MaskOdd(r);
      ShiftOdd(r);
    } else {
      MaskEven(r);
      ShiftEven(r);
    }
  }

  lemma ShiftAbsorbs(r: bv32, w: bv32)
    ensures Shift(Xor(r, w)) == Xor(Clock(r, Odd(w)), Rest(w))
  {
    hide Shift;
    LowBit(w);
    if w & 1 == 1 {
      ShiftAbsorbsOdd(r, w);
    } else {
      ShiftAbsorbsEven(r, w);
    }
  }

  lemma ShiftAbsorbsEven(r: bv32, w: bv32)
    requires w & 1 == 0
    ensures Shift(r ^ w) == Shift(r) ^ (w >> 1)
  {
    hide Shift;
    LowBit(r);
    if r & 1 == 1 {
      OddEven(r, w);
      ShiftOdd(r);
      ShiftOdd(r ^ w);
    } else {
      EvenEven(r, w);
      ShiftEven(r);
      ShiftEven(r ^ w);
    }
  }

  lemma ShiftAbsorbsOdd(r: bv32, w: bv32)
    requires w & 1 == 1
    ensures Shift(r ^ w) == Shift(r ^ 1) ^ (w >> 1)
  {
    hide Shift;
    LowBit(r);
    if r & 1 == 1 {
      OddOdd(r, w);
      ShiftEven(r ^ 1);
      ShiftEven(r ^ w);
    } else {
      EvenOdd(r, w);
      ShiftOdd(r ^ 1);
      ShiftOdd(r ^ w);
    }
  }

  // ----- facts about 32-bit words

  lemma MaskOdd(r: bv32)
    requires r & 1 == 1
    ensures (r >> 1) ^ (0xEDB8_8320 & (0 - (r & 1))) == (r >> 1) ^ 0xEDB8_8320
  {
  }

  lemma MaskEven(r: bv32)
    requires r & 1 == 0
    ensures (r >> 1) ^ (0xEDB8_8320 & (0 - (r & 1))) == r >> 1
  {
  }

  lemma EvenEven(r: bv32, w: bv32)
    requires r & 1 == 0 && w & 1 == 0
    ensures (r ^ w) & 1 == 0 && (r ^ w) >> 1 == (r >> 1) ^ (w >> 1)
  {
  }

  lemma OddEven(r: bv32, w: bv32)
    requires r & 1 == 1 && w & 1 == 0
    ensures (r ^ w) & 1 == 1 && ((r ^ w) >> 1) ^ 0xEDB8_8320 == ((r >> 1) ^ 0xEDB8_8320) ^ (w >> 1)
  {
  }

  lemma OddOdd(r: bv32, w: bv32)
    requires r & 1 == 1 && w & 1 == 1
    ensures (r ^ w) & 1 == 0 && (r ^ 1) & 1 == 0 && (r ^ w) >> 1 == ((r ^ 1) >> 1) ^ (w >> 1)
  {
  }

  lemma EvenOdd(r: bv32, w: bv32)
    requires r & 1 == 0 && w & 1 == 1
    ensures (r ^ w) & 1 == 1 && (r ^ 1) & 1 == 1
    ensures ((r ^ w) >> 1) ^ 0xEDB8_8320 == (((r ^ 1) >> 1) ^ 0xEDB8_8320) ^ (w >> 1)
  {
  }

  lemma XorZero(r: bv32)
    ensures r ^ 0 == r
  {
  }

  lemma ByteRaw(b: byte)
    ensures (b as bv32) >> 1 >> 1 >> 1 >> 1 >> 1 >> 1 >> 1 >> 1 == 0
  {
  }
}
