/** What the CRC detects: every change confined to 32 consecutive bits in sending order. */
module CrcBurst {
  import opened Bytes
  import opened Crc32

  // ----- clocking loses nothing

  lemma ShiftInjective(p: bv32, q: bv32)
    requires Shift(p) == Shift(q)
    ensures p == q
  {
    hide Shift;
    LowBit(p);
    LowBit(q);
    if p & 1 == 1 { ShiftOdd(p); } else { ShiftEven(p); }
    if q & 1 == 1 { ShiftOdd(q); } else { ShiftEven(q); }
    Unshift(p, q);
  }

  lemma Unshift(p: bv32, q: bv32)
    ensures p & 1 == q & 1 && p >> 1 == q >> 1 ==> p == q
    ensures p & 1 == q & 1 && (p >> 1) ^ 0xEDB8_8320 == (q >> 1) ^ 0xEDB8_8320 ==> p == q
    ensures (p >> 1) ^ 0xEDB8_8320 != q >> 1
    ensures (q >> 1) ^ 0xEDB8_8320 != p >> 1
  {
  }

  lemma {:induction false} ShiftByInjective(p: bv32, q: bv32, n: nat)
    requires ShiftBy(p, n) == ShiftBy(q, n)
    ensures p == q
    decreases n
  {
    hide Shift;
    if n == 0 {
    } else {
      ShiftInjective(ShiftBy(p, n - 1), ShiftBy(q, n - 1));
      ShiftByInjective(p, q, n - 1);
    }
  }

  lemma ClockInjective(p: bv32, q: bv32, bit: bool)
    requires Clock(p, bit) == Clock(q, bit)
    ensures p == q
  {
    hide Shift, Flip;
    if bit {
      ShiftInjective(Flip(p), Flip(q));
      FlipInjective(p, q);
    } else {
      ShiftInjective(p, q);
    }
  }

  lemma FlipInjective(p: bv32, q: bv32)
    requires Flip(p) == Flip(q)
    ensures p == q
  {
  }

  lemma {:induction false} RegisterInjective(p: bv32, q: bv32, bits: seq<bool>)
    requires Register(p, bits) == Register(q, bits)
    ensures p == q
    decreases bits
  {
    hide Clock;
    if |bits| == 0 {
    } else {
      RegisterInjective(Clock(p, bits[0]), Clock(q, bits[0]), bits[1..]);
      ClockInjective(p, q, bits[0]);
    }
  }

  // ----- a difference cannot be pushed out in fewer than 32 clocks

  /** `n` low ones. */
  function Mask(n: nat): bv32
    decreases n
  {
    if n == 0 then 0 else Widen(Mask(n - 1))
  }

  function Widen(m: bv32): bv32 {
    (m << 1) | 1
  }

  ghost predicate Within(d: bv32, m: bv32) {
    d & !m == 0
  }

  /** The two registers differ in bits of `m` only. */
  ghost predicate Near(p: bv32, q: bv32, m: bv32) {
    (p ^ q) & !m == 0
  }

  ghost predicate TopClear(m: bv32) {
    m & 0x8000_0000 == 0
  }

  lemma {:induction false} MaskGrows(n: nat)
    ensures Within(Mask(n), Mask(n + 1))
  {
    hide Widen, Within;
    if n == 0 {
      ZeroWithin(Mask(1));
    } else {
      MaskGrows(n - 1);
      WithinWidened(Mask(n - 1), Mask(n));
    }
  }

  lemma ZeroWithin(m: bv32)
    ensures Within(0, m)
  {
  }

  lemma WithinWidened(a: bv32, b: bv32)
    requires Within(a, b)
    ensures Within(Widen(a), Widen(b))
  {
  }

  lemma {:induction false} MaskBelowTop(n: nat)
    requires n <= 31
    ensures TopClear(Mask(n))
    decreases 31 - n
  {
    hide Widen, Within;
    if n == 31 {
      MaskOf31();
    } else {
      hide Mask, TopClear;
      MaskBelowTop(n + 1);
      MaskGrows(n);
      PartTopClear(Mask(n), Mask(n + 1));
    }
  }

  lemma PartTopClear(a: bv32, b: bv32)
    requires Within(a, b) && TopClear(b)
    ensures TopClear(a)
  {
  }

  lemma MaskOf31()
    ensures Mask(31) == 0x7FFF_FFFF
  {
    hide Mask, Widen;
    MaskOf3();
    MaskFour(3, 0x7);
    MaskFour(7, 0x7F);
    MaskFour(11, 0x7FF);
    MaskFour(15, 0x7FFF);
    MaskFour(19, 0x7_FFFF);
    MaskFour(23, 0x7F_FFFF);
    MaskFour(27, 0x7FF_FFFF);
  }

  lemma MaskOf3()
    ensures Mask(3) == 7
  {
    assert Mask(3) == Widen(Widen(Widen(0)));
  }

  lemma MaskFour(n: nat, m: bv32)
    requires Mask(n) == m
    ensures Mask(n + 4) == (m << 4) | 15
  {
    hide Mask, Widen;
    MaskFourSteps(n);
    FourOnes(m);
  }

  lemma MaskFourSteps(n: nat)
    ensures Mask(n + 4) == Widen(Widen(Widen(Widen(Mask(n)))))
  {
    hide Widen;
    assert Mask(n + 2) == Widen(Widen(Mask(n)));
  }

  lemma FourOnes(m: bv32)
    ensures Widen(Widen(Widen(Widen(m)))) == (m << 4) | 15
  {
  }

  /** Two registers that `n` further bits make equal differ in their `n` low bits only. */
  lemma {:induction false} DifferenceIsLow(p: bv32, q: bv32, x: seq<bool>, y: seq<bool>)
    requires |x| == |y| <= 31
    requires Register(p, x) == Register(q, y)
    ensures Near(p, q, Mask(|x|))
    decreases x
  {
    hide Clock, Mask, Near, TopClear;
    if |x| == 0 {
      SameIsNear(p, Mask(0));
    } else {
      DifferenceIsLow(Clock(p, x[0]), Clock(q, y[0]), x[1..], y[1..]);
      MaskBelowTop(|x| - 1);
      ClockWidens(p, q, x[0], y[0], |x| - 1);
    }
  }

  lemma SameIsNear(p: bv32, m: bv32)
    ensures Near(p, p, m)
  {
  }

  lemma ClockWidens(p: bv32, q: bv32, a: bool, b: bool, n: nat)
    requires TopClear(Mask(n))
    requires Near(Clock(p, a), Clock(q, b), Mask(n))
    ensures Near(p, q, Mask(n + 1))
  {
    hide Shift, Flip, Near, TopClear, Widen;
    var p', q' := if a then Flip(p) else p, if b then Flip(q) else q;
    ShiftWidens(p', q', Mask(n));
    if a {
      LowBitFree(p, q', Mask(n));
    }
    if b {
      NearSymmetric(p, q', Widen(Mask(n)));
      LowBitFree(q, p, Mask(n));
      NearSymmetric(q, p, Widen(Mask(n)));
    }
  }

  lemma ShiftWidens(p: bv32, q: bv32, m: bv32)
    requires TopClear(m)
    requires Near(Shift(p), Shift(q), m)
    ensures Near(p, q, Widen(m))
  {
    hide Shift;
    LowBit(p);
    LowBit(q);
    if p & 1 == 1 { ShiftOdd(p); } else { ShiftEven(p); }
    if q & 1 == 1 { ShiftOdd(q); } else { ShiftEven(q); }
    WidensRaw(p, q, m);
  }

  lemma WidensRaw(p: bv32, q: bv32, m: bv32)
    requires m & 0x8000_0000 == 0
    ensures ((p >> 1) ^ (q >> 1)) & !m == 0 ==> (p ^ q) & !((m << 1) | 1) == 0
    ensures (((p >> 1) ^ 0xEDB8_8320) ^ ((q >> 1) ^ 0xEDB8_8320)) & !m == 0 ==> (p ^ q) & !((m << 1) | 1) == 0
    ensures (((p >> 1) ^ 0xEDB8_8320) ^ (q >> 1)) & !m != 0
    ensures ((p >> 1) ^ ((q >> 1) ^ 0xEDB8_8320)) & !m != 0
  {
  }

  lemma LowBitFree(p: bv32, q: bv32, m: bv32)
    requires Near(Flip(p), q, Widen(m))
    ensures Near(p, q, Widen(m))
  {
    LowBitRaw(p, q, m);
  }

  lemma LowBitRaw(p: bv32, q: bv32, m: bv32)
    requires ((p ^ 1) ^ q) & !((m << 1) | 1) == 0
    ensures (p ^ q) & !((m << 1) | 1) == 0
  {
  }

  lemma NearSymmetric(p: bv32, q: bv32, m: bv32)
    requires Near(p, q, m)
    ensures Near(q, p, m)
  {
  }

  /** The first differing bit reaches the top of the register, and 31 more bits cannot shift it out. */
  lemma {:induction false} WindowChangesRegister(r: bv32, x: seq<bool>, y: seq<bool>)
    requires |x| == |y| <= 32 && x != y
    ensures Register(r, x) != Register(r, y)
    decreases x
  {
    hide Clock, Mask, Near, TopClear;
    assert |x| > 0;
    if x[0] == y[0] {
      assert x == [x[0]] + x[1..] && y == [y[0]] + y[1..];
      WindowChangesRegister(Clock(r, x[0]), x[1..], y[1..]);
    } else if Register(r, x) == Register(r, y) {
      DifferenceIsLow(Clock(r, x[0]), Clock(r, y[0]), x[1..], y[1..]);
      MaskBelowTop(|x| - 1);
      FirstDifferenceIsHigh(r, x[0], Mask(|x| - 1));
      assert false;
    }
  }

  lemma FirstDifferenceIsHigh(r: bv32, bit: bool, m: bv32)
    requires TopClear(m)
    ensures !Near(Clock(r, bit), Clock(r, !bit), m)
  {
    hide Shift, Flip, Near, TopClear;
    ShiftOfFlip(r, m);
  }

  lemma ShiftOfFlip(r: bv32, m: bv32)
    requires TopClear(m)
    ensures !Near(Shift(r), Shift(Flip(r)), m) && !Near(Shift(Flip(r)), Shift(r), m)
  {
    hide Shift;
    LowBit(r);
    OneFlips(r);
    if r & 1 == 1 {
      ShiftOdd(r);
      ShiftEven(r ^ 1);
    } else {
      ShiftEven(r);
      ShiftOdd(r ^ 1);
    }
    WidensRaw(r, r ^ 1, m);
    WidensRaw(r ^ 1, r, m);
  }

  lemma OneFlips(r: bv32)
    ensures r & 1 == 1 ==> (r ^ 1) & 1 == 0
    ensures r & 1 == 0 ==> (r ^ 1) & 1 == 1
  {
  }

  // ----- the theorem, on bits and on bytes

  /** Outside positions `from` to `from + width` the two bit strings agree. */
  ghost predicate DifferWithin(u: seq<bool>, v: seq<bool>, from: nat, width: nat) {
    |u| == |v| && forall i :: 0 <= i < |u| && !(from <= i < from + width) ==> u[i] == v[i]
  }

  lemma BurstChangesRegister(r: bv32, u: seq<bool>, v: seq<bool>, from: nat, width: nat)
    requires width <= 32 && DifferWithin(u, v, from, width) && u != v
    ensures Register(r, u) != Register(r, v)
  {
    hide Clock;
    var a := if from < |u| then from else |u|;
    var b := if from + width < |u| then from + width else |u|;
    assert u == u[..a] + (u[a..b] + u[b..]) && v == v[..a] + (v[a..b] + v[b..]);
    assert u[..a] == v[..a] && u[b..] == v[b..];
    var s := Register(r, u[..a]);
    RegisterAppend(r, u[..a], u[a..b] + u[b..]);
    RegisterAppend(r, v[..a], v[a..b] + v[b..]);
    RegisterAppend(s, u[a..b], u[b..]);
    RegisterAppend(s, v[a..b], v[b..]);
    WindowChangesRegister(s, u[a..b], v[a..b]);
    if Register(r, u) == Register(r, v) {
      RegisterInjective(Register(s, u[a..b]), Register(s, v[a..b]), u[b..]);
      assert false;
    }
  }

  /** Burst detection: two byte strings of the same length whose bits differ only inside a window
      of 32 bits, at any bit position, never have the same checksum. */
  lemma BurstDetected(s: seq<byte>, t: seq<byte>, from: nat, width: nat)
    requires |s| == |t| && s != t
    requires width <= 32 && DifferWithin(Bits(s), Bits(t), from, width)
    ensures Crc(s) != Crc(t)
  {
    hide Bits, Register;
    if Bits(s) == Bits(t) {
      BitsInjective(s, t);
    }
    BurstChangesRegister(ONES, Bits(s), Bits(t), from, width);
    XorOnes(Register(ONES, Bits(s)), Register(ONES, Bits(t)));
  }

  lemma XorOnes(p: bv32, q: bv32)
    requires p != q
    ensures p ^ 0xFFFF_FFFF != q ^ 0xFFFF_FFFF
  {
  }

  lemma {:induction false} BitsInjective(s: seq<byte>, t: seq<byte>)
    requires |s| == |t| && Bits(s) == Bits(t)
    ensures s == t
  {
    hide ByteBits;
    if s == [] {
    } else {
      assert Bits(s)[..8] == ByteBits(s[0]) && Bits(t)[..8] == ByteBits(t[0]);
      assert Bits(s)[8..] == Bits(s[1..]) && Bits(t)[8..] == Bits(t[1..]);
      ByteBitsInjective(s[0], t[0]);
      BitsInjective(s[1..], t[1..]);
      assert s == [s[0]] + s[1..] && t == [t[0]] + t[1..];
    }
  }

  lemma ByteBitsInjective(a: byte, b: byte)
    requires ByteBits(a) == ByteBits(b)
    ensures a == b
  {
    hide LowBits, Above;
    NothingAboveAByte(a);
    NothingAboveAByte(b);
    LowBitsInjective(a as bv32, b as bv32, 8);
    WidenedByte(a, b);
  }

  lemma WidenedByte(a: byte, b: byte)
    requires a as bv32 == b as bv32
    ensures a == b
  {
  }

  lemma {:induction false} LowBitsInjective(v: bv32, w: bv32, n: nat)
    requires LowBits(v, n) == LowBits(w, n) && Above(v, n) == Above(w, n)
    ensures v == w
    decreases n
  {
    if n == 0 {
    } else {
      assert LowBits(v, n)[0] == LowBits(w, n)[0] && LowBits(v, n)[1..] == LowBits(w, n)[1..];
      LowBitsInjective(v >> 1, w >> 1, n - 1);
      LowBit(v);
      LowBit(w);
      Unshift(v, w);
    }
  }

  /** The same for whole bytes: a window of four consecutive bytes. */
  lemma FourByteBurstDetected(s: seq<byte>, t: seq<byte>, k: nat)
    requires |s| == |t| && s != t
    requires forall i :: 0 <= i < |s| && !(k <= i < k + 4) ==> s[i] == t[i]
    ensures Crc(s) != Crc(t)
  {
    forall i | 0 <= i < 8 * |s| && !(8 * k <= i < 8 * k + 32)
      ensures Bits(s)[i] == Bits(t)[i]
    {
      BitAt(s, i);
      BitAt(t, i);
    }
    BurstDetected(s, t, 8 * k, 32);
  }

  lemma {:induction false} BitAt(s: seq<byte>, i: nat)
    requires i < 8 * |s|
    ensures Bits(s)[i] == ByteBits(s[i / 8])[i % 8]
  {
    hide ByteBits;
    if i < 8 {
    } else {
      BitAt(s[1..], i - 8);
    }
  }

  // ----- a string that carries its own checksum

  /** The last four bytes are the checksum of what precedes them. */
  predicate Sealed(s: seq<byte>) {
    |s| >= 4 && Crc(s[..|s| - 4]) == Get32(s[|s| - 4..])
  }

  /** A receiver may compare the stored checksum, or run the register over everything and compare
      it with one constant. */
  lemma SealedIsResidue(s: seq<byte>)
    requires |s| >= 4
    ensures Sealed(s) <==> Register(ONES, Bits(s)) == ShiftBy(ONES, 32)
  {
    hide Bits, Register, ShiftBy, Get32, Xor, Crc;
    var data, stored := s[..|s| - 4], s[|s| - 4..];
    assert s == data + stored;
    var r, v := Register(ONES, Bits(data)), Get32(stored);
    BitsAppend(data, stored);
    RegisterAppend(ONES, Bits(data), Bits(stored));
    RegisterOfFourBytes(r, stored);
    CrcIsComplement(data, v);
    if ShiftBy(Xor(r, v), 32) == ShiftBy(ONES, 32) {
      ShiftByInjective(Xor(r, v), ONES, 32);
    }
  }

  lemma CrcIsComplement(data: seq<byte>, v: bv32)
    ensures Crc(data) == v <==> Xor(Register(ONES, Bits(data)), v) == ONES
  {
    hide Bits, Register, Complement, Xor;
    ComplementIsXor(Register(ONES, Bits(data)), v);
  }

  lemma ComplementIsXor(r: bv32, v: bv32)
    ensures Complement(r) == v <==> Xor(r, v) == ONES
  {
    ComplementRaw(r, v);
  }

  lemma ComplementRaw(r: bv32, v: bv32)
    ensures !r == v ==> r ^ v == 0xFFFF_FFFF
    ensures r ^ v == 0xFFFF_FFFF ==> !r == v
  {
  }

  lemma RegisterOfFourBytes(r: bv32, s: seq<byte>)
    requires |s| == 4
    ensures Register(r, Bits(s)) == ShiftBy(Xor(r, Get32(s)), 32)
  {
    hide Register, ShiftBy, LowBits, Above, Xor, Bits;
    var v := Get32(s);
    RegisterOfWord(r, v, 32);
    WordIsItsBytes(s);
    XorNothing(Register(r, LowBits(v, 32)));
  }

  lemma XorNothing(r: bv32)
    ensures Xor(r, 0) == r
  {
  }

  lemma WordIsItsBytes(s: seq<byte>)
    requires |s| == 4
    ensures LowBits(Get32(s), 32) == Bits(s) && Above(Get32(s), 32) == 0
  {
    hide LowBits, Above, Get32, ByteBits, Bits, Low, Up;
    var v := Get32(s);
    FourBytesOf(s);
    LowByteBits(v);
    LowByteBits(Up(v));
    LowByteBits(Up(Up(v)));
    LowByteBits(Up(Up(Up(v))));
    FourPieces(v, Up(v), Up(Up(v)), Up(Up(Up(v))), s);
  }

  /** The lowest byte of a word and what is left above it. */
  function Low(w: bv32): byte {
    (w & 0xFF) as byte
  }

  function Up(w: bv32): bv32 {
    w >> 8
  }

  lemma FourPieces(v0: bv32, v1: bv32, v2: bv32, v3: bv32, s: seq<byte>)
    requires |s| == 4
    requires Above(v0, 8) == v1 && Above(v1, 8) == v2 && Above(v2, 8) == v3 && Above(v3, 8) == 0
    requires LowBits(v0, 8) == ByteBits(s[0]) && LowBits(v1, 8) == ByteBits(s[1])
    requires LowBits(v2, 8) == ByteBits(s[2]) && LowBits(v3, 8) == ByteBits(s[3])
    ensures LowBits(v0, 32) == Bits(s) && Above(v0, 32) == 0
  {
    hide LowBits, Above, ByteBits, Bits;
    LowBitsSplit(v0, 8, 24);
    LowBitsSplit(v1, 8, 16);
    LowBitsSplit(v2, 8, 8);
    BitsOfFour(s);
  }

  lemma BitsOfFour(s: seq<byte>)
    requires |s| == 4
    ensures Bits(s) == ByteBits(s[0]) + (ByteBits(s[1]) + (ByteBits(s[2]) + ByteBits(s[3])))
  {
    hide ByteBits;
    assert s[1..][1..] == s[2..] && s[2..][1..] == s[3..] && s[3..][1..] == [];
    assert Bits(s[3..]) == ByteBits(s[3]);
    assert Bits(s[2..]) == ByteBits(s[2]) + ByteBits(s[3]);
    assert Bits(s[1..]) == ByteBits(s[1]) + Bits(s[2..]);
  }

  lemma FourBytesOf(s: seq<byte>)
    requires |s| == 4
    ensures var v := Get32(s);
      && Low(v) == s[0] && Low(Up(v)) == s[1] && Low(Up(Up(v))) == s[2] && Low(Up(Up(Up(v)))) == s[3]
      && Up(Up(Up(Up(v)))) == 0
  {
    FourRaw(s[0], s[1], s[2], s[3]);
  }

  lemma FourRaw(a: byte, b: byte, c: byte, d: byte)
    ensures var v := (a as bv32) | ((b as bv32) << 8) | ((c as bv32) << 16) | ((d as bv32) << 24);
      && (v & 0xFF) as byte == a && ((v >> 8) & 0xFF) as byte == b
      && ((v >> 8 >> 8) & 0xFF) as byte == c && ((v >> 8 >> 8 >> 8) & 0xFF) as byte == d
      && v >> 8 >> 8 >> 8 >> 8 == 0
  {
  }

  lemma {:induction false} LowBitsSplit(w: bv32, n: nat, m: nat)
    ensures LowBits(w, n + m) == LowBits(w, n) + LowBits(Above(w, n), m)
    ensures Above(w, n + m) == Above(Above(w, n), m)
    decreases n
  {
    if n == 0 {
    } else {
      hide LowBits, Above, Odd, Rest;
      LowBitsStep(w, n + m);
      LowBitsStep(w, n);
      LowBitsSplit(Rest(w), n - 1, m);
    }
  }

  lemma LowByteBits(w: bv32)
    ensures LowBits(w, 8) == ByteBits(Low(w)) && Above(w, 8) == Up(w)
  {
    EightRaw(w);
    hide LowBits;
    LowByteAgrees(w);
    LowBitsAgree(w, Low(w) as bv32, 8, 0xFF);
  }

  lemma EightRaw(w: bv32)
    ensures w >> 1 >> 1 >> 1 >> 1 >> 1 >> 1 >> 1 >> 1 == w >> 8
  {
  }

  lemma LowByteAgrees(w: bv32)
    ensures (w ^ ((w & 0xFF) as byte as bv32)) & 0xFF == 0
  {
  }

  /** Words that agree on the `n` ones of `m` have the same low bits. */
  lemma {:induction false} LowBitsAgree(v: bv32, w: bv32, n: nat, m: bv32)
    requires Ones(m, n) && (v ^ w) & m == 0
    ensures LowBits(v, n) == LowBits(w, n)
    decreases n
  {
    if n == 0 {
    } else {
      LowestAgrees(v, w, m);
      LowBitsAgree(v >> 1, w >> 1, n - 1, m >> 1);
    }
  }

  predicate Ones(m: bv32, n: nat)
    decreases n
  {
    n == 0 || (m & 1 == 1 && Ones(m >> 1, n - 1))
  }

  lemma LowestAgrees(v: bv32, w: bv32, m: bv32)
    requires (v ^ w) & m == 0 && m & 1 == 1
    ensures v & 1 == w & 1 && ((v >> 1) ^ (w >> 1)) & (m >> 1) == 0
  {
  }

  /** A sealed string hit by a burst of up to 32 bits, in its data, its checksum or across both,
      is never sealed again. */
  lemma SealBroken(s: seq<byte>, t: seq<byte>, from: nat, width: nat)
    requires Sealed(s) && |s| == |t| && s != t
    requires width <= 32 && DifferWithin(Bits(s), Bits(t), from, width)
    ensures !Sealed(t)
  {
    hide Bits, Register, ShiftBy;
    SealedIsResidue(s);
    SealedIsResidue(t);
    if Bits(s) == Bits(t) {
      BitsInjective(s, t);
    }
    BurstChangesRegister(ONES, Bits(s), Bits(t), from, width);
  }

  // ----- how far a burst reaches

  lemma BitsParts(s: seq<byte>, k: nat)
    requires k <= |s|
    ensures Bits(s[..k]) == Bits(s)[..8 * k] && Bits(s[k..]) == Bits(s)[8 * k..]
  {
    hide Bits;
    assert s[..k] + s[k..] == s;
    BitsAppend(s[..k], s[k..]);
    PartsOfJoined(Bits(s[..k]), Bits(s[k..]), 8 * k);
  }

  lemma PartsOfJoined(a: seq<bool>, b: seq<bool>, n: nat)
    requires |a| == n
    ensures (a + b)[..n] == a && (a + b)[n..] == b
  {
  }

  lemma BitsOfSlice(s: seq<byte>, i: nat, j: nat)
    requires i <= j <= |s|
    ensures Bits(s[i..j]) == Bits(s)[8 * i..8 * j]
  {
    hide Bits;
    BitsParts(s, j);
    BitsParts(s[..j], i);
    assert s[..j][i..] == s[i..j];
    PartOfPart(Bits(s), 8 * i, 8 * j);
  }

  lemma PartOfPart(u: seq<bool>, i: nat, j: nat)
    requires i <= j <= |u|
    ensures u[..j][i..] == u[i..j]
  {
  }

  lemma SameSlice(s: seq<byte>, t: seq<byte>, i: nat, j: nat)
    requires |s| == |t| && i <= j <= |s| && Bits(s)[8 * i..8 * j] == Bits(t)[8 * i..8 * j]
    ensures s[i..j] == t[i..j]
  {
    hide Bits;
    BitsOfSlice(s, i, j);
    BitsOfSlice(t, i, j);
    BitsInjective(s[i..j], t[i..j]);
  }

  lemma OutsideBurst(u: seq<bool>, v: seq<bool>, from: nat, width: nat, i: nat, j: nat)
    requires DifferWithin(u, v, from, width) && i <= j <= |u| && (j <= from || from + width <= i)
    ensures u[i..j] == v[i..j]
  {
  }

  lemma BytesOutsideBurst(s: seq<byte>, t: seq<byte>, from: nat, width: nat, a: nat, b: nat)
    requires |s| == |t| && DifferWithin(Bits(s), Bits(t), from, width) && a <= b <= |s|
    requires 8 * b <= from || from + width <= 8 * a
    ensures s[a..b] == t[a..b]
  {
    hide Bits, DifferWithin;
    OutsideBurst(Bits(s), Bits(t), from, width, 8 * a, 8 * b);
    SameSlice(s, t, a, b);
  }

  /** A burst of up to 32 bits that hits some bytes leaves everything four bytes away from them intact. */
  lemma BurstStaysNear(s: seq<byte>, t: seq<byte>, from: nat, width: nat, a: nat, b: nat)
    requires |s| == |t| && width <= 32 && DifferWithin(Bits(s), Bits(t), from, width)
    requires a <= b <= |s| && s[a..b] != t[a..b]
    ensures a >= 4 ==> s[..a - 4] == t[..a - 4]
    ensures b + 4 <= |s| ==> s[b + 4..] == t[b + 4..]
  {
    hide Bits, DifferWithin;
    if 8 * b <= from || from + width <= 8 * a {
      BytesOutsideBurst(s, t, from, width, a, b);
      assert false;
    }
    if a >= 4 {
      BytesOutsideBurst(s, t, from, width, 0, a - 4);
      assert s[0..a - 4] == s[..a - 4] && t[0..a - 4] == t[..a - 4];
    }
    if b + 4 <= |s| {
      BytesOutsideBurst(s, t, from, width, b + 4, |s|);
      assert s[b + 4..|s|] == s[b + 4..] && t[b + 4..|t|] == t[b + 4..];
    }
  }
}
