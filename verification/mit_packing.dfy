/** The packed MIT target: position, velocity, torque and the two gains, quantised into 64 bits. */
module MitPacking {
  import opened Bytes

  datatype Range = Range(low: real, high: real) {
    predicate Proper() {
      low < high
    }

    function Span(): real {
      high - low
    }
  }

  datatype Ranges = Ranges(position: Range, velocity: Range, torque: Range, kp: Range, kd: Range) {
    predicate Proper() {
      position.Proper() && velocity.Proper() && torque.Proper() && kp.Proper() && kd.Proper()
    }
  }

  datatype Targets = Targets(position: real, velocity: real, torque: real, kp: real, kd: real)

  function Clamp(x: real, r: Range): real {
    if x < r.low then r.low else if r.high < x then r.high else x
  }

  // ----- quantisation

  /** The largest number a field of 12 or 16 bits holds. */
  function Scale(bits: nat): (s: nat)
    requires bits == 12 || bits == 16
    ensures s > 0
  {
    if bits == 12 then 0xFFF else 0xFFFF
  }

  function Ratio(c: real, s: real, span: real): real
    requires span != 0.0
  {
    c * s / span
  }

  function Quantise(x: real, r: Range, bits: nat): (q: int)
    requires r.Proper() && (bits == 12 || bits == 16)
  {
    Ratio(Clamp(x, r) - r.low, Scale(bits) as real, r.Span()).Floor
  }

  /** The value a quantised field stands for. */
  function Dequantise(q: int, r: Range, bits: nat): real
    requires bits == 12 || bits == 16
  {
    r.low + Ratio(q as real, r.Span(), Scale(bits) as real)
  }

  // products are kept apart from the sums they occur in

  function Times(a: real, b: real): real {
    a * b
  }

  lemma Increasing(a: real, b: real, c: real)
    requires c > 0.0
    ensures a <= b <==> Times(a, c) <= Times(b, c)
  {
    if a < b {
      assert a * c < b * c;
    } else if b < a {
      assert b * c < a * c;
    }
  }

  lemma Distributes(a: real, b: real, c: real)
    ensures Times(a + b, c) == Times(a, c) + Times(b, c)
  {
  }

  lemma Commutes(a: real, b: real)
    ensures Times(a, b) == Times(b, a)
  {
  }

  lemma RatioTimes(c: real, s: real, span: real)
    requires span > 0.0
    ensures Times(Ratio(c, s, span), span) == Times(c, s)
  {
  }

  lemma InSpan(x: real, r: Range)
    requires r.Proper()
    ensures 0.0 <= Clamp(x, r) - r.low <= r.Span()
  {
  }

  /** Every target in range or not fits its field. */
  lemma QuantiseFits(x: real, r: Range, bits: nat)
    requires r.Proper() && (bits == 12 || bits == 16)
    ensures 0 <= Quantise(x, r, bits) <= Scale(bits)
  {
    hide Clamp, Scale, Ratio, Times;
    InSpan(x, r);
    RatioFits(Clamp(x, r) - r.low, Scale(bits) as real, r.Span());
  }

  lemma RatioFits(c: real, s: real, span: real)
    requires 0.0 <= c <= span && span > 0.0 && s > 0.0
    ensures 0.0 <= Ratio(c, s, span) <= s
  {
    hide Ratio, Times;
    RatioTimes(c, s, span);
    Increasing(0.0, c, s);
    Increasing(c, span, s);
    assert Times(0.0, s) == Times(0.0, span) by { ZeroTimes(s); ZeroTimes(span); }
    Commutes(span, s);
    Increasing(0.0, Ratio(c, s, span), span);
    Increasing(Ratio(c, s, span), s, span);
  }

  lemma ZeroTimes(a: real)
    ensures Times(0.0, a) == 0.0
  {
  }

  lemma QuantiseMonotone(x: real, y: real, r: Range, bits: nat)
    requires r.Proper() && (bits == 12 || bits == 16) && x <= y
    ensures Quantise(x, r, bits) <= Quantise(y, r, bits)
  {
    hide Scale, Ratio;
    RatioMonotone(Clamp(x, r) - r.low, Clamp(y, r) - r.low, Scale(bits) as real, r.Span());
  }

  lemma RatioMonotone(a: real, b: real, s: real, span: real)
    requires a <= b && s > 0.0 && span > 0.0
    ensures Ratio(a, s, span) <= Ratio(b, s, span)
  {
    hide Ratio, Times;
    RatioTimes(a, s, span);
    RatioTimes(b, s, span);
    Increasing(a, b, s);
    Increasing(Ratio(a, s, span), Ratio(b, s, span), span);
  }

  /** Quantisation rounds down, by less than one step of the field. */
  lemma QuantisationError(x: real, r: Range, bits: nat)
    requires r.Proper() && (bits == 12 || bits == 16)
    ensures var back := Dequantise(Quantise(x, r, bits), r, bits);
      back <= Clamp(x, r) < back + r.Span() / Scale(bits) as real
  {
    hide Clamp, Scale, Ratio, Times;
    var c, s, span := Clamp(x, r) - r.low, Scale(bits) as real, r.Span();
    RatioTimes(c, s, span);
    StepBound(c, s, span, Ratio(c, s, span), Quantise(x, r, bits) as real);
    assert span / s == Ratio(1.0, span, s) by { OneTimes(span, s); }
  }

  lemma OneTimes(span: real, s: real)
    requires s > 0.0
    ensures Ratio(1.0, span, s) == span / s
  {
  }

  /** Between a quotient and its floor lies less than one step. */
  lemma StepBound(c: real, s: real, span: real, exact: real, q: real)
    requires s > 0.0 && span > 0.0 && Times(exact, span) == Times(c, s) && q <= exact < q + 1.0
    ensures Ratio(q, span, s) <= c < Ratio(q, span, s) + Ratio(1.0, span, s)
  {
    hide Ratio, Times;
    var low, step := Ratio(q, span, s), Ratio(1.0, span, s);
    RatioTimes(q, span, s);
    RatioTimes(1.0, span, s);
    Increasing(q, exact, span);
    Increasing(low, c, s);
    Increasing(q + 1.0, exact, span);
    Increasing(low + step, c, s);
    Distributes(q, 1.0, span);
    Distributes(low, step, s);
  }

  // ----- packing

  /** A 16-bit number in the low half of a word, and back. */
  function Word(n: u16): bv32 {
    ((ByteOf(n / 0x100) as bv32) << 8) | (ByteOf(n % 0x100) as bv32)
  }

  function Number(w: bv32): u16 {
    ((w & 0xFF) as byte) as int + 0x100 * (((w >> 8) & 0xFF) as byte) as int
  }

  lemma TwoBytes(lo: byte, hi: byte)
    ensures var w := ((hi as bv32) << 8) | (lo as bv32);
      (w & 0xFF) as byte == lo && ((w >> 8) & 0xFF) as byte == hi && w <= 0xFFFF && (hi < 16 ==> w <= 0xFFF)
  {
  }

  lemma SmallByte(b: byte)
    requires b as int < 16
    ensures b < 16
  {
  }

  lemma WordNumber(n: u16)
    ensures Number(Word(n)) == n && Word(n) <= 0xFFFF && (n <= 0xFFF ==> Word(n) <= 0xFFF)
  {
    hide ByteOf;
    TwoBytes(ByteOf(n % 0x100), ByteOf(n / 0x100));
    if n <= 0xFFF {
      SmallByte(ByteOf(n / 0x100));
    }
  }

  function Lower(torque: bv32, kd: bv32, kp: bv32): bv32 {
    torque | (kd << 12) | ((kp & 0xFF) << 24)
  }

  function Upper(kp: bv32, velocity: bv32, position: bv32): bv32 {
    (kp >> 8) | (velocity << 4) | (position << 16)
  }

  function KpOf(lower: bv32, upper: bv32): bv32 {
    (lower >> 24) | ((upper & 0xF) << 8)
  }

  /** No field of the lower word covers another, and likewise in the upper; the gain kp is split. */
  lemma FieldsApart(torque: bv32, kd: bv32, kp: bv32, velocity: bv32, position: bv32)
    requires torque <= 0xFFF && kd <= 0xFFF && kp <= 0xFFF && velocity <= 0xFFF && position <= 0xFFFF
    ensures var lower, upper := Lower(torque, kd, kp), Upper(kp, velocity, position);
      && lower & 0xFFF == torque && (lower >> 12) & 0xFFF == kd
      && (upper >> 4) & 0xFFF == velocity && upper >> 16 == position
      && KpOf(lower, upper) == kp
  {
  }

  /** The five quantised fields. */
  datatype Fields = Fields(position: u16, velocity: u16, torque: u16, kp: u16, kd: u16)

  function Quantised(t: Targets, r: Ranges): (f: Fields)
    requires r.Proper()
    ensures f.velocity <= 0xFFF && f.torque <= 0xFFF && f.kp <= 0xFFF && f.kd <= 0xFFF
  {
    QuantiseFits(t.position, r.position, 16);
    QuantiseFits(t.velocity, r.velocity, 12);
    QuantiseFits(t.torque, r.torque, 12);
    QuantiseFits(t.kp, r.kp, 12);
    QuantiseFits(t.kd, r.kd, 12);
    Fields(Quantise(t.position, r.position, 16), Quantise(t.velocity, r.velocity, 12),
           Quantise(t.torque, r.torque, 12), Quantise(t.kp, r.kp, 12), Quantise(t.kd, r.kd, 12))
  }

  function Packed(f: Fields): (s: seq<byte>)
    ensures |s| == 8
  {
    Put32(Lower(Word(f.torque), Word(f.kd), Word(f.kp))) + Put32(Upper(Word(f.kp), Word(f.velocity), Word(f.position)))
  }

  function Pack(t: Targets, r: Ranges): (s: seq<byte>)
    requires r.Proper()
    ensures |s| == 8
  {
    Packed(Quantised(t, r))
  }

  /** What a motor makes of the eight bytes. */
  function Unpack(s: seq<byte>): Fields
    requires |s| == 8
  {
    var lower, upper := Get32(s[..4]), Get32(s[4..]);
    Fields(Number(upper >> 16), Number((upper >> 4) & 0xFFF), Number(lower & 0xFFF),
           Number(KpOf(lower, upper)), Number((lower >> 12) & 0xFFF))
  }

  lemma UnpackPacked(f: Fields)
    requires f.velocity <= 0xFFF && f.torque <= 0xFFF && f.kp <= 0xFFF && f.kd <= 0xFFF
    ensures Unpack(Packed(f)) == f
  {
    hide Word, Number, Lower, Upper, KpOf, Put32, Get32;
    var lower, upper := Lower(Word(f.torque), Word(f.kd), Word(f.kp)),
        Upper(Word(f.kp), Word(f.velocity), Word(f.position));
    assert Packed(f)[..4] == Put32(lower) && Packed(f)[4..] == Put32(upper);
    WordNumber(f.torque);
    WordNumber(f.kd);
    WordNumber(f.kp);
    WordNumber(f.velocity);
    WordNumber(f.position);
    FieldsApart(Word(f.torque), Word(f.kd), Word(f.kp), Word(f.velocity), Word(f.position));
  }

  /** Packing loses nothing but the rounding: the motor recovers all five fields, for all targets. */
  lemma MitRoundTrip(t: Targets, r: Ranges)
    requires r.Proper()
    ensures Unpack(Pack(t, r)) == Quantised(t, r)
  {
    hide Unpack, Packed;
    UnpackPacked(Quantised(t, r));
  }

  /** What the motor reads back lies below the clamped target by less than one step, in all fields. */
  lemma MitAccuracy(t: Targets, r: Ranges)
    requires r.Proper()
    ensures var f := Unpack(Pack(t, r));
      && Dequantise(f.position, r.position, 16) <= Clamp(t.position, r.position)
      && Clamp(t.position, r.position) < Dequantise(f.position, r.position, 16) + r.position.Span() / 65535.0
      && Dequantise(f.velocity, r.velocity, 12) <= Clamp(t.velocity, r.velocity)
      && Clamp(t.velocity, r.velocity) < Dequantise(f.velocity, r.velocity, 12) + r.velocity.Span() / 4095.0
      && Dequantise(f.torque, r.torque, 12) <= Clamp(t.torque, r.torque)
      && Clamp(t.torque, r.torque) < Dequantise(f.torque, r.torque, 12) + r.torque.Span() / 4095.0
      && Dequantise(f.kp, r.kp, 12) <= Clamp(t.kp, r.kp)
      && Clamp(t.kp, r.kp) < Dequantise(f.kp, r.kp, 12) + r.kp.Span() / 4095.0
      && Dequantise(f.kd, r.kd, 12) <= Clamp(t.kd, r.kd)
      && Clamp(t.kd, r.kd) < Dequantise(f.kd, r.kd, 12) + r.kd.Span() / 4095.0
  {
    hide Unpack, Pack, Quantise, Dequantise, Clamp;
    MitRoundTrip(t, r);
    QuantisationError(t.position, r.position, 16);
    QuantisationError(t.velocity, r.velocity, 12);
    QuantisationError(t.torque, r.torque, 12);
    QuantisationError(t.kp, r.kp, 12);
    QuantisationError(t.kd, r.kd, 12);
  }
}
