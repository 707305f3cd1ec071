/** Little-endian words over bytes, as every wire format of the repository lays them out. */
module Bytes {
  type byte = bv8

  /** Sizes and identifiers travel in 8-, 16- and 32-bit fields but are compared and added as integers. */
  type u8 = n: int | 0 <= n < 0x100
  type u16 = n: int | 0 <= n < 0x1_0000
  type u32 = n: int | 0 <= n < 0x1_0000_0000

  /** The byte of a given value; counting up keeps the proof away from the conversion of integers. */
  function ByteOf(n: u8): (b: byte)
    ensures b as int == n
  {
    if n == 0 then 0 else NextByte(ByteOf(n - 1)); ByteOf(n - 1) + 1
  }

  lemma NextByte(b: byte)
    requires b as int < 255
    ensures (b + 1) as int == b as int + 1
  {
  }

  lemma SameByte(a: byte, b: byte)
    requires a as int == b as int
    ensures a == b
  {
  }

  function PutSize(n: u16): (s: seq<byte>)
    ensures |s| == 2 && GetSize(s) == n
  {
    hide ByteOf;
    [ByteOf(n % 0x100), ByteOf(n / 0x100)]
  }

  function GetSize(s: seq<byte>): u16
    requires |s| >= 2
  {
    (s[0] as int) + 0x100 * (s[1] as int)
  }

  lemma PutGetSize(s: seq<byte>)
    requires |s| == 2
    ensures PutSize(GetSize(s)) == s
  {
    hide ByteOf;
    var n := GetSize(s);
    assert n % 0x100 == s[0] as int && n / 0x100 == s[1] as int;
    SameByte(ByteOf(n % 0x100), s[0]);
    SameByte(ByteOf(n / 0x100), s[1]);
  }

  /** A 32-bit field, as the number it stands for. */
  function GetSize32(s: seq<byte>): u32
    requires |s| >= 4
  {
    GetSize(s[0..2]) + 0x1_0000 * GetSize(s[2..4])
  }

  function PutSize32(n: u32): (s: seq<byte>)
    ensures |s| == 4 && GetSize32(s) == n
  {
    var lo, hi := PutSize(n % 0x1_0000), PutSize(n / 0x1_0000);
    assert (lo + hi)[0..2] == lo && (lo + hi)[2..4] == hi;
    lo + hi
  }

  lemma PutGetSize32(s: seq<byte>)
    requires |s| == 4
    ensures PutSize32(GetSize32(s)) == s
  {
    hide PutSize, GetSize;
    var n := GetSize32(s);
    assert n % 0x1_0000 == GetSize(s[0..2]) && n / 0x1_0000 == GetSize(s[2..4]);
    PutGetSize(s[0..2]);
    PutGetSize(s[2..4]);
    assert s[0..2] + s[2..4] == s;
  }

  // ----- what the layouts mean

  /** The number that bytes stand for, least significant first. */
  function Number(s: seq<byte>): nat {
    if s == [] then 0 else s[0] as int + 0x100 * Number(s[1..])
  }

  /** The number that bytes stand for, most significant first. */
  function BigNumber(s: seq<byte>): nat {
    if s == [] then 0 else 0x100 * BigNumber(s[..|s| - 1]) + s[|s| - 1] as int
  }

  lemma NumberOfBack(s: seq<byte>, b: byte)
    ensures BigNumber(s + [b]) == 0x100 * BigNumber(s) + b as int
  {
    assert (s + [b])[..|s|] == s;
  }

  lemma SizeIsNumber(s: seq<byte>)
    ensures |s| == 2 ==> GetSize(s) == Number(s)
    ensures |s| == 4 ==> GetSize32(s) == Number(s)
  {
    if |s| == 4 {
      assert s[1..][1..] == s[2..] && s[2..][1..] == s[3..] && s[3..][1..] == [];
      assert s[0..2][1] == s[1] && s[2..4][0] == s[2] && s[2..4][1] == s[3];
    } else if |s| == 2 {
      assert s[1..][1..] == [] && Number(s[1..]) == s[1] as int;
    }
  }

  /** All words are laid out in the same order. */
  lemma LeastFirst()
    ensures PutSize(0x0201) == Put16(0x0201) == [1, 2]
    ensures PutSize32(0x0403_0201) == Put32(0x0403_0201) == [1, 2, 3, 4]
    ensures Put64(0x0807_0605_0403_0201) == [1, 2, 3, 4, 5, 6, 7, 8]
  {
    PutGetSize([1, 2]);
    PutGetSize32([1, 2, 3, 4]);
    assert [1 as byte, 2, 3, 4][0..2] == [1, 2] && [1 as byte, 2, 3, 4][2..4] == [3, 4];
  }

  function Zeros(n: nat): (s: seq<byte>)
    ensures |s| == n
    ensures forall i :: 0 <= i < n ==> s[i] == 0
  {
    seq(n, i => 0 as byte)
  }

  function Put16(v: bv16): (s: seq<byte>)
    ensures |s| == 2 && Get16(s) == v
  {
    [(v & 0xFF) as byte, (v >> 8) as byte]
  }

  function Get16(s: seq<byte>): bv16
    requires |s| >= 2
  {
    (s[0] as bv16) | ((s[1] as bv16) << 8)
  }

  function Put32(v: bv32): (s: seq<byte>)
    ensures |s| == 4 && Get32(s) == v
  {
    [(v & 0xFF) as byte, ((v >> 8) & 0xFF) as byte, ((v >> 16) & 0xFF) as byte, (v >> 24) as byte]
  }

  function Get32(s: seq<byte>): bv32
    requires |s| >= 4
  {
    (s[0] as bv32) | ((s[1] as bv32) << 8) | ((s[2] as bv32) << 16) | ((s[3] as bv32) << 24)
  }

  function Put64(v: bv64): (s: seq<byte>)
    ensures |s| == 8 && Get64(s) == v
  {
    Put32((v & 0xFFFF_FFFF) as bv32) + Put32((v >> 32) as bv32)
  }

  function Get64(s: seq<byte>): bv64
    requires |s| >= 8
  {
    (Get32(s[..4]) as bv64) | ((Get32(s[4..8]) as bv64) << 32)
  }

  /** Reading a word and writing it back gives the same bytes: the other half of the round trip. */
  lemma PutGet16(s: seq<byte>)
    requires |s| == 2
    ensures Put16(Get16(s)) == s
  {
  }

  lemma PutGet32(s: seq<byte>)
    requires |s| == 4
    ensures Put32(Get32(s)) == s
  {
  }

  lemma PutGet64(s: seq<byte>)
    requires |s| == 8
    ensures Put64(Get64(s)) == s
  {
    hide Get32, Put32;
    PutGet32(s[..4]);
    PutGet32(s[4..8]);
    Halves(Get32(s[..4]), Get32(s[4..8]));
  }

  lemma Halves(lo: bv32, hi: bv32)
    ensures (((lo as bv64) | ((hi as bv64) << 32)) & 0xFFFF_FFFF) as bv32 == lo
    ensures (((lo as bv64) | ((hi as bv64) << 32)) >> 32) as bv32 == hi
  {
  }
}
