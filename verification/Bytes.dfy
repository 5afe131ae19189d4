/** Bytes, machine integers and their big-endian encodings. */
module Bytes {

  type byte = b: int | 0 <= b < 256
  type bytes = seq<byte>
  type i64 = x: int | -0x8000_0000_0000_0000 <= x <= 0x7FFF_FFFF_FFFF_FFFF
  type u64 = x: int | 0 <= x < TWO_64
  type u16 = x: int | 0 <= x < 0x1_0000

  const TWO_63 := 0x8000_0000_0000_0000
  const TWO_64 := 0x1_0000_0000_0000_0000
  const TWO_32 := 0x1_0000_0000

  /** `x + 1` and `x - 1` with the wrap-around of a 64-bit machine integer. */
  function Succ(x: i64): i64 {
    if x == 0x7FFF_FFFF_FFFF_FFFF then -0x8000_0000_0000_0000 else x + 1
  }

  function Pred(x: i64): i64 {
    if x == -0x8000_0000_0000_0000 then 0x7FFF_FFFF_FFFF_FFFF else x - 1
  }

  function Pow256(width: nat): (p: nat)
    ensures p > 0
  {
    if width == 0 then 1 else 256 * Pow256(width - 1)
  }

  function BigEndian(width: nat, v: nat): (s: bytes)
    ensures |s| == width
  {
    if width == 0 then [] else BigEndian(width - 1, v / 256) + [v % 256]
  }

  function FromBigEndian(s: bytes): (v: nat)
    ensures v < Pow256(|s|)
  {
    if s == [] then 0 else 256 * FromBigEndian(s[..|s| - 1]) + s[|s| - 1]
  }

  lemma {:induction false} BigEndianRoundTrip(width: nat, v: nat)
    requires v < Pow256(width)
    ensures FromBigEndian(BigEndian(width, v)) == v
  {
    if width > 0 {
      BigEndianRoundTrip(width - 1, v / 256);
    }
  }

  lemma {:induction false} BigEndianInverse(s: bytes)
    ensures BigEndian(|s|, FromBigEndian(s)) == s
  {
    if s != [] {
      var n := |s| - 1;
      BigEndianInverse(s[..n]);
      assert FromBigEndian(s) / 256 == FromBigEndian(s[..n]);
    }
  }

  /** The first byte is the most significant one. */
  lemma {:induction false} MostSignificantFirst(b: byte, s: bytes)
    ensures FromBigEndian([b] + s) == b * Pow256(|s|) + FromBigEndian(s)
  {
    if s == [] {
      assert [b] + s == [b] && [b][..0] == [];
    } else {
      var n := |s| - 1;
      assert Pow256(n + 1) == 256 * Pow256(n);
      var low, high := FromBigEndian(s[..n]), Pow256(n);
      MostSignificantFirst(b, s[..n]);
      assert ([b] + s)[..n + 1] == [b] + s[..n];
      hide Pow256;
      calc {
        FromBigEndian([b] + s);
        256 * (b * high + low) + s[n];
        b * (256 * high) + (256 * low + s[n]);
      }
    }
  }

  function Word(a: nat, b: nat, c: nat, d: nat): nat { ((a * 256 + b) * 256 + c) * 256 + d }

  lemma {:induction false} FourBytes(s: bytes)
    requires |s| == 4
    ensures FromBigEndian(s) == Word(s[0], s[1], s[2], s[3])
  {
    assert s[..3][..2] == s[..2] && s[..2][..1] == s[..1] && s[..1][..0] == [];
    assert FromBigEndian(s[..1]) == s[0];
    assert FromBigEndian(s[..2]) == 256 * FromBigEndian(s[..1]) + s[1];
    assert FromBigEndian(s[..3]) == 256 * FromBigEndian(s[..2]) + s[2];
  }

  lemma {:induction false} Widths()
    ensures Pow256(2) == 0x1_0000
    ensures Pow256(4) == TWO_32
    ensures Pow256(8) == TWO_64
  {
    assert Pow256(1) == 256 * Pow256(0);
    assert Pow256(2) == 256 * Pow256(1);
    assert Pow256(3) == 256 * Pow256(2);
    assert Pow256(4) == 256 * Pow256(3);
    assert Pow256(5) == 256 * Pow256(4);
    assert Pow256(6) == 256 * Pow256(5);
    assert Pow256(7) == 256 * Pow256(6);
    assert Pow256(8) == 256 * Pow256(7);
  }

  /** `i64::to_be_bytes`: two's complement, most significant byte first. */
  function I64ToBytes(x: i64): (s: bytes)
    ensures |s| == 8
  {
    BigEndian(8, if x < 0 then x + TWO_64 else x)
  }

  /** `i64::from_be_bytes`. */
  function I64FromBytes(s: bytes): (x: i64)
    requires |s| == 8
  {
    Widths();
    var v := FromBigEndian(s);
    if v < TWO_63 then v else v - TWO_64
  }

  /** The signed encoding loses nothing in either direction. */
  lemma {:induction false} I64RoundTrip(x: i64)
    ensures I64FromBytes(I64ToBytes(x)) == x
  {
    Widths();
    BigEndianRoundTrip(8, if x < 0 then x + TWO_64 else x);
  }

  lemma {:induction false} I64Inverse(s: bytes)
    requires |s| == 8
    ensures I64ToBytes(I64FromBytes(s)) == s
  {
    Widths();
    BigEndianInverse(s);
  }
}
