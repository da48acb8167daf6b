/**
 * Bytes and the JVM integer encodings used on the wire: DataOutputStream.writeInt /
 * writeLong and ByteBuffer.putInt / putLong all write two's complement big-endian,
 * and Long.toInt() keeps the low 32 bits.
 */
module Wire {

  type byte = b: int | 0 <= b < 256
  type Bytes = seq<byte>

  const TWO_31: int := 0x8000_0000
  const TWO_32: int := 0x1_0000_0000
  const TWO_63: int := 0x8000_0000_0000_0000
  const TWO_64: int := 0x1_0000_0000_0000_0000

  /** A Kotlin Int. */
  predicate IsInt32(x: int) { -TWO_31 <= x < TWO_31 }

  /** A Kotlin Long. */
  predicate IsInt64(x: int) { -TWO_63 <= x < TWO_63 }

  function Pow256(k: nat): (r: nat)
    ensures r >= 1
  {
    if k == 0 then 1 else 256 * Pow256(k - 1)
  }

  lemma Pow256Values()
    ensures Pow256(4) == TWO_32 && Pow256(8) == TWO_64
  {
  }

  /** n written as exactly `width` unsigned big-endian bytes. */
  function BigEndian(n: nat, width: nat): (r: Bytes)
    requires n < Pow256(width)
    ensures |r| == width
    decreases width
  {
    if width == 0 then [] else BigEndian(n / 256, width - 1) + [n % 256]
  }

  /** The unsigned value of a big-endian byte sequence. */
  function FromBigEndian(bs: Bytes): (n: nat)
    ensures n < Pow256(|bs|)
  {
    if bs == [] then 0 else FromBigEndian(bs[..|bs| - 1]) * 256 + bs[|bs| - 1]
  }

  lemma {:induction false} FromBigEndianOfBigEndian(n: nat, width: nat)
    requires n < Pow256(width)
    ensures FromBigEndian(BigEndian(n, width)) == n
    decreases width
  {
    if width > 0 {
      var r := BigEndian(n, width);
      assert r[..width - 1] == BigEndian(n / 256, width - 1);
      FromBigEndianOfBigEndian(n / 256, width - 1);
    }
  }

  lemma {:induction false} BigEndianOfFromBigEndian(bs: Bytes)
    ensures BigEndian(FromBigEndian(bs), |bs|) == bs
    decreases |bs|
  {
    if bs != [] {
      var k := |bs|;
      DivMod256(FromBigEndian(bs[..k - 1]), bs[k - 1]);
      BigEndianOfFromBigEndian(bs[..k - 1]);
      assert bs == bs[..k - 1] + [bs[k - 1]];
    }
  }

  lemma DivMod256(hi: nat, lo: byte)
    ensures (hi * 256 + lo) / 256 == hi && (hi * 256 + lo) % 256 == lo
  {
  }

  /** Half the range of `width` bytes: the bound of the signed values. */
  function Half(width: nat): int { Pow256(width) / 2 }

  /** Two's complement big-endian encoding of x in `width` bytes. */
  function SignedBytes(x: int, width: nat): (r: Bytes)
    requires width >= 1
    requires -Half(width) <= x < Half(width)
    ensures |r| == width
  {
    BigEndian(if x < 0 then x + Pow256(width) else x, width)
  }

  /** The signed value of a two's complement big-endian byte sequence. */
  function SignedOf(bs: Bytes): (x: int)
    requires |bs| >= 1
    ensures -Half(|bs|) <= x < Half(|bs|)
  {
    var u := FromBigEndian(bs);
    if u >= Half(|bs|) then u - Pow256(|bs|) else u
  }

  lemma Pow256Even(width: nat)
    requires width >= 1
    ensures Pow256(width) % 2 == 0
  {
  }

  lemma SignedRoundTrip(x: int, width: nat)
    requires width >= 1
    requires -Half(width) <= x < Half(width)
    ensures SignedOf(SignedBytes(x, width)) == x
  {
    Pow256Even(width);
    FromBigEndianOfBigEndian(if x < 0 then x + Pow256(width) else x, width);
  }

  lemma SignedInjective(bs: Bytes)
    requires |bs| >= 1
    ensures SignedBytes(SignedOf(bs), |bs|) == bs
  {
    Pow256Even(|bs|);
    BigEndianOfFromBigEndian(bs);
  }

  /** writeInt / ByteBuffer.putInt. */
  function Int32Bytes(x: int): (r: Bytes)
    requires IsInt32(x)
    ensures |r| == 4
  {
    Pow256Values();
    SignedBytes(x, 4)
  }

  /** readInt / ByteBuffer.getInt on four bytes. */
  function Int32Of(bs: Bytes): (x: int)
    requires |bs| == 4
    ensures IsInt32(x)
  {
    var u := FromBigEndian4(bs);
    if u >= TWO_31 then u - TWO_32 else u
  }

  /** readInt is the four-byte case of the general two's complement reading. */
  lemma Int32OfIsSigned(bs: Bytes)
    requires |bs| == 4
    ensures Int32Of(bs) == SignedOf(bs)
  {
    Pow256Values();
    FromBigEndian4Is(bs);
  }

  /** writeLong / ByteBuffer.putLong. */
  function Int64Bytes(x: int): (r: Bytes)
    requires IsInt64(x)
    ensures |r| == 8
  {
    Pow256Values();
    SignedBytes(x, 8)
  }

  /** readLong / ByteBuffer.getLong on eight bytes. */
  function Int64Of(bs: Bytes): (x: int)
    requires |bs| == 8
    ensures IsInt64(x)
  {
    var u := FromBigEndian4(bs[..4]) * TWO_32 + FromBigEndian4(bs[4..]);
    if u >= TWO_63 then u - TWO_64 else u
  }

  /** The unsigned value of four big-endian bytes. */
  function FromBigEndian4(bs: Bytes): (n: nat)
    requires |bs| == 4
    ensures n < TWO_32
  {
    ((bs[0] as int * 256 + bs[1] as int) * 256 + bs[2] as int) * 256 + bs[3] as int
  }

  /** Reading a big-endian number in two halves gives the same value. */
  lemma {:induction false} FromBigEndianSplit(hi: Bytes, lo: Bytes)
    ensures FromBigEndian(hi + lo) == FromBigEndian(hi) * Pow256(|lo|) + FromBigEndian(lo)
    decreases |lo|
  {
    if lo != [] {
      var k := |lo|;
      var a, b, c := FromBigEndian(hi), FromBigEndian(lo[..k - 1]), lo[k - 1];
      assert (hi + lo)[..|hi + lo| - 1] == hi + lo[..k - 1];
      FromBigEndianSplit(hi, lo[..k - 1]);
      calc {
        FromBigEndian(hi + lo);
        FromBigEndian(hi + lo[..k - 1]) * 256 + c;
        (a * Pow256(k - 1) + b) * 256 + c;
        { MulBy256(a, Pow256(k - 1)); }
        a * Pow256(k) + (b * 256 + c);
      }
    } else {
      assert hi + lo == hi;
    }
  }

  lemma MulBy256(a: int, p: int)
    ensures (a * p) * 256 == a * (256 * p)
  {
  }

  lemma FromBigEndian4Is(bs: Bytes)
    requires |bs| == 4
    ensures FromBigEndian4(bs) == FromBigEndian(bs)
  {
    assert bs[..3][..2] == bs[..2] && bs[..2][..1] == bs[..1] && bs[..1][..0] == [];
    assert FromBigEndian(bs[..1]) == bs[0];
    assert FromBigEndian(bs[..2]) == bs[0] as int * 256 + bs[1] as int;
    assert FromBigEndian(bs[..3]) == FromBigEndian(bs[..2]) * 256 + bs[2];
  }

  /** readLong is the eight-byte case of the general two's complement reading. */
  lemma Int64OfIsSigned(bs: Bytes)
    requires |bs| == 8
    ensures Int64Of(bs) == SignedOf(bs)
  {
    Pow256Values();
    assert bs == bs[..4] + bs[4..];
    FromBigEndianSplit(bs[..4], bs[4..]);
    FromBigEndian4Is(bs[..4]);
    FromBigEndian4Is(bs[4..]);
  }

  lemma Int32RoundTrip(x: int)
    requires IsInt32(x)
    ensures Int32Of(Int32Bytes(x)) == x
  {
    Pow256Values();
    Int32OfIsSigned(Int32Bytes(x));
    SignedRoundTrip(x, 4);
  }

  lemma Int64RoundTrip(x: int)
    requires IsInt64(x)
    ensures Int64Of(Int64Bytes(x)) == x
  {
    Pow256Values();
    Int64OfIsSigned(Int64Bytes(x));
    SignedRoundTrip(x, 8);
  }

  /** Kotlin's Long.toInt(): the low 32 bits, read as a signed Int. */
  function LongToInt(v: int): (r: int)
    ensures IsInt32(r)
    ensures IsInt32(v) ==> r == v
    ensures (r - v) % TWO_32 == 0
  {
    var low := v % TWO_32;
    if low >= TWO_31 then low - TWO_32 else low
  }

  function Zeros(n: nat): (r: Bytes)
    ensures |r| == n && forall i :: 0 <= i < n ==> r[i] == 0
  {
    seq(n, _ => 0)
  }

  /** The first min(n, |bs|) bytes of bs followed by zeros up to n: what a Kotlin
    * ByteArray(n) holds after bs was read into its front. */
  function Padded(bs: Bytes, n: nat): (r: Bytes)
    ensures |r| == n
    ensures forall i :: 0 <= i < n ==> r[i] == (if i < |bs| then bs[i] else 0)
  {
    if |bs| >= n then bs[..n] else bs + Zeros(n - |bs|)
  }
}
