/** Bytes and fixed-width big-endian two's-complement integers, the representation
    java.nio.ByteBuffer uses for getShort/getInt/getLong and their put counterparts. */
module BigEndian {

  type Byte = b: int | 0 <= b < 256

  /** 256 to the power n: the number of distinct n-byte values. */
  function Pow256(n: nat): (p: nat)
    ensures p >= 1
  {
    if n == 0 then 1 else 256 * Pow256(n - 1)
  }

  /** Half of Pow256(n): the smallest value that no longer fits an n-byte signed integer. */
  function Half(n: nat): (h: nat)
    requires n >= 1
    ensures 2 * h == Pow256(n)
  {
    128 * Pow256(n - 1)
  }

  /** `x` fits an n-byte two's-complement integer. */
  predicate InSignedRange(x: int, n: nat)
    requires n >= 1
  {
    -(Half(n) as int) <= x < Half(n)
  }

  /** The n-byte big-endian encoding of an unsigned value that fits n bytes. */
  function ToBigEndian(v: nat, n: nat): (bs: seq<Byte>)
    requires v < Pow256(n)
    ensures |bs| == n
  {
    if n == 0 then []
    else
      assert v / 256 < Pow256(n - 1) by { DivBound(v, Pow256(n - 1)); }
      ToBigEndian(v / 256, n - 1) + [v % 256]
  }

  /** The unsigned value of a big-endian byte string. */
  function FromBigEndian(bs: seq<Byte>): (v: nat)
    ensures v < Pow256(|bs|)
  {
    if |bs| == 0 then 0
    else
      var hi := FromBigEndian(bs[..|bs| - 1]);
      assert hi * 256 + bs[|bs| - 1] < Pow256(|bs|) by { MulBound(hi, Pow256(|bs| - 1), bs[|bs| - 1]); }
      hi * 256 + bs[|bs| - 1]
  }

  lemma DivBound(v: nat, p: nat)
    requires v < 256 * p
    ensures v / 256 < p
  {
  }

  lemma MulBound(hi: nat, p: nat, lo: nat)
    requires hi < p && lo < 256
    ensures hi * 256 + lo < 256 * p
  {
    assert hi * 256 <= (p - 1) * 256;
  }

  /** Decoding the encoding of a value gives the value back. */
  lemma {:induction false} FromToBigEndian(v: nat, n: nat)
    requires v < Pow256(n)
    ensures FromBigEndian(ToBigEndian(v, n)) == v
  {
    if n > 0 {
      var bs := ToBigEndian(v, n);
      assert v / 256 < Pow256(n - 1) by { DivBound(v, Pow256(n - 1)); }
      assert bs[..n - 1] == ToBigEndian(v / 256, n - 1);
      FromToBigEndian(v / 256, n - 1);
    }
  }

  /** Encoding the value of a byte string gives the byte string back. */
  lemma {:induction false} ToFromBigEndian(bs: seq<Byte>)
    ensures ToBigEndian(FromBigEndian(bs), |bs|) == bs
  {
    if |bs| > 0 {
      var n := |bs|;
      var hi := FromBigEndian(bs[..n - 1]);
      var v := FromBigEndian(bs);
      assert v == hi * 256 + bs[n - 1];
      assert v / 256 == hi && v % 256 == bs[n - 1];
      ToFromBigEndian(bs[..n - 1]);
      assert bs == bs[..n - 1] + [bs[n - 1]];
    }
  }

  /** The n-byte pattern of an in-range signed value, read as unsigned. */
  function TwosComplement(x: int, n: nat): (u: nat)
    requires n >= 1 && InSignedRange(x, n)
    ensures u < Pow256(n)
  {
    if x < 0 then x + Pow256(n) else x
  }

  /** The n-byte pattern `u` read as two's complement. */
  function ToSigned(u: nat, n: nat): (x: int)
    requires n >= 1 && u < Pow256(n)
    ensures InSignedRange(x, n)
    ensures TwosComplement(x, n) == u
  {
    if u < Half(n) then u else u - Pow256(n)
  }

  /** Reading back the pattern of an in-range value gives that value. */
  lemma SignedOfTwosComplement(x: int, n: nat)
    requires n >= 1 && InSignedRange(x, n)
    ensures ToSigned(TwosComplement(x, n), n) == x
  {
  }

  /** The n-byte big-endian two's-complement encoding, as written by ByteBuffer.put{Short,Int,Long}. */
  function EncodeInt(x: int, n: nat): (bs: seq<Byte>)
    requires n >= 1 && InSignedRange(x, n)
    ensures |bs| == n
  {
    ToBigEndian(TwosComplement(x, n), n)
  }

  /** The signed value of a big-endian byte string, as read by ByteBuffer.get{Short,Int,Long}. */
  function DecodeInt(bs: seq<Byte>): (x: int)
    requires |bs| >= 1
    ensures InSignedRange(x, |bs|)
  {
    ToSigned(FromBigEndian(bs), |bs|)
  }

  /** Integer round trip: an in-range value survives encode then decode. */
  lemma DecodeEncodeInt(x: int, n: nat)
    requires n >= 1 && InSignedRange(x, n)
    ensures DecodeInt(EncodeInt(x, n)) == x
  {
    FromToBigEndian(TwosComplement(x, n), n);
  }

  /** Byte round trip: any n bytes survive decode then encode. */
  lemma EncodeDecodeInt(bs: seq<Byte>)
    requires |bs| >= 1
    ensures EncodeInt(DecodeInt(bs), |bs|) == bs
  {
    ToFromBigEndian(bs);
  }

  lemma Pow256Values()
    ensures Pow256(1) == 0x100 && Pow256(2) == 0x1_0000
    ensures Pow256(4) == 0x1_0000_0000 && Pow256(8) == 0x1_0000_0000_0000_0000
  {
  }
}
