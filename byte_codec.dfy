/** Fixed-width byte encodings of big integers, as used by the transcript:
    big-endian encoding of field elements (`ToBigInt().ToBytesBE()`) and
    little-endian decoding of a digest (`BigInt<4>::FromBytesLE`). */
module ByteCodec {

  /** An octet, `uint8_t`. */
  newtype Byte = x: int | 0 <= x < 256

  function Pow256(n: nat): (r: nat)
    ensures r >= 1
  {
    if n == 0 then 1 else 256 * Pow256(n - 1)
  }

  /** The `width`-byte big-endian encoding of `v` (most significant byte first). */
  function ToBytesBE(v: nat, width: nat): (r: seq<Byte>)
    ensures |r| == width
  {
    if width == 0 then [] else ToBytesBE(v / 256, width - 1) + [(v % 256) as Byte]
  }

  /** The value of a big-endian byte string. */
  function FromBytesBE(bs: seq<Byte>): nat {
    if bs == [] then 0 else FromBytesBE(bs[..|bs| - 1]) * 256 + bs[|bs| - 1] as nat
  }

  /** The value of a little-endian byte string (least significant byte first). */
  function FromBytesLE(bs: seq<Byte>): nat {
    if bs == [] then 0 else bs[0] as nat + 256 * FromBytesLE(bs[1..])
  }

  /** Decoding a big-endian encoding gives back every value that fits the width. */
  lemma {:induction false} BigEndianRoundTrip(v: nat, width: nat)
    requires v < Pow256(width)
    ensures FromBytesBE(ToBytesBE(v, width)) == v
  {
    if width > 0 {
      var bs := ToBytesBE(v, width);
      var q, m := v / 256, v % 256;
      assert v == q * 256 + m;
      assert q < Pow256(width - 1);
      assert bs[..|bs| - 1] == ToBytesBE(q, width - 1);
      assert bs[|bs| - 1] as nat == m;
      BigEndianRoundTrip(q, width - 1);
    }
  }

  /** Distinct values that fit the width have distinct encodings. */
  lemma BigEndianInjective(a: nat, b: nat, width: nat)
    requires a < Pow256(width) && b < Pow256(width)
    requires ToBytesBE(a, width) == ToBytesBE(b, width)
    ensures a == b
  {
    BigEndianRoundTrip(a, width);
    BigEndianRoundTrip(b, width);
  }

  /** An n-byte string encodes a value below 256^n, whatever the byte order. */
  lemma {:induction false} FromBytesBEBound(bs: seq<Byte>)
    ensures FromBytesBE(bs) < Pow256(|bs|)
  {
    if bs != [] {
      FromBytesBEBound(bs[..|bs| - 1]);
    }
  }

  lemma {:induction false} FromBytesLEBound(bs: seq<Byte>)
    ensures FromBytesLE(bs) < Pow256(|bs|)
  {
    if bs != [] {
      FromBytesLEBound(bs[1..]);
    }
  }

  /** Re-encoding a big-endian string gives the same bytes back. */
  lemma {:induction false} BigEndianReencode(bs: seq<Byte>)
    ensures ToBytesBE(FromBytesBE(bs), |bs|) == bs
  {
    if bs != [] {
      var init := bs[..|bs| - 1];
      var v := FromBytesBE(bs);
      assert v / 256 == FromBytesBE(init);
      assert v % 256 == bs[|bs| - 1] as nat;
      BigEndianReencode(init);
    }
  }
}
