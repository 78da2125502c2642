// The 12-byte big-endian packet header of the latency connection.
module Header {

  type Byte = b: int | 0 <= b < 256

  // One packet's header: the time its data may be read (nanoseconds) and the number of bytes.
  datatype PacketHeader = PacketHeader(readTime: int, sz: int)

  const TWO31 := 0x8000_0000
  const TWO32 := 0x1_0000_0000
  const TWO63 := 0x8000_0000_0000_0000
  const TWO64 := 0x1_0000_0000_0000_0000

  const LENGTH := 12

  function BigEndian(n: nat, k: nat): (bs: seq<Byte>)
    ensures |bs| == k
  {
    if k == 0 then [] else BigEndian(n / 256, k - 1) + [n % 256]
  }

  function FromBigEndian(bs: seq<Byte>): nat {
    if bs == [] then 0 else FromBigEndian(bs[..|bs| - 1]) * 256 + bs[|bs| - 1]
  }

  function Power256(k: nat): nat {
    if k == 0 then 1 else 256 * Power256(k - 1)
  }

  // k bytes carry every number below 256^k.
  lemma {:induction false} BigEndianRoundTrip(n: nat, k: nat)
    requires n < Power256(k)
    ensures FromBigEndian(BigEndian(n, k)) == n
  {
    if k > 0 {
      BigEndianRoundTrip(n / 256, k - 1);
      var bs := BigEndian(n, k);
      assert bs[..k - 1] == BigEndian(n / 256, k - 1);
    }
  }

  // The first byte is the most significant one.
  lemma {:induction false} MostSignificantFirst(n: nat, k: nat)
    requires 0 < k && n < Power256(k)
    ensures var first := BigEndian(n, k)[0]; first * Power256(k - 1) <= n < (first + 1) * Power256(k - 1)
  {
    if k > 1 {
      MostSignificantFirst(n / 256, k - 1);
      var first, p := BigEndian(n, k)[0], Power256(k - 2);
      assert first == BigEndian(n / 256, k - 1)[0];
      Scale(n, first, p);
    }
  }

  lemma Scale(n: nat, d: nat, p: nat)
    requires d * p <= n / 256 < (d + 1) * p
    ensures d * (256 * p) <= n < (d + 1) * (256 * p)
  {
    assert d * (256 * p) == 256 * (d * p) && (d + 1) * (256 * p) == 256 * ((d + 1) * p);
  }

  // Two's complement.
  function Unsigned(x: int, modulus: nat): nat
    requires modulus > 0
  {
    x % modulus
  }

  function Signed(u: nat, modulus: nat): int {
    if 2 * u < modulus then u else u - modulus
  }

  function Encode(h: PacketHeader): (bs: seq<Byte>)
    ensures |bs| == LENGTH
  {
    BigEndian(Unsigned(h.readTime, TWO64), 8) + BigEndian(Unsigned(h.sz, TWO32), 4)
  }

  function Decode(bs: seq<Byte>): PacketHeader
    requires |bs| == LENGTH
  {
    PacketHeader(Signed(FromBigEndian(bs[..8]), TWO64), Signed(FromBigEndian(bs[8..]), TWO32))
  }

  predicate Fits(h: PacketHeader) {
    -TWO63 <= h.readTime < TWO63 && -TWO31 <= h.sz < TWO31
  }

  // The first eight bytes carry the read time, the last four the size.
  lemma Layout(h: PacketHeader)
    ensures FromBigEndian(Encode(h)[..8]) == Unsigned(h.readTime, TWO64)
    ensures FromBigEndian(Encode(h)[8..]) == Unsigned(h.sz, TWO32)
  {
    var t, z := Unsigned(h.readTime, TWO64), Unsigned(h.sz, TWO32);
    var bs := Encode(h);
    assert bs[..8] == BigEndian(t, 8) && bs[8..] == BigEndian(z, 4);
    Powers();
    BigEndianRoundTrip(t, 8);
    BigEndianRoundTrip(z, 4);
  }

  // What the reader sees: both fields reduced to 64 and 32 bits.
  lemma DecodeEncode(h: PacketHeader)
    ensures Decode(Encode(h)) ==
            PacketHeader(Signed(Unsigned(h.readTime, TWO64), TWO64), Signed(Unsigned(h.sz, TWO32), TWO32))
  {
    Layout(h);
  }

  lemma Powers()
    ensures Power256(4) == TWO32 && Power256(8) == TWO64
  {
  }

  // A header survives the wire exactly when its fields fit their integer types.
  lemma RoundTripIff(h: PacketHeader)
    ensures Decode(Encode(h)) == h <==> Fits(h)
  {
    DecodeEncode(h);
    SignedUnsignedIff(h.readTime, TWO64);
    SignedUnsignedIff(h.sz, TWO32);
  }

  lemma SignedUnsignedIff(x: int, modulus: nat)
    requires modulus == TWO64 || modulus == TWO32
    ensures Signed(Unsigned(x, modulus), modulus) == x <==> -(modulus / 2) <= x < modulus / 2
  {
  }
}
