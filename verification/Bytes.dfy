// Bytes, their bits, and byte arrays read as big-endian bit strings.
module Bytes {
  import opened BitStrings

  type Byte = bv8

  // 1 << i
  function Power(i: nat): Byte
    requires i < 8
  {
    if i == 0 then 1 else if i == 1 then 2 else if i == 2 then 4 else if i == 3 then 8
    else if i == 4 then 16 else if i == 5 then 32 else if i == 6 then 64 else 128
  }

  predicate Has(b: Byte, p: Byte) {
    b & p != 0
  }

  function With(b: Byte, p: Byte, on: bool): Byte {
    if on then b | p else b & (p ^ 0xFF)
  }

  // (b >> i) & 1
  predicate Bit(b: Byte, i: nat)
    requires i < 8
  {
    Has(b, Power(i))
  }

  // b |= 1 << i, or b &= (1 << i) ^ 0xFF
  function WithBit(b: Byte, i: nat, on: bool): Byte
    requires i < 8
  {
    With(b, Power(i), on)
  }

  lemma PowersDisjoint(i: nat, k: nat)
    requires i < 8 && k < 8
    ensures Power(i) != 0
    ensures i != k ==> Power(i) & Power(k) == 0
  {
  }

  lemma MaskSame(b: Byte, p: Byte, on: bool)
    requires p != 0
    ensures Has(With(b, p, on), p) == on
  {
  }

  lemma MaskOther(b: Byte, p: Byte, q: Byte, on: bool)
    requires p & q == 0
    ensures Has(With(b, p, on), q) == Has(b, q)
  {
  }

  // Writing one bit sets it and leaves the other seven alone.
  lemma BitOfWithBit(b: Byte, i: nat, on: bool, k: nat)
    requires i < 8 && k < 8
    ensures Bit(WithBit(b, i, on), k) == if k == i then on else Bit(b, k)
  {
    hide Has, With;
    PowersDisjoint(i, k);
    if i == k {
      MaskSame(b, Power(i), on);
    } else {
      MaskOther(b, Power(i), Power(k), on);
    }
    hide Power;
  }

  lemma SameBits(a: Byte, b: Byte)
    requires forall i | 0 <= i < 8 :: Bit(a, i) == Bit(b, i)
    ensures a == b
  {
    assert Bit(a, 0) == Bit(b, 0) && Bit(a, 1) == Bit(b, 1);
    assert Bit(a, 2) == Bit(b, 2) && Bit(a, 3) == Bit(b, 3);
    assert Bit(a, 4) == Bit(b, 4) && Bit(a, 5) == Bit(b, 5);
    assert Bit(a, 6) == Bit(b, 6) && Bit(a, 7) == Bit(b, 7);
  }

  lemma BitOfZero(i: nat)
    requires i < 8
    ensures !Bit(0, i)
  {
  }

  // The bits of a byte, most significant first.
  function ByteBits(b: Byte): (s: Bits)
    ensures |s| == 8
    ensures forall i | 0 <= i < 8 :: s[i] == Bit(b, 7 - i)
  {
    seq(8, i requires 0 <= i < 8 => Bit(b, 7 - i))
  }

  function ByteOf(s: Bits): Byte
    requires |s| == 8
  {
    (if s[0] then 128 else 0) | (if s[1] then 64 else 0) | (if s[2] then 32 else 0) | (if s[3] then 16 else 0) |
    (if s[4] then 8 else 0) | (if s[5] then 4 else 0) | (if s[6] then 2 else 0) | (if s[7] then 1 else 0)
  }

  lemma ByteOfAt(s: Bits, i: nat)
    requires |s| == 8 && i < 8
    ensures Bit(ByteOf(s), 7 - i) == s[i]
  {
  }

  lemma ByteBitsByteOf(s: Bits)
    requires |s| == 8
    ensures ByteBits(ByteOf(s)) == s
  {
    hide ByteOf, Bit;
    forall i | 0 <= i < 8
      ensures ByteBits(ByteOf(s))[i] == s[i]
    {
      ByteOfAt(s, i);
    }
  }

  lemma ByteOfByteBits(b: Byte)
    ensures ByteOf(ByteBits(b)) == b
  {
    hide ByteOf, Bit;
    var c := ByteOf(ByteBits(b));
    forall i | 0 <= i < 8
      ensures Bit(c, i) == Bit(b, i)
    {
      ByteOfAt(ByteBits(b), 7 - i);
    }
    SameBits(c, b);
  }

  // The unsigned value of a byte, and the byte of a value below 256.
  function Value(b: Byte): nat {
    FromBits(ByteBits(b))
  }

  function Code(n: nat): Byte {
    ByteOf(ToBits(n, 8))
  }

  lemma ValueOfCode(n: nat)
    requires n < 256
    ensures Value(Code(n)) == n
  {
    hide ByteOf, Bit;
    ByteBitsByteOf(ToBits(n, 8));
    assert Pow2(8) == 256;
    FromBitsToBits(n, 8);
  }

  // Bit k of a buffer, counting from the most significant bit of its first byte.
  predicate BufferBit(buf: seq<Byte>, k: nat)
    requires k < 8 * |buf|
  {
    Bit(buf[k / 8], 7 - k % 8)
  }

  function BufferBits(buf: seq<Byte>): (s: Bits)
    ensures |s| == 8 * |buf|
    ensures forall k | 0 <= k < |s| :: s[k] == BufferBit(buf, k)
  {
    seq(8 * |buf|, k requires 0 <= k < 8 * |buf| => BufferBit(buf, k))
  }

  // The bytes packed from a bit string whose length is a multiple of eight.
  function BytesOf(s: Bits): (buf: seq<Byte>)
    requires |s| % 8 == 0
    ensures |buf| == |s| / 8
  {
    seq(|s| / 8, i requires 0 <= i < |s| / 8 => ByteOf(s[8 * i..8 * i + 8]))
  }

  lemma BufferBitsBytesOf(s: Bits)
    requires |s| % 8 == 0
    ensures BufferBits(BytesOf(s)) == s
  {
    hide ByteOf, Bit;
    var buf := BytesOf(s);
    forall k | 0 <= k < |s|
      ensures BufferBit(buf, k) == s[k]
    {
      var i := k / 8;
      ByteOfAt(s[8 * i..8 * i + 8], k % 8);
    }
  }

  lemma BufferByte(buf: seq<Byte>, i: nat)
    requires i < |buf|
    ensures BufferBits(buf)[8 * i..8 * i + 8] == ByteBits(buf[i])
  {
    hide Bit;
    forall j | 0 <= j < 8
      ensures BufferBits(buf)[8 * i + j] == ByteBits(buf[i])[j]
    {
      assert BufferBits(buf)[8 * i + j] == BufferBit(buf, 8 * i + j);
      assert (8 * i + j) / 8 == i && (8 * i + j) % 8 == j;
    }
  }

  lemma BytesOfBufferBits(buf: seq<Byte>)
    ensures BytesOf(BufferBits(buf)) == buf
  {
    hide ByteOf, Bit;
    var s := BufferBits(buf);
    forall i | 0 <= i < |buf|
      ensures BytesOf(s)[i] == buf[i]
    {
      BufferByte(buf, i);
      ByteOfByteBits(buf[i]);
    }
  }
}
