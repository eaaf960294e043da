// Appending bit fields to a byte buffer.
module BitBuffer {
  import opened BitStrings
  import opened Bytes

  // The first n bytes of the buffer hold exactly these bits, followed by zeros.
  ghost predicate Holds(buffer: seq<Byte>, n: nat, bits: Bits)
  {
    n <= |buffer| && |bits| <= 8 * n &&
    forall k | 0 <= k < 8 * n :: BufferBit(buffer, k) == (k < |bits| && bits[k])
  }

  lemma HoldsBytes(buffer: seq<Byte>, n: nat, bits: Bits)
    requires Holds(buffer, n, bits) && |bits| == 8 * n
    ensures BufferBits(buffer[..n]) == bits
    ensures buffer[..n] == BytesOf(bits)
  {
    hide Bit, ByteOf;
    forall k | 0 <= k < 8 * n
      ensures BufferBits(buffer[..n])[k] == bits[k]
    {
      assert BufferBit(buffer[..n], k) == BufferBit(buffer, k);
    }
    BytesOfBufferBits(buffer[..n]);
  }

  // Bits outside [bitLen, bitLen + |field|) are kept; bits inside are or-ed with the field.
  ghost predicate Appended(before: seq<Byte>, after: seq<Byte>, bitLen: nat, field: Bits)
  {
    |after| == |before| &&
    forall k | 0 <= k < 8 * |before| ::
      BufferBit(after, k) == (BufferBit(before, k) || (bitLen <= k < bitLen + |field| && field[k - bitLen]))
  }

  lemma AppendedHolds(before: seq<Byte>, after: seq<Byte>, n: nat, bits: Bits, field: Bits)
    requires Appended(before, after, |bits|, field) && Holds(before, n, bits) && |bits| + |field| <= 8 * n
    ensures Holds(after, n, bits + field)
  {
    hide Bit;
    forall k | 0 <= k < 8 * n
      ensures BufferBit(after, k) == (k < |bits + field| && (bits + field)[k])
    {
      assert BufferBit(before, k) == (k < |bits| && bits[k]);
    }
  }

  lemma AppendedOne(before: seq<Byte>, middle: seq<Byte>, after: seq<Byte>, bitLen: nat, field: Bits, i: nat)
    requires i < |field| && bitLen + |field| <= 8 * |before|
    requires Appended(before, middle, bitLen, field[..i])
    requires var k := bitLen + i;
             after == middle[k / 8 := if field[i] then WithBit(middle[k / 8], 7 - k % 8, true) else middle[k / 8]]
    ensures Appended(before, after, bitLen, field[..i + 1])
  {
    hide Bit, WithBit;
    var m := bitLen + i;
    forall k | 0 <= k < 8 * |before|
      ensures BufferBit(after, k) == (BufferBit(before, k) || (bitLen <= k < bitLen + i + 1 && field[k - bitLen]))
    {
      assert BufferBit(middle, k) == (BufferBit(before, k) || (bitLen <= k < bitLen + i && field[..i][k - bitLen]));
      if field[i] && k / 8 == m / 8 {
        BitOfWithBit(middle[m / 8], 7 - m % 8, true, 7 - k % 8);
      }
    }
  }

  // Appends the numBits low-order bits of val at bit position bitLen.
  method AppendBits(val: nat, numBits: nat, buffer: array<Byte>, bitLen: nat, ghost n: nat, ghost bits: Bits)
    returns (newLen: nat)
    requires numBits <= 16 && val < Pow2(numBits)
    requires bitLen + numBits <= 8 * buffer.Length
    modifies buffer
    ensures newLen == bitLen + numBits
    ensures Appended(old(buffer[..]), buffer[..], bitLen, ToBits(val, numBits))
    ensures |bits| == bitLen && newLen <= 8 * n && Holds(old(buffer[..]), n, bits) ==>
              Holds(buffer[..], n, bits + ToBits(val, numBits))
    ensures forall k | 0 <= k < buffer.Length && newLen <= 8 * k :: buffer[k] == old(buffer[k])
  {
    hide Bit, Appended, ToBits;
    ghost var before, field := buffer[..], ToBits(val, numBits);
    newLen := bitLen;
    var i: int := numBits - 1;
    NothingAppended(before, bitLen, field);
    while i >= 0
      invariant -1 <= i < numBits
      invariant newLen == bitLen + (numBits - 1 - i)
      invariant Appended(before, buffer[..], bitLen, field[..numBits - 1 - i])
      invariant forall k | 0 <= k < buffer.Length && newLen <= 8 * k :: buffer[k] == before[k]
    {
      ghost var middle := buffer[..];
      ToBitsAt(val, numBits, numBits - 1 - i);
      if (val / Pow2(i)) % 2 == 1 {
        buffer[newLen / 8] := WithBit(buffer[newLen / 8], 7 - newLen % 8, true);
      }
      AppendedOne(before, middle, buffer[..], bitLen, field, numBits - 1 - i);
      i, newLen := i - 1, newLen + 1;
    }
    assert field[..numBits] == field;
    if |bits| == bitLen && newLen <= 8 * n && Holds(before, n, bits) {
      AppendedHolds(before, buffer[..], n, bits, field);
    }
  }

  lemma NothingAppended(before: seq<Byte>, bitLen: nat, field: Bits)
    ensures Appended(before, before, bitLen, field[..0])
  {
    hide Bit;
  }

  // The first n bytes set to zero.
  method Clear(buffer: array<Byte>, n: nat)
    requires n <= buffer.Length
    modifies buffer
    ensures Holds(buffer[..], n, [])
    ensures forall k | 0 <= k < buffer.Length :: buffer[k] == if k < n then 0 else old(buffer[k])
  {
    hide Bit;
    forall k | 0 <= k < n {
      buffer[k] := 0;
    }
    forall k | 0 <= k < 8 * n
      ensures !BufferBit(buffer[..], k)
    {
      BitOfZero(7 - k % 8);
    }
  }
}
