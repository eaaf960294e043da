// Choosing a version and error correction level, and building the data codewords.
module DataCodewords {
  import opened BitStrings
  import opened Bytes
  import opened BitBuffer
  import opened Segments
  import opened Parameters
  import opened DataStream

  // A segment by reference: its payload is the first bitLength bits of data.
  datatype Segment = Segment(mode: Mode, numChars: nat, data: array<Byte>, bitLength: nat) {

    predicate InRange() {
      numChars <= INT16_MAX && bitLength <= INT16_MAX && bitLength <= 8 * data.Length
    }

    ghost function Payload(): (bits: Bits)
      requires InRange()
      reads data
      ensures |bits| == bitLength
    {
      BufferBits(data[..])[..bitLength]
    }

    ghost function AsChunk(): Chunk
      requires InRange()
      reads data
    {
      Chunk(mode, numChars, Payload())
    }
  }

  ghost predicate AllInRange(segs: seq<Segment>) {
    forall i | 0 <= i < |segs| :: segs[i].InRange()
  }

  ghost function Arrays(segs: seq<Segment>): set<array<Byte>> {
    set i | 0 <= i < |segs| :: segs[i].data
  }

  ghost function Chunks(segs: seq<Segment>): (c: seq<Chunk>)
    requires AllInRange(segs)
    reads Arrays(segs)
    ensures |c| == |segs| && forall i | 0 <= i < |segs| :: c[i] == segs[i].AsChunk()
  {
    if segs == [] then [] else Chunks(segs[..|segs| - 1]) + [segs[|segs| - 1].AsChunk()]
  }

  // ----- sizes -----

  function BitsNeeded(segs: seq<Segment>, v: int): nat
    requires IsVersion(v)
  {
    if segs == [] then 0
    else
      var s := segs[|segs| - 1];
      BitsNeeded(segs[..|segs| - 1], v) + 4 + CharCountBits(s.mode, v) + s.bitLength
  }

  ghost predicate CountsFit(segs: seq<Segment>, v: int)
    requires IsVersion(v)
  {
    forall i | 0 <= i < |segs| :: segs[i].numChars < Pow2(CharCountBits(segs[i].mode, v))
  }

  ghost predicate Fits(segs: seq<Segment>, v: int, ecl: Ecc)
    requires IsVersion(v)
  {
    CountsFit(segs, v) && BitsNeeded(segs, v) <= NumDataCodewords(v, ecl) * 8
  }

  lemma {:induction false} BitsNeededMonotone(segs: seq<Segment>, n: nat, v: int)
    requires IsVersion(v) && n <= |segs|
    ensures BitsNeeded(segs[..n], v) <= BitsNeeded(segs, v)
    decreases |segs| - n
  {
    if n < |segs| {
      BitsNeededMonotone(segs, n + 1, v);
      assert segs[..n + 1][..n] == segs[..n];
    } else {
      assert segs[..n] == segs;
    }
  }

  lemma {:induction false} StreamLength(segs: seq<Segment>, v: int)
    requires IsVersion(v) && AllInRange(segs)
    ensures |StreamBits(Chunks(segs), v)| == BitsNeeded(segs, v)
  {
    if segs != [] {
      var n := |segs| - 1;
      StreamLength(segs[..n], v);
      assert Chunks(segs)[..n] == Chunks(segs[..n]);
    }
  }

  // -1 when a count does not fit its field or the sum exceeds INT16_MAX.
  method GetTotalBits(segs: seq<Segment>, v: int) returns (result: int)
    requires IsVersion(v) && AllInRange(segs)
    ensures result == if CountsFit(segs, v) && BitsNeeded(segs, v) <= INT16_MAX then BitsNeeded(segs, v) else -1
  {
    hide Pow2;
    result := 0;
    for i := 0 to |segs|
      invariant CountsFit(segs[..i], v)
      invariant result == BitsNeeded(segs[..i], v) <= INT16_MAX
    {
      var s := segs[i];
      var ccbits := CharCountBits(s.mode, v);
      assert segs[..i + 1][..i] == segs[..i];
      if s.numChars >= Pow2(ccbits) {
        return -1;
      }
      result := result + 4 + ccbits + s.bitLength;
      if result > INT16_MAX {
        BitsNeededMonotone(segs, i + 1, v);
        return -1;
      }
    }
    assert segs[..|segs|] == segs;
  }

  // The smallest version in range at which the segments fit, if there is one.
  method ChooseVersion(segs: seq<Segment>, ecl: Ecc, minVersion: int, maxVersion: int)
    returns (found: bool, version: int, dataUsedBits: int)
    requires VERSION_MIN <= minVersion <= maxVersion <= VERSION_MAX
    requires AllInRange(segs)
    ensures found ==> minVersion <= version <= maxVersion
    ensures found ==> Fits(segs, version, ecl) && dataUsedBits == BitsNeeded(segs, version)
    ensures found ==> forall v | minVersion <= v < version :: !Fits(segs, v, ecl)
    ensures !found ==> forall v | minVersion <= v <= maxVersion :: !Fits(segs, v, ecl)
  {
    hide NumDataCodewords, CountsFit, BitsNeeded;
    version := minVersion;
    while true
      invariant minVersion <= version <= maxVersion
      invariant forall v | minVersion <= v < version :: !Fits(segs, v, ecl)
      decreases maxVersion - version
    {
      var dataCapacityBits := NumDataCodewords(version, ecl) * 8;
      dataUsedBits := GetTotalBits(segs, version);
      BlocksAreSound(version, ecl);
      if dataUsedBits != -1 && dataUsedBits <= dataCapacityBits {
        return true, version, dataUsedBits;
      }
      if version >= maxVersion {
        return false, version, dataUsedBits;
      }
      version := version + 1;
    }
  }

  // The highest level at which the data still fits, which is never below the level asked for.
  method BoostLevel(version: int, ecl: Ecc, boost: bool, dataUsedBits: int) returns (level: Ecc)
    requires IsVersion(version) && dataUsedBits <= NumDataCodewords(version, ecl) * 8
    ensures dataUsedBits <= NumDataCodewords(version, level) * 8
    ensures !boost ==> level == ecl
    ensures boost ==> forall e: Ecc | dataUsedBits <= NumDataCodewords(version, e) * 8 :: Level(e) <= Level(level)
    ensures Level(ecl) <= Level(level)
  {
    hide NumDataCodewords;
    var levels := [Low, Medium, Quartile, High];
    level := ecl;
    for i := 1 to 4
      invariant dataUsedBits <= NumDataCodewords(version, level) * 8
      invariant !boost ==> level == ecl
      invariant boost ==> forall e: Ecc | 1 <= Level(e) < i && dataUsedBits <= NumDataCodewords(version, e) * 8 ::
                            Level(e) <= Level(level)
    {
      if boost && dataUsedBits <= NumDataCodewords(version, levels[i]) * 8 {
        level := levels[i];
      }
    }
  }

  // ----- building -----

  lemma PayloadAt(seg: Segment, j: nat)
    requires seg.InRange() && j < seg.bitLength
    ensures seg.Payload()[j] == Bit(seg.data[j / 8], 7 - j % 8)
    ensures ToBits(if seg.Payload()[j] then 1 else 0, 1) == [seg.Payload()[j]]
  {
    assert BufferBits(seg.data[..])[j] == BufferBit(seg.data[..], j);
    assert ToBits(1, 1) == [true] && ToBits(0, 1) == [false];
  }

  method AppendSegment(seg: Segment, v: int, buffer: array<Byte>, bitLen: nat, ghost n: nat, ghost bits: Bits)
    returns (newLen: nat)
    requires IsVersion(v) && seg.InRange() && seg.data != buffer
    requires seg.numChars < Pow2(CharCountBits(seg.mode, v))
    requires n <= buffer.Length && bitLen + 4 + CharCountBits(seg.mode, v) + seg.bitLength <= 8 * n
    requires |bits| == bitLen && Holds(buffer[..], n, bits)
    modifies buffer
    ensures newLen == bitLen + 4 + CharCountBits(seg.mode, v) + seg.bitLength
    ensures Holds(buffer[..], n, bits + ChunkBits(seg.AsChunk(), v))
    ensures newLen == bitLen + |ChunkBits(seg.AsChunk(), v)|
    ensures forall k | n <= k < buffer.Length :: buffer[k] == old(buffer[k])
  {
    hide Holds, Pow2, ToBits, Bit, CharCountBits;
    CountFieldWidth(seg.mode, v);
    ghost var head := bits + ToBits(Indicator(seg.mode), 4);
    ghost var header := head + ToBits(seg.numChars, CharCountBits(seg.mode, v));
    ghost var payload := seg.Payload();
    newLen := AppendBits(Indicator(seg.mode), 4, buffer, bitLen, n, bits);
    newLen := AppendBits(seg.numChars, CharCountBits(seg.mode, v), buffer, newLen, n, head);
    assert header + payload[..0] == header;
    for j := 0 to seg.bitLength
      invariant seg.Payload() == payload
      invariant newLen == |header| + j
      invariant Holds(buffer[..], n, header + payload[..j])
      invariant forall k | n <= k < buffer.Length :: buffer[k] == old(buffer[k])
    {
      PayloadAt(seg, j);
      var bit := if Bit(seg.data[j / 8], 7 - j % 8) then 1 else 0;
      newLen := AppendBits(bit, 1, buffer, newLen, n, header + payload[..j]);
      assert header + payload[..j + 1] == header + payload[..j] + [payload[j]];
    }
    assert header + payload[..seg.bitLength] == bits + ChunkBits(seg.AsChunk(), v);
  }

  lemma CountFieldWidth(mode: Mode, v: int)
    requires IsVersion(v)
    ensures CharCountBits(mode, v) <= 16
    ensures Indicator(mode) < Pow2(4) && Pow2(1) == 2 && Pow2(8) == 256
    ensures forall n: nat :: Pow2(n) > 0
  {
    SixteenIndicators();
    assert Pow2(8) == 256;
  }

  method AppendPadBytes(buffer: array<Byte>, bitLen: nat, capacity: nat, ghost n: nat, ghost bits: Bits)
    requires capacity <= n <= buffer.Length && bitLen <= 8 * capacity && bitLen % 8 == 0
    requires |bits| == bitLen && Holds(buffer[..], n, bits)
    modifies buffer
    ensures Holds(buffer[..], n, bits + PadBits(capacity - bitLen / 8, 0xEC))
    ensures forall k | n <= k < buffer.Length :: buffer[k] == old(buffer[k])
  {
    hide Holds, Pow2, ToBits;
    CountFieldWidth(Numeric, 1);
    var len := bitLen;
    var padByte := 0xEC;
    ghost var goal, padded := bits + PadBits(capacity - bitLen / 8, 0xEC), bits;
    while len < 8 * capacity
      invariant len == |padded| <= 8 * capacity && len % 8 == 0
      invariant padByte == 0xEC || padByte == 0x11
      invariant padded + PadBits(capacity - len / 8, padByte) == goal
      invariant Holds(buffer[..], n, padded)
      invariant forall k | n <= k < buffer.Length :: buffer[k] == old(buffer[k])
      decreases 8 * capacity - len
    {
      ghost var field, rest := ToBits(padByte, 8), PadBits(capacity - len / 8 - 1, 0xFD - padByte);
      len := AppendBits(padByte, 8, buffer, len, n, padded);
      assert padded + (field + rest) == (padded + field) + rest;
      padded := padded + field;
      padByte := 0xFD - padByte;
    }
    assert padded + [] == padded;
  }

  // Terminator, zero bits up to a whole byte, then alternating pad bytes (0xEC ^ 0x11 is 0xFD, and
  // xor with it exchanges the two, as does subtracting from it).
  method AppendPadding(buffer: array<Byte>, bitLen: nat, capacity: nat, ghost n: nat, ghost bits: Bits)
    requires capacity <= n <= buffer.Length && bitLen <= 8 * capacity
    requires |bits| == bitLen && Holds(buffer[..], n, bits)
    modifies buffer
    ensures Holds(buffer[..], n, Padded(bits, capacity))
    ensures forall k | n <= k < buffer.Length :: buffer[k] == old(buffer[k])
  {
    hide Holds, Pow2, ToBits, PadBits;
    CountFieldWidth(Numeric, 1);
    var terminatorBits := 8 * capacity - bitLen;
    if terminatorBits > 4 {
      terminatorBits := 4;
    }
    ToBitsZero(terminatorBits);
    var len := AppendBits(0, terminatorBits, buffer, bitLen, n, bits);
    ghost var terminated := Terminated(bits, capacity);
    var fill := (8 - len % 8) % 8;
    ToBitsZero(fill);
    assert |Aligned(terminated)| <= 8 * capacity;
    len := AppendBits(0, fill, buffer, len, n, terminated);
    AppendPadBytes(buffer, len, capacity, n, Aligned(terminated));
  }

  lemma NoSegments(segs: seq<Segment>, chunks: seq<Chunk>, v: int)
    requires IsVersion(v)
    ensures StreamBits(chunks[..0], v) == [] && BitsNeeded(segs[..0], v) == 0
  {
  }

  lemma OneMoreSegment(segs: seq<Segment>, chunks: seq<Chunk>, i: nat, v: int)
    requires IsVersion(v) && i < |segs| == |chunks|
    ensures StreamBits(chunks[..i + 1], v) == StreamBits(chunks[..i], v) + ChunkBits(chunks[i], v)
    ensures BitsNeeded(segs[..i + 1], v) ==
            BitsNeeded(segs[..i], v) + 4 + CharCountBits(segs[i].mode, v) + segs[i].bitLength
  {
    assert segs[..i + 1][..i] == segs[..i] && chunks[..i + 1][..i] == chunks[..i];
    hide ChunkBits, CharCountBits;
  }

  method AppendSegments(segs: seq<Segment>, v: int, buffer: array<Byte>, n: nat) returns (bitLen: nat)
    requires IsVersion(v) && AllInRange(segs) && CountsFit(segs, v) && BitsNeeded(segs, v) <= 8 * n
    requires n <= buffer.Length && buffer !in Arrays(segs)
    modifies buffer
    ensures bitLen == |StreamBits(Chunks(segs), v)| == BitsNeeded(segs, v)
    ensures Holds(buffer[..], n, StreamBits(Chunks(segs), v))
    ensures forall k | n <= k < buffer.Length :: buffer[k] == old(buffer[k])
  {
    hide Holds, Pow2, CharCountBits, ChunkBits, StreamBits, BitsNeeded, Segment.AsChunk;
    ghost var chunks := Chunks(segs);
    Clear(buffer, n);
    bitLen := 0;
    NoSegments(segs, chunks, v);
    for i := 0 to |segs|
      invariant Chunks(segs) == chunks
      invariant bitLen == |StreamBits(chunks[..i], v)| == BitsNeeded(segs[..i], v)
      invariant Holds(buffer[..], n, StreamBits(chunks[..i], v))
      invariant forall k | n <= k < buffer.Length :: buffer[k] == old(buffer[k])
    {
      assert segs[i].data in Arrays(segs);
      OneMoreSegment(segs, chunks, i, v);
      BitsNeededMonotone(segs, i + 1, v);
      bitLen := AppendSegment(segs[i], v, buffer, bitLen, n, StreamBits(chunks[..i], v));
    }
    assert segs[..|segs|] == segs && chunks[..|segs|] == chunks;
  }

  method BuildDataCodewords(segs: seq<Segment>, version: int, ecl: Ecc, qrcode: array<Byte>)
    requires IsVersion(version) && AllInRange(segs) && Fits(segs, version, ecl)
    requires BufferLen(version) <= qrcode.Length && qrcode !in Arrays(segs)
    modifies qrcode
    ensures 0 <= NumDataCodewords(version, ecl) < BufferLen(version)
    ensures |StreamBits(Chunks(segs), version)| <= 8 * NumDataCodewords(version, ecl)
    ensures Holds(qrcode[..], BufferLen(version), Padded(StreamBits(Chunks(segs), version), NumDataCodewords(version, ecl)))
    ensures forall k | BufferLen(version) <= k < qrcode.Length :: qrcode[k] == old(qrcode[k])
  {
    hide Holds, BufferLen, NumDataCodewords, RawCodewords, EccLen, BitsNeeded, StreamBits, Padded;
    CodewordsFitBuffer(version, ecl);
    BlocksAreSound(version, ecl);
    var bitLen := AppendSegments(segs, version, qrcode, BufferLen(version));
    AppendPadding(qrcode, bitLen, NumDataCodewords(version, ecl), BufferLen(version), StreamBits(Chunks(segs), version));
  }
}
