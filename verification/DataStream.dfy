// The data bit string of a symbol: fields of each segment, terminator and padding; and its decoder.
module DataStream {
  import opened BitStrings
  import opened Segments
  import opened Parameters

  // A segment by value. Its bits are its payload.
  datatype Chunk = Chunk(mode: Mode, numChars: nat, bits: Bits)

  // The width of the character count field.
  function CharCountBits(mode: Mode, v: int): nat
    requires IsVersion(v)
  {
    var i := (v + 7) / 17;
    match mode
    case Numeric => if i == 0 then 10 else if i == 1 then 12 else 14
    case Alphanumeric => if i == 0 then 9 else if i == 1 then 11 else 13
    case EightBit => if i == 0 then 8 else 16
    case Kanji => if i == 0 then 8 else if i == 1 then 10 else 12
    case Eci => 0
  }

  function ChunkBits(c: Chunk, v: int): Bits
    requires IsVersion(v)
  {
    ToBits(Indicator(c.mode), 4) + ToBits(c.numChars, CharCountBits(c.mode, v)) + c.bits
  }

  function StreamBits(chunks: seq<Chunk>, v: int): Bits
    requires IsVersion(v)
  {
    if chunks == [] then [] else StreamBits(chunks[..|chunks| - 1], v) + ChunkBits(chunks[|chunks| - 1], v)
  }

  // Alternating pad bytes, 0xEC or 0x11 first.
  function PadBits(n: nat, first: nat): Bits
    requires first == 0xEC || first == 0x11
  {
    if n == 0 then [] else ToBits(first, 8) + PadBits(n - 1, 0xFD - first)
  }

  function Terminated(bits: Bits, capacity: nat): Bits
    requires |bits| <= 8 * capacity
  {
    bits + Zeros(if 8 * capacity - |bits| > 4 then 4 else 8 * capacity - |bits|)
  }

  function Aligned(bits: Bits): (r: Bits)
    ensures |r| % 8 == 0 && |bits| <= |r| < |bits| + 8
  {
    bits + Zeros((8 - |bits| % 8) % 8)
  }

  // A terminator of up to four zeros, zeros up to a whole byte, then pad bytes up to the capacity.
  function Padded(bits: Bits, capacity: nat): Bits
    requires |bits| <= 8 * capacity
  {
    var aligned := Aligned(Terminated(bits, capacity));
    aligned + PadBits(capacity - |aligned| / 8, 0xEC)
  }

  lemma {:induction false} PadBitsLength(n: nat, first: nat)
    requires first == 0xEC || first == 0x11
    ensures |PadBits(n, first)| == 8 * n
  {
    if n > 0 {
      PadBitsLength(n - 1, 0xFD - first);
    }
  }

  lemma PaddedFillsCapacity(bits: Bits, capacity: nat)
    requires |bits| <= 8 * capacity
    ensures |Padded(bits, capacity)| == 8 * capacity
    ensures Padded(bits, capacity)[..|bits|] == bits
    ensures |bits| + 4 <= 8 * capacity ==> Padded(bits, capacity)[|bits|..|bits| + 4] == Zeros(4)
  {
    var aligned := Aligned(Terminated(bits, capacity));
    PadBitsLength(capacity - |aligned| / 8, 0xEC);
  }

  // ----- the decoder -----

  datatype Option<T> = None | Some(value: T)

  function ModeOf(indicator: nat): Option<Mode> {
    match indicator
    case 0x1 => Some(Numeric)
    case 0x2 => Some(Alphanumeric)
    case 0x4 => Some(EightBit)
    case 0x8 => Some(Kanji)
    case 0x7 => Some(Eci)
    case _ => None
  }

  // How many of the following bits belong to a segment whose mode and count have been read.
  function PayloadLength(mode: Mode, numChars: nat, rest: Bits): nat {
    if mode == Eci then EciLength(rest) else BitLengthOf(mode, numChars)
  }

  // Reads segments until a terminator, the end of the data, or something malformed.
  function Decode(bits: Bits, v: int): seq<Chunk>
    requires IsVersion(v)
    decreases |bits|
  {
    if |bits| < 4 then [] else
    match ModeOf(FromBits(bits[..4]))
    case None => []
    case Some(mode) =>
      var start := 4 + CharCountBits(mode, v);
      if |bits| < start then [] else
      var numChars := FromBits(bits[4..start]);
      var length := PayloadLength(mode, numChars, bits[start..]);
      if |bits| < start + length then []
      else [Chunk(mode, numChars, bits[start..start + length])] + Decode(bits[start + length..], v)
  }

  // The segment contract: the count fits its field and agrees with the mode and the payload.
  ghost predicate WellFormed(c: Chunk, v: int)
    requires IsVersion(v)
  {
    c.numChars < Pow2(CharCountBits(c.mode, v)) &&
    if c.mode == Eci then c.numChars == 0 && |c.bits| == EciLength(c.bits)
    else |c.bits| == BitLengthOf(c.mode, c.numChars)
  }

  lemma DecodeOne(c: Chunk, v: int, rest: Bits)
    requires IsVersion(v) && WellFormed(c, v)
    ensures Decode(ChunkBits(c, v) + rest, v) == [c] + Decode(rest, v)
  {
    hide FromBits, ToBits, Pow2, BitLengthOf;
    var m, n, w := ToBits(Indicator(c.mode), 4), ToBits(c.numChars, CharCountBits(c.mode, v)), CharCountBits(c.mode, v);
    var all := ChunkBits(c, v) + rest;
    FourParts(m, n, c.bits, rest);
    assert all == m + n + c.bits + rest;
    assert Indicator(c.mode) < Pow2(4) by { SixteenIndicators(); }
    FromBitsToBits(Indicator(c.mode), 4);
    FromBitsToBits(c.numChars, w);
    var length := PayloadLength(c.mode, c.numChars, c.bits + rest);
    assert length == |c.bits|;
  }

  lemma FourParts(a: Bits, b: Bits, c: Bits, d: Bits)
    ensures var all, m, n := a + b + c + d, |a| + |b|, |a| + |b| + |c|;
            all[..|a|] == a && all[|a|..m] == b && all[m..] == c + d && all[m..n] == c && all[n..] == d
  {
    var all := a + b + c + d;
    assert all == a + (b + (c + d)) && all == (a + b) + (c + d);
  }

  lemma SixteenIndicators()
    ensures Pow2(4) == 16
  {
  }

  // A decoder reading modes and counts recovers the segments, whatever follows the terminator.
  lemma {:induction false} DecodeStream(chunks: seq<Chunk>, v: int, tail: Bits)
    requires IsVersion(v) && forall i | 0 <= i < |chunks| :: WellFormed(chunks[i], v)
    ensures Decode(StreamBits(chunks, v) + tail, v) == chunks + Decode(tail, v)
    decreases |chunks|
  {
    hide Decode, ChunkBits;
    if chunks == [] {
      assert [] + tail == tail;
    } else {
      var n := |chunks| - 1;
      DecodeOne(chunks[n], v, tail);
      DecodeStream(chunks[..n], v, ChunkBits(chunks[n], v) + tail);
      assert StreamBits(chunks, v) + tail == StreamBits(chunks[..n], v) + (ChunkBits(chunks[n], v) + tail);
    }
  }

  lemma DecodeTerminator(tail: Bits, v: int)
    requires IsVersion(v)
    requires |tail| < 4 || tail[..4] == Zeros(4)
    ensures Decode(tail, v) == []
  {
    if |tail| >= 4 {
      ToBitsZero(4);
      SixteenIndicators();
      FromBitsToBits(0, 4);
    }
    hide FromBits, ToBits;
  }

  lemma DecodePadded(chunks: seq<Chunk>, v: int, capacity: nat)
    requires IsVersion(v) && forall i | 0 <= i < |chunks| :: WellFormed(chunks[i], v)
    requires |StreamBits(chunks, v)| <= 8 * capacity
    ensures Decode(Padded(StreamBits(chunks, v), capacity), v) == chunks
  {
    hide StreamBits, Padded, Decode, WellFormed;
    var bits := StreamBits(chunks, v);
    var all := Padded(bits, capacity);
    PaddedFillsCapacity(bits, capacity);
    var tail := all[|bits|..];
    assert all == bits + tail;
    assert |tail| >= 4 ==> tail[..4] == all[|bits|..|bits| + 4];
    DecodeTerminator(tail, v);
    DecodeStream(chunks, v, tail);
  }
}
