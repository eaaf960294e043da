// Values that a reader of symbols looks up in the standard's tables, and that the encoder computes or tabulates.
module StandardTables {
  import opened Arithmetic
  import opened BitStrings
  import opened Bytes
  import opened Parameters
  import opened Grids
  import opened Segments
  import opened DataStream

  // ----- segment headers -----

  lemma ModeIndicators()
    ensures ToBits(Indicator(Numeric), 4) == [false, false, false, true]
    ensures ToBits(Indicator(Alphanumeric), 4) == [false, false, true, false]
    ensures ToBits(Indicator(EightBit), 4) == [false, true, false, false]
    ensures ToBits(Indicator(Kanji), 4) == [true, false, false, false]
    ensures ToBits(Indicator(Eci), 4) == [false, true, true, true]
  {
  }

  // The widths of the character count field for versions 1 to 9, 10 to 26, and 27 to 40.
  lemma CountWidths(v: int)
    requires IsVersion(v)
    ensures CharCountBits(Numeric, v) == if v <= 9 then 10 else if v <= 26 then 12 else 14
    ensures CharCountBits(Alphanumeric, v) == if v <= 9 then 9 else if v <= 26 then 11 else 13
    ensures CharCountBits(EightBit, v) == if v <= 9 then 8 else 16
    ensures CharCountBits(Kanji, v) == if v <= 9 then 8 else if v <= 26 then 10 else 12
    ensures CharCountBits(Eci, v) == 0
  {
  }

  // ----- characters -----

  // Digits are 0 to 9, letters 10 to 35, then come a space and eight signs.
  lemma CharacterValues(c: char)
    requires InCharset(c)
    ensures '0' <= c <= '9' ==> CharsetValue(c) == (c - '0') as int
    ensures 'A' <= c <= 'Z' ==> CharsetValue(c) == 10 + (c - 'A') as int
    ensures c == ' ' ==> CharsetValue(c) == 36
    ensures c == '$' ==> CharsetValue(c) == 37
    ensures c == '%' ==> CharsetValue(c) == 38
    ensures c == '*' ==> CharsetValue(c) == 39
    ensures c == '+' ==> CharsetValue(c) == 40
    ensures c == '-' ==> CharsetValue(c) == 41
    ensures c == '.' ==> CharsetValue(c) == 42
    ensures c == '/' ==> CharsetValue(c) == 43
    ensures c == ':' ==> CharsetValue(c) == 44
  {
    hide CharsetValue, InCharset;
    CharsetIs(CharsetValue(c));
  }

  // The character with each number.
  ghost function CharacterFor(v: nat): char
    requires v < 45
  {
    if v < 10 then '0' + v as char
    else if v < 36 then 'A' + (v - 10) as char
    else if v == 36 then ' ' else if v == 37 then '$' else if v == 38 then '%' else if v == 39 then '*'
    else if v == 40 then '+' else if v == 41 then '-' else if v == 42 then '.' else if v == 43 then '/' else ':'
  }

  lemma CharsetIs(v: nat)
    requires v < 45
    ensures ALPHANUMERIC_CHARSET[v] == CharacterFor(v)
  {
    if v < 10 {
      FirstCharacters(v);
    } else if v < 30 {
      MiddleCharacters(v);
    } else {
      LastCharacters(v);
    }
  }

  lemma FirstCharacters(v: nat)
    requires v < 10
    ensures ALPHANUMERIC_CHARSET[v] == CharacterFor(v)
  {
  }

  lemma MiddleCharacters(v: nat)
    requires 10 <= v < 30
    ensures ALPHANUMERIC_CHARSET[v] == CharacterFor(v)
  {
  }

  lemma LastCharacters(v: nat)
    requires 30 <= v < 45
    ensures ALPHANUMERIC_CHARSET[v] == CharacterFor(v)
  {
  }

  // Three digits take ten bits, as a number below 1000; a remaining one or two take four or seven.
  lemma NumericGroups(a: nat, b: nat, c: nat, rest: Chars)
    ensures Pack([a, b, c] + rest, NUMERIC_PACKING) ==
            ToBits(100 * a + 10 * b + c, 10) + Pack(rest, NUMERIC_PACKING)
    ensures Pack([a, b], NUMERIC_PACKING) == ToBits(10 * a + b, 7)
    ensures Pack([a], NUMERIC_PACKING) == ToBits(a, 4)
    ensures Pack([], NUMERIC_PACKING) == []
  {
    var all := [a, b, c] + rest;
    assert all[..3] == [a, b, c] && all[3..] == rest;
    assert [a, b][..2] == [a, b] && [a, b][2..] == [] && [a][..1] == [a] && [a][1..] == [];
    NumberOfFew(a, b, c, 10);
    hide ToBits, Number;
  }

  // Two characters take eleven bits, as a number below 2025; a remaining one takes six.
  lemma AlphanumericGroups(a: nat, b: nat, rest: Chars)
    ensures Pack([a, b] + rest, ALPHANUMERIC_PACKING) == ToBits(45 * a + b, 11) + Pack(rest, ALPHANUMERIC_PACKING)
    ensures Pack([a], ALPHANUMERIC_PACKING) == ToBits(a, 6)
    ensures Pack([], ALPHANUMERIC_PACKING) == []
  {
    var all := [a, b] + rest;
    assert all[..2] == [a, b] && all[2..] == rest;
    assert [a][..1] == [a] && [a][1..] == [];
    NumberOfFew(a, b, 0, 45);
    hide ToBits, Number;
  }

  lemma NumberOfFew(a: nat, b: nat, c: nat, base: nat)
    ensures Number([a], base) == a && Number([a, b], base) == base * a + b
    ensures base == 10 ==> Number([a, b, c], base) == 100 * a + 10 * b + c
  {
    assert [a][..0] == [] && [a, b][..1] == [a] && [a, b, c][..2] == [a, b];
    assert Number([], base) == 0;
  }

  // ----- bits and padding -----

  lemma BitIsShifted(b: Byte, i: nat)
    requires i < 8
    ensures Bit(b, i) == ((b >> i) & 1 == 1)
  {
  }

  function Places(s: Bits): nat
    requires |s| == 8
  {
    (if s[0] then 128 else 0) + (if s[1] then 64 else 0) + (if s[2] then 32 else 0) + (if s[3] then 16 else 0) +
    (if s[4] then 8 else 0) + (if s[5] then 4 else 0) + (if s[6] then 2 else 0) + (if s[7] then 1 else 0)
  }

  lemma FromBitsIsPlaces(s: Bits)
    requires |s| == 8
    ensures FromBits(s) == Places(s)
  {
    hide FromBits;
    assert s[..8] == s;
    NoBits(s);
    PrefixValue(s, 1);
    PrefixValue(s, 2);
    PrefixValue(s, 3);
    PrefixValue(s, 4);
    PrefixValue(s, 5);
    PrefixValue(s, 6);
    PrefixValue(s, 7);
    PrefixValue(s, 8);
  }

  lemma NoBits(s: Bits)
    ensures FromBits(s[..0]) == 0
  {
  }

  lemma PrefixValue(s: Bits, k: nat)
    requires 0 < k <= |s|
    ensures FromBits(s[..k]) == 2 * FromBits(s[..k - 1]) + if s[k - 1] then 1 else 0
  {
    assert s[..k][..k - 1] == s[..k - 1];
  }

  lemma PlacesIsInt(b: Byte)
    ensures Places(ByteBits(b)) == b as int
  {
  }

  lemma ValueIsInt(b: Byte)
    ensures Value(b) == b as int
  {
    FromBitsIsPlaces(ByteBits(b));
    PlacesIsInt(b);
    hide ByteBits, FromBits, Places;
  }

  // The first byte is the side length; the modules follow row by row, from the lowest bit of the next byte on.
  lemma ModuleIsStored(buf: seq<Byte>, x: nat, y: nat)
    requires IsSymbol(buf) && x < SizeOf(buf) && y < SizeOf(buf)
    ensures SizeOf(buf) == buf[0] as int && 1 + (y * SizeOf(buf) + x) / 8 < |buf|
    ensures var k := y * SizeOf(buf) + x; Module(buf, x, y) == ((buf[1 + k / 8] >> (k % 8)) & 1 == 1)
  {
    hide Bit, Value;
    var n := SizeOf(buf);
    IndexBound(n, x, y);
    ValueIsInt(buf[0]);
    BitIsShifted(buf[1 + (y * n + x) / 8], (y * n + x) % 8);
  }

  // Buffers are read byte by byte.
  lemma BuffersAsBits(b: Byte, rest: seq<Byte>)
    ensures BufferBits([b] + rest) == ByteBits(b) + BufferBits(rest)
  {
    hide Bit;
    forall k | 0 <= k < 8 * |rest| + 8
      ensures BufferBits([b] + rest)[k] == (ByteBits(b) + BufferBits(rest))[k]
    {
      assert BufferBits([b] + rest)[k] == BufferBit([b] + rest, k);
    }
  }

  // The first pad byte and those after every second one: 11101100; the others: 00010001.
  function PadByte(k: nat): Bits {
    if k % 2 == 0 then [true, true, true, false, true, true, false, false]
    else [false, false, false, true, false, false, false, true]
  }

  lemma PadValues()
    ensures ToBits(0xEC, 8) == PadByte(0) && ToBits(0x11, 8) == PadByte(1)
  {
  }

  lemma {:induction false} PadsAlternate(n: nat, first: nat, k: nat)
    requires (first == 0xEC || first == 0x11) && k < n
    ensures |PadBits(n, first)| == 8 * n
    ensures PadBits(n, first)[8 * k..8 * k + 8] == PadByte(if first == 0xEC then k else k + 1)
  {
    hide PadBits, ToBits, PadByte;
    var rest := PadBits(n - 1, 0xFD - first);
    PadBitsNext(n, first);
    PadBitsLength(n - 1, 0xFD - first);
    PadValues();
    if k > 0 {
      PadsAlternate(n - 1, 0xFD - first, k - 1);
      PartOfSecond(ToBits(first, 8), rest, 8 * (k - 1));
      PadByteAgain(k - 1);
    } else {
      assert (ToBits(first, 8) + rest)[..8] == ToBits(first, 8);
    }
  }

  lemma PadBitsNext(n: nat, first: nat)
    requires (first == 0xEC || first == 0x11) && n > 0
    ensures |ToBits(first, 8)| == 8 && PadBits(n, first) == ToBits(first, 8) + PadBits(n - 1, 0xFD - first)
  {
    hide ToBits;
  }

  lemma PadByteAgain(k: nat)
    ensures PadByte(k + 2) == PadByte(k)
  {
  }

  lemma PartOfSecond(first: Bits, second: Bits, i: nat)
    requires i + 8 <= |second|
    ensures (first + second)[|first| + i..|first| + i + 8] == second[i..i + 8]
  {
  }

  // The number of codewords that the segments, the terminator and the zeros up to a whole byte take.
  ghost function Used(bits: Bits, capacity: nat): nat
    requires |bits| <= 8 * capacity
  {
    if |bits| + 4 <= 8 * capacity then (|bits| + 4 + 7) / 8 else capacity
  }

  lemma AlignedIs(bits: Bits, capacity: nat)
    requires |bits| <= 8 * capacity
    ensures var aligned := Aligned(Terminated(bits, capacity));
            |aligned| == 8 * Used(bits, capacity) && Used(bits, capacity) <= capacity &&
            (forall i | |bits| <= i < |aligned| :: !aligned[i])
  {
  }

  // After the segments: up to four zeros, zeros to the end of a byte, and the pad bytes.
  lemma PaddingIs(bits: Bits, capacity: nat, k: nat)
    requires |bits| <= 8 * capacity
    ensures |Padded(bits, capacity)| == 8 * capacity && Padded(bits, capacity)[..|bits|] == bits
    ensures Used(bits, capacity) <= capacity
    ensures forall i | |bits| <= i < 8 * Used(bits, capacity) :: !Padded(bits, capacity)[i]
    ensures var start := 8 * (Used(bits, capacity) + k);
            Used(bits, capacity) + k < capacity ==> Padded(bits, capacity)[start..start + 8] == PadByte(k)
  {
    hide PadBits, Aligned, Terminated, Used, PadByte;
    PaddedFillsCapacity(bits, capacity);
    AlignedIs(bits, capacity);
    var aligned := Aligned(Terminated(bits, capacity));
    var used := Used(bits, capacity);
    var pads := PadBits(capacity - used, 0xEC);
    PadBitsLength(capacity - used, 0xEC);
    if used + k < capacity {
      PadsAlternate(capacity - used, 0xEC, k);
      PartOfSecond(aligned, pads, 8 * k);
    }
  }

  // ----- capacities -----

  // The number of data codewords for each version.
  ghost function DataCapacity(ecl: Ecc): seq<int> {
    match ecl
    case Low => [
      19, 34, 55, 80, 108, 136, 156, 194, 232, 274, 324, 370, 428, 461, 523, 589, 647, 721, 795, 861, 932, 1006,
      1094, 1174, 1276, 1370, 1468, 1531, 1631, 1735, 1843, 1955, 2071, 2191, 2306, 2434, 2566, 2702, 2812, 2956]
    case Medium => [
      16, 28, 44, 64, 86, 108, 124, 154, 182, 216, 254, 290, 334, 365, 415, 453, 507, 563, 627, 669, 714, 782, 860,
      914, 1000, 1062, 1128, 1193, 1267, 1373, 1455, 1541, 1631, 1725, 1812, 1914, 1992, 2102, 2216, 2334]
    case Quartile => [
      13, 22, 34, 48, 62, 76, 88, 110, 132, 154, 180, 206, 244, 261, 295, 325, 367, 397, 445, 485, 512, 568, 614,
      664, 718, 754, 808, 871, 911, 985, 1033, 1115, 1171, 1231, 1286, 1354, 1426, 1502, 1582, 1666]
    case High => [
      9, 16, 26, 36, 46, 60, 66, 86, 100, 122, 140, 158, 180, 197, 223, 253, 283, 313, 341, 385, 406, 442, 464, 514,
      538, 596, 628, 661, 701, 745, 793, 845, 901, 961, 986, 1054, 1096, 1142, 1222, 1276]
  }

  lemma LowCapacity(v: int)
    requires IsVersion(v)
    ensures |DataCapacity(Low)| == 40
    ensures RawTable(v) - EccLen(v, Low) * NumBlocks(v, Low) == DataCapacity(Low)[v - 1]
  {
    if v <= 20 {
    } else {
    }
  }

  lemma MediumCapacity(v: int)
    requires IsVersion(v)
    ensures |DataCapacity(Medium)| == 40
    ensures RawTable(v) - EccLen(v, Medium) * NumBlocks(v, Medium) == DataCapacity(Medium)[v - 1]
  {
    if v <= 20 {
    } else {
    }
  }

  lemma QuartileCapacity(v: int)
    requires IsVersion(v)
    ensures |DataCapacity(Quartile)| == 40
    ensures RawTable(v) - EccLen(v, Quartile) * NumBlocks(v, Quartile) == DataCapacity(Quartile)[v - 1]
  {
    if v <= 20 {
    } else {
    }
  }

  lemma HighCapacity(v: int)
    requires IsVersion(v)
    ensures |DataCapacity(High)| == 40
    ensures RawTable(v) - EccLen(v, High) * NumBlocks(v, High) == DataCapacity(High)[v - 1]
  {
    if v <= 20 {
    } else {
    }
  }

  lemma CapacityIsInTable(v: int, ecl: Ecc)
    requires IsVersion(v)
    ensures |DataCapacity(ecl)| == 40 && NumDataCodewords(v, ecl) == DataCapacity(ecl)[v - 1]
  {
    RawIsTabulated(v);
    hide RawCodewords, RawTable, EccLen, NumBlocks, DataCapacity;
    match ecl
    case Low => LowCapacity(v);
    case Medium => MediumCapacity(v);
    case Quartile => QuartileCapacity(v);
    case High => HighCapacity(v);
  }
}
