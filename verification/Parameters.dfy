// Versions, error correction levels and the sizes they determine.
module Parameters {
  import opened Arithmetic

  const VERSION_MIN := 1
  const VERSION_MAX := 40

  datatype Ecc = Low | Medium | Quartile | High

  // The levels in ascending order of error protection.
  function Level(ecl: Ecc): nat {
    match ecl
    case Low => 0
    case Medium => 1
    case Quartile => 2
    case High => 3
  }

  predicate IsVersion(v: int) {
    VERSION_MIN <= v <= VERSION_MAX
  }

  // The two tables of block parameters, one function for each row.
  function EccLenLow(v: int): int {
    match v
    case 1 => 7 case 2 => 10 case 3 => 15 case 4 => 20 case 5 => 26
    case 6 => 18 case 7 => 20 case 8 => 24 case 9 => 30 case 10 => 18
    case 11 => 20 case 12 => 24 case 13 => 26 case 14 => 30 case 15 => 22
    case 16 => 24 case 17 => 28 case 18 => 30 case 19 => 28 case 20 => 28
    case 21 => 28 case 22 => 28 case 23 => 30 case 24 => 30 case 25 => 26
    case 26 => 28 case 27 => 30 case 28 => 30 case 29 => 30 case 30 => 30
    case 31 => 30 case 32 => 30 case 33 => 30 case 34 => 30 case 35 => 30
    case 36 => 30 case 37 => 30 case 38 => 30 case 39 => 30
    case _ => 30
  }

  function EccLenMedium(v: int): int {
    match v
    case 1 => 10 case 2 => 16 case 3 => 26 case 4 => 18 case 5 => 24
    case 6 => 16 case 7 => 18 case 8 => 22 case 9 => 22 case 10 => 26
    case 11 => 30 case 12 => 22 case 13 => 22 case 14 => 24 case 15 => 24
    case 16 => 28 case 17 => 28 case 18 => 26 case 19 => 26 case 20 => 26
    case 21 => 26 case 22 => 28 case 23 => 28 case 24 => 28 case 25 => 28
    case 26 => 28 case 27 => 28 case 28 => 28 case 29 => 28 case 30 => 28
    case 31 => 28 case 32 => 28 case 33 => 28 case 34 => 28 case 35 => 28
    case 36 => 28 case 37 => 28 case 38 => 28 case 39 => 28
    case _ => 28
  }

  function EccLenQuartile(v: int): int {
    match v
    case 1 => 13 case 2 => 22 case 3 => 18 case 4 => 26 case 5 => 18
    case 6 => 24 case 7 => 18 case 8 => 22 case 9 => 20 case 10 => 24
    case 11 => 28 case 12 => 26 case 13 => 24 case 14 => 20 case 15 => 30
    case 16 => 24 case 17 => 28 case 18 => 28 case 19 => 26 case 20 => 30
    case 21 => 28 case 22 => 30 case 23 => 30 case 24 => 30 case 25 => 30
    case 26 => 28 case 27 => 30 case 28 => 30 case 29 => 30 case 30 => 30
    case 31 => 30 case 32 => 30 case 33 => 30 case 34 => 30 case 35 => 30
    case 36 => 30 case 37 => 30 case 38 => 30 case 39 => 30
    case _ => 30
  }

  function EccLenHigh(v: int): int {
    match v
    case 1 => 17 case 2 => 28 case 3 => 22 case 4 => 16 case 5 => 22
    case 6 => 28 case 7 => 26 case 8 => 26 case 9 => 24 case 10 => 28
    case 11 => 24 case 12 => 28 case 13 => 22 case 14 => 24 case 15 => 24
    case 16 => 30 case 17 => 28 case 18 => 28 case 19 => 26 case 20 => 28
    case 21 => 30 case 22 => 24 case 23 => 30 case 24 => 30 case 25 => 30
    case 26 => 30 case 27 => 30 case 28 => 30 case 29 => 30 case 30 => 30
    case 31 => 30 case 32 => 30 case 33 => 30 case 34 => 30 case 35 => 30
    case 36 => 30 case 37 => 30 case 38 => 30 case 39 => 30
    case _ => 30
  }

  function NumBlocksLow(v: int): int {
    match v
    case 1 => 1 case 2 => 1 case 3 => 1 case 4 => 1 case 5 => 1
    case 6 => 2 case 7 => 2 case 8 => 2 case 9 => 2 case 10 => 4
    case 11 => 4 case 12 => 4 case 13 => 4 case 14 => 4 case 15 => 6
    case 16 => 6 case 17 => 6 case 18 => 6 case 19 => 7 case 20 => 8
    case 21 => 8 case 22 => 9 case 23 => 9 case 24 => 10 case 25 => 12
    case 26 => 12 case 27 => 12 case 28 => 13 case 29 => 14 case 30 => 15
    case 31 => 16 case 32 => 17 case 33 => 18 case 34 => 19 case 35 => 19
    case 36 => 20 case 37 => 21 case 38 => 22 case 39 => 24
    case _ => 25
  }

  function NumBlocksMedium(v: int): int {
    match v
    case 1 => 1 case 2 => 1 case 3 => 1 case 4 => 2 case 5 => 2
    case 6 => 4 case 7 => 4 case 8 => 4 case 9 => 5 case 10 => 5
    case 11 => 5 case 12 => 8 case 13 => 9 case 14 => 9 case 15 => 10
    case 16 => 10 case 17 => 11 case 18 => 13 case 19 => 14 case 20 => 16
    case 21 => 17 case 22 => 17 case 23 => 18 case 24 => 20 case 25 => 21
    case 26 => 23 case 27 => 25 case 28 => 26 case 29 => 28 case 30 => 29
    case 31 => 31 case 32 => 33 case 33 => 35 case 34 => 37 case 35 => 38
    case 36 => 40 case 37 => 43 case 38 => 45 case 39 => 47
    case _ => 49
  }

  function NumBlocksQuartile(v: int): int {
    match v
    case 1 => 1 case 2 => 1 case 3 => 2 case 4 => 2 case 5 => 4
    case 6 => 4 case 7 => 6 case 8 => 6 case 9 => 8 case 10 => 8
    case 11 => 8 case 12 => 10 case 13 => 12 case 14 => 16 case 15 => 12
    case 16 => 17 case 17 => 16 case 18 => 18 case 19 => 21 case 20 => 20
    case 21 => 23 case 22 => 23 case 23 => 25 case 24 => 27 case 25 => 29
    case 26 => 34 case 27 => 34 case 28 => 35 case 29 => 38 case 30 => 40
    case 31 => 43 case 32 => 45 case 33 => 48 case 34 => 51 case 35 => 53
    case 36 => 56 case 37 => 59 case 38 => 62 case 39 => 65
    case _ => 68
  }

  function NumBlocksHigh(v: int): int {
    match v
    case 1 => 1 case 2 => 1 case 3 => 2 case 4 => 4 case 5 => 4
    case 6 => 4 case 7 => 5 case 8 => 6 case 9 => 8 case 10 => 8
    case 11 => 11 case 12 => 11 case 13 => 16 case 14 => 16 case 15 => 18
    case 16 => 16 case 17 => 19 case 18 => 21 case 19 => 25 case 20 => 25
    case 21 => 25 case 22 => 34 case 23 => 30 case 24 => 32 case 25 => 35
    case 26 => 37 case 27 => 40 case 28 => 42 case 29 => 45 case 30 => 48
    case 31 => 51 case 32 => 54 case 33 => 57 case 34 => 60 case 35 => 63
    case 36 => 66 case 37 => 70 case 38 => 74 case 39 => 77
    case _ => 81
  }

  function EccLen(v: int, ecl: Ecc): int {
    match ecl
    case Low => EccLenLow(v)
    case Medium => EccLenMedium(v)
    case Quartile => EccLenQuartile(v)
    case High => EccLenHigh(v)
  }

  function NumBlocks(v: int, ecl: Ecc): int {
    match ecl
    case Low => NumBlocksLow(v)
    case Medium => NumBlocksMedium(v)
    case Quartile => NumBlocksQuartile(v)
    case High => NumBlocksHigh(v)
  }

  function Size(v: int): int {
    v * 4 + 17
  }

  function NumAlign(v: int): int {
    v / 7 + 2
  }

  // The number of modules left for data when all function modules are excluded.
  function NumRawDataModules(v: int): (n: int)
    requires IsVersion(v)
  {
    (16 * v + 128) * v + 64
    - (if v >= 2 then (25 * NumAlign(v) - 10) * NumAlign(v) - 55 else 0)
    - (if v >= 7 then 36 else 0)
  }

  function RawCodewords(v: int): int
    requires IsVersion(v)
  {
    NumRawDataModules(v) / 8
  }

  function NumDataCodewords(v: int, ecl: Ecc): int
    requires IsVersion(v)
  {
    RawCodewords(v) - EccLen(v, ecl) * NumBlocks(v, ecl)
  }

  lemma RawModulesRange(v: int)
    requires IsVersion(v)
    ensures 208 <= NumRawDataModules(v) <= 29648
  {
  }

  // The codeword counts, tabulated.
  ghost function RawTable(v: int): int {
    match v
    case 1 => 26 case 2 => 44 case 3 => 70 case 4 => 100 case 5 => 134
    case 6 => 172 case 7 => 196 case 8 => 242 case 9 => 292 case 10 => 346
    case 11 => 404 case 12 => 466 case 13 => 532 case 14 => 581 case 15 => 655
    case 16 => 733 case 17 => 815 case 18 => 901 case 19 => 991 case 20 => 1085
    case 21 => 1156 case 22 => 1258 case 23 => 1364 case 24 => 1474 case 25 => 1588
    case 26 => 1706 case 27 => 1828 case 28 => 1921 case 29 => 2051 case 30 => 2185
    case 31 => 2323 case 32 => 2465 case 33 => 2611 case 34 => 2761 case 35 => 2876
    case 36 => 3034 case 37 => 3196 case 38 => 3362 case 39 => 3532
    case _ => 3706
  }

  lemma SmallRawIsTabulated(v: int)
    requires 1 <= v <= 20
    ensures RawCodewords(v) == RawTable(v)
  {
    if v <= 10 {
    } else {
    }
  }

  lemma LargeRawIsTabulated(v: int)
    requires 20 < v <= 40
    ensures RawCodewords(v) == RawTable(v)
  {
    if v <= 30 {
    } else {
    }
  }

  lemma RawIsTabulated(v: int)
    requires IsVersion(v)
    ensures RawCodewords(v) == RawTable(v)
  {
    hide RawCodewords, RawTable;
    if v <= 20 {
      SmallRawIsTabulated(v);
    } else {
      LargeRawIsTabulated(v);
    }
  }

  // raw codewords split into blocks that each hold some data and fit the field.
  ghost predicate Splits(raw: int, blocks: int, eccLen: int) {
    && 1 <= blocks && 7 <= eccLen <= 30
    && blocks * (eccLen + 1) <= raw <= blocks * 254
    && 9 <= raw - eccLen * blocks <= 2956
  }

  lemma SmallVersionsSplit(v: int, ecl: Ecc)
    requires 1 <= v <= 20
    ensures Splits(RawTable(v), NumBlocks(v, ecl), EccLen(v, ecl))
  {
  }

  lemma LargeVersionsSplit(v: int, ecl: Ecc)
    requires 20 < v <= 40
    ensures Splits(RawTable(v), NumBlocks(v, ecl), EccLen(v, ecl))
  {
  }

  lemma BlocksAreSound(v: int, ecl: Ecc)
    requires IsVersion(v)
    ensures 1 <= NumBlocks(v, ecl) && 7 <= EccLen(v, ecl) <= 30
    ensures EccLen(v, ecl) + 1 <= RawCodewords(v) / NumBlocks(v, ecl) <= 254
    ensures 9 <= NumDataCodewords(v, ecl) <= 2956
  {
    hide RawTable, EccLen, NumBlocks, RawCodewords;
    RawIsTabulated(v);
    if v <= 20 {
      SmallVersionsSplit(v, ecl);
    } else {
      LargeVersionsSplit(v, ecl);
    }
    QuotientBounds(RawCodewords(v), NumBlocks(v, ecl), EccLen(v, ecl) + 1, 254);
  }

  // More protection never leaves more room.
  lemma CapacityDecreases(v: int, ecl: Ecc, ecl': Ecc)
    requires IsVersion(v) && Level(ecl) <= Level(ecl')
    ensures NumDataCodewords(v, ecl') <= NumDataCodewords(v, ecl)
  {
    ProtectionGrows(v);
    hide EccLen, NumBlocks, RawCodewords;
  }

  lemma ProtectionGrows(v: int)
    requires IsVersion(v)
    ensures EccLen(v, Low) * NumBlocks(v, Low) <= EccLen(v, Medium) * NumBlocks(v, Medium)
    ensures EccLen(v, Medium) * NumBlocks(v, Medium) <= EccLen(v, Quartile) * NumBlocks(v, Quartile)
    ensures EccLen(v, Quartile) * NumBlocks(v, Quartile) <= EccLen(v, High) * NumBlocks(v, High)
  {
    if v <= 20 {
    } else {
    }
  }

  // The bytes needed to hold a grid: its size, then one bit for each module.
  function BufferLen(v: int): int {
    (Size(v) * Size(v) + 7) / 8 + 1
  }

  // The modules outside the function area are fewer than all modules.
  lemma RawBelowBuffer(v: int)
    requires IsVersion(v)
    ensures RawCodewords(v) < BufferLen(v)
  {
    var q := v * v;
    assert Size(v) * Size(v) == 16 * q + 136 * v + 289;
    assert (16 * v + 128) * v + 64 == 16 * q + 128 * v + 64;
    assert v >= 2 ==> NumAlign(v) >= 2;
    assert v >= 2 ==> (25 * NumAlign(v) - 10) * NumAlign(v) >= 80 by {
      AlignTerm(NumAlign(v));
    }
  }

  lemma AlignTerm(n: int)
    ensures n >= 2 ==> (25 * n - 10) * n >= 80
  {
    if n >= 2 {
      TimesMonotone(25 * n - 10, 2, n);
      assert (25 * n - 10) * 2 >= 80;
    }
  }

  lemma CodewordsFitBuffer(v: int, ecl: Ecc)
    requires IsVersion(v)
    ensures 0 <= NumDataCodewords(v, ecl) + EccLen(v, ecl) <= RawCodewords(v) < BufferLen(v)
  {
    hide EccLen, NumBlocks, RawCodewords, BufferLen;
    BlocksAreSound(v, ecl);
    RawBelowBuffer(v);
    TimesMonotone(EccLen(v, ecl), 1, NumBlocks(v, ecl));
  }
}
