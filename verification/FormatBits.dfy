// The format bits, which record the error correction level and the mask on the symbol itself.
module FormatBits {
  import opened BitStrings
  import opened Bytes
  import opened Grids
  import opened Parameters
  import opened FunctionPatterns
  import opened LightPatterns
  import opened Zigzag

  // ----- the 15-bit word -----

  type Word = bv16

  function EccCode(ecl: Ecc): Word {
    match ecl
    case Low => 1
    case Medium => 0
    case Quartile => 3
    case High => 2
  }

  function MaskCode(mask: nat): Word
    requires mask < 8
  {
    match mask
    case 0 => 0 case 1 => 1 case 2 => 2 case 3 => 3 case 4 => 4 case 5 => 5 case 6 => 6
    case _ => 7
  }

  function FormatData(ecl: Ecc, mask: nat): Word
    requires mask < 8
  {
    (EccCode(ecl) << 3) | MaskCode(mask)
  }

  function DivisionStep(rem: Word): Word {
    (rem << 1) ^ ((rem >> 9) * 0x537)
  }

  function Remainder(data: Word, i: nat): Word {
    if i == 0 then data else DivisionStep(Remainder(data, i - 1))
  }

  function Pack(data: Word, rem: Word): Word {
    ((data << 10) | rem) ^ 0x5412
  }

  function FormatWord(ecl: Ecc, mask: nat): Word
    requires mask < 8
  {
    Pack(FormatData(ecl, mask), Remainder(FormatData(ecl, mask), 10))
  }

  // 1 << i
  function WordPower(i: nat): Word
    requires i < 15
  {
    match i
    case 0 => 1 case 1 => 2 case 2 => 4 case 3 => 8 case 4 => 16 case 5 => 32 case 6 => 64 case 7 => 128
    case 8 => 0x100 case 9 => 0x200 case 10 => 0x400 case 11 => 0x800 case 12 => 0x1000 case 13 => 0x2000
    case _ => 0x4000
  }

  predicate Overlaps(w: Word, p: Word) {
    w & p != 0
  }

  predicate WordBit(w: Word, i: nat)
    requires i < 15
  {
    Overlaps(w, WordPower(i))
  }

  // The bits of the word, least significant first.
  function WordBits(w: Word): (bits: Bits)
    ensures |bits| == 15 && forall i | 0 <= i < 15 :: bits[i] == WordBit(w, i)
  {
    seq(15, i requires 0 <= i < 15 => WordBit(w, i))
  }

  // ----- reading the word -----

  // The level and mask in the five data bits, which are the upper ones, with the fixed pattern taken off.
  function ReadLevel(bits: Bits): Ecc
    requires |bits| == 15
  {
    if !bits[14] then (if bits[13] then Quartile else High) else if bits[13] then Low else Medium
  }

  function ReadMask(bits: Bits): (mask: nat)
    requires |bits| == 15
    ensures mask < 8
  {
    (if !bits[12] then 4 else 0) + (if bits[11] then 2 else 0) + if !bits[10] then 1 else 0
  }

  lemma StepInRange(rem: Word)
    requires rem < 0x400
    ensures DivisionStep(rem) < 0x400
  {
  }

  lemma {:induction false} RemainderInRange(data: Word, i: nat)
    requires data < 32
    ensures Remainder(data, i) < 0x400
  {
    hide DivisionStep;
    if i > 0 {
      RemainderInRange(data, i - 1);
      StepInRange(Remainder(data, i - 1));
    }
  }

  // Packing leaves bit p << 10 to data bit p, flipped where the fixed pattern has a one.
  lemma UpperBit(data: Word, rem: Word, p: Word, flip: bool)
    requires data < 32 && rem < 0x400 && p < 32
    requires p & (p - 1) == 0 && p != 0 && flip == (p & 0x15 != 0)
    ensures Overlaps(Pack(data, rem), p << 10) == (Overlaps(data, p) != flip)
  {
  }

  lemma UpperBits(data: Word, rem: Word)
    requires data < 32 && rem < 0x400
    ensures Overlaps(Pack(data, rem), 0x4000) == !Overlaps(data, 16)
    ensures Overlaps(Pack(data, rem), 0x2000) == Overlaps(data, 8)
    ensures Overlaps(Pack(data, rem), 0x1000) == !Overlaps(data, 4)
    ensures Overlaps(Pack(data, rem), 0x800) == Overlaps(data, 2)
    ensures Overlaps(Pack(data, rem), 0x400) == !Overlaps(data, 1)
  {
    hide Overlaps, Pack;
    UpperBit(data, rem, 16, true);
    UpperBit(data, rem, 8, false);
    UpperBit(data, rem, 4, true);
    UpperBit(data, rem, 2, false);
    UpperBit(data, rem, 1, true);
  }

  lemma DataInRange(ecl: Ecc, mask: nat)
    requires mask < 8
    ensures FormatData(ecl, mask) < 32
    ensures Overlaps(FormatData(ecl, mask), 16) == (ecl == Quartile || ecl == High)
    ensures Overlaps(FormatData(ecl, mask), 8) == (ecl == Quartile || ecl == Low)
    ensures Overlaps(FormatData(ecl, mask), 4) == (mask >= 4)
    ensures Overlaps(FormatData(ecl, mask), 2) == (mask % 4 >= 2)
    ensures Overlaps(FormatData(ecl, mask), 1) == (mask % 2 == 1)
  {
  }

  lemma DataBits(w: Word)
    ensures var bits := WordBits(w);
            bits[14] == Overlaps(w, 0x4000) && bits[13] == Overlaps(w, 0x2000) && bits[12] == Overlaps(w, 0x1000) &&
            bits[11] == Overlaps(w, 0x800) && bits[10] == Overlaps(w, 0x400)
  {
    hide Overlaps;
  }

  // The bits of the word that carry the data, in terms of the level and mask.
  lemma DataBitsOfWord(ecl: Ecc, mask: nat)
    requires mask < 8
    ensures var bits := WordBits(FormatWord(ecl, mask));
            bits[14] == !(ecl == Quartile || ecl == High) && bits[13] == (ecl == Quartile || ecl == Low) &&
            bits[12] == !(mask >= 4) && bits[11] == (mask % 4 >= 2) && bits[10] == !(mask % 2 == 1)
  {
    hide FormatData, Remainder, Pack, WordBits, Overlaps;
    var data := FormatData(ecl, mask);
    DataInRange(ecl, mask);
    RemainderInRange(data, 10);
    UpperBits(data, Remainder(data, 10));
    DataBits(FormatWord(ecl, mask));
  }

  // The level and mask can be read back from the word.
  lemma ReadWord(ecl: Ecc, mask: nat)
    requires mask < 8
    ensures ReadLevel(WordBits(FormatWord(ecl, mask))) == ecl
    ensures ReadMask(WordBits(FormatWord(ecl, mask))) == mask
  {
    hide WordBits, FormatWord;
    DataBitsOfWord(ecl, mask);
  }

  // ----- where the bits go -----

  // The cells of the two copies in drawing order, and the module that is always dark.
  function FormatCell(n: nat, k: nat): Cell
    requires k < 31
  {
    if k <= 5 then Cell(8, k)
    else if k == 6 then Cell(8, 7)
    else if k == 7 then Cell(8, 8)
    else if k == 8 then Cell(7, 8)
    else if k < 15 then Cell(14 - k, 8)
    else if k < 23 then Cell(n - 1 - (k - 15), 8)
    else if k < 30 then Cell(8, n - 15 + (k - 15))
    else Cell(8, n - 8)
  }

  function FormatColor(bits: Bits, k: nat): bool
    requires |bits| == 15 && k < 31
  {
    k == 30 || bits[k % 15]
  }

  lemma FormatCellsDistinct(n: nat, j: nat, k: nat)
    requires n >= 21 && j < k < 31
    ensures FormatCell(n, j) != FormatCell(n, k)
  {
  }

  lemma FormatCellInside(n: nat, k: nat)
    requires n >= 21 && k < 31
    ensures 0 <= FormatCell(n, k).x < n && 0 <= FormatCell(n, k).y < n
  {
  }

  // Every format cell lies in the function area.
  lemma FormatCellIsFunction(v: int, k: nat)
    requires IsVersion(v) && k < 31
    ensures var p := FormatCell(Size(v), k); IsFunction(v, p.x, p.y)
  {
    hide IsFunction;
    var p := FormatCell(Size(v), k);
    InFinderRects(v, if k < 15 then 2 else if k < 23 then 3 else 4, p.x, p.y);
  }

  // The grid with the first m format cells drawn.
  function WithFormat(g: Grid, n: nat, bits: Bits, m: nat): (g': Grid)
    requires Square(g, n) && n >= 21 && |bits| == 15 && m <= 31
    ensures Square(g', n)
  {
    if m == 0 then g
    else
      var p := FormatCell(n, m - 1);
      FormatCellInside(n, m - 1);
      SetAt(WithFormat(g, n, bits, m - 1), n, p.x, p.y, FormatColor(bits, m - 1))
  }

  ghost predicate IsFormatCell(n: nat, m: nat, x: int, y: int)
    requires m <= 31
  {
    exists k | 0 <= k < m :: FormatCell(n, k) == Cell(x, y)
  }

  lemma {:induction false} FormatElsewhere(g: Grid, n: nat, bits: Bits, m: nat, x: nat, y: nat)
    requires Square(g, n) && n >= 21 && |bits| == 15 && m <= 31 && x < n && y < n
    requires !IsFormatCell(n, m, x, y)
    ensures WithFormat(g, n, bits, m)[y][x] == g[y][x]
  {
    hide FormatCell, SetAt;
    if m > 0 {
      FormatElsewhere(g, n, bits, m - 1, x, y);
      FormatCellInside(n, m - 1);
      assert FormatCell(n, m - 1) != Cell(x, y);
    }
  }

  lemma {:induction false} FormatAt(g: Grid, n: nat, bits: Bits, m: nat, k: nat)
    requires Square(g, n) && n >= 21 && |bits| == 15 && k < m <= 31
    ensures var p := FormatCell(n, k);
            0 <= p.x < n && 0 <= p.y < n && WithFormat(g, n, bits, m)[p.y][p.x] == FormatColor(bits, k)
  {
    hide FormatCell, SetAt, FormatColor;
    FormatCellInside(n, m - 1);
    FormatCellInside(n, k);
    if k < m - 1 {
      FormatAt(g, n, bits, m - 1, k);
      FormatCellsDistinct(n, k, m - 1);
    }
  }

  // Only what was outside the format cells shows through.
  lemma FormatOverwrites(g: Grid, h: Grid, n: nat, bits: Bits)
    requires Square(g, n) && Square(h, n) && n >= 21 && |bits| == 15
    requires forall x, y | 0 <= x < n && 0 <= y < n && !IsFormatCell(n, 31, x, y) :: g[y][x] == h[y][x]
    ensures WithFormat(g, n, bits, 31) == WithFormat(h, n, bits, 31)
  {
    hide WithFormat, FormatColor, FormatCell;
    var g', h' := WithFormat(g, n, bits, 31), WithFormat(h, n, bits, 31);
    forall x, y | 0 <= x < n && 0 <= y < n
      ensures g'[y][x] == h'[y][x]
    {
      if IsFormatCell(n, 31, x, y) {
        var k :| 0 <= k < 31 && FormatCell(n, k) == Cell(x, y);
        FormatAt(g, n, bits, 31, k);
        FormatAt(h, n, bits, 31, k);
      } else {
        FormatElsewhere(g, n, bits, 31, x, y);
        FormatElsewhere(h, n, bits, 31, x, y);
      }
    }
    SameGrid(g', h', n);
  }

  // The bits in the first copy.
  function FormatOf(g: Grid, n: nat): (bits: Bits)
    requires Square(g, n) && n >= 21
    ensures |bits| == 15
  {
    seq(15, k requires 0 <= k < 15 => (
      FormatCellInside(n, k);
      var p := FormatCell(n, k);
      g[p.y][p.x]))
  }

  lemma ReadFormat(g: Grid, n: nat, bits: Bits)
    requires Square(g, n) && n >= 21 && |bits| == 15
    ensures FormatOf(WithFormat(g, n, bits, 31), n) == bits
  {
    hide FormatCell, WithFormat;
    var g' := WithFormat(g, n, bits, 31);
    forall k | 0 <= k < 15
      ensures FormatOf(g', n)[k] == bits[k]
    {
      FormatAt(g, n, bits, 31, k);
    }
  }

  // ----- drawing -----

  // The symbol shows g with the first k format cells drawn.
  ghost predicate FormatDrawn(qrcode: seq<Byte>, n: nat, g: Grid, bits: Bits, k: nat) {
    IsSymbol(qrcode) && SizeOf(qrcode) == n && Square(g, n) && |bits| == 15 && k <= 31 &&
    View(qrcode) == WithFormat(g, n, bits, k)
  }

  method SetFormatModule(qrcode: array<Byte>, x: int, y: int, isDark: bool,
                         ghost n: nat, ghost g: Grid, ghost bits: Bits, ghost k: nat)
    requires k < 31 && |bits| == 15 && FormatDrawn(qrcode[..], n, g, bits, k)
    requires FormatCell(n, k) == Cell(x, y) && isDark == FormatColor(bits, k)
    modifies qrcode
    ensures FormatDrawn(qrcode[..], n, g, bits, k + 1)
  {
    hide View, Value, FormatCell;
    FormatCellInside(n, k);
    SetModule(qrcode, x, y, isDark);
  }

  method DrawFirstCopy(bits: Word, qrcode: array<Byte>, ghost n: nat, ghost g: Grid)
    requires n >= 21 && FormatDrawn(qrcode[..], n, g, WordBits(bits), 0)
    modifies qrcode
    ensures FormatDrawn(qrcode[..], n, g, WordBits(bits), 15)
  {
    hide WordBit, FormatDrawn;
    ghost var bs := WordBits(bits);
    for i := 0 to 6
      invariant FormatDrawn(qrcode[..], n, g, bs, i)
    {
      SetFormatModule(qrcode, 8, i, WordBit(bits, i), n, g, bs, i);
    }
    SetFormatModule(qrcode, 8, 7, WordBit(bits, 6), n, g, bs, 6);
    SetFormatModule(qrcode, 8, 8, WordBit(bits, 7), n, g, bs, 7);
    SetFormatModule(qrcode, 7, 8, WordBit(bits, 8), n, g, bs, 8);
    for i := 9 to 15
      invariant FormatDrawn(qrcode[..], n, g, bs, i)
    {
      SetFormatModule(qrcode, 14 - i, 8, WordBit(bits, i), n, g, bs, i);
    }
  }

  method DrawSecondCopy(bits: Word, qrcode: array<Byte>, qrsize: nat, ghost g: Grid)
    requires qrsize >= 21 && FormatDrawn(qrcode[..], qrsize, g, WordBits(bits), 15)
    modifies qrcode
    ensures FormatDrawn(qrcode[..], qrsize, g, WordBits(bits), 31)
  {
    hide WordBit, FormatDrawn;
    ghost var bs := WordBits(bits);
    for i := 0 to 8
      invariant FormatDrawn(qrcode[..], qrsize, g, bs, 15 + i)
    {
      SetFormatModule(qrcode, qrsize - 1 - i, 8, WordBit(bits, i), qrsize, g, bs, 15 + i);
    }
    for i := 8 to 15
      invariant FormatDrawn(qrcode[..], qrsize, g, bs, 15 + i)
    {
      SetFormatModule(qrcode, 8, qrsize - 15 + i, WordBit(bits, i), qrsize, g, bs, 15 + i);
    }
    SetFormatModule(qrcode, 8, qrsize - 8, true, qrsize, g, bs, 30);
  }

  // Draws two copies of the format bits; every module of them is drawn.
  method DrawFormatBits(ecl: Ecc, mask: nat, qrcode: array<Byte>)
    requires mask < 8 && IsSymbol(qrcode[..])
    modifies qrcode
    ensures IsSymbol(qrcode[..]) && SizeOf(qrcode[..]) == old(SizeOf(qrcode[..]))
    ensures View(qrcode[..]) ==
            WithFormat(old(View(qrcode[..])), SizeOf(qrcode[..]), WordBits(FormatWord(ecl, mask)), 31)
  {
    hide View, Value, WithFormat, WordBit, FormatWord, FormatDrawn;
    var bits := DrawnWord(ecl, mask);
    ghost var g := View(qrcode[..]);
    var qrsize := Value(qrcode[0]);
    NoFormat(qrcode[..], WordBits(bits));
    DrawFirstCopy(bits, qrcode, qrsize, g);
    DrawSecondCopy(bits, qrcode, qrsize, g);
    FormatIsDrawn(qrcode[..], qrsize, g, WordBits(bits));
  }

  lemma FormatIsDrawn(qrcode: seq<Byte>, n: nat, g: Grid, bits: Bits)
    requires FormatDrawn(qrcode, n, g, bits, 31)
    ensures IsSymbol(qrcode) && SizeOf(qrcode) == n >= 21 && View(qrcode) == WithFormat(g, n, bits, 31)
  {
    hide WithFormat, View, Value;
  }

  lemma NoFormat(qrcode: seq<Byte>, bits: Bits)
    requires IsSymbol(qrcode) && |bits| == 15
    ensures FormatDrawn(qrcode, SizeOf(qrcode), View(qrcode), bits, 0)
  {
    hide View, Value;
  }

  // Appends the remainder of the level and mask to them.
  method DrawnWord(ecl: Ecc, mask: nat) returns (bits: Word)
    requires mask < 8
    ensures bits == FormatWord(ecl, mask)
  {
    hide FormatData, Pack, DivisionStep;
    var data := FormatData(ecl, mask);
    var rem := data;
    for i := 0 to 10
      invariant rem == Remainder(data, i)
    {
      rem := DivisionStep(rem);
    }
    bits := Pack(data, rem);
  }
}
