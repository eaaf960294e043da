// A reader that recovers the data of a finished symbol.
module SymbolReader {
  import opened BitStrings
  import opened Bytes
  import opened ReedSolomon
  import opened Interleaving
  import opened Parameters
  import opened Segments
  import opened DataStream
  import opened Grids
  import opened FunctionPatterns
  import opened Zigzag
  import opened ModuleCount
  import opened FormatBits
  import opened Masking

  // How the codewords of a version and level are split into blocks.
  function LayoutOf(v: int, ecl: Ecc): (l: Layout)
    requires IsVersion(v)
    ensures l.Sound() && l.raw == RawCodewords(v) && l.eccLen == EccLen(v, ecl) && l.DataLen() == NumDataCodewords(v, ecl)
  {
    hide NumBlocks, EccLen, RawCodewords;
    BlocksAreSound(v, ecl);
    Layout(NumBlocks(v, ecl), EccLen(v, ecl), RawCodewords(v))
  }

  lemma RawIsPositive(v: int)
    requires IsVersion(v)
    ensures RawCodewords(v) > 0
  {
    hide NumRawDataModules;
    RawModulesRange(v);
  }

  lemma EnoughBits(v: int, g: Grid)
    requires IsVersion(v) && Square(g, Size(v))
    ensures Size(v) % 2 == 1 && Inside(ZigzagCells(Size(v)), Size(v)) && RawCodewords(v) >= 0
    ensures 8 * RawCodewords(v) <= |Read(FunctionGrid(v), g, Size(v), ZigzagCells(Size(v)))|
  {
    hide RawCodewords, NumRawDataModules, FunctionGrid, Size, ZigzagCells, Read;
    RawIsPositive(v);
    EnoughLightModules(v);
    ReadLength(FunctionGrid(v), FunctionGrid(v), g, Size(v), ZigzagCells(Size(v)));
  }

  // The first bits found on the modules that are not function modules, in zigzag order.
  function CodewordBits(v: int, g: Grid): (bits: Bits)
    requires IsVersion(v) && Square(g, Size(v))
    ensures RawCodewords(v) >= 0 && |bits| == 8 * RawCodewords(v)
  {
    hide RawCodewords, FunctionGrid, ZigzagCells, Read, Square, Inside;
    EnoughBits(v, g);
    Read(FunctionGrid(v), g, Size(v), ZigzagCells(Size(v)))[..8 * RawCodewords(v)]
  }

  function Unmasked(v: int, g: Grid): (h: Grid)
    requires IsVersion(v) && Square(g, Size(v))
    ensures Square(h, Size(v))
  {
    Masked(FunctionGrid(v), g, Size(v), ReadMask(FormatOf(g, Size(v))))
  }

  function Packed(bits: Bits, m: nat): (w: Poly)
    requires |bits| == 8 * m
    ensures |w| == m && w == BytesOf(bits)
  {
    BytesOf(bits)
  }

  function Codewords(v: int, g: Grid): (w: Poly)
    requires IsVersion(v) && Square(g, Size(v))
    ensures |w| == RawCodewords(v)
  {
    hide RawCodewords, CodewordBits, Unmasked, Square, BytesOf, Size, Packed;
    var bits := CodewordBits(v, Unmasked(v, g));
    Packed(bits, RawCodewords(v))
  }

  datatype Contents = Contents(ecl: Ecc, mask: nat, data: Poly)

  // Reads the format, takes the mask off, and collects the data codewords of all blocks.
  function ReadSymbol(v: int, g: Grid): Contents
    requires IsVersion(v) && Square(g, Size(v))
  {
    hide Codewords, LayoutOf, Layout.Sound, RawCodewords, EccLen, NumDataCodewords;
    var format := FormatOf(g, Size(v));
    var l := LayoutOf(v, ReadLevel(format));
    Contents(ReadLevel(format), ReadMask(format), CollectedData(l, Codewords(v, g), l.blocks))
  }

  function ReadSegments(v: int, g: Grid): seq<Chunk>
    requires IsVersion(v) && Square(g, Size(v))
  {
    Decode(BufferBits(ReadSymbol(v, g).data), v)
  }

  // An unmasked grid on which these codewords are drawn.
  ghost predicate Carries(v: int, g: Grid, w: Poly)
    requires IsVersion(v)
  {
    Square(g, Size(v)) && CodewordBits(v, g) == BufferBits(w)
  }

  lemma FormatIsCovered(v: int)
    requires IsVersion(v)
    ensures CoversFormat(FunctionGrid(v), Size(v))
  {
    hide IsFunction, FormatCell;
    var n := Size(v);
    forall x, y | 0 <= x < n && 0 <= y < n && IsFormatCell(n, 31, x, y)
      ensures FunctionGrid(v)[y][x]
    {
      var k :| 0 <= k < 31 && FormatCell(n, k) == Cell(x, y);
      FormatCellIsFunction(v, k);
    }
  }

  ghost predicate SameOutside(area: Grid, g: Grid, h: Grid, n: nat) {
    Square(area, n) && Square(g, n) && Square(h, n) &&
    forall x, y | 0 <= x < n && 0 <= y < n && !area[y][x] :: g[y][x] == h[y][x]
  }

  lemma {:induction false} ReadOutside(area: Grid, g: Grid, h: Grid, n: nat, cells: seq<Cell>)
    requires SameOutside(area, g, h, n) && Inside(cells, n)
    ensures Read(area, g, n, cells) == Read(area, h, n, cells)
  {
    if cells != [] {
      ReadOutside(area, g, h, n, cells[..|cells| - 1]);
    }
  }

  lemma CodewordBitsOutside(v: int, g: Grid, h: Grid)
    requires IsVersion(v) && SameOutside(FunctionGrid(v), g, h, Size(v))
    ensures CodewordBits(v, g) == CodewordBits(v, h)
  {
    hide RawCodewords, FunctionGrid, NumRawDataModules;
    EnoughBits(v, g);
    ReadOutside(FunctionGrid(v), g, h, Size(v), ZigzagCells(Size(v)));
  }

  // Taking the mask off a finished symbol shows the codewords again.
  lemma UnmaskedCarries(v: int, g: Grid, ecl: Ecc, mask: nat, w: Poly)
    requires IsVersion(v) && mask < 8 && Carries(v, g, w)
    ensures var n := Size(v);
            Carries(v, Masked(FunctionGrid(v), Finished(FunctionGrid(v), g, n, ecl, mask), n, mask), w)
  {
    hide FunctionGrid, Masked, Finished, CodewordBits, CoversFormat;
    FormatIsCovered(v);
    UnmaskFinished(FunctionGrid(v), g, Size(v), ecl, mask);
    CodewordBitsOutside(v, g, Masked(FunctionGrid(v), Finished(FunctionGrid(v), g, Size(v), ecl, mask), Size(v), mask));
  }

  // A finished symbol reads back as the level, mask and data it was made from.
  lemma ReadFinishedSymbol(v: int, g: Grid, ecl: Ecc, mask: nat, data: Poly)
    requires IsVersion(v) && mask < 8 && |data| == NumDataCodewords(v, ecl)
    requires Carries(v, g, Interleaved(LayoutOf(v, ecl), data))
    ensures ReadSymbol(v, Finished(FunctionGrid(v), g, Size(v), ecl, mask)) == Contents(ecl, mask, data)
  {
    hide FunctionGrid, Masked, Finished, CodewordBits, Interleaved, CollectedData, FormatOf, ReadLevel, ReadMask,
      NumDataCodewords, RawCodewords, LayoutOf, BufferBits, BytesOf, Layout.DataLen, Layout.Sound;
    var n, l := Size(v), LayoutOf(v, ecl);
    var h := Finished(FunctionGrid(v), g, n, ecl, mask);
    ReadFinished(FunctionGrid(v), g, n, ecl, mask);
    UnmaskedCarries(v, g, ecl, mask, Interleaved(l, data));
    BytesOfBufferBits(Interleaved(l, data));
    CollectAllData(l, data);
  }
}
