// A symbol with few enough damaged modules still determines everything that was encoded.
module DamagedSymbols {
  import opened BitStrings
  import opened Bytes
  import opened ReedSolomon
  import opened ErrorCorrection
  import opened Interleaving
  import opened Parameters
  import opened Segments
  import opened DataStream
  import opened Grids
  import opened FunctionPatterns
  import opened FormatBits
  import opened FormatCheck
  import opened Masking
  import opened SymbolReader
  import opened Encoder

  // The codewords that show once this mask is taken off.
  function CodewordsUnder(v: int, g: Grid, mask: nat): (w: Poly)
    requires IsVersion(v) && Square(g, Size(v)) && mask < 8
    ensures |w| == RawCodewords(v)
  {
    hide RawCodewords, CodewordBits, Masked, Square, BytesOf, Size, SymbolReader.Packed;
    SymbolReader.Packed(CodewordBits(v, Masked(FunctionGrid(v), g, Size(v), mask)), RawCodewords(v))
  }

  // The codewords of block i that show once this mask is taken off.
  function BlockUnder(v: int, g: Grid, ecl: Ecc, mask: nat, i: nat): (b: Poly)
    requires IsVersion(v) && Square(g, Size(v)) && mask < 8 && i < LayoutOf(v, ecl).blocks
    ensures |b| == LayoutOf(v, ecl).BlockLen(i) + LayoutOf(v, ecl).eccLen
  {
    Collected(LayoutOf(v, ecl), CodewordsUnder(v, g, mask), i)
  }

  // The grid g is the symbol h but for at most three format modules and, in each block, at most half as many codewords
  // as the block has for error correction.
  ghost predicate LightlyDamaged(v: int, h: Grid, g: Grid, ecl: Ecc, mask: nat)
    requires IsVersion(v) && mask < 8
  {
    && Square(h, Size(v)) && Square(g, Size(v))
    && Differing(FormatOf(h, Size(v)), FormatOf(g, Size(v)), 15) <= 3
    && forall i: nat | i < LayoutOf(v, ecl).blocks ::
         2 * Distance(BlockUnder(v, h, ecl, mask, i), BlockUnder(v, g, ecl, mask, i)) <= LayoutOf(v, ecl).eccLen
  }

  // ----- what a symbol shows -----

  lemma FormatShown(c: Choice, data: Poly, g: Grid)
    requires Shows(c, data, g)
    ensures IsVersion(c.version) && c.mask < 8 && Square(g, Size(c.version))
    ensures FormatOf(g, Size(c.version)) == WordBits(FormatWord(c.ecl, c.mask))
  {
    hide NumDataCodewords, LayoutOf, Interleaved, FunctionGrid, CodewordBits, Masked, WithFormat, FormatOf, WordBits,
      FormatWord, Layout.DataLen, Layout.Sound;
    var n := Size(c.version);
    ReadFormat(Masked(FunctionGrid(c.version), c.unmasked, n, c.mask), n, WordBits(FormatWord(c.ecl, c.mask)));
  }

  lemma CodewordsShown(c: Choice, data: Poly, g: Grid)
    requires Shows(c, data, g)
    ensures Square(g, Size(c.version))
    ensures CodewordsUnder(c.version, g, c.mask) == Interleaved(LayoutOf(c.version, c.ecl), data)
  {
    hide NumDataCodewords, LayoutOf, Interleaved, FunctionGrid, CodewordBits, Masked, Finished, BufferBits, BytesOf,
      RawCodewords, Layout.DataLen, Layout.Sound;
    var w := Interleaved(LayoutOf(c.version, c.ecl), data);
    UnmaskedCarries(c.version, c.unmasked, c.ecl, c.mask, w);
    BytesOfBufferBits(w);
  }

  lemma BlockShown(c: Choice, data: Poly, g: Grid, i: nat)
    requires Shows(c, data, g) && i < LayoutOf(c.version, c.ecl).blocks
    ensures var l := LayoutOf(c.version, c.ecl);
            Square(g, Size(c.version)) && |data| == l.DataLen() && l.eccLen > 0 &&
            BlockUnder(c.version, g, c.ecl, c.mask, i) == Codeword(BlockData(l, data, i), l.eccLen)
  {
    CodewordsShown(c, data, g);
    CollectInterleaved(LayoutOf(c.version, c.ecl), data, i);
    hide Shows, CodewordsUnder, Collected, Interleaved, BlockData, Codeword, Layout.DataLen;
  }

  lemma BlockFits(v: int, ecl: Ecc, i: nat)
    requires IsVersion(v) && i < LayoutOf(v, ecl).blocks
    ensures LayoutOf(v, ecl).BlockLen(i) + LayoutOf(v, ecl).eccLen <= 255
  {
    hide NumBlocks, EccLen, RawCodewords, NumDataCodewords;
    BlocksAreSound(v, ecl);
  }

  // ----- uniqueness -----

  lemma {:induction false} SameBlocks(l: Layout, a: Poly, b: Poly, n: nat)
    requires l.Sound() && |a| == l.DataLen() && |b| == l.DataLen() && n <= l.blocks
    requires forall i: nat | i < n :: BlockData(l, a, i) == BlockData(l, b, i)
    ensures l.BlockStart(n) <= l.DataLen() && a[..l.BlockStart(n)] == b[..l.BlockStart(n)]
  {
    hide Layout.Sound, Layout.DataLen, Layout.BlockStart, Layout.BlockLen, BlockData;
    BlockWithinData(l, n, l.blocks);
    if n > 0 {
      SameBlocks(l, a, b, n - 1);
      BlockIs(l, a, n - 1);
      BlockIs(l, b, n - 1);
      assert BlockData(l, a, n - 1) == BlockData(l, b, n - 1);
    }
    FirstBlock(l);
  }

  lemma FirstBlock(l: Layout)
    requires l.Sound()
    ensures l.BlockStart(0) == 0 && l.BlockStart(l.blocks) == l.DataLen()
  {
    BlocksAreConsecutive(l, 0);
  }

  // A block of the damaged symbol is near the codeword of the data.
  lemma BlockIsNear(c: Choice, data: Poly, h: Grid, g: Grid, i: nat)
    requires Shows(c, data, h) && LightlyDamaged(c.version, h, g, c.ecl, c.mask) && i < LayoutOf(c.version, c.ecl).blocks
    ensures var l := LayoutOf(c.version, c.ecl);
            |data| == l.DataLen() && 0 < l.eccLen && Square(g, Size(c.version)) && l.BlockLen(i) + l.eccLen <= 255 &&
            2 * Distance(Codeword(BlockData(l, data, i), l.eccLen), BlockUnder(c.version, g, c.ecl, c.mask, i)) <= l.eccLen
  {
    BlockShown(c, data, h, i);
    BlockFits(c.version, c.ecl, i);
    hide Shows, LayoutOf, BlockUnder, Distance, FormatOf, Differing, Codeword, BlockData, Layout.DataLen, Layout.BlockLen,
      Layout.Sound;
  }

  lemma SameBlock(c: Choice, data: Poly, h: Grid, data': Poly, c': Choice, h': Grid, g: Grid, i: nat)
    requires Shows(c, data, h) && Shows(c', data', h')
    requires c.version == c'.version && c.ecl == c'.ecl && c.mask == c'.mask && i < LayoutOf(c.version, c.ecl).blocks
    requires LightlyDamaged(c.version, h, g, c.ecl, c.mask) && LightlyDamaged(c.version, h', g, c.ecl, c.mask)
    ensures var l := LayoutOf(c.version, c.ecl);
            |data| == l.DataLen() && |data'| == l.DataLen() && BlockData(l, data, i) == BlockData(l, data', i)
  {
    FormatShown(c, data, h);
    BlockIsNear(c, data, h, g, i);
    BlockIsNear(c', data', h', g, i);
    hide *;
    var l := LayoutOf(c.version, c.ecl);
    var received := BlockUnder(c.version, g, c.ecl, c.mask, i);
    HalfTheCodewordsCorrect(BlockData(l, data, i), BlockData(l, data', i), received, l.eccLen);
  }

  // Whatever symbols a grid is a lightly damaged copy of, they have the same version, level, mask and data.
  lemma DamageIsCorrected(c: Choice, data: Poly, h: Grid, c': Choice, data': Poly, h': Grid, g: Grid)
    requires Shows(c, data, h) && Shows(c', data', h')
    requires LightlyDamaged(c.version, h, g, c.ecl, c.mask) && LightlyDamaged(c'.version, h', g, c'.ecl, c'.mask)
    ensures c.version == c'.version && c.ecl == c'.ecl && c.mask == c'.mask && data == data'
  {
    hide Shows, LayoutOf, BlockUnder, Distance, FormatOf, Differing, WordBits, FormatWord, BlockData;
    FormatShown(c, data, h);
    FormatShown(c', data', h');
    SameSize(c.version, c'.version, g);
    ThreeDamagedModules(c.ecl, c.mask, c'.ecl, c'.mask, FormatOf(g, Size(c.version)));
    var l := LayoutOf(c.version, c.ecl);
    SameBlock(c, data, h, data', c', h', g, 0);
    forall i: nat | i < l.blocks
      ensures BlockData(l, data, i) == BlockData(l, data', i)
    {
      SameBlock(c, data, h, data', c', h', g, i);
    }
    SameBlocks(l, data, data', l.blocks);
    FirstBlock(l);
  }

  lemma SameSize(v: int, w: int, g: Grid)
    requires IsVersion(v) && IsVersion(w) && Square(g, Size(v)) && Square(g, Size(w))
    ensures v == w && Size(v) >= 21
  {
  }

  // So does what was encoded: no two lists of segments have symbols with a lightly damaged copy in common.
  lemma SegmentsAreDetermined(c: Choice, chunks: seq<Chunk>, h: Grid, c': Choice, chunks': seq<Chunk>, h': Grid, g: Grid)
    requires Encodes(c, chunks, h) && Encodes(c', chunks', h')
    requires forall i | 0 <= i < |chunks| :: WellFormed(chunks[i], c.version)
    requires forall i | 0 <= i < |chunks'| :: WellFormed(chunks'[i], c'.version)
    requires LightlyDamaged(c.version, h, g, c.ecl, c.mask) && LightlyDamaged(c'.version, h', g, c'.ecl, c'.mask)
    ensures chunks == chunks'
  {
    hide Shows, LightlyDamaged, DataOf, StreamBits, NumDataCodewords, ReadSymbol, Decode, BufferBits, WellFormed, Square;
    var data, data' := DataOf(chunks, c.version, c.ecl), DataOf(chunks', c'.version, c'.ecl);
    DamageIsCorrected(c, data, h, c', data', h', g);
    EncodedSegmentsReadBack(c, chunks, h);
    EncodedSegmentsReadBack(c', chunks', h');
    ShowsReads(c, data, h);
    ShowsReads(c', data', h');
  }
}
