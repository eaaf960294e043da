// Encoding segments as a finished symbol, and reading the symbol back.
module Encoder {
  import opened Arithmetic
  import opened BitStrings
  import opened Bytes
  import opened BitBuffer
  import opened ReedSolomon
  import opened Interleaving
  import opened Parameters
  import opened Segments
  import opened DataStream
  import opened DataCodewords
  import opened Grids
  import opened FunctionPatterns
  import opened LightPatterns
  import opened Zigzag
  import opened FormatBits
  import opened Masking
  import opened SymbolReader

  // ----- from data codewords to an unmasked grid -----

  lemma PlacedCarries(v: int, qrcode: seq<Byte>, w: Poly)
    requires IsVersion(v) && |w| == RawCodewords(v)
    requires Progress(qrcode, FunctionGrid(v), Size(v), ZigzagCells(Size(v)), BufferBits(w), |BufferBits(w)|)
    ensures IsSymbol(qrcode) && SizeOf(qrcode) == Size(v) && Carries(v, View(qrcode), w)
  {
    hide RawCodewords, FunctionGrid, ZigzagCells, Read, View, Value, BufferBits;
    EnoughBits(v, FunctionGrid(v));
    EnoughBits(v, View(qrcode));
  }

  lemma DataKeptCarries(v: int, g: Grid, qrcode: seq<Byte>, w: Poly)
    requires IsVersion(v) && Carries(v, g, w) && DataKept(v, g, qrcode)
    ensures IsSymbol(qrcode) && SizeOf(qrcode) == Size(v) && Carries(v, View(qrcode), w)
  {
    hide CodewordBits, View, Value, IsFunction;
    CodewordBitsOutside(v, g, View(qrcode));
  }

  // Every module of the function area shows its pattern, and is dark where there is none.
  ghost predicate FunctionDrawn(v: int, g: Grid)
    requires IsVersion(v)
  {
    Square(g, Size(v)) && forall x, y | 0 <= x < Size(v) && 0 <= y < Size(v) && IsFunction(v, x, y) ::
      g[y][x] == Over(PatternAt(v, x, y), true)
  }

  lemma PlacedThenPatterned(v: int, qrcode: seq<Byte>, w: Poly, h: Grid)
    requires IsVersion(v) && |w| == RawCodewords(v)
    requires Progress(qrcode, FunctionGrid(v), Size(v), ZigzagCells(Size(v)), BufferBits(w), |BufferBits(w)|)
    requires Patterned(v, View(qrcode), h)
    ensures FunctionDrawn(v, h)
  {
    hide RawCodewords, ZigzagCells, Read, View, Value, BufferBits, IsFunction, PatternAt, Size;
  }

  method AddCodewords(v: int, ecl: Ecc, data: array<Byte>, result: array<Byte>)
    requires IsVersion(v) && data != result && BufferLen(v) <= data.Length && BufferLen(v) <= result.Length
    requires 0 <= NumDataCodewords(v, ecl) < BufferLen(v)
    modifies data, result
    ensures 0 < RawCodewords(v) < BufferLen(v)
    ensures result[..RawCodewords(v)] == Interleaved(LayoutOf(v, ecl), old(data[..NumDataCodewords(v, ecl)]))
  {
    hide RawCodewords, BufferLen, NumDataCodewords, EccLen, Interleaved, LayoutOf, Layout.DataLen, Layout.Sound;
    CodewordsFitBuffer(v, ecl);
    RawIsPositive(v);
    AddEccAndInterleave(LayoutOf(v, ecl), data, result);
  }

  // Draws the function area, the codewords and the light function modules.
  method DrawGrid(v: int, codewords: array<Byte>, qrcode: array<Byte>)
    requires IsVersion(v) && codewords != qrcode && BufferLen(v) <= qrcode.Length
    requires 0 < RawCodewords(v) <= codewords.Length
    modifies qrcode
    ensures IsSymbol(qrcode[..]) && SizeOf(qrcode[..]) == Size(v)
    ensures Carries(v, View(qrcode[..]), codewords[..RawCodewords(v)]) && FunctionDrawn(v, View(qrcode[..]))
  {
    hide RawCodewords, FunctionGrid, View, Value, BufferLen, Progress, Carries, DataKept, IsSymbol, Read, ZigzagCells,
      Inside, Size, Bit, Patterned, FunctionDrawn;
    InitializeFunctionModules(v, qrcode);
    EnoughBits(v, FunctionGrid(v));
    ghost var w := codewords[..RawCodewords(v)];
    DrawCodewords(codewords, RawCodewords(v), qrcode);
    PlacedCarries(v, qrcode[..], w);
    ghost var drawn := qrcode[..];
    DrawLightFunctionModules(v, qrcode);
    DataKeptCarries(v, View(drawn), qrcode[..], w);
    PlacedThenPatterned(v, drawn, w, View(qrcode[..]));
  }

  // Adds error correction and draws everything except the format bits; the temporary buffer ends up marking
  // the function area.
  method DrawSymbol(v: int, ecl: Ecc, tempBuffer: array<Byte>, qrcode: array<Byte>)
    requires IsVersion(v) && tempBuffer != qrcode
    requires BufferLen(v) <= tempBuffer.Length && BufferLen(v) <= qrcode.Length
    requires 0 <= NumDataCodewords(v, ecl) < BufferLen(v)
    modifies tempBuffer, qrcode
    ensures IsSymbol(tempBuffer[..]) && SizeOf(tempBuffer[..]) == Size(v)
    ensures View(tempBuffer[..]) == FunctionGrid(v)
    ensures IsSymbol(qrcode[..]) && SizeOf(qrcode[..]) == Size(v)
    ensures Carries(v, View(qrcode[..]), Interleaved(LayoutOf(v, ecl), old(qrcode[..NumDataCodewords(v, ecl)])))
    ensures FunctionDrawn(v, View(qrcode[..]))
  {
    hide RawCodewords, FunctionGrid, View, Value, BufferLen, NumDataCodewords, EccLen, Carries, FunctionDrawn,
      Interleaved, LayoutOf, Layout.DataLen, Layout.Sound, IsSymbol;
    AddCodewords(v, ecl, qrcode, tempBuffer);
    DrawGrid(v, tempBuffer, qrcode);
    InitializeFunctionModules(v, tempBuffer);
  }

  // ----- the whole encoder -----

  // What a successful encoding decided: the version, level and mask, and the grid before masking.
  datatype Choice = Choice(version: int, ecl: Ecc, mask: nat, unmasked: Grid)

  // The mask asked for, or the best one when -1 was asked for.
  ghost predicate RightMask(c: Choice, mask: int) {
    IsVersion(c.version) && c.mask < 8 &&
    if mask == -1 then BestMask(FunctionGrid(c.version), c.unmasked, Size(c.version), c.ecl, c.mask, 8)
    else c.mask == mask
  }

  // The version is the least at which the segments fit, the level the highest at which they still do (or the
  // one asked for), and the mask the one asked for or the best.
  ghost predicate WellChosen(segs: seq<Segment>, ecl: Ecc, minVersion: int, maxVersion: int, mask: int, boostEcl: bool,
                             c: Choice)
    requires VERSION_MIN <= minVersion && maxVersion <= VERSION_MAX
  {
    && minVersion <= c.version <= maxVersion
    && Fits(segs, c.version, ecl) && (forall v | minVersion <= v < c.version :: !Fits(segs, v, ecl))
    && Fits(segs, c.version, c.ecl) && Level(ecl) <= Level(c.ecl)
    && (if boostEcl then forall e: Ecc | Fits(segs, c.version, e) :: Level(e) <= Level(c.ecl) else c.ecl == ecl)
    && RightMask(c, mask)
  }

  // The symbol carries these data codewords and the function patterns, finished as the choice says.
  ghost predicate Shows(c: Choice, data: Poly, g: Grid) {
    IsVersion(c.version) && c.mask < 8 && |data| == NumDataCodewords(c.version, c.ecl) &&
    Carries(c.version, c.unmasked, Interleaved(LayoutOf(c.version, c.ecl), data)) &&
    FunctionDrawn(c.version, c.unmasked) &&
    g == Finished(FunctionGrid(c.version), c.unmasked, Size(c.version), c.ecl, c.mask)
  }

  lemma ShowsReads(c: Choice, data: Poly, g: Grid)
    requires Shows(c, data, g)
    ensures Square(g, Size(c.version)) && ReadSymbol(c.version, g) == Contents(c.ecl, c.mask, data)
  {
    hide NumDataCodewords, LayoutOf, Interleaved, Finished, FunctionGrid, CodewordBits, ReadSymbol, Layout.DataLen,
      FunctionDrawn;
    ReadFinishedSymbol(c.version, c.unmasked, c.ecl, c.mask, data);
  }

  // On the finished symbol every module of the function area but the format cells shows its pattern.
  lemma ShowsPatterns(c: Choice, data: Poly, g: Grid, x: int, y: int)
    requires Shows(c, data, g) && 0 <= x < Size(c.version) && 0 <= y < Size(c.version)
    requires IsFunction(c.version, x, y) && !IsFormatCell(Size(c.version), 31, x, y)
    ensures Square(g, Size(c.version)) && g[y][x] == Over(PatternAt(c.version, x, y), true)
  {
    hide NumDataCodewords, LayoutOf, Interleaved, CodewordBits, Layout.DataLen, Layout.Sound, IsFormatCell, IsFunction,
      PatternAt, MaskBit, WithFormat, FormatWord, WordBits;
    var v, n := c.version, Size(c.version);
    FormatElsewhere(Masked(FunctionGrid(v), c.unmasked, n, c.mask), n, WordBits(FormatWord(c.ecl, c.mask)), 31, x, y);
  }

  method SelectLevel(segs: seq<Segment>, version: int, ecl: Ecc, boostEcl: bool, dataUsedBits: int) returns (level: Ecc)
    requires IsVersion(version) && Fits(segs, version, ecl) && dataUsedBits == BitsNeeded(segs, version)
    ensures Fits(segs, version, level) && Level(ecl) <= Level(level)
    ensures if boostEcl then forall e: Ecc | Fits(segs, version, e) :: Level(e) <= Level(level) else level == ecl
  {
    hide CountsFit, NumDataCodewords, BitsNeeded;
    level := BoostLevel(version, ecl, boostEcl, dataUsedBits);
  }

  lemma BufferLenGrows(v: int, w: int)
    requires IsVersion(v) && IsVersion(w) && v <= w
    ensures 0 < BufferLen(v) <= BufferLen(w)
  {
    TimesMonotone(Size(v), Size(v), Size(w));
    TimesMonotone(Size(w), Size(v), Size(w));
  }

  lemma HoldsFirst(buffer: seq<Byte>, n: nat, m: nat, bits: Bits)
    requires Holds(buffer, n, bits) && m <= n && |bits| == 8 * m
    ensures buffer[..m] == BytesOf(bits)
  {
    hide Bit, ByteOf;
    assert Holds(buffer, m, bits);
    HoldsBytes(buffer, m, bits);
  }

  function PaddedBytes(bits: Bits, capacity: nat): (data: Poly)
    requires |bits| <= 8 * capacity
    ensures |data| == capacity && BufferBits(data) == Padded(bits, capacity)
  {
    hide Padded, BytesOf;
    PaddedFillsCapacity(bits, capacity);
    BufferBitsBytesOf(Padded(bits, capacity));
    BytesOf(Padded(bits, capacity))
  }

  // The data codewords of a symbol.
  function DataOf(chunks: seq<Chunk>, v: int, ecl: Ecc): Poly
    requires IsVersion(v) && |StreamBits(chunks, v)| <= 8 * NumDataCodewords(v, ecl)
  {
    PaddedBytes(StreamBits(chunks, v), NumDataCodewords(v, ecl))
  }

  lemma FitsStream(segs: seq<Segment>, v: int, ecl: Ecc)
    requires IsVersion(v) && AllInRange(segs) && Fits(segs, v, ecl)
    ensures |StreamBits(Chunks(segs), v)| <= 8 * NumDataCodewords(v, ecl)
  {
    hide StreamBits, NumDataCodewords, BitsNeeded, Segment.AsChunk;
    StreamLength(segs, v);
  }

  // Builds the data codewords and draws the symbol without mask and format bits.
  method BuildSymbol(segs: seq<Segment>, v: int, ecl: Ecc, tempBuffer: array<Byte>, qrcode: array<Byte>)
    requires IsVersion(v) && AllInRange(segs) && Fits(segs, v, ecl)
    requires tempBuffer != qrcode && qrcode !in Arrays(segs)
    requires BufferLen(v) <= tempBuffer.Length && BufferLen(v) <= qrcode.Length
    modifies tempBuffer, qrcode
    ensures IsSymbol(tempBuffer[..]) && SizeOf(tempBuffer[..]) == Size(v)
    ensures View(tempBuffer[..]) == FunctionGrid(v)
    ensures IsSymbol(qrcode[..]) && SizeOf(qrcode[..]) == Size(v)
    ensures |StreamBits(old(Chunks(segs)), v)| <= 8 * NumDataCodewords(v, ecl)
    ensures |DataOf(old(Chunks(segs)), v, ecl)| == NumDataCodewords(v, ecl)
    ensures Carries(v, View(qrcode[..]), Interleaved(LayoutOf(v, ecl), DataOf(old(Chunks(segs)), v, ecl)))
    ensures FunctionDrawn(v, View(qrcode[..]))
  {
    hide RawCodewords, FunctionGrid, View, Value, BufferLen, NumDataCodewords, Carries, Interleaved, LayoutOf, FunctionDrawn,
      IsSymbol, Holds, StreamBits, Padded, BytesOf, CountsFit, BitsNeeded, Layout.DataLen, Layout.Sound, Square;
    FitsStream(segs, v, ecl);
    ghost var bits := StreamBits(Chunks(segs), v);
    PaddedFillsCapacity(bits, NumDataCodewords(v, ecl));
    BuildDataCodewords(segs, v, ecl, qrcode);
    HoldsFirst(qrcode[..], BufferLen(v), NumDataCodewords(v, ecl), Padded(bits, NumDataCodewords(v, ecl)));
    DrawSymbol(v, ecl, tempBuffer, qrcode);
  }

  // The symbol shows these segments as the choice says.
  ghost predicate Encodes(c: Choice, chunks: seq<Chunk>, g: Grid) {
    IsVersion(c.version) && |StreamBits(chunks, c.version)| <= 8 * NumDataCodewords(c.version, c.ecl) &&
    Shows(c, DataOf(chunks, c.version, c.ecl), g)
  }

  // Encodes the segments at a version and level at which they fit.
  method EncodeAt(segs: seq<Segment>, version: int, ecl: Ecc, mask: int, tempBuffer: array<Byte>, qrcode: array<Byte>)
    returns (ghost choice: Choice)
    requires IsVersion(version) && AllInRange(segs) && Fits(segs, version, ecl) && -1 <= mask < 8
    requires tempBuffer != qrcode && qrcode !in Arrays(segs)
    requires BufferLen(version) <= tempBuffer.Length && BufferLen(version) <= qrcode.Length
    modifies tempBuffer, qrcode
    ensures choice.version == version && choice.ecl == ecl && RightMask(choice, mask)
    ensures IsSymbol(qrcode[..]) && SizeOf(qrcode[..]) == Size(version)
    ensures Encodes(choice, old(Chunks(segs)), View(qrcode[..]))
  {
    hide FunctionGrid, View, Value, BufferLen, NumDataCodewords, Carries, Interleaved, LayoutOf, Fits, FunctionDrawn,
      IsSymbol, StreamBits, DataOf, BestMask, Finished, CoversFormat, Layout.DataLen, Layout.Sound, Square;
    BuildSymbol(segs, version, ecl, tempBuffer, qrcode);
    ghost var unmasked := View(qrcode[..]);
    FormatIsCovered(version);
    var chosen := FinishSymbol(tempBuffer, qrcode, ecl, mask);
    choice := Choice(version, ecl, chosen, unmasked);
  }

  // Encodes the segments. The segments may lie in the temporary buffer. Fails only if no version in range fits.
  method EncodeSegmentsAdvanced(segs: seq<Segment>, ecl: Ecc, minVersion: int, maxVersion: int, mask: int,
                                boostEcl: bool, tempBuffer: array<Byte>, qrcode: array<Byte>)
    returns (ok: bool, ghost choice: Choice)
    requires AllInRange(segs) && VERSION_MIN <= minVersion <= maxVersion <= VERSION_MAX && -1 <= mask < 8
    requires tempBuffer != qrcode && qrcode !in Arrays(segs)
    requires BufferLen(maxVersion) <= tempBuffer.Length && BufferLen(maxVersion) <= qrcode.Length
    modifies tempBuffer, qrcode
    ensures ok <==> exists v | minVersion <= v <= maxVersion :: Fits(segs, v, ecl)
    ensures !ok ==> qrcode.Length > 0 && qrcode[0] == 0 && qrcode[1..] == old(qrcode[1..])
    ensures !ok ==> tempBuffer[..] == old(tempBuffer[..])
    ensures ok ==> WellChosen(segs, ecl, minVersion, maxVersion, mask, boostEcl, choice)
    ensures ok ==> IsSymbol(qrcode[..]) && SizeOf(qrcode[..]) == Size(choice.version)
    ensures ok ==> Encodes(choice, old(Chunks(segs)), View(qrcode[..]))
  {
    hide View, Value, BufferLen, NumDataCodewords, Fits, IsSymbol, Encodes, RightMask, Size;
    BufferLenGrows(maxVersion, maxVersion);
    var found, version, dataUsedBits := ChooseVersion(segs, ecl, minVersion, maxVersion);
    if !found {
      qrcode[0] := 0;
      choice := Choice(minVersion, ecl, 0, []);
      ok := false;
      return;
    }
    BufferLenGrows(version, maxVersion);
    var level := SelectLevel(segs, version, ecl, boostEcl, dataUsedBits);
    choice := EncodeAt(segs, version, level, mask, tempBuffer, qrcode);
    ok := true;
  }

  // A decoder recovers the segments from the modules of the symbol.
  lemma EncodedSegmentsReadBack(c: Choice, chunks: seq<Chunk>, g: Grid)
    requires Encodes(c, chunks, g)
    requires forall i | 0 <= i < |chunks| :: WellFormed(chunks[i], c.version)
    ensures Square(g, Size(c.version)) && ReadSymbol(c.version, g).ecl == c.ecl && ReadSymbol(c.version, g).mask == c.mask
    ensures ReadSegments(c.version, g) == chunks
  {
    hide ReadSymbol, StreamBits, Padded, Decode, Shows, NumDataCodewords, BytesOf, BufferBits, Square, WellFormed;
    var capacity := NumDataCodewords(c.version, c.ecl);
    ShowsReads(c, DataOf(chunks, c.version, c.ecl), g);
    PaddedFillsCapacity(StreamBits(chunks, c.version), capacity);
    BufferBitsBytesOf(Padded(StreamBits(chunks, c.version), capacity));
    DecodePadded(chunks, c.version, capacity);
  }
}
