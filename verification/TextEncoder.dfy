// Encoding text and binary data, and reading them back from the finished symbol.
module TextEncoder {
  import opened Arithmetic
  import opened BitStrings
  import opened Bytes
  import opened BitBuffer
  import opened Parameters
  import opened Segments
  import opened DataStream
  import opened DataCodewords
  import opened Grids
  import opened SymbolReader
  import opened Encoder

  // ----- text as a segment -----

  // A C string of single-byte characters.
  predicate IsText(text: string) {
    forall i | 0 <= i < |text| :: text[i] < 256 as char
  }

  function BytesOfText(text: string): (data: seq<Byte>)
    requires IsText(text)
    ensures |data| == |text| && forall i | 0 <= i < |text| :: data[i] == Code(text[i] as int)
  {
    seq(|text|, i requires 0 <= i < |text| => Code(text[i] as int))
  }

  // The densest of the three modes that can hold the text.
  function ModeOfText(text: string): Mode {
    if IsNumeric(text) then Numeric else if IsAlphanumeric(text) then Alphanumeric else EightBit
  }

  function TextBits(text: string): (bits: Bits)
    requires IsText(text)
  {
    if IsNumeric(text) then Pack(DigitValues(text), NUMERIC_PACKING)
    else if IsAlphanumeric(text) then Pack(CharsetValues(text), ALPHANUMERIC_PACKING)
    else BufferBits(BytesOfText(text))
  }

  function TextChunks(text: string): seq<Chunk>
    requires IsText(text)
  {
    if text == "" then [] else [Chunk(ModeOfText(text), |text|, TextBits(text))]
  }

  lemma TextBitsLength(text: string)
    requires IsText(text)
    ensures |TextBits(text)| == BitLengthOf(ModeOfText(text), |text|)
  {
    hide Pack;
    if IsNumeric(text) {
      PackLengthExact(DigitValues(text));
    } else if IsAlphanumeric(text) {
      PackLengthExact(CharsetValues(text));
    }
  }

  // ----- reading text -----

  function CharOf(b: Byte): char {
    (Value(b) % 256) as char
  }

  function TextOfBytes(data: seq<Byte>): string {
    seq(|data|, i requires 0 <= i < |data| => CharOf(data[i]))
  }

  function ChunkText(c: Chunk): string {
    match c.mode
    case Numeric => DecodeNumeric(c.bits, c.numChars)
    case Alphanumeric => DecodeAlphanumeric(c.bits, c.numChars)
    case EightBit => if |c.bits| % 8 == 0 then TextOfBytes(BytesOf(c.bits)) else ""
    case _ => ""
  }

  function ReadText(chunks: seq<Chunk>): string {
    if chunks == [] then "" else ChunkText(chunks[0]) + ReadText(chunks[1..])
  }

  lemma BytesRoundTrip(text: string)
    requires IsText(text)
    ensures TextOfBytes(BytesOf(BufferBits(BytesOfText(text)))) == text
  {
    hide Code, Value, BytesOf, BufferBits;
    BytesOfBufferBits(BytesOfText(text));
    forall i | 0 <= i < |text|
      ensures CharOf(BytesOfText(text)[i]) == text[i]
    {
      ValueOfCode(text[i] as int);
    }
  }

  lemma ReadTextChunks(text: string)
    requires IsText(text)
    ensures ReadText(TextChunks(text)) == text
  {
    hide Pack, DecodeNumeric, DecodeAlphanumeric, BytesOf, BufferBits, BytesOfText, TextOfBytes, DigitValues, CharsetValues,
      IsAlphanumeric, IsNumeric;
    if IsNumeric(text) {
      NumericRoundTrip(text);
    } else if IsAlphanumeric(text) {
      AlphanumericRoundTrip(text);
    } else {
      BytesRoundTrip(text);
    }
  }

  // ----- encoding -----

  // A single segment fits the version at the level.
  ghost predicate OneFits(mode: Mode, numChars: nat, bitLength: nat, v: int, ecl: Ecc)
    requires IsVersion(v)
  {
    numChars < Pow2(CharCountBits(mode, v)) &&
    4 + CharCountBits(mode, v) + bitLength <= 8 * NumDataCodewords(v, ecl)
  }

  // Whether every character of the text has a place in the mode.
  predicate CanHold(mode: Mode, text: string) {
    match mode
    case Numeric => forall i | 0 <= i < |text| :: text[i] in "0123456789"
    case Alphanumeric => forall i | 0 <= i < |text| :: text[i] in "0123456789ABCDEFGHIJKLMNOPQRSTUVWXYZ $%*+-./:"
    case EightBit => true
    case _ => false
  }

  ghost predicate FitsIn(mode: Mode, text: string, v: int, ecl: Ecc)
    requires IsVersion(v)
  {
    CanHold(mode, text) && OneFits(mode, |text|, BitLengthOf(mode, |text|), v, ecl)
  }

  // The text is empty, or fits as one segment in some mode that can hold it.
  ghost predicate TextFits(text: string, v: int, ecl: Ecc)
    requires IsVersion(v)
  {
    text == "" || exists mode :: FitsIn(mode, text, v, ecl)
  }

  // ----- no mode does better than the densest -----

  lemma HoldsIff(text: string)
    ensures CanHold(Numeric, text) <==> IsNumeric(text)
    ensures CanHold(Alphanumeric, text) <==> IsAlphanumeric(text)
    ensures IsNumeric(text) ==> IsAlphanumeric(text)
  {
    forall i | 0 <= i < |text|
      ensures text[i] in "0123456789" <==> '0' <= text[i] <= '9'
      ensures text[i] in "0123456789" ==> InCharset(text[i])
    {
      DigitIn(text[i]);
    }
  }

  lemma DigitIn(c: char)
    ensures c in "0123456789" <==> '0' <= c <= '9'
    ensures c in "0123456789" ==> InCharset(c)
  {
    var digits := "0123456789";
    assert forall k | 0 <= k < 10 :: digits[k] == '0' + k as char;
    if '0' <= c <= '9' {
      assert digits[(c - '0') as int] == c;
      assert ALPHANUMERIC_CHARSET[(c - '0') as int] == c;
    }
  }

  lemma FewCodewords(v: int, ecl: Ecc)
    requires IsVersion(v)
    ensures NumDataCodewords(v, ecl) <= 2956 && (v <= 26 ==> NumDataCodewords(v, ecl) <= 1706)
  {
    BlocksAreSound(v, ecl);
    RawIsTabulated(v);
    hide RawCodewords, EccLen, NumBlocks;
    TimesMonotone(EccLen(v, ecl), 0, NumBlocks(v, ecl));
  }

  // The width of a count field doubles its range for each denser mode, up to 8192.
  lemma CountRanges(v: int)
    requires IsVersion(v)
    ensures Pow2(CharCountBits(Numeric, v)) == if v <= 9 then 1024 else if v <= 26 then 4096 else 16384
    ensures Pow2(CharCountBits(Alphanumeric, v)) == if v <= 9 then 512 else if v <= 26 then 2048 else 8192
    ensures Pow2(CharCountBits(EightBit, v)) == if v <= 9 then 256 else 65536
  {
    assert Pow2(8) == 256;
    assert Pow2(10) == 4 * Pow2(8) && Pow2(12) == 4 * Pow2(10) && Pow2(14) == 4 * Pow2(12) && Pow2(16) == 4 * Pow2(14);
    assert Pow2(9) == 2 * Pow2(8) && Pow2(11) == 2 * Pow2(10) && Pow2(13) == 2 * Pow2(12);
  }

  lemma AlphanumericIsDenser(n: nat, v: int, ecl: Ecc)
    requires IsVersion(v) && n > 0 && OneFits(EightBit, n, BitLengthOf(EightBit, n), v, ecl)
    ensures OneFits(Alphanumeric, n, BitLengthOf(Alphanumeric, n), v, ecl)
  {
    CountRanges(v);
    FewCodewords(v, ecl);
    hide NumDataCodewords, Pow2;
  }

  lemma NumericIsDenser(n: nat, v: int, ecl: Ecc)
    requires IsVersion(v) && n > 0 && OneFits(Alphanumeric, n, BitLengthOf(Alphanumeric, n), v, ecl)
    ensures OneFits(Numeric, n, BitLengthOf(Numeric, n), v, ecl)
  {
    CountRanges(v);
    hide NumDataCodewords, Pow2;
  }

  // A text that fits in any mode fits in the one chosen for it.
  lemma DensestFits(text: string, v: int, ecl: Ecc)
    requires IsVersion(v) && text != ""
    ensures TextFits(text, v, ecl) <==> OneFits(ModeOfText(text), |text|, BitLengthOf(ModeOfText(text), |text|), v, ecl)
  {
    HoldsIff(text);
    hide IsNumeric, IsAlphanumeric, OneFits;
    if mode :| FitsIn(mode, text, v, ecl) {
      if mode == EightBit && ModeOfText(text) != EightBit {
        AlphanumericIsDenser(|text|, v, ecl);
      }
      if mode != Numeric && ModeOfText(text) == Numeric {
        NumericIsDenser(|text|, v, ecl);
      }
    }
    if OneFits(ModeOfText(text), |text|, BitLengthOf(ModeOfText(text), |text|), v, ecl) {
      assert FitsIn(ModeOfText(text), text, v, ecl);
    }
  }

  // ----- what is chosen -----

  // The choice is the right one for a single segment: least version, highest level, and the mask asked for or the best.
  ghost predicate ChosenForOne(mode: Mode, numChars: nat, bitLength: nat, ecl: Ecc, minVersion: int, maxVersion: int,
                               mask: int, boostEcl: bool, c: Choice)
    requires VERSION_MIN <= minVersion && maxVersion <= VERSION_MAX
  {
    && minVersion <= c.version <= maxVersion
    && OneFits(mode, numChars, bitLength, c.version, ecl)
    && (forall v | minVersion <= v < c.version :: !OneFits(mode, numChars, bitLength, v, ecl))
    && OneFits(mode, numChars, bitLength, c.version, c.ecl) && Level(ecl) <= Level(c.ecl)
    && (if boostEcl then forall e: Ecc | OneFits(mode, numChars, bitLength, c.version, e) :: Level(e) <= Level(c.ecl)
        else c.ecl == ecl)
    && RightMask(c, mask)
  }

  // The same for a text, whatever the mode.
  ghost predicate ChosenForText(text: string, ecl: Ecc, minVersion: int, maxVersion: int, mask: int, boostEcl: bool,
                                c: Choice)
    requires VERSION_MIN <= minVersion && maxVersion <= VERSION_MAX
  {
    && minVersion <= c.version <= maxVersion
    && TextFits(text, c.version, ecl) && (forall v | minVersion <= v < c.version :: !TextFits(text, v, ecl))
    && TextFits(text, c.version, c.ecl) && Level(ecl) <= Level(c.ecl)
    && (if boostEcl then forall e: Ecc | TextFits(text, c.version, e) :: Level(e) <= Level(c.ecl) else c.ecl == ecl)
    && RightMask(c, mask)
  }

  lemma HoldsPayload(buffer: seq<Byte>, n: nat, bits: Bits)
    requires Holds(buffer, n, bits)
    ensures BufferBits(buffer)[..|bits|] == bits
  {
    hide Bit;
    forall k | 0 <= k < |bits|
      ensures BufferBits(buffer)[k] == bits[k]
    {
      assert BufferBits(buffer)[k] == BufferBit(buffer, k);
    }
  }

  lemma BytesPayload(buffer: seq<Byte>, data: seq<Byte>)
    requires |data| <= |buffer| && buffer[..|data|] == data
    ensures BufferBits(buffer)[..8 * |data|] == BufferBits(data)
  {
    hide Bit;
    forall k | 0 <= k < 8 * |data|
      ensures BufferBits(buffer)[k] == BufferBits(data)[k]
    {
      assert BufferBits(buffer)[k] == BufferBit(buffer, k) && BufferBits(data)[k] == BufferBit(data, k);
      assert buffer[k / 8] == buffer[..|data|][k / 8];
    }
  }

  // A text too long for its buffer or for the length limit fits no version in range.
  lemma TooLong(text: string, maxVersion: int, v: int, ecl: Ecc)
    requires IsVersion(maxVersion) && 1 <= v <= maxVersion && text != ""
    requires BitLengthOf(ModeOfText(text), |text|) > 8 * BufferLen(maxVersion) ||
             BitLengthOf(ModeOfText(text), |text|) > INT16_MAX
    ensures !TextFits(text, v, ecl)
  {
    hide NumDataCodewords, BufferLen, ModeOfText, Pow2, EccLen, RawCodewords, TextFits;
    DensestFits(text, v, ecl);
    BlocksAreSound(v, ecl);
    CodewordsFitBuffer(v, ecl);
    BufferLenGrows(v, maxVersion);
  }

  lemma OneSegmentFits(seg: Segment, v: int, ecl: Ecc)
    requires IsVersion(v)
    ensures Fits([seg], v, ecl) <==> OneFits(seg.mode, seg.numChars, seg.bitLength, v, ecl)
  {
    hide NumDataCodewords, Pow2, CharCountBits;
    assert [seg][..0] == [];
    assert BitsNeeded([seg], v) == 4 + CharCountBits(seg.mode, v) + seg.bitLength;
    assert [seg][0] == seg;
  }

  lemma OneChunk(seg: Segment)
    requires seg.InRange()
    ensures AllInRange([seg]) && Chunks([seg]) == [seg.AsChunk()] && Arrays([seg]) == {seg.data}
  {
    assert [seg][..0] == [];
    assert [seg][0] == seg;
    hide Segment.AsChunk;
    assert Chunks([seg])[0] == [seg][0].AsChunk();
  }

  // Puts the text in the buffer as a segment in the densest mode, if there is room.
  method MakeText(text: string, buf: array<Byte>, bufLen: nat) returns (ok: bool, seg: Segment)
    requires IsText(text) && bufLen <= buf.Length
    modifies buf
    ensures ok <==> BitLengthOf(ModeOfText(text), |text|) <= 8 * bufLen &&
                    BitLengthOf(ModeOfText(text), |text|) <= INT16_MAX
    ensures ok ==> seg.InRange() && seg.data == buf && seg.mode == ModeOfText(text) && seg.numChars == |text|
    ensures ok ==> seg.bitLength == BitLengthOf(seg.mode, |text|) && seg.Payload() == TextBits(text)
  {
    hide Pack, Code, Bit, IsNumeric, IsAlphanumeric, DigitValues, CharsetValues, BufferBits, Holds;
    seg := Segment(EightBit, 0, buf, 0);
    TextBitsLength(text);
    var size := CalcSegmentBitLength(ModeOfText(text), |text|);
    if IsNumeric(text) {
      if size == -1 || (size + 7) / 8 > bufLen {
        return false, seg;
      }
      var numChars, bitLength := MakeNumeric(text, buf);
      HoldsPayload(buf[..], (bitLength + 7) / 8, TextBits(text));
      seg := Segment(Numeric, numChars, buf, bitLength);
    } else if IsAlphanumeric(text) {
      if size == -1 || (size + 7) / 8 > bufLen {
        return false, seg;
      }
      var numChars, bitLength := MakeAlphanumeric(text, buf);
      HoldsPayload(buf[..], (bitLength + 7) / 8, TextBits(text));
      seg := Segment(Alphanumeric, numChars, buf, bitLength);
    } else {
      if |text| > bufLen {
        return false, seg;
      }
      for i := 0 to |text|
        invariant buf[..i] == BytesOfText(text)[..i]
      {
        buf[i] := Code(text[i] as int);
      }
      if size == -1 {
        return false, seg;
      }
      BytesPayload(buf[..], BytesOfText(text));
      seg := Segment(EightBit, |text|, buf, size);
    }
    ok := true;
  }

  lemma EmptyFits(v: int, ecl: Ecc)
    requires IsVersion(v)
    ensures Fits([], v, ecl) && TextFits("", v, ecl)
  {
    hide NumDataCodewords;
    BlocksAreSound(v, ecl);
  }

  lemma TextChunksWellFormed(c: Choice, text: string, g: Grid)
    requires IsText(text) && Encodes(c, TextChunks(text), g) && TextFits(text, c.version, c.ecl)
    ensures forall i | 0 <= i < |TextChunks(text)| :: WellFormed(TextChunks(text)[i], c.version)
  {
    hide TextBits, Shows, StreamBits, CharCountBits, Pow2, BitLengthOf, NumDataCodewords, ModeOfText, TextFits;
    if text != "" {
      DensestFits(text, c.version, c.ecl);
      TextMode(text);
    }
    TextBitsLength(text);
  }

  lemma TextMode(text: string)
    ensures ModeOfText(text) != Eci
  {
  }

  // The text comes back from the finished symbol.
  lemma TextReadsBack(c: Choice, text: string, g: Grid)
    requires IsText(text) && Encodes(c, TextChunks(text), g) && TextFits(text, c.version, c.ecl)
    ensures Square(g, Size(c.version)) && ReadText(ReadSegments(c.version, g)) == text
  {
    hide TextChunks, WellFormed, ReadText, ReadSegments, ReadSymbol, Encodes, TextFits;
    TextChunksWellFormed(c, text, g);
    EncodedSegmentsReadBack(c, TextChunks(text), g);
    ReadTextChunks(text);
  }

  lemma WellChosenForOne(seg: Segment, ecl: Ecc, minVersion: int, maxVersion: int, mask: int, boostEcl: bool, c: Choice)
    requires VERSION_MIN <= minVersion && maxVersion <= VERSION_MAX
    requires WellChosen([seg], ecl, minVersion, maxVersion, mask, boostEcl, c)
    ensures ChosenForOne(seg.mode, seg.numChars, seg.bitLength, ecl, minVersion, maxVersion, mask, boostEcl, c)
  {
    hide Fits, OneFits, RightMask;
    forall v, e: Ecc | minVersion <= v <= maxVersion
      ensures Fits([seg], v, e) <==> OneFits(seg.mode, seg.numChars, seg.bitLength, v, e)
    {
      OneSegmentFits(seg, v, e);
    }
  }

  lemma ChosenOneForText(text: string, ecl: Ecc, minVersion: int, maxVersion: int, mask: int, boostEcl: bool, c: Choice)
    requires VERSION_MIN <= minVersion && maxVersion <= VERSION_MAX && text != ""
    requires ChosenForOne(ModeOfText(text), |text|, BitLengthOf(ModeOfText(text), |text|), ecl, minVersion, maxVersion,
                          mask, boostEcl, c)
    ensures ChosenForText(text, ecl, minVersion, maxVersion, mask, boostEcl, c)
  {
    hide OneFits, RightMask, ModeOfText, BitLengthOf, TextFits;
    forall v, e: Ecc | minVersion <= v <= maxVersion
      ensures TextFits(text, v, e) <==> OneFits(ModeOfText(text), |text|, BitLengthOf(ModeOfText(text), |text|), v, e)
    {
      DensestFits(text, v, e);
    }
  }

  lemma ChosenFits(text: string, ecl: Ecc, minVersion: int, maxVersion: int, mask: int, boostEcl: bool, c: Choice)
    requires VERSION_MIN <= minVersion && maxVersion <= VERSION_MAX
    requires ChosenForText(text, ecl, minVersion, maxVersion, mask, boostEcl, c)
    ensures minVersion <= c.version <= maxVersion && TextFits(text, c.version, c.ecl)
  {
    hide TextFits, RightMask;
  }

  // Encodes a single segment at the least version in range at which it fits.
  method EncodeOne(seg: Segment, tempBuffer: array<Byte>, qrcode: array<Byte>, ecl: Ecc,
                   minVersion: int, maxVersion: int, mask: int, boostEcl: bool)
    returns (ok: bool, ghost choice: Choice)
    requires seg.InRange() && VERSION_MIN <= minVersion <= maxVersion <= VERSION_MAX && -1 <= mask < 8
    requires tempBuffer != qrcode && qrcode != seg.data
    requires BufferLen(maxVersion) <= tempBuffer.Length && BufferLen(maxVersion) <= qrcode.Length
    modifies tempBuffer, qrcode
    ensures ok <==> exists v | minVersion <= v <= maxVersion :: OneFits(seg.mode, seg.numChars, seg.bitLength, v, ecl)
    ensures !ok ==> qrcode.Length > 0 && qrcode[0] == 0
    ensures ok ==> IsSymbol(qrcode[..]) && SizeOf(qrcode[..]) == Size(choice.version)
    ensures ok ==> ChosenForOne(seg.mode, seg.numChars, seg.bitLength, ecl, minVersion, maxVersion, mask, boostEcl, choice)
    ensures ok ==> Encodes(choice, [old(seg.AsChunk())], View(qrcode[..]))
  {
    hide View, Value, BufferLen, Fits, IsSymbol, Encodes, Size, OneFits, Segment.AsChunk, WellChosen, ChosenForOne;
    OneChunk(seg);
    forall v, e: Ecc | minVersion <= v <= maxVersion
      ensures Fits([seg], v, e) <==> OneFits(seg.mode, seg.numChars, seg.bitLength, v, e)
    {
      OneSegmentFits(seg, v, e);
    }
    ok, choice := EncodeSegmentsAdvanced([seg], ecl, minVersion, maxVersion, mask, boostEcl, tempBuffer, qrcode);
    if ok {
      WellChosenForOne(seg, ecl, minVersion, maxVersion, mask, boostEcl, choice);
    }
  }

  // Encodes no segment at all.
  method EncodeNothing(tempBuffer: array<Byte>, qrcode: array<Byte>, ecl: Ecc,
                       minVersion: int, maxVersion: int, mask: int, boostEcl: bool)
    returns (ok: bool, ghost choice: Choice)
    requires VERSION_MIN <= minVersion <= maxVersion <= VERSION_MAX && -1 <= mask < 8 && tempBuffer != qrcode
    requires BufferLen(maxVersion) <= tempBuffer.Length && BufferLen(maxVersion) <= qrcode.Length
    modifies tempBuffer, qrcode
    ensures ok && ChosenForText("", ecl, minVersion, maxVersion, mask, boostEcl, choice)
    ensures IsSymbol(qrcode[..]) && SizeOf(qrcode[..]) == Size(choice.version)
    ensures Encodes(choice, [], View(qrcode[..]))
  {
    hide View, Value, BufferLen, Fits, IsSymbol, Encodes, Size, WellChosen, ChosenForText;
    EmptyFits(minVersion, ecl);
    ok, choice := EncodeSegmentsAdvanced([], ecl, minVersion, maxVersion, mask, boostEcl, tempBuffer, qrcode);
    NothingChosen(ecl, minVersion, maxVersion, mask, boostEcl, choice);
  }

  lemma NothingChosen(ecl: Ecc, minVersion: int, maxVersion: int, mask: int, boostEcl: bool, c: Choice)
    requires VERSION_MIN <= minVersion && maxVersion <= VERSION_MAX
    requires WellChosen([], ecl, minVersion, maxVersion, mask, boostEcl, c)
    ensures ChosenForText("", ecl, minVersion, maxVersion, mask, boostEcl, c)
  {
    hide Fits, TextFits, RightMask;
    forall v, e: Ecc | minVersion <= v <= maxVersion
      ensures Fits([], v, e) && TextFits("", v, e)
    {
      EmptyFits(v, e);
    }
  }

  lemma NoText()
    ensures TextChunks("") == []
  {
  }

  lemma TextIsChunk(seg: Segment, text: string)
    requires IsText(text) && text != "" && seg.InRange()
    requires seg.mode == ModeOfText(text) && seg.numChars == |text| && seg.Payload() == TextBits(text)
    ensures TextChunks(text) == [seg.AsChunk()]
  {
    hide TextBits, ModeOfText, Segment.Payload;
  }

  // Encodes the text, which can then be read from the modules of the symbol. The version is the least in
  // range with room for it; fails only if there is none.
  method EncodeText(text: string, tempBuffer: array<Byte>, qrcode: array<Byte>, ecl: Ecc,
                    minVersion: int, maxVersion: int, mask: int, boostEcl: bool)
    returns (ok: bool, ghost choice: Choice)
    requires IsText(text) && VERSION_MIN <= minVersion <= maxVersion <= VERSION_MAX && -1 <= mask < 8
    requires tempBuffer != qrcode
    requires BufferLen(maxVersion) <= tempBuffer.Length && BufferLen(maxVersion) <= qrcode.Length
    modifies tempBuffer, qrcode
    ensures ok <==> exists v | minVersion <= v <= maxVersion :: TextFits(text, v, ecl)
    ensures !ok ==> qrcode.Length > 0 && qrcode[0] == 0
    ensures ok ==> IsSymbol(qrcode[..]) && SizeOf(qrcode[..]) == Size(choice.version)
    ensures ok ==> ChosenForText(text, ecl, minVersion, maxVersion, mask, boostEcl, choice)
    ensures ok ==> Encodes(choice, TextChunks(text), View(qrcode[..]))
    ensures ok ==> ReadText(ReadSegments(choice.version, View(qrcode[..]))) == text
  {
    hide View, Value, BufferLen, IsSymbol, Encodes, Size, TextBits, OneFits, FitsIn, BitLengthOf, ModeOfText, ReadText,
      ReadSegments, Segment.AsChunk, TextChunks, Segment.Payload, ChosenForOne, ChosenForText;
    BufferLenGrows(maxVersion, maxVersion);
    if text == "" {
      assert TextFits(text, minVersion, ecl);
      NoText();
      ok, choice := EncodeNothing(tempBuffer, qrcode, ecl, minVersion, maxVersion, mask, boostEcl);
      ChosenFits(text, ecl, minVersion, maxVersion, mask, boostEcl, choice);
      TextReadsBack(choice, text, View(qrcode[..]));
      return;
    }
    var made, seg := MakeText(text, tempBuffer, BufferLen(maxVersion));
    if !made {
      qrcode[0] := 0;
      forall v | minVersion <= v <= maxVersion
        ensures !TextFits(text, v, ecl)
      {
        TooLong(text, maxVersion, v, ecl);
      }
      choice := Choice(minVersion, ecl, 0, []);
      return false, choice;
    }
    TextIsChunk(seg, text);
    forall v | minVersion <= v <= maxVersion
      ensures TextFits(text, v, ecl) <==> OneFits(seg.mode, seg.numChars, seg.bitLength, v, ecl)
    {
      DensestFits(text, v, ecl);
    }
    ok, choice := EncodeOne(seg, tempBuffer, qrcode, ecl, minVersion, maxVersion, mask, boostEcl);
    if ok {
      ChosenOneForText(text, ecl, minVersion, maxVersion, mask, boostEcl, choice);
      ChosenFits(text, ecl, minVersion, maxVersion, mask, boostEcl, choice);
      TextReadsBack(choice, text, View(qrcode[..]));
    }
  }

  lemma TooManyBytes(count: nat, v: int, ecl: Ecc)
    requires IsVersion(v) && 8 * count > INT16_MAX
    ensures !OneFits(EightBit, count, 8 * count, v, ecl)
  {
    hide NumDataCodewords, Pow2, CharCountBits;
    BlocksAreSound(v, ecl);
  }

  // Encodes the first bytes of the buffer as one segment, using the buffer as working space. Fails only if no
  // version in range has room for them.
  method EncodeBinary(dataAndTemp: array<Byte>, dataLen: nat, qrcode: array<Byte>, ecl: Ecc,
                      minVersion: int, maxVersion: int, mask: int, boostEcl: bool)
    returns (ok: bool, ghost choice: Choice)
    requires VERSION_MIN <= minVersion <= maxVersion <= VERSION_MAX && -1 <= mask < 8
    requires dataAndTemp != qrcode && dataLen <= dataAndTemp.Length
    requires BufferLen(maxVersion) <= dataAndTemp.Length && BufferLen(maxVersion) <= qrcode.Length
    modifies dataAndTemp, qrcode
    ensures ok <==> exists v | minVersion <= v <= maxVersion :: OneFits(EightBit, dataLen, 8 * dataLen, v, ecl)
    ensures !ok ==> qrcode.Length > 0 && qrcode[0] == 0
    ensures ok ==> IsSymbol(qrcode[..]) && SizeOf(qrcode[..]) == Size(choice.version)
    ensures ok ==> ChosenForOne(EightBit, dataLen, 8 * dataLen, ecl, minVersion, maxVersion, mask, boostEcl, choice)
    ensures ok ==> ReadSegments(choice.version, View(qrcode[..])) ==
                   [Chunk(EightBit, dataLen, BufferBits(old(dataAndTemp[..dataLen])))]
  {
    hide View, Value, BufferLen, IsSymbol, Encodes, Size, OneFits, ReadSegments, ReadSymbol, BufferBits, WellFormed,
      RightMask;
    BufferLenGrows(maxVersion, maxVersion);
    var bitLength := CalcSegmentBitLength(EightBit, dataLen);
    if bitLength == -1 {
      qrcode[0] := 0;
      forall v | minVersion <= v <= maxVersion
        ensures !OneFits(EightBit, dataLen, 8 * dataLen, v, ecl)
      {
        TooManyBytes(dataLen, v, ecl);
      }
      choice := Choice(minVersion, ecl, 0, []);
      return false, choice;
    }
    var seg := Segment(EightBit, dataLen, dataAndTemp, bitLength);
    BytesPayload(dataAndTemp[..], dataAndTemp[..dataLen]);
    ghost var chunk := seg.AsChunk();
    ok, choice := EncodeOne(seg, dataAndTemp, qrcode, ecl, minVersion, maxVersion, mask, boostEcl);
    if ok {
      BytesChunkWellFormed(chunk, choice.version, choice.ecl);
      EncodedSegmentsReadBack(choice, [chunk], View(qrcode[..]));
    }
  }

  lemma BytesChunkWellFormed(c: Chunk, v: int, ecl: Ecc)
    requires IsVersion(v) && c.mode == EightBit && |c.bits| == 8 * c.numChars
    requires OneFits(EightBit, c.numChars, 8 * c.numChars, v, ecl)
    ensures WellFormed(c, v)
  {
    hide NumDataCodewords, Pow2, CharCountBits;
  }
}
