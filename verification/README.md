# Verified models of the QR encoder, the USB redirection host and the monitor utilities

This Dafny project models three parts of the client and proves what they are for. `dafny verify dfyconfig.toml`
checks everything.

**QR encoder** (`src/qr_code_generation/qr_code_gen.c`). The model follows the encoder stage by stage: segment
packing, choice of version and error correction level, the data bit stream and its padding, Reed-Solomon error
correction over GF(2^8/0x11D), interleaving, the zigzag placement, masking, the penalty score, the format bits.
Buffers are arrays of bytes that the methods update in place; each method is proved against a mathematical view of the
buffer (a bit string, a polynomial, a permutation of slots, a grid of modules). The main results are at the end of the
chain: `TextEncoder.EncodeText` promises that a reader (`SymbolReader`) that looks only at the modules of the finished
symbol gets the text back, that it fails exactly if no version has room, and that the version is the least that has,
in whichever mode the text could be held; `Masking.FinishSymbol` that the automatic mask is the first one whose own
finished symbol has the least penalty; `DamagedSymbols.DamageIsCorrected` that a symbol determines its version, level,
mask and data even if three modules of its format bits and, in each block, half as many codewords as the block has for
error correction are damaged, which joins `ErrorCorrection.HalfTheCodewordsCorrect` and
`FormatCheck.ThreeDamagedModules`; `Encoder.ShowsPatterns` that the function patterns are all there.

What a reader looks up rather than computes is written out apart from the formulas of the encoder, and proved equal to
them: the masks and function patterns as pictures (`MaskPictures`, `PatternPictures`, and `SymbolPictures` for the
finished symbol), the format words and the coordinates of both copies (`FormatCopies`), capacities, field widths, pad
bytes and characters (`StandardTables`), the order of the codewords (`InterleavingOrder`, `ZigzagWalk`), and the
penalty as a count over modules (`FinderPatterns`, `LineScores`).

**USB redirection host** (`src/usb_redirection/usbredirhost.c`). Each lock-held region is one step; what libusb
answers and the order in which transfers complete are left open (nondeterministic choices, or parameters). `UsbHost`
holds the whole host and proves in `UsbHost.Run` what every run keeps. libusb's answers to submissions are parameters
of its events. The modules `UsbLink` and `UsbPackets` are its parts for the connect handshake and for control, bulk
and interrupt packets; `UsbBooks` states the bookkeeping of stream transfers on plain values. `UsbIsoOut` and
`UsbInStream` look at one stream at a time: the ring that buffers isochronous output, and the packet ids of input.
There a step is a function on a value, the class in the same module carries the step out in place, and the lemmas are
about runs of steps. `UsbRing` ties the ring to the host: what the host does with an endpoint's transfers at a packet
or a completion is the step on the endpoint's ring, and other rings stay as they are. `UsbRuns` follows the rings
through whole runs of the host: while the transfers of an output stream complete in order, the stream is a run of its
ring, so what `UsbIsoOut` proves of rings holds of the host. `UsbInFlow` does so for input: after any run libusb has
every transfer of an input stream, unless the device was lost, a transfer was reported as cancelled that the host had
not cancelled, or the guest sent a packet for it.

**Monitor utilities** (`src/remote-viewer-util.c`). `Monitors` parses monitor mappings, `MonitorLayout` lays monitors
out in a row, `Versions` compares versions and build ids. Strings are taken as split into tokens and parsed numbers.

Where the code does something its documentation does not say, the model follows the code:

* An isochronous output stream of one transfer with one packet never submits anything and writes past its transfer
  (`UsbIsoOut.SingleOverruns`); the ring is safe exactly if there is room for two packets (`UsbIsoOut.OverrunFreeIff`).
* The empty build id equals every build id with an empty version, so the comparison is transitive through an id
  exactly if that id is not empty (`Versions.TransitiveIffNotEmpty`).
* Version components are compared modulo 2^32 (`Versions.LargeComponentsCollide`): the comparison is the order on all
  versions with components below a bound exactly if the bound is at most 2^31 (`Versions.OrderIffBounded`).
* Monitors are compared by differences modulo 2^32 (`MonitorLayout.FarApartIsReversed`): two of them compare as they
  lie exactly if the difference that decides fits an int (`MonitorLayout.CmpIsBeforeIffFits`).
* Missing display ids are not looked at. Without display 0 nothing is placed (`MonitorLayout.WithoutZeroUnchanged`);
  with it the placed rectangles tile the sum of the widths exactly if no id is missing or display 0 has no width
  (`MonitorLayout.TilesIffDenseOrZero`).
* The comment on `addEccAndInterleave` allows it to overwrite the data buffer up to the raw codeword count; the code
  overwrites only one block's error correction codewords behind the data, and the model says so.

Conventions: a byte is a `bv8`; a bit string is a sequence of Booleans, most significant bit first; `g[y][x]` is true
for a dark module; integers are unbounded, and where the C code relies on a width (the 16-bit limits of segments, the
32-bit differences in the utilities, the 16-bit format word) the model writes it out. `Penalty.ScoreBound` shows that
the score fits the 32 bits it is given.

## Model

| member | source | states |
|---|---|---|
| BitBuffer.AppendBits | src/qr_code_generation/qr_code_gen.c:185-189 | the low bits of the value, most significant first, are or-ed in at the bit position; every other bit of the buffer is kept |
| Bytes.BitOfWithBit | src/qr_code_generation/qr_code_gen.c:790-800 | setting or clearing one bit of a byte leaves the other seven alone |
| Segments.CalcSegmentBitLength | src/qr_code_generation/qr_code_gen.c:860-883 | the exact bit count by mode, or -1 exactly if the characters or the bits exceed 32767 |
| Segments.PackLengthExact | src/qr_code_generation/qr_code_gen.c:860-883 | packing n digits takes exactly ceil(10n/3) bits and n alphanumeric characters exactly ceil(11n/2) |
| Segments.UnpackPack | src/qr_code_generation/qr_code_gen.c:902-965 | unpacking the groups of any packed character sequence gives it back |
| Segments.NumberFits | src/qr_code_generation/qr_code_gen.c:914-927 | the number accumulated from a group always fits the field it is written to |
| Segments.NumericRoundTrip | src/qr_code_generation/qr_code_gen.c:902-932 | decoding the packed bits of any digit string returns it |
| Segments.AlphanumericRoundTrip | src/qr_code_generation/qr_code_gen.c:936-966 | decoding the packed bits of any string over the 45 characters returns it |
| StandardTables.CharacterValues | src/qr_code_generation/qr_code_gen.c:94 | digits count 0 to 9, letters 10 to 35, and the space and the eight signs 36 to 44 in their order |
| StandardTables.NumericGroups | src/qr_code_generation/qr_code_gen.c:914-927 | three digits a, b, c are the ten bits of 100a + 10b + c; two left over take seven bits and one takes four |
| StandardTables.AlphanumericGroups | src/qr_code_generation/qr_code_gen.c:948-961 | two characters are the eleven bits of 45a + b; one left over takes six |
| Segments.MakeNumeric | src/qr_code_generation/qr_code_gen.c:902-932 | the buffer holds exactly the packing of the digits, zero-filled to a byte, and nothing behind it changes |
| Segments.MakeAlphanumeric | src/qr_code_generation/qr_code_gen.c:936-966 | the buffer holds exactly the packing of the characters, zero-filled to a byte, and nothing behind it changes |
| Segments.EciShapes | src/qr_code_generation/qr_code_gen.c:970-993 | the length of a designator can be told from its leading bits |
| Segments.EciRoundTrip | src/qr_code_generation/qr_code_gen.c:970-993 | decoding the designator of any value below 1,000,000 returns it |
| Segments.MakeEci | src/qr_code_generation/qr_code_gen.c:970-993 | the buffer holds exactly the designator |
| DataCodewords.GetTotalBits | src/qr_code_generation/qr_code_gen.c:999-1017 | the sum of the header and payload sizes, or -1 exactly if a count does not fit its field or the sum exceeds 32767 |
| DataCodewords.ChooseVersion | src/qr_code_generation/qr_code_gen.c:210-222 | finds the least version in range at which the segments fit at the level, and fails exactly if there is none |
| DataCodewords.BoostLevel | src/qr_code_generation/qr_code_gen.c:224-228 | with boosting the highest level at which the data still fits, never below the level asked for; without, that level |
| Parameters.CapacityDecreases | src/qr_code_generation/qr_code_gen.c:97-116 | at every version a higher level never has more room for data |
| StandardTables.CapacityIsInTable | src/qr_code_generation/qr_code_gen.c:97-116 | the number of data codewords at each of the 40 versions and 4 levels is the one in the standard's table |
| Parameters.BlocksAreSound | src/qr_code_generation/qr_code_gen.c:97-116 | at every version and level each block holds data, fits the field, and the data capacity is in [9, 2956] |
| Parameters.RawModulesRange | src/qr_code_generation/qr_code_gen.c:339-351 | the number of raw modules is in [208, 29648] |
| Parameters.CodewordsFitBuffer | src/qr_code_generation/qr_code_gen.c:294-303 | data plus the scratch area fits in the raw codewords, and those in the buffer |
| DataCodewords.AppendSegment | src/qr_code_generation/qr_code_gen.c:234-242 | mode, count and payload of the segment follow what the buffer held |
| StandardTables.ModeIndicators | src/qr_code_generation/qr_code_gen.h:92-96 | the four bits that announce each mode: 0001, 0010, 0100, 1000 and 0111 |
| StandardTables.CountWidths | src/qr_code_generation/qr_code_gen.c:1022-1033 | the width of the character count for each mode in versions 1 to 9, 10 to 26 and 27 to 40 |
| DataCodewords.AppendPadding | src/qr_code_generation/qr_code_gen.c:245-258 | terminator, zero fill and alternating pad bytes follow what the buffer held, up to the capacity |
| DataCodewords.BuildDataCodewords | src/qr_code_generation/qr_code_gen.c:230-258 | the buffer holds exactly the concatenated segments, padded to the capacity |
| DataStream.PaddedFillsCapacity | src/qr_code_generation/qr_code_gen.c:245-258 | the padded stream has exactly the capacity, starts with the stream, and has four zeros next wherever there is room |
| StandardTables.PaddingIs | src/qr_code_generation/qr_code_gen.c:245-258 | after the segments up to four zeros, zeros to the end of a byte, and then, for every k, the k-th further codeword is 11101100 for even k and 00010001 for odd k |
| DataStream.DecodeStream | src/qr_code_generation/qr_code_gen.c:234-242 | a decoder of modes and counts recovers any list of segments that obeys the segment contract, whatever follows |
| DataStream.DecodePadded | src/qr_code_generation/qr_code_gen.c:230-258 | the decoder recovers the same segments from the padded stream |
| Galois.Multiply | src/qr_code_generation/qr_code_gen.c:402-410 | the shift-and-add loop computes the field product |
| Galois.TimesIsProductModulo | src/qr_code_generation/qr_code_gen.c:402-410 | the field product is the carry-less product reduced modulo 0x11D |
| Galois.TimesPlus | src/qr_code_generation/qr_code_gen.c:402-410 | the product distributes over xor on both sides |
| Galois.TimesAssoc | src/qr_code_generation/qr_code_gen.c:402-410 | the product is associative |
| Galois.TimesComm | src/qr_code_generation/qr_code_gen.c:402-410 | the product is commutative |
| Galois.NoZeroDivisors | src/qr_code_generation/qr_code_gen.c:402-410 | a product is zero only if a factor is |
| Galois.RootsDistinct | src/qr_code_generation/qr_code_gen.c:369-378 | the powers of 2 below the order of the field are pairwise different |
| ReedSolomon.ComputeDivisor | src/qr_code_generation/qr_code_gen.c:358-379 | the array is the product of (x - 2^i) for i below the degree, with its leading one dropped |
| ReedSolomon.GeneratorRoots | src/qr_code_generation/qr_code_gen.c:358-379 | that product vanishes at every 2^i |
| ReedSolomon.EvalProduct | src/qr_code_generation/qr_code_gen.c:402-410 | evaluating a product of polynomials multiplies the values |
| ReedSolomon.ComputeRemainder | src/qr_code_generation/qr_code_gen.c:384-395 | the shift-and-xor loop leaves the remainder of dividing the data, shifted by the degree, by the generator |
| ReedSolomon.Division | src/qr_code_generation/qr_code_gen.c:384-395 | shifted data is quotient times generator plus remainder |
| ReedSolomon.RemainderUnique | src/qr_code_generation/qr_code_gen.c:384-395 | there is only one such remainder |
| ErrorCorrection.CodewordIsMultiple | src/qr_code_generation/qr_code_gen.c:358-410 | data followed by its remainder is a multiple of the generator and vanishes at every 2^i below the degree |
| ErrorCorrection.VanishesIffCodeword | src/qr_code_generation/qr_code_gen.c:358-410 | a word vanishes at these powers if and only if it is data followed by its remainder |
| ErrorCorrection.MinimumDistance | src/qr_code_generation/qr_code_gen.c:358-410 | two different codewords of a block differ in more places than there are error correction codewords |
| ErrorCorrection.HalfTheCodewordsCorrect | src/qr_code_generation/qr_code_gen.c:358-410 | a word within half that many errors of a codeword is that near to no other one |
| Interleaving.IndexOfValid | src/qr_code_generation/qr_code_gen.c:309-321 | every codeword of every block has a place in the result, and the place determines it |
| Interleaving.SlotOfValid | src/qr_code_generation/qr_code_gen.c:309-321 | every place in the result belongs to a codeword of a block, so the shift for long blocks is a bijection |
| InterleavingOrder.PlacesAreInOrder | src/qr_code_generation/qr_code_gen.c:309-321 | one codeword is placed before another exactly if it is data and the other is not, or both are of one kind and its offset in its block is less, or both offsets are equal and its block comes first |
| InterleavingOrder.BlockLengths | src/qr_code_generation/qr_code_gen.c:294-312 | the blocks of data follow each other without a gap, later ones are at most one longer, and with the error correction codewords they make up the raw codewords |
| Interleaving.CollectInterleaved | src/qr_code_generation/qr_code_gen.c:294-322 | de-interleaving recovers each data block followed by its own Reed-Solomon remainder |
| Interleaving.CollectAllData | src/qr_code_generation/qr_code_gen.c:294-322 | the data parts of all blocks, put together, are the data |
| Interleaving.AddEccAndInterleave | src/qr_code_generation/qr_code_gen.c:294-322 | the result is the interleaving of all blocks; the data and everything behind the scratch area are unchanged |
| Grids.SetModule | src/qr_code_generation/qr_code_gen.c:790-800 | the grid view changes in one module only |
| Grids.SetModuleBounded | src/qr_code_generation/qr_code_gen.c:804-808 | as that, and nothing changes out of bounds |
| Grids.GetModule | src/qr_code_generation/qr_code_gen.c:781-786 | reads the module of the grid view |
| StandardTables.ModuleIsStored | src/qr_code_generation/qr_code_gen.c:781-800 | the first byte is the side length, and module (x, y) is the bit (y * side + x) of the bytes after it, counted from the lowest bit of each |
| FunctionPatterns.GetAlignmentPatternPositions | src/qr_code_generation/qr_code_gen.c:550-560 | the ascending positions, as many as the version has |
| PatternPictures.PositionsAreInTable | src/qr_code_generation/qr_code_gen.c:550-560 | for each of the 40 versions the positions are those in the standard's table |
| FunctionPatterns.AlignPositionsAscend | src/qr_code_generation/qr_code_gen.c:550-560 | positions are at least 12 apart, so that no two patterns overlap |
| FunctionPatterns.AlignPositionsBound | src/qr_code_generation/qr_code_gen.c:550-560 | every position is at least 6 from either border |
| FunctionPatterns.FillRectangle | src/qr_code_generation/qr_code_gen.c:564-569 | exactly the modules of the rectangle become dark |
| FunctionPatterns.InitializeFunctionModules | src/qr_code_generation/qr_code_gen.c:418-449 | exactly the modules of the function area are dark |
| LightPatterns.AlignmentsDisjoint | src/qr_code_generation/qr_code_gen.c:480-489 | no two alignment patterns share a module |
| LightPatterns.PatternIsFunction | src/qr_code_generation/qr_code_gen.c:455-510 | finder, timing, alignment and version patterns lie in the function area |
| LightPatterns.DrawLightFunctionModules | src/qr_code_generation/qr_code_gen.c:455-510 | every module shows its pattern: alternating timing, light rings of the finders, light rings with dark centres of the alignments, the bits of the version word; others are kept |
| PatternPictures.CornersShow | src/qr_code_generation/qr_code_gen.c:464-476 | the three corners show the same 8 by 8 picture of a finder pattern and its separator, each seen from its corner |
| PatternPictures.AlignmentShows | src/qr_code_generation/qr_code_gen.c:478-489 | every alignment pattern shows the 5 by 5 picture, also where it lies on a timing pattern |
| PatternPictures.TimingShows | src/qr_code_generation/qr_code_gen.c:457-462 | between the corners row and column 6 are dark at even places and light at odd ones, also where they pass through alignment patterns |
| PatternPictures.VersionShows | src/qr_code_generation/qr_code_gen.c:502-510 | bit k of the version word is at (side - 11 + k mod 3, k / 3) and at the place mirrored in the diagonal |
| VersionCheck.VersionWordIsMultiple | src/qr_code_generation/qr_code_gen.c:493-500 | the version stands in the upper six of the eighteen bits, and the word is 0x1F25 times a polynomial of degree below 6 |
| ModuleCount.EnoughLightModules | src/qr_code_generation/qr_code_gen.c:339-351 | the raw module count is at most the number of modules outside the function area that the scan visits, so every codeword bit finds a place |
| ModuleCount.ColumnSixIsFunction | src/qr_code_generation/qr_code_gen.c:581-583 | the column the scan skips carries no codewords |
| Zigzag.ZigzagVisitsOnce | src/qr_code_generation/qr_code_gen.c:577-600 | the scan visits every module outside column 6 exactly once, and no other |
| ZigzagWalk.ZigzagIsWalk | src/qr_code_generation/qr_code_gen.c:577-587 | the scan starts in the lower right corner and goes from each module to its left neighbour in the pair of columns or diagonally on, turning round at the border into the next pair and passing over column 6 |
| Zigzag.PlaceOne | src/qr_code_generation/qr_code_gen.c:588-597 | the live test of a module agrees with what the module was at the start |
| Zigzag.DrawCodewords | src/qr_code_generation/qr_code_gen.c:577-601 | reading the originally light modules in scan order gives the codeword bits, most significant first, then light; all other modules are unchanged; all bits are used |
| Masking.MaskTwice | src/qr_code_generation/qr_code_gen.c:604-631 | applying a mask twice gives back the grid |
| MaskPictures.MaskIsPicture | src/qr_code_generation/qr_code_gen.c:617-627 | each pattern inverts exactly the modules that a picture of it, repeated in both directions, marks |
| Masking.ApplyMask | src/qr_code_generation/qr_code_gen.c:608-631 | the grid becomes the masked one, which the pictures of the next row describe |
| MaskPictures.MaskedByPicture | src/qr_code_generation/qr_code_gen.c:608-631 | masking inverts a module exactly if it is outside the function area and marked in the picture; every other module is kept |
| FormatBits.ReadWord | src/qr_code_generation/qr_code_gen.c:517-525 | level and mask can be read back from the format word, for every level and mask |
| FormatCopies.WordIsInTable | src/qr_code_generation/qr_code_gen.c:517-525 | the words of the 32 pairs of level and mask are those of the standard's table |
| FormatBits.DrawnWord | src/qr_code_generation/qr_code_gen.c:517-525 | the loop in place leaves the word that the lemmas of FormatCheck are about |
| FormatCheck.WordIsMultiple | src/qr_code_generation/qr_code_gen.c:517-525 | without the fixed pattern the word is the product of 0x537 and a polynomial of degree below 5 |
| FormatCheck.WordsFarApart | src/qr_code_generation/qr_code_gen.c:517-525 | the words of different levels or masks differ in at least 7 of 15 places |
| FormatCheck.ThreeDamagedModules | src/qr_code_generation/qr_code_gen.c:517-534 | a copy with at most three damaged modules determines the level and the mask |
| FormatBits.FormatCellsDistinct | src/qr_code_generation/qr_code_gen.c:528-542 | no format module is drawn twice |
| FormatBits.FormatCellIsFunction | src/qr_code_generation/qr_code_gen.c:528-542 | all format modules lie in the function area |
| FormatBits.FormatAt | src/qr_code_generation/qr_code_gen.c:528-542 | after drawing, each format module has the colour of its bit, the extra one is dark |
| FormatBits.FormatElsewhere | src/qr_code_generation/qr_code_gen.c:528-542 | no other module changes |
| FormatBits.FormatOverwrites | src/qr_code_generation/qr_code_gen.c:513-543 | what the format modules showed before does not matter |
| FormatBits.ReadFormat | src/qr_code_generation/qr_code_gen.c:528-534 | the first copy reads back as the word |
| FormatBits.DrawFormatBits | src/qr_code_generation/qr_code_gen.c:516-543 | both copies and the dark module are drawn; the rows of FormatCopies say what a reader of either copy gets |
| FormatCopies.FinishedCopies | src/qr_code_generation/qr_code_gen.c:528-542 | on the finished symbol the modules of the first copy and those of the second, read at their coordinates from bit 0 to bit 14, each are the word of its level and mask; the module (8, side - 8) is dark |
| FormatCopies.EitherCopySuffices | src/qr_code_generation/qr_code_gen.c:513-543 | either copy with at most three damaged modules determines the level and the mask |
| Masking.FinishedSame | src/qr_code_generation/qr_code_gen.c:265-282 | the finished symbol for a mask does not depend on what the format modules showed |
| Masking.TrialLeavesNoTrace | src/qr_code_generation/qr_code_gen.c:269-277 | trying a mask, drawing its format bits and undoing the mask changes nothing but format modules |
| Masking.ChooseMask | src/qr_code_generation/qr_code_gen.c:265-278 | the first mask whose own finished symbol has the least penalty; outside the format modules the grid is as before |
| Masking.FinishSymbol | src/qr_code_generation/qr_code_gen.c:264-283 | the symbol is the finished one for the mask asked for, or for the best |
| Masking.ReadFinished | src/qr_code_generation/qr_code_gen.c:513-543 | level and mask can be read from the finished symbol |
| Masking.UnmaskFinished | src/qr_code_generation/qr_code_gen.c:604-631 | taking the mask off a finished symbol gives back every module outside the function area |
| Runs.RunsOfAreMaximal | src/qr_code_generation/qr_code_gen.c:645-660 | the runs counted along a line are its maximal runs of one colour |
| Runs.RunsOfExpand | src/qr_code_generation/qr_code_gen.c:645-660 | a line has only one such sequence of runs |
| Runs.BorderedRuns | src/qr_code_generation/qr_code_gen.c:726-743 | the runs pushed on a line are the maximal runs of the line between light borders, and total three times its length |
| Penalty.AddHistory | src/qr_code_generation/qr_code_gen.c:738-743 | the history holds the last seven runs pushed, the first with the light border |
| Penalty.CountIsNewPatterns | src/qr_code_generation/qr_code_gen.c:714-721 | the count is the number of finder-like patterns that the last run completes |
| FinderPatterns.FindersOfLine | src/qr_code_generation/qr_code_gen.c:714-734 | over modules rather than runs: the count of a line is the number of places, units and sides at which the line between its light borders reads 1:1:3:1:1 with four units of light on one side and one on the other |
| Penalty.HistoryCap | src/qr_code_generation/qr_code_gen.c:714-716 | the asserted bound on a run always holds within a line |
| Penalty.BorderedCap | src/qr_code_generation/qr_code_gen.c:714-716 | and at its end |
| Penalty.TerminateAndCount | src/qr_code_generation/qr_code_gen.c:726-734 | ending the line completes the line's declarative score |
| Penalty.ScanLine | src/qr_code_generation/qr_code_gen.c:641-683 | the one-pass scan of a row or column gives the score declared over its maximal runs |
| LineScores.RunScoreMeans | src/qr_code_generation/qr_code_gen.c:645-655 | over modules rather than runs: 3 for a run of five and 1 for each module more is the number of five alike modules in a row, and two more for each such row that begins a run |
| Penalty.CountUniformBlocks | src/qr_code_generation/qr_code_gen.c:685-694 | the number of 2 by 2 blocks of one colour |
| Penalty.CountDarkModules | src/qr_code_generation/qr_code_gen.c:696-703 | the number of dark modules |
| Penalty.ImbalanceIsLeast | src/qr_code_generation/qr_code_gen.c:704-706 | k is the least k >= 0 with the dark share within (45-5k)% and (55+5k)%, and at most 9 |
| Penalty.GetPenaltyScore | src/qr_code_generation/qr_code_gen.c:636-709 | the score of the grid as declared over its lines, blocks and dark modules; the next row says what that is |
| LineScores.ScoreMeans | src/qr_code_generation/qr_code_gen.c:636-709 | the score is the value of all rows and columns, with 40 for each finder-like pattern among their modules, 3 for each uniform block, and 10 for the least k at which the dark share is in its band |
| Penalty.ScoreBound | src/qr_code_generation/qr_code_gen.c:266-276 | every score is below the starting value of the search, so the first mask is always taken up |
| SymbolReader.ReadFinishedSymbol | src/qr_code_generation/qr_code_gen.c:260-283 | level, mask and data codewords can be read from the modules of a finished symbol |
| Encoder.BuildSymbol | src/qr_code_generation/qr_code_gen.c:230-265 | the unmasked grid carries the interleaved codewords of the padded stream; the other buffer marks the function area |
| Encoder.ShowsPatterns | src/qr_code_generation/qr_code_gen.c:260-282 | on the finished symbol every module of the function area but the format modules shows its pattern, dark where there is none |
| SymbolPictures.ShowsCorners | src/qr_code_generation/qr_code_gen.c:455-476 | the finished symbol shows the picture of a finder pattern in three corners |
| SymbolPictures.ShowsAlignment | src/qr_code_generation/qr_code_gen.c:478-489 | it shows the picture of an alignment pattern at each pair of positions but the corners |
| SymbolPictures.ShowsTiming | src/qr_code_generation/qr_code_gen.c:457-462 | it shows alternating modules between the corners |
| SymbolPictures.ShowsVersion | src/qr_code_generation/qr_code_gen.c:491-510 | it shows the version word twice from version 7 on |
| Encoder.EncodeSegmentsAdvanced | src/qr_code_generation/qr_code_gen.c:204-283 | succeeds exactly if a version in range fits; then version, level and mask are the right ones and the symbol shows the segments as they were before, even if they lay in the temporary buffer; otherwise only the size byte changes |
| Encoder.EncodedSegmentsReadBack | src/qr_code_generation/qr_code_gen.c:204-283 | a decoder recovers from the modules of the symbol any segments that obey the segment contract |
| DamagedSymbols.DamageIsCorrected | src/qr_code_generation/qr_code_gen.c:204-283 | symbols with a lightly damaged copy in common have the same version, level, mask and data |
| DamagedSymbols.SegmentsAreDetermined | src/qr_code_generation/qr_code_gen.c:204-283 | no two lists of well-formed segments have symbols with a lightly damaged copy in common |
| TextEncoder.ReadTextChunks | src/qr_code_generation/qr_code_gen.c:137-157 | the text comes back from its segment in whichever mode was chosen |
| TextEncoder.MakeText | src/qr_code_generation/qr_code_gen.c:137-157 | makes the segment exactly if it fits the buffer and the length limit |
| TextEncoder.DensestFits | src/qr_code_generation/qr_code_gen.c:137-157 | if the text fits a version and level as one segment of any mode that can hold it, it fits in the mode that is chosen |
| TextEncoder.TooLong | src/qr_code_generation/qr_code_gen.c:138-153 | a text refused for its length fits no version in range |
| TextEncoder.TextReadsBack | src/qr_code_generation/qr_code_gen.c:129-163 | the text comes back from the modules of the symbol |
| TextEncoder.EncodeText | src/qr_code_generation/qr_code_gen.c:129-163 | succeeds exactly if in some mode that can hold the text it fits a version in range; the version is the least such over all these modes, the level is the highest that still fits if boosted and else the one asked for, the mask is the one asked for or the first of least penalty, and the text reads back from the symbol |
| TextEncoder.EncodeBinary | src/qr_code_generation/qr_code_gen.c:167-181 | succeeds exactly if a version in range has room for the bytes; version, level and mask are as for texts, and the bytes read back from the symbol although their buffer was working space |
| UsbLink.Alternate | src/usb_redirection/usbredirhost.c:266-283 | connects and disconnects strictly alternate, starting with a connect |
| UsbLink.GreetedBefore | src/usb_redirection/usbredirhost.c:395-409 | no connect is sent before the guest's hello |
| UsbLink.AcknowledgedBetween | src/usb_redirection/usbredirhost.c:395-409 | between a disconnect to a guest that acknowledges them and the next connect there is an acknowledgement |
| UsbLink.Link.HandleDisconnect | src/usb_redirection/usbredirhost.c:266-283 | sends one disconnect if connected and keeps the handshake's invariant |
| UsbLink.Link.SendDeviceConnect | src/usb_redirection/usbredirhost.c:395-437 | sends the connect, or leaves it pending exactly while the guest has not said hello or owes an acknowledgement |
| UsbLink.Link.OnHello | src/usb_redirection/usbredirhost.c:1614-1621 | a pending connect is sent, and none stays pending |
| UsbLink.Link.OnDisconnectAck | src/usb_redirection/usbredirhost.c:1934-1947 | an awaited acknowledgement releases a pending connect; others change nothing |
| UsbLink.Link.DropDevice | src/usb_redirection/usbredirhost.c:867-871 | nothing stays pending and the guest is told once |
| UsbStatus.ToRedirStatus | src/usb_redirection/usbredirhost.c:291-321 | converting a lost-device outcome disconnects, any other leaves the connection alone |
| UsbStatus.StatusMeans | src/usb_redirection/usbredirhost.c:291-321 | for each status the outcomes that the guest sees as that status, and no others |
| UsbPackets.AllAnswered | src/usb_redirection/usbredirhost.c:2049-2086 | once nothing is outstanding every packet received has exactly one reply, with its id |
| UsbPackets.Accepted | src/usb_redirection/usbredirhost.c:930-943 | a transfer put in the list is owed a reply |
| UsbPackets.Left | src/usb_redirection/usbredirhost.c:946-954 | a transfer leaving the list is answered then, unless it was when it was cancelled |
| UsbPackets.CancelledOne | src/usb_redirection/usbredirhost.c:2005-2040 | a cancelled transfer is answered at once and owes nothing more |
| UsbPackets.PacketList.Complete | src/usb_redirection/usbredirhost.c:2049-2086 | removes the transfer and replies with its status unless it was cancelled |
| UsbPackets.PacketList.Submit | src/usb_redirection/usbredirhost.c:2178-2187 | a transfer that cannot be submitted is answered with the error and not kept |
| UsbPackets.PacketList.OnPacket | src/usb_redirection/usbredirhost.c:2098-2188 | a packet is answered at once or put in the list, never both |
| UsbPackets.PacketList.CancelDataPacket | src/usb_redirection/usbredirhost.c:1969-2047 | cancels and answers the oldest transfer with the id that is not cancelled yet, so ids may be used again |
| UsbBooks.NothingInFlight | src/usb_redirection/usbredirhost.c:1316-1356 | without streams the transfers libusb has are the cancelled ones, and as many as cancels are pending |
| UsbBooks.LiveHasStream | src/usb_redirection/usbredirhost.c:959-981 | a transfer that is not cancelled belongs to an endpoint with a stream |
| UsbBooks.CancelDone | src/usb_redirection/usbredirhost.c:1470-1474 | a cancelled transfer that comes back was counted as pending |
| UsbBooks.RunningAfterCancel | src/usb_redirection/usbredirhost.c:959-981 | after cancelling, submitted transfers in slots still belong to started streams only |
| UsbBooks.SubmittedRuns | src/usb_redirection/usbredirhost.c:1461-1477 | a transfer that completes uncancelled belongs to a started stream |
| UsbBooks.EndCancel | src/usb_redirection/usbredirhost.c:964-980 | the cancelling loop leaves the books balanced and exactly the submitted transfers allocated |
| UsbBooks.BooksMean | src/usb_redirection/usbredirhost.c:959-981 | transfers fill the first slots of their endpoint; what libusb has is in a slot or cancelled, and the latter are the cancels pending |
| UsbHost.Host.CancelStream | src/usb_redirection/usbredirhost.c:959-981 | the endpoint's submitted transfers are cancelled and the others freed; the endpoint is reset; no other changes |
| UsbHost.Host.SubmitStreamTransfer | src/usb_redirection/usbredirhost.c:1103-1127 | by libusb's answer: the transfer is submitted, or the device is lost and the stream kept, or the stream is cancelled |
| UsbHost.Host.StartStream | src/usb_redirection/usbredirhost.c:1130-1153 | all transfers of an input stream, or the first half of an output stream, are submitted; the first answer that refuses one decides whether the device is lost or the stream cancelled |
| UsbHost.Host.StopStream | src/usb_redirection/usbredirhost.c:1155-1165 | cancels the stream and reports success, or does nothing when disconnected |
| UsbHost.Host.AllocStream | src/usb_redirection/usbredirhost.c:1178-1278 | refuses bad requests with the right status and no change; otherwise the stream has the dimensions asked for, submitted at once if for input, or the first refusal has ended it |
| UsbHost.Host.ClearStreamStall | src/usb_redirection/usbredirhost.c:1290-1311 | by libusb's answers: the stream starts again with the same dimensions, or is gone; the division by its packet count is safe |
| UsbHost.Host.HandleIsoStatus | src/usb_redirection/usbredirhost.c:1436-1459 | only codes that end the handler change anything, and of those only a stall changes the streams: the stalled one is gone or starts anew |
| UsbHost.Host.Refill | src/usb_redirection/usbredirhost.c:1551-1556 | after an underflow every transfer of the endpoint is empty and the stream is to be started again |
| UsbHost.Host.IsoPacketComplete | src/usb_redirection/usbredirhost.c:1461-1561 | for every overall and per-packet status and every answer of libusb: the books stay balanced and other endpoints are left alone; a cancelled transfer is only released; a transfer for input whose statuses let the stream go on and whose submission is accepted is with libusb as before, and nothing else has changed; a refusal loses the device or cancels the stream; an output stream moves on as its ring does at a completion, fine or lost by the first bad status; after a stall the stream is gone or anew |
| UsbHost.Host.BufferedPacketComplete | src/usb_redirection/usbredirhost.c:1565-1610 | for every status and answer: keeps the books and leaves other endpoints alone; a cancelled transfer is only released; after a stall the stream is gone or anew; a lost device only disconnects; any other transfer is with libusb as before if the submission is accepted, and a refusal loses the device or cancels the stream |
| UsbHost.Host.IsoPacket | src/usb_redirection/usbredirhost.c:2321-2412 | refuses bad packets with the right status and no change; an accepted one takes the endpoint's ring through exactly the packet step, or the first submission that libusb refuses has cancelled the stream or lost the device; keeps the books and leaves other endpoints alone |
| UsbHost.Host.CheckPackets | src/usb_redirection/usbredirhost.c:1505-1533 | the first packet status that decides, for input one that says cancelled, stalled or no device and for output any bad one, ends the handler; nothing but a stall changes the stream |
| UsbHost.Host.CancelPendingUrbs | src/usb_redirection/usbredirhost.c:1316-1340 | no endpoint keeps a stream, and waiting is asked for exactly if something is still in flight |
| UsbHost.Host.WaitForCancelCompletion | src/usb_redirection/usbredirhost.c:1343-1356 | ends with nothing in flight, nothing allocated and no packet outstanding; each completion brings it nearer |
| UsbHost.Host.ClearDevice | src/usb_redirection/usbredirhost.c:848-873 | nothing is in flight any more when the device is let go |
| UsbHost.Host.SetDevice | src/usb_redirection/usbredirhost.c:808-846 | no stream of the old device is left; endpoints have the types its descriptors say; a new device is connected at once if the guest is ready for it |
| UsbHost.Host.Reset | src/usb_redirection/usbredirhost.c:1623-1647 | done exactly if connected and something was submitted since the last reset; then no stream, no transfer and no packet is left; otherwise nothing changes |
| UsbHost.Host.SetConfiguration | src/usb_redirection/usbredirhost.c:1649-1694 | once done, no endpoint has a stream, and endpoints have the new types unless the device was let go, which is told as an i/o error; otherwise nothing changes |
| UsbHost.Host.CancelUrbsOnInterface | src/usb_redirection/usbredirhost.c:1359-1380 | the endpoints of the interface lose their streams; the rings of the others are kept |
| UsbHost.Host.SetAltSetting | src/usb_redirection/usbredirhost.c:1710-1774 | the status the guest is told; the streams of the interface's endpoints end and those of other endpoints keep their transfers; the guest is told of a disconnect exactly if the refusal is that the device is gone |
| UsbHost.Host.ResetDevice | src/usb_redirection/usbredirhost.c:789-806 | a device that must not be reset is left alone; a failed reset lets the device go |
| UsbHost.Host.AllocBulkStreams | src/usb_redirection/usbredirhost.c:1856-1885 | the status told, and a disconnect exactly if the refusal is that the device is gone |
| UsbHost.Host.FreeBulkStreams | src/usb_redirection/usbredirhost.c:1887-1911 | the status told, and a disconnect exactly if the refusal is that the device is gone |
| UsbHost.Host.Handle | src/usb_redirection/usbredirhost.c:848-2412 | for every event and every endpoint whose stream goes on: an input stream has its completed transfer back with libusb, an output stream's ring takes the packet or the completion, a stream is new, or it stays as it was |
| UsbHost.Run | src/usb_redirection/usbredirhost.c:848-2412 | after any run of guest messages, completions and device changes: alternating connects, every packet answered once unless waiting, slots filled from the first, and cancels pending equal to the cancelled transfers in flight |
| UsbInFlow.WatchedInput.Handle | src/usb_redirection/usbredirhost.c:1103-2412 | each event keeps the transfers of every undisturbed input stream with libusb; exactly a lost device, a packet from the guest, or a transfer reported as cancelled that the host has not cancelled disturbs one, until it is started again |
| UsbInFlow.Run | src/usb_redirection/usbredirhost.c:848-2412 | after any run, libusb has every transfer of each undisturbed input stream, so none falls silent |
| UsbRing.HasRing | src/usb_redirection/usbredirhost.c:1178-1278 | every stream is a ring in some state |
| UsbRing.NewRing | src/usb_redirection/usbredirhost.c:1254-1257 | the transfers of a newly allocated output stream are a new ring |
| UsbRing.TakenByStarted | src/usb_redirection/usbredirhost.c:2373-2395 | storing a packet in a started stream, and submitting the transfer once full, is the packet step on every ring the endpoint can be |
| UsbRing.TakenByStart | src/usb_redirection/usbredirhost.c:2396-2407 | marking the first half of the transfers as submitted is the start of the ring |
| UsbRing.OldestReturns | src/usb_redirection/usbredirhost.c:1477-1557 | returning a transfer, and refilling all if it was the last submitted, is the completion step of the ring |
| UsbRing.RingIsSafe | src/usb_redirection/usbredirhost.c:2355-2407 | read off the endpoint: of a started stream libusb has a cyclic block of transfers before the position, no transfer holds more packets than fit, and the current one has room |
| UsbRuns.WatchedHost.Handle | src/usb_redirection/usbredirhost.c:1103-2412 | each event moves the ring of an endpoint on as the one-stream model does, and it is known until a transfer completes out of order or the stream ends |
| UsbRuns.WatchedHost.KnownIsSafe | src/usb_redirection/usbredirhost.c:2355-2407 | a known ring with room for two packets is safe on the endpoint, and only full transfers are submitted |
| UsbRuns.Run | src/usb_redirection/usbredirhost.c:848-2412 | after any run of the host each known ring with room for two packets is safe |
| UsbIsoOut.RingIsSafe | src/usb_redirection/usbredirhost.c:2355-2407 | in every run with room for two packets the slots in flight are a cyclic block ending before the position, nothing is written past a transfer, and the packets submitted are in the order received without repeats |
| UsbIsoOut.PacketJoins | src/usb_redirection/usbredirhost.c:2355-2407 | a stored packet joins the end of those submitted and waiting, and no packet is lost or repeated, also when half the ring is submitted at the start |
| UsbIsoOut.FlightIsNotWritten | src/usb_redirection/usbredirhost.c:2355-2395 | in every reachable state a packet leaves the transfers in flight alone |
| UsbIsoOut.HalfFilled | src/usb_redirection/usbredirhost.c:2396-2407 | half a ring of packets fills exactly the first half of the transfers and at most part of the next |
| UsbIsoOut.SubmitsOnlyFull | src/usb_redirection/usbredirhost.c:2383-2407 | in every run with room for two packets, each transfer that a packet causes to be submitted, be it one or the first half of the ring, holds all of its packets; a completion submits none |
| UsbIsoOut.CompletionKeeps | src/usb_redirection/usbredirhost.c:1541-1557 | completions, underflow included, keep the ring's invariant |
| UsbIsoOut.SingleOverruns | src/usb_redirection/usbredirhost.c:2391-2407 | with one transfer of one packet the second packet is written past the transfer |
| UsbIsoOut.OverrunFreeIff | src/usb_redirection/usbredirhost.c:2355-2407 | no run overruns if and only if the stream has room for two packets |
| UsbIsoOut.IsoOutStream.StartStream | src/usb_redirection/usbredirhost.c:1130-1153 | submits the first half of the ring, up to the first failure |
| UsbIsoOut.IsoOutStream.IsoPacket | src/usb_redirection/usbredirhost.c:2355-2407 | carries out the packet step of the ring in place |
| UsbIsoOut.IsoOutStream.Complete | src/usb_redirection/usbredirhost.c:1541-1557 | carries out the completion step of the ring in place |
| UsbInStream.RunUnrepeated | src/usb_redirection/usbredirhost.c:1485-1541 | in every run each submitted transfer is on its slot's turn and no id is sent twice, whatever the order of completions |
| UsbInStream.TurnIsCongruent | src/usb_redirection/usbredirhost.c:1141-1144 | being on turn k means an id congruent to k packets-per-transfer modulo one cycle of all transfers |
| UsbInStream.RunIncreases | src/usb_redirection/usbredirhost.c:1599-1606 | with completions in the order of submission the ids sent strictly increase |
| UsbInStream.RunExact | src/usb_redirection/usbredirhost.c:1536-1541 | if nothing fails or is dropped the ids are exactly 0, 1, 2 and so on |
| UsbInStream.InStream.Complete | src/usb_redirection/usbredirhost.c:1485-1541 | carries out the completion step of the stream in place |
| Monitors.ParseMonitorMappings | src/remote-viewer-util.c:681-753 | a map exactly if the entries are an injection of the first displays into the monitors; then it holds the entries, has no gap, shares no monitor, and there are no more displays than monitors |
| Monitors.NoGaps | src/remote-viewer-util.c:736-741 | distinct displays without a gap below the largest are exactly the first ones |
| Monitors.GapBelow | src/remote-viewer-util.c:736-741 | a gap below a named display means the entries are no injection of the first displays |
| Monitors.MappingFits | src/remote-viewer-util.c:714-733 | there are no more displays than monitors |
| MonitorLayout.CmpIsBefore | src/remote-viewer-util.c:554-570 | where differences fit an int the comparison is the order by x, then y, then id |
| MonitorLayout.CmpIsBeforeIffFits | src/remote-viewer-util.c:554-570 | two displays compare as they lie if and only if the first difference that is not zero fits an int |
| MonitorLayout.FarApartIsReversed | src/remote-viewer-util.c:563-569 | a monitor far to the right counts as further left |
| MonitorLayout.AlignedAt | src/remote-viewer-util.c:582-620 | with ids 0 to n-1, each display is moved to y 0 and to where the one before it in the order ends, and keeps its size |
| MonitorLayout.AlignedInOrder | src/remote-viewer-util.c:582-620 | with ids 0 to n-1 and differences that fit, displays are left to right in the order of their old positions |
| MonitorLayout.RowTiles | src/remote-viewer-util.c:608-617 | the intervals that the running sum of widths gives tile: each point of the row lies in one and only one |
| MonitorLayout.DenseTiles | src/remote-viewer-util.c:582-620 | with ids 0 to n-1 the placed rectangles tile the sum of their widths: every point of it lies in one and only one, and no other point in any |
| MonitorLayout.TilesIffDenseOrZero | src/remote-viewer-util.c:593-617 | with display 0 the placed rectangles tile the sum of the widths if and only if no id is missing or display 0 has no width |
| MonitorLayout.WithoutZeroUnchanged | src/remote-viewer-util.c:593-617 | without display 0 nothing is placed |
| MonitorLayout.DisplayTable.AlignLinear | src/remote-viewer-util.c:582-620 | leaves the table as the lemmas above describe it: the sorted displays placed up to the first that is missing |
| Versions.CompareVersion | src/remote-viewer-util.c:466-507 | the loop returns the difference at the first component that decides |
| Versions.ComparisonIsOrder | src/remote-viewer-util.c:466-507 | on suffix-free components below 2^31 the sign is the order by components with a proper prefix smaller, and 0 means equal |
| Versions.ComparisonIsTransitive | src/remote-viewer-util.c:466-507 | the comparison is antisymmetric and transitive |
| Versions.LargeComponentsCollide | src/remote-viewer-util.c:485-487 | larger components can compare as equal or reversed |
| Versions.OrderIffBounded | src/remote-viewer-util.c:466-507 | the comparison is the order on all versions with components below a bound if and only if the bound is at most 2^31 |
| Versions.CompareBuildId | src/remote-viewer-util.c:521-549 | the sign that the lemmas below are about: versions first, then releases, unless an id is empty |
| Versions.BuildIdsArePreordered | src/remote-viewer-util.c:521-549 | non-empty build ids are totally preordered by version, then release |
| Versions.EmptyStringBreaksOrder | src/remote-viewer-util.c:529-540 | through the empty string the comparison is not transitive |
| Versions.TransitiveIffNotEmpty | src/remote-viewer-util.c:521-549 | the comparison is transitive through an id if and only if the id is not empty |

## Left out

- UsbHost.Host.WaitForCancelCompletion: takes it that handling events completes at least one transfer each time; that libusb does so eventually is not modelled.
- UsbHost.Host.IsoPacketComplete: the data messages and their ids are left to UsbInStream, the stream status messages are not modelled.
- UsbHost.Host.BufferedPacketComplete: the data message and the new id are left to UsbInStream.
- UsbIsoOut.RingIsSafe: completions come in the order of submission.
- UsbHost.Host.IsoPacket: of a packet for an endpoint towards the host, where packets come from the device, only the books are stated.
- MonitorLayout.DisplayTable.AlignLinear: the library's stable sort is modelled by insertion; where the comparison is no order the library may leave the displays in another one, but the proofs about tiling use only that it is a rearrangement, and those without display 0 only that an element is not moved in front of one it compares equal to. The running x coordinate is unbounded; signed overflow of the sum of widths is undefined in the source.
- Segments.MakeNumeric: characters are given as a string rather than a pointer to a terminated array, as for the other texts.
- Memory exhaustion: all allocations succeed.
- The minimum distance of version words.
- qrcodegen_encodeSegments, qrcodegen_makeBytes, qrcodegen_getSize, the bounds-checked qrcodegen_getModule and printQr: they only pass arguments on or print.
- Rows and columns of the penalty scan: the source writes the same loop twice; the model has it once with the direction as a parameter.
- libusb, usbredirparser and the rest of GLib: their behaviour is open.
- Descriptors, kernel drivers, filters, libusb versions without bulk streams, logging and buffered output limits.
- Splitting strings and reading numbers from them in the monitor utilities.
- Locks: each lock-held region is one step.
- Other parts of the client (windows, dialogs, sessions, settings, controllers).
