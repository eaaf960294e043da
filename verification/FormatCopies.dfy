// The format bits as a reader finds them: the words, and the two copies on the symbol.
module FormatCopies {
  import opened BitStrings
  import opened Grids
  import opened Parameters
  import opened FormatBits
  import opened FormatCheck
  import opened Masking

  // ----- the words -----

  // The word for each level and mask, as a reader looks it up.
  function WordFor(ecl: Ecc, mask: nat): Word
    requires mask < 8
  {
    match ecl
    case Low => [0x77C4, 0x72F3, 0x7DAA, 0x789D, 0x662F, 0x6318, 0x6C41, 0x6976][mask]
    case Medium => [0x5412, 0x5125, 0x5E7C, 0x5B4B, 0x45F9, 0x40CE, 0x4F97, 0x4AA0][mask]
    case Quartile => [0x355F, 0x3068, 0x3F31, 0x3A06, 0x24B4, 0x2183, 0x2EDA, 0x2BED][mask]
    case High => [0x1689, 0x13BE, 0x1CE7, 0x19D0, 0x0762, 0x0255, 0x0D0C, 0x083B][mask]
  }

  lemma WordsLow(mask: nat)
    requires mask < 8
    ensures FormatWord(Low, mask) == WordFor(Low, mask)
  {
    match mask
    case 0 => assert FormatWord(Low, 0) == 0x77C4;
    case 1 => assert FormatWord(Low, 1) == 0x72F3;
    case 2 => assert FormatWord(Low, 2) == 0x7DAA;
    case 3 => assert FormatWord(Low, 3) == 0x789D;
    case 4 => assert FormatWord(Low, 4) == 0x662F;
    case 5 => assert FormatWord(Low, 5) == 0x6318;
    case 6 => assert FormatWord(Low, 6) == 0x6C41;
    case _ => assert FormatWord(Low, 7) == 0x6976;
  }

  lemma WordsMedium(mask: nat)
    requires mask < 8
    ensures FormatWord(Medium, mask) == WordFor(Medium, mask)
  {
    match mask
    case 0 => assert FormatWord(Medium, 0) == 0x5412;
    case 1 => assert FormatWord(Medium, 1) == 0x5125;
    case 2 => assert FormatWord(Medium, 2) == 0x5E7C;
    case 3 => assert FormatWord(Medium, 3) == 0x5B4B;
    case 4 => assert FormatWord(Medium, 4) == 0x45F9;
    case 5 => assert FormatWord(Medium, 5) == 0x40CE;
    case 6 => assert FormatWord(Medium, 6) == 0x4F97;
    case _ => assert FormatWord(Medium, 7) == 0x4AA0;
  }

  lemma WordsQuartile(mask: nat)
    requires mask < 8
    ensures FormatWord(Quartile, mask) == WordFor(Quartile, mask)
  {
    match mask
    case 0 => assert FormatWord(Quartile, 0) == 0x355F;
    case 1 => assert FormatWord(Quartile, 1) == 0x3068;
    case 2 => assert FormatWord(Quartile, 2) == 0x3F31;
    case 3 => assert FormatWord(Quartile, 3) == 0x3A06;
    case 4 => assert FormatWord(Quartile, 4) == 0x24B4;
    case 5 => assert FormatWord(Quartile, 5) == 0x2183;
    case 6 => assert FormatWord(Quartile, 6) == 0x2EDA;
    case _ => assert FormatWord(Quartile, 7) == 0x2BED;
  }

  lemma WordsHigh(mask: nat)
    requires mask < 8
    ensures FormatWord(High, mask) == WordFor(High, mask)
  {
    match mask
    case 0 => assert FormatWord(High, 0) == 0x1689;
    case 1 => assert FormatWord(High, 1) == 0x13BE;
    case 2 => assert FormatWord(High, 2) == 0x1CE7;
    case 3 => assert FormatWord(High, 3) == 0x19D0;
    case 4 => assert FormatWord(High, 4) == 0x0762;
    case 5 => assert FormatWord(High, 5) == 0x0255;
    case 6 => assert FormatWord(High, 6) == 0x0D0C;
    case _ => assert FormatWord(High, 7) == 0x083B;
  }

  lemma WordIsInTable(ecl: Ecc, mask: nat)
    requires mask < 8
    ensures FormatWord(ecl, mask) == WordFor(ecl, mask)
  {
    hide FormatWord, WordFor;
    match ecl
    case Low => WordsLow(mask);
    case Medium => WordsMedium(mask);
    case Quartile => WordsQuartile(mask);
    case High => WordsHigh(mask);
  }

  // ----- the copies -----

  // The copy around the upper left finder pattern: bits 0 to 7 down column 8, then 8 to 14 leftwards along row 8,
  // passing over the timing patterns.
  function FirstCopy(g: Grid, n: nat): (bits: Bits)
    requires Square(g, n) && n >= 21
    ensures |bits| == 15
  {
    [g[0][8], g[1][8], g[2][8], g[3][8], g[4][8], g[5][8], g[7][8], g[8][8],
     g[8][7], g[8][5], g[8][4], g[8][3], g[8][2], g[8][1], g[8][0]]
  }

  // The other copy: bits 0 to 7 leftwards from the right end of row 8, then 8 to 14 down to the bottom of column 8.
  function SecondCopy(g: Grid, n: nat): (bits: Bits)
    requires Square(g, n) && n >= 21
    ensures |bits| == 15
  {
    [g[8][n - 1], g[8][n - 2], g[8][n - 3], g[8][n - 4], g[8][n - 5], g[8][n - 6], g[8][n - 7], g[8][n - 8],
     g[n - 7][8], g[n - 6][8], g[n - 5][8], g[n - 4][8], g[n - 3][8], g[n - 2][8], g[n - 1][8]]
  }

  lemma FormatOfIsFirstCopy(g: Grid, n: nat)
    requires Square(g, n) && n >= 21
    ensures FormatOf(g, n) == FirstCopy(g, n)
  {
  }

  lemma SecondCopyShows(g: Grid, n: nat, bits: Bits, k: nat)
    requires Square(g, n) && n >= 21 && |bits| == 15 && k < 15
    ensures SecondCopy(WithFormat(g, n, bits, 31), n)[k] == bits[k]
  {
    FormatAt(g, n, bits, 31, 15 + k);
    SecondCopyAt(WithFormat(g, n, bits, 31), n, k);
    ColorOfSecond(bits, k);
    hide *;
  }

  lemma ColorOfSecond(bits: Bits, k: nat)
    requires |bits| == 15 && k < 15
    ensures FormatColor(bits, 15 + k) == bits[k]
  {
  }

  // Both copies show the bits, and the module above the lower one is dark.
  lemma CopiesShow(g: Grid, n: nat, bits: Bits)
    requires Square(g, n) && n >= 21 && |bits| == 15
    ensures var h := WithFormat(g, n, bits, 31); FirstCopy(h, n) == bits && SecondCopy(h, n) == bits && h[n - 8][8]
  {
    hide WithFormat, FirstCopy, SecondCopy, FormatCell, Square;
    var h := WithFormat(g, n, bits, 31);
    ReadFormat(g, n, bits);
    FormatOfIsFirstCopy(h, n);
    forall k | 0 <= k < 15
      ensures SecondCopy(h, n)[k] == bits[k]
    {
      SecondCopyShows(g, n, bits, k);
    }
    DarkModuleAt(n);
    FormatAt(g, n, bits, 31, 30);
  }

  lemma DarkModuleAt(n: nat)
    requires n >= 21
    ensures FormatCell(n, 30).x == 8 && FormatCell(n, 30).y == n - 8
  {
  }

  lemma SecondCopyAt(g: Grid, n: nat, k: nat)
    requires Square(g, n) && n >= 21 && k < 15
    ensures var p := FormatCell(n, 15 + k); 0 <= p.x < n && 0 <= p.y < n && SecondCopy(g, n)[k] == g[p.y][p.x]
  {
  }

  // On a finished symbol either copy is the word of its level and mask.
  lemma FinishedCopies(area: Grid, g: Grid, n: nat, ecl: Ecc, mask: nat)
    requires Square(area, n) && Square(g, n) && n >= 21 && mask < 8
    ensures var h := Finished(area, g, n, ecl, mask);
            FirstCopy(h, n) == WordBits(WordFor(ecl, mask)) && SecondCopy(h, n) == WordBits(WordFor(ecl, mask)) &&
            h[n - 8][8]
  {
    hide WithFormat, FormatWord, WordBits, Masked, FirstCopy, SecondCopy, WordFor;
    WordIsInTable(ecl, mask);
    CopiesShow(Masked(area, g, n, mask), n, WordBits(FormatWord(ecl, mask)));
  }

  // Either copy, with up to three of its modules damaged, determines the level and the mask.
  lemma EitherCopySuffices(area: Grid, g: Grid, ecl: Ecc, mask: nat, area': Grid, g': Grid, ecl': Ecc, mask': nat,
                           n: nat, h: Grid)
    requires Square(area, n) && Square(g, n) && Square(area', n) && Square(g', n) && Square(h, n) && n >= 21
    requires mask < 8 && mask' < 8
    requires var s, s' := Finished(area, g, n, ecl, mask), Finished(area', g', n, ecl', mask');
             (Differing(FirstCopy(s, n), FirstCopy(h, n), 15) <= 3 &&
              Differing(FirstCopy(s', n), FirstCopy(h, n), 15) <= 3) ||
             (Differing(SecondCopy(s, n), SecondCopy(h, n), 15) <= 3 &&
              Differing(SecondCopy(s', n), SecondCopy(h, n), 15) <= 3)
    ensures ecl == ecl' && mask == mask'
  {
    hide Finished, FormatWord, WordBits, FirstCopy, SecondCopy, WordFor, Differing;
    FinishedCopies(area, g, n, ecl, mask);
    FinishedCopies(area', g', n, ecl', mask');
    WordIsInTable(ecl, mask);
    WordIsInTable(ecl', mask');
    if Differing(WordBits(FormatWord(ecl, mask)), FirstCopy(h, n), 15) <= 3 &&
       Differing(WordBits(FormatWord(ecl', mask')), FirstCopy(h, n), 15) <= 3 {
      ThreeDamagedModules(ecl, mask, ecl', mask', FirstCopy(h, n));
    } else {
      ThreeDamagedModules(ecl, mask, ecl', mask', SecondCopy(h, n));
    }
  }
}
