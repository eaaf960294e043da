// Masking: the eight patterns, their undoing, and the choice of the best one.
module Masking {
  import opened Bytes
  import opened Grids
  import opened Parameters
  import opened FormatBits
  import opened Penalty

  // Whether the pattern inverts the module at (x, y).
  predicate MaskBit(mask: nat, x: nat, y: nat)
    requires mask < 8
  {
    match mask
    case 0 => (x + y) % 2 == 0
    case 1 => y % 2 == 0
    case 2 => x % 3 == 0
    case 3 => (x + y) % 3 == 0
    case 4 => (x / 3 + y / 2) % 2 == 0
    case 5 => x * y % 2 + x * y % 3 == 0
    case 6 => (x * y % 2 + x * y % 3) % 2 == 0
    case _ => ((x + y) % 2 + x * y % 3) % 2 == 0
  }

  // Every module that is light in `area` is inverted where the pattern says so.
  function Masked(area: Grid, g: Grid, n: nat, mask: nat): (h: Grid)
    requires Square(area, n) && Square(g, n) && mask < 8
    ensures Square(h, n)
    ensures forall x, y | 0 <= x < n && 0 <= y < n :: h[y][x] == (g[y][x] != (!area[y][x] && MaskBit(mask, x, y)))
  {
    seq(n, y requires 0 <= y < n => seq(n, x requires 0 <= x < n => g[y][x] != (!area[y][x] && MaskBit(mask, x, y))))
  }

  // Applying a mask twice undoes it.
  lemma MaskTwice(area: Grid, g: Grid, n: nat, mask: nat)
    requires Square(area, n) && Square(g, n) && mask < 8
    ensures Masked(area, Masked(area, g, n, mask), n, mask) == g
  {
    hide MaskBit;
    SameGrid(Masked(area, Masked(area, g, n, mask), n, mask), g, n);
  }

  // ----- the finished symbol for a mask -----

  function Finished(area: Grid, g: Grid, n: nat, ecl: Ecc, mask: nat): (h: Grid)
    requires Square(area, n) && Square(g, n) && n >= 21 && mask < 8
    ensures Square(h, n)
  {
    WithFormat(Masked(area, g, n, mask), n, WordBits(FormatWord(ecl, mask)), 31)
  }

  // All format cells are in the area that masks leave alone.
  ghost predicate CoversFormat(area: Grid, n: nat) {
    Square(area, n) && n >= 21 &&
    forall x, y | 0 <= x < n && 0 <= y < n && IsFormatCell(n, 31, x, y) :: area[y][x]
  }

  ghost predicate SameOffFormat(g: Grid, h: Grid, n: nat) {
    Square(g, n) && Square(h, n) &&
    forall x, y | 0 <= x < n && 0 <= y < n && !IsFormatCell(n, 31, x, y) :: g[y][x] == h[y][x]
  }

  // The finished symbol does not depend on what was in the format cells.
  lemma FinishedSame(area: Grid, g: Grid, h: Grid, n: nat, ecl: Ecc, mask: nat)
    requires CoversFormat(area, n) && SameOffFormat(g, h, n) && mask < 8
    ensures Finished(area, g, n, ecl, mask) == Finished(area, h, n, ecl, mask)
  {
    hide MaskBit, IsFormatCell, WordBits, WithFormat, FormatWord;
    FormatOverwrites(Masked(area, g, n, mask), Masked(area, h, n, mask), n, WordBits(FormatWord(ecl, mask)));
  }

  // A trial followed by undoing its mask changes nothing outside the format cells.
  lemma TrialLeavesNoTrace(area: Grid, g: Grid, n: nat, ecl: Ecc, mask: nat)
    requires CoversFormat(area, n) && Square(g, n) && mask < 8
    ensures SameOffFormat(Masked(area, Finished(area, g, n, ecl, mask), n, mask), g, n)
  {
    hide MaskBit, IsFormatCell, WordBits, WithFormat, FormatWord;
    var t := Finished(area, g, n, ecl, mask);
    forall x, y | 0 <= x < n && 0 <= y < n && !IsFormatCell(n, 31, x, y)
      ensures Masked(area, t, n, mask)[y][x] == g[y][x]
    {
      FormatElsewhere(Masked(area, g, n, mask), n, WordBits(FormatWord(ecl, mask)), 31, x, y);
    }
  }

  // Unmasking a finished symbol gives back every module outside the area.
  lemma UnmaskFinished(area: Grid, g: Grid, n: nat, ecl: Ecc, mask: nat)
    requires CoversFormat(area, n) && Square(g, n) && mask < 8
    ensures forall x, y | 0 <= x < n && 0 <= y < n && !area[y][x] ::
              Masked(area, Finished(area, g, n, ecl, mask), n, mask)[y][x] == g[y][x]
  {
    hide MaskBit, IsFormatCell, Masked, Finished;
    TrialLeavesNoTrace(area, g, n, ecl, mask);
  }

  // The level and mask can be read from a finished symbol.
  lemma ReadFinished(area: Grid, g: Grid, n: nat, ecl: Ecc, mask: nat)
    requires Square(area, n) && Square(g, n) && n >= 21 && mask < 8
    ensures ReadLevel(FormatOf(Finished(area, g, n, ecl, mask), n)) == ecl
    ensures ReadMask(FormatOf(Finished(area, g, n, ecl, mask), n)) == mask
  {
    hide ReadLevel, ReadMask, FormatOf, Masked, FormatWord, WithFormat, WordBits;
    ReadFormat(Masked(area, g, n, mask), n, WordBits(FormatWord(ecl, mask)));
    ReadWord(ecl, mask);
  }

  // ----- applying a mask in place -----

  // The modules before (x, y) in row order are masked already.
  ghost predicate MaskedUpTo(area: Grid, g: Grid, h: Grid, n: nat, mask: nat, x: nat, y: nat)
    requires mask < 8
  {
    Square(area, n) && Square(g, n) && Square(h, n) &&
    forall u, v | 0 <= u < n && 0 <= v < n ::
      h[v][u] == (g[v][u] != (!area[v][u] && (v < y || (v == y && u < x)) && MaskBit(mask, u, v)))
  }

  lemma MaskedNext(area: Grid, g: Grid, h: Grid, h': Grid, n: nat, mask: nat, x: nat, y: nat)
    requires mask < 8 && x < n && y < n && MaskedUpTo(area, g, h, n, mask, x, y)
    requires h' == if area[y][x] then h else SetAt(h, n, x, y, h[y][x] != MaskBit(mask, x, y))
    ensures MaskedUpTo(area, g, h', n, mask, x + 1, y)
  {
    hide MaskBit, SetAt;
  }

  lemma MaskedRow(area: Grid, g: Grid, h: Grid, n: nat, mask: nat, y: nat)
    requires mask < 8 && y < n && MaskedUpTo(area, g, h, n, mask, n, y)
    ensures MaskedUpTo(area, g, h, n, mask, 0, y + 1)
  {
    hide MaskBit;
  }

  lemma MaskedAll(area: Grid, g: Grid, h: Grid, n: nat, mask: nat)
    requires mask < 8 && MaskedUpTo(area, g, h, n, mask, 0, n)
    ensures h == Masked(area, g, n, mask)
  {
    hide MaskBit;
    SameGrid(h, Masked(area, g, n, mask), n);
  }

  lemma MaskedNone(area: Grid, g: Grid, n: nat, mask: nat)
    requires mask < 8 && Square(area, n) && Square(g, n)
    ensures MaskedUpTo(area, g, g, n, mask, 0, 0)
  {
    hide MaskBit;
  }

  // XORs the modules outside the function area with the given pattern.
  method ApplyMask(functionModules: array<Byte>, qrcode: array<Byte>, mask: nat)
    requires functionModules != qrcode && mask < 8
    requires IsSymbol(functionModules[..]) && IsSymbol(qrcode[..])
    requires SizeOf(functionModules[..]) == SizeOf(qrcode[..])
    modifies qrcode
    ensures IsSymbol(qrcode[..]) && SizeOf(qrcode[..]) == old(SizeOf(qrcode[..]))
    ensures View(qrcode[..]) == Masked(View(functionModules[..]), old(View(qrcode[..])), SizeOf(qrcode[..]), mask)
  {
    hide View, Value, MaskBit, MaskedUpTo, SetAt, Masked;
    var qrsize := Value(qrcode[0]);
    ghost var area, g := View(functionModules[..]), View(qrcode[..]);
    MaskedNone(area, g, qrsize, mask);
    for y := 0 to qrsize
      invariant IsSymbol(qrcode[..]) && SizeOf(qrcode[..]) == qrsize
      invariant MaskedUpTo(area, g, View(qrcode[..]), qrsize, mask, 0, y)
    {
      for x := 0 to qrsize
        invariant IsSymbol(qrcode[..]) && SizeOf(qrcode[..]) == qrsize
        invariant MaskedUpTo(area, g, View(qrcode[..]), qrsize, mask, x, y)
      {
        ghost var h := View(qrcode[..]);
        if !GetModule(functionModules, x, y) {
          var invert := MaskBit(mask, x, y);
          var val := GetModule(qrcode, x, y);
          SetModule(qrcode, x, y, val != invert);
        }
        MaskedNext(area, g, h, View(qrcode[..]), qrsize, mask, x, y);
      }
      MaskedRow(area, g, View(qrcode[..]), qrsize, mask, y);
    }
    MaskedAll(area, g, View(qrcode[..]), qrsize, mask);
  }

  // ----- choosing a mask -----

  ghost function MaskScore(area: Grid, g: Grid, n: nat, ecl: Ecc, mask: nat): int
    requires Square(area, n) && Square(g, n) && n >= 21 && mask < 8
  {
    Score(Finished(area, g, n, ecl, mask), n)
  }

  // The first of the masks below m whose finished symbol has the least penalty.
  ghost predicate BestMask(area: Grid, g: Grid, n: nat, ecl: Ecc, mask: int, m: nat)
    requires m <= 8
  {
    Square(area, n) && Square(g, n) && n >= 21 && 0 <= mask < m &&
    (forall j | 0 <= j < m :: MaskScore(area, g, n, ecl, mask) <= MaskScore(area, g, n, ecl, j)) &&
    (forall j | 0 <= j < mask :: MaskScore(area, g, n, ecl, mask) < MaskScore(area, g, n, ecl, j))
  }

  // Not below the penalty of any symbol.
  const LONG_MAX := 0x7FFF_FFFF

  // The best mask so far and its penalty.
  ghost predicate Leading(area: Grid, g: Grid, n: nat, ecl: Ecc, mask: int, minPenalty: int, m: nat)
    requires m <= 8
  {
    if m == 0 then mask == -1 && minPenalty == LONG_MAX
    else BestMask(area, g, n, ecl, mask, m) && minPenalty == MaskScore(area, g, n, ecl, mask)
  }

  lemma LeadingNext(area: Grid, g: Grid, n: nat, ecl: Ecc, mask: int, minPenalty: int, m: nat, penalty: int)
    requires Square(area, n) && Square(g, n) && 21 <= n <= 177 && n % 2 == 1 && m < 8
    requires Leading(area, g, n, ecl, mask, minPenalty, m) && penalty == MaskScore(area, g, n, ecl, m)
    ensures if penalty < minPenalty then Leading(area, g, n, ecl, m, penalty, m + 1)
            else Leading(area, g, n, ecl, mask, minPenalty, m + 1)
  {
    hide MaskScore, Square;
    MaskScoreBound(area, g, n, ecl, m);
  }

  lemma MaskScoreBound(area: Grid, g: Grid, n: nat, ecl: Ecc, mask: nat)
    requires Square(area, n) && Square(g, n) && 21 <= n <= 177 && n % 2 == 1 && mask < 8
    ensures MaskScore(area, g, n, ecl, mask) < LONG_MAX
  {
    hide Finished, Score, Square;
    ScoreBound(Finished(area, g, n, ecl, mask), n);
  }

  // Tries every mask in place and undoes it; the format bits of the last trial stay behind.
  method ChooseMask(functionModules: array<Byte>, qrcode: array<Byte>, ecl: Ecc) returns (mask: int)
    requires functionModules != qrcode
    requires IsSymbol(functionModules[..]) && IsSymbol(qrcode[..]) && SizeOf(qrcode[..]) % 2 == 1
    requires SizeOf(functionModules[..]) == SizeOf(qrcode[..])
    requires CoversFormat(View(functionModules[..]), SizeOf(qrcode[..]))
    modifies qrcode
    ensures IsSymbol(qrcode[..]) && SizeOf(qrcode[..]) == old(SizeOf(qrcode[..]))
    ensures BestMask(View(functionModules[..]), old(View(qrcode[..])), SizeOf(qrcode[..]), ecl, mask, 8)
    ensures SameOffFormat(View(qrcode[..]), old(View(qrcode[..])), SizeOf(qrcode[..]))
  {
    hide View, Value, Masked, Leading, CoversFormat, SameOffFormat, WithFormat, WordBits, FormatWord, Score;
    ghost var area, g, n := View(functionModules[..]), View(qrcode[..]), SizeOf(qrcode[..]);
    mask := -1;
    var minPenalty := LONG_MAX;
    StartOfTrials(area, g, n, ecl);
    for i := 0 to 8
      invariant IsSymbol(qrcode[..]) && SizeOf(qrcode[..]) == n
      invariant SameOffFormat(View(qrcode[..]), g, n)
      invariant Leading(area, g, n, ecl, mask, minPenalty, i)
    {
      ghost var h := View(qrcode[..]);
      ApplyMask(functionModules, qrcode, i);
      DrawFormatBits(ecl, i, qrcode);
      FinishedSame(area, h, g, n, ecl, i);
      var penalty := GetPenaltyScore(qrcode);
      LeadingNext(area, g, n, ecl, mask, minPenalty, i, penalty);
      if penalty < minPenalty {
        mask := i;
        minPenalty := penalty;
      }
      ApplyMask(functionModules, qrcode, i);
      TrialLeavesNoTrace(area, h, n, ecl, i);
      SameOffFormatChain(View(qrcode[..]), h, g, n);
    }
    AllTried(area, g, n, ecl, mask, minPenalty);
  }

  lemma StartOfTrials(area: Grid, g: Grid, n: nat, ecl: Ecc)
    requires Square(g, n)
    ensures SameOffFormat(g, g, n) && Leading(area, g, n, ecl, -1, LONG_MAX, 0)
  {
    hide IsFormatCell;
  }

  lemma AllTried(area: Grid, g: Grid, n: nat, ecl: Ecc, mask: int, minPenalty: int)
    requires Leading(area, g, n, ecl, mask, minPenalty, 8)
    ensures BestMask(area, g, n, ecl, mask, 8)
  {
    hide BestMask, MaskScore;
  }

  lemma SameOffFormatChain(a: Grid, b: Grid, c: Grid, n: nat)
    requires SameOffFormat(a, b, n) && SameOffFormat(b, c, n)
    ensures SameOffFormat(a, c, n)
  {
    hide IsFormatCell;
  }

  // Masks the symbol and draws its format bits; -1 asks for the best mask.
  method FinishSymbol(functionModules: array<Byte>, qrcode: array<Byte>, ecl: Ecc, requested: int) returns (mask: nat)
    requires functionModules != qrcode && -1 <= requested < 8
    requires IsSymbol(functionModules[..]) && IsSymbol(qrcode[..]) && SizeOf(qrcode[..]) % 2 == 1
    requires SizeOf(functionModules[..]) == SizeOf(qrcode[..])
    requires CoversFormat(View(functionModules[..]), SizeOf(qrcode[..]))
    modifies qrcode
    ensures IsSymbol(qrcode[..]) && SizeOf(qrcode[..]) == old(SizeOf(qrcode[..]))
    ensures mask < 8 && (requested >= 0 ==> mask == requested)
    ensures requested == -1 ==>
              BestMask(View(functionModules[..]), old(View(qrcode[..])), SizeOf(qrcode[..]), ecl, mask, 8)
    ensures View(qrcode[..]) ==
            Finished(View(functionModules[..]), old(View(qrcode[..])), SizeOf(qrcode[..]), ecl, mask)
  {
    hide View, Value, Masked, CoversFormat, SameOffFormat, WithFormat, WordBits, FormatWord, MaskScore;
    ghost var area, g, n := View(functionModules[..]), View(qrcode[..]), SizeOf(qrcode[..]);
    var choice := requested;
    StartOfTrials(area, g, n, ecl);
    if choice == -1 {
      choice := ChooseMask(functionModules, qrcode, ecl);
    }
    mask := choice;
    FinishedSame(area, View(qrcode[..]), g, n, ecl, mask);
    ApplyMask(functionModules, qrcode, mask);
    DrawFormatBits(ecl, mask, qrcode);
  }
}
