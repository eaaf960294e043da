// The function patterns as they look, and the table of the places where the alignment patterns sit.
module PatternPictures {
  import opened Arithmetic
  import opened Parameters
  import opened FunctionPatterns
  import opened LightPatterns

  // ----- the places of the alignment patterns -----

  // The coordinates of their centres for each version.
  ghost function Positions(v: int): seq<int> {
    match v
    case 1 => []
    case 2 => [6, 18]
    case 3 => [6, 22]
    case 4 => [6, 26]
    case 5 => [6, 30]
    case 6 => [6, 34]
    case 7 => [6, 22, 38]
    case 8 => [6, 24, 42]
    case 9 => [6, 26, 46]
    case 10 => [6, 28, 50]
    case 11 => [6, 30, 54]
    case 12 => [6, 32, 58]
    case 13 => [6, 34, 62]
    case 14 => [6, 26, 46, 66]
    case 15 => [6, 26, 48, 70]
    case 16 => [6, 26, 50, 74]
    case 17 => [6, 30, 54, 78]
    case 18 => [6, 30, 56, 82]
    case 19 => [6, 30, 58, 86]
    case 20 => [6, 34, 62, 90]
    case 21 => [6, 28, 50, 72, 94]
    case 22 => [6, 26, 50, 74, 98]
    case 23 => [6, 30, 54, 78, 102]
    case 24 => [6, 28, 54, 80, 106]
    case 25 => [6, 32, 58, 84, 110]
    case 26 => [6, 30, 58, 86, 114]
    case 27 => [6, 34, 62, 90, 118]
    case 28 => [6, 26, 50, 74, 98, 122]
    case 29 => [6, 30, 54, 78, 102, 126]
    case 30 => [6, 26, 52, 78, 104, 130]
    case 31 => [6, 30, 56, 82, 108, 134]
    case 32 => [6, 34, 60, 86, 112, 138]
    case 33 => [6, 30, 58, 86, 114, 142]
    case 34 => [6, 34, 62, 90, 118, 146]
    case 35 => [6, 30, 54, 78, 102, 126, 150]
    case 36 => [6, 24, 50, 76, 102, 128, 154]
    case 37 => [6, 28, 54, 80, 106, 132, 158]
    case 38 => [6, 32, 58, 84, 110, 136, 162]
    case 39 => [6, 26, 54, 82, 110, 138, 166]
    case _ => [6, 30, 58, 86, 114, 142, 170]
  }

  // The distance of the centres but for the first.
  ghost function Step(v: int): int {
    match v
    case 2 => 12 case 3 => 16 case 4 => 20 case 5 => 24 case 6 => 28 case 7 => 16 case 8 => 18 case 9 => 20
    case 10 => 22 case 11 => 24 case 12 => 26 case 13 => 28 case 14 => 20 case 15 => 22 case 16 => 24 case 17 => 24
    case 18 => 26 case 19 => 28 case 20 => 28 case 21 => 22 case 22 => 24 case 23 => 24 case 24 => 26 case 25 => 26
    case 26 => 28 case 27 => 28 case 28 => 24 case 29 => 24 case 30 => 26 case 31 => 26 case 32 => 26 case 33 => 28
    case 34 => 28 case 35 => 24 case 36 => 26 case 37 => 26 case 38 => 26 case 39 => 28 case _ => 28
  }

  lemma StepIsInTable(v: int)
    requires 2 <= v <= VERSION_MAX
    ensures AlignStep(v) == Step(v)
  {
    hide AlignStep, Step;
    if v <= 6 {
      Steps2(v);
    } else if v <= 13 {
      Steps7(v);
    } else if v <= 20 {
      Steps14(v);
    } else if v <= 27 {
      Steps21(v);
    } else if v <= 34 {
      Steps28(v);
    } else if v <= 37 {
      Steps35(v);
    } else {
      Steps38(v);
    }
  }

  lemma Steps2(v: int)
    requires 2 <= v <= 6
    ensures AlignStep(v) == Step(v)
  {
  }

  lemma Steps7(v: int)
    requires 7 <= v <= 13
    ensures AlignStep(v) == Step(v)
  {
  }

  lemma Steps14(v: int)
    requires 14 <= v <= 20
    ensures AlignStep(v) == Step(v)
  {
  }

  lemma Steps21(v: int)
    requires 21 <= v <= 27
    ensures AlignStep(v) == Step(v)
  {
  }

  lemma Steps28(v: int)
    requires 28 <= v <= 34
    ensures AlignStep(v) == Step(v)
  {
  }

  lemma Steps35(v: int)
    requires 35 <= v <= 37
    ensures AlignStep(v) == Step(v)
  {
  }

  lemma Steps38(v: int)
    requires 38 <= v <= 40
    ensures AlignStep(v) == Step(v)
  {
  }

  lemma Positions2(v: int, i: nat)
    requires 2 <= v <= 6 && i < AlignCount(v)
    ensures |Positions(v)| == AlignCount(v) && Positions(v)[i] == AlignPosition(v, i)
  {
    StepIsInTable(v);
    hide AlignStep;
  }

  lemma Positions7(v: int, i: nat)
    requires 7 <= v <= 13 && i < AlignCount(v)
    ensures |Positions(v)| == AlignCount(v) && Positions(v)[i] == AlignPosition(v, i)
  {
    StepIsInTable(v);
    hide AlignStep;
  }

  lemma Positions14(v: int, i: nat)
    requires 14 <= v <= 20 && i < AlignCount(v)
    ensures |Positions(v)| == AlignCount(v) && Positions(v)[i] == AlignPosition(v, i)
  {
    StepIsInTable(v);
    hide AlignStep;
  }

  lemma Positions21(v: int, i: nat)
    requires 21 <= v <= 27 && i < AlignCount(v)
    ensures |Positions(v)| == AlignCount(v) && Positions(v)[i] == AlignPosition(v, i)
  {
    StepIsInTable(v);
    hide AlignStep;
  }

  lemma Positions28(v: int, i: nat)
    requires 28 <= v <= 34 && i < AlignCount(v)
    ensures |Positions(v)| == AlignCount(v) && Positions(v)[i] == AlignPosition(v, i)
  {
    StepIsInTable(v);
    hide AlignStep;
  }

  lemma Positions35(v: int, i: nat)
    requires 35 <= v <= 37 && i < AlignCount(v)
    ensures |Positions(v)| == AlignCount(v) && Positions(v)[i] == AlignPosition(v, i)
  {
    StepIsInTable(v);
    hide AlignStep;
  }

  lemma Positions38(v: int, i: nat)
    requires 38 <= v <= 40 && i < AlignCount(v)
    ensures |Positions(v)| == AlignCount(v) && Positions(v)[i] == AlignPosition(v, i)
  {
    StepIsInTable(v);
    hide AlignStep;
  }

  lemma NoPositions()
    ensures Positions(1) == [] && AlignCount(1) == 0
  {
  }

  lemma PositionInTable(v: int, i: nat)
    requires IsVersion(v) && i < AlignCount(v)
    ensures |Positions(v)| == AlignCount(v) && Positions(v)[i] == AlignPosition(v, i)
  {
    hide Positions, AlignPosition;
    if v <= 6 {
      Positions2(v, i);
    } else if v <= 13 {
      Positions7(v, i);
    } else if v <= 20 {
      Positions14(v, i);
    } else if v <= 27 {
      Positions21(v, i);
    } else if v <= 34 {
      Positions28(v, i);
    } else if v <= 37 {
      Positions35(v, i);
    } else {
      Positions38(v, i);
    }
  }

  lemma PositionsAreInTable(v: int)
    requires IsVersion(v)
    ensures |Positions(v)| == AlignCount(v)
    ensures forall i | 0 <= i < AlignCount(v) :: Positions(v)[i] == AlignPosition(v, i)
  {
    hide Positions, AlignPosition, AlignStep;
    if v == 1 {
      NoPositions();
    } else {
      PositionInTable(v, 0);
    }
    forall i | 0 <= i < AlignCount(v)
      ensures Positions(v)[i] == AlignPosition(v, i)
    {
      PositionInTable(v, i);
    }
  }

  lemma PositionIsEven(v: int, i: nat)
    requires IsVersion(v) && i < AlignCount(v)
    ensures AlignPosition(v, i) % 2 == 0
  {
    assert v > 1;
    var half := if v == 32 then 13 else (v * 4 + NumAlign(v) * 2 + 1) / (NumAlign(v) * 2 - 2);
    var back := NumAlign(v) - 1 - i;
    assert AlignStep(v) == 2 * half;
    hide AlignStep, NumAlign;
    TwiceTimes(half, back);
  }

  lemma TwiceTimes(half: int, back: int)
    ensures 2 * half * back == 2 * (half * back)
  {
  }

  // ----- the pictures -----

  // A corner of the symbol, seen from that corner; # is dark.
  const CORNER: seq<string> := [
    "#######.",
    "#.....#.",
    "#.###.#.",
    "#.###.#.",
    "#.###.#.",
    "#.....#.",
    "#######.",
    "........"
  ]

  const ALIGNMENT: seq<string> := [
    "#####",
    "#...#",
    "#.#.#",
    "#...#",
    "#####"
  ]

  predicate InCorner(x: int, y: int) {
    0 <= x < 8 && 0 <= y < 8
  }

  predicate DarkInCorner(x: int, y: int)
    requires InCorner(x, y)
  {
    CORNER[y][x] == '#'
  }

  predicate InAlignment(dx: int, dy: int) {
    -2 <= dx <= 2 && -2 <= dy <= 2
  }

  predicate DarkInAlignment(dx: int, dy: int)
    requires InAlignment(dx, dy)
  {
    ALIGNMENT[dy + 2][dx + 2] == '#'
  }

  // The colour of a function module that shows no format bit.
  ghost function ColourAt(v: int, x: int, y: int): bool
    requires IsVersion(v)
  {
    Over(PatternAt(v, x, y), true)
  }

  lemma CornerIsPicture(x: int, y: int)
    requires InCorner(x, y)
    ensures DarkInCorner(x, y) == !IsRing(x - 3, y - 3)
  {
  }

  lemma AlignmentIsPicture(dx: int, dy: int)
    requires InAlignment(dx, dy)
    ensures DarkInAlignment(dx, dy) == (Distance(dx, dy) != 1)
  {
  }

  // ----- the finder patterns -----

  // Only the first position lies near the upper or left border, and only the last one near the others.
  lemma NearBorder(v: int, i: nat)
    requires IsVersion(v) && i < AlignCount(v)
    ensures i == 0 ==> AlignPosition(v, i) == 6
    ensures i > 0 ==> AlignPosition(v, i) >= 18
    ensures i == AlignCount(v) - 1 ==> AlignPosition(v, i) == Size(v) - 7
    ensures i < AlignCount(v) - 1 ==> AlignPosition(v, i) <= Size(v) - 19
  {
    hide AlignPosition, NumAlign;
    EndPositions(v);
    AlignPositionsBound(v, i);
    if i > 0 {
      AlignPositionsAscend(v, 0, i);
    }
    if i < AlignCount(v) - 1 {
      AlignPositionsAscend(v, i, AlignCount(v) - 1);
      AlignPositionsBound(v, AlignCount(v) - 1);
    }
  }

  // No alignment pattern reaches into a corner.
  lemma ClearOfCorners(v: int, i: nat, j: nat, x: int, y: int)
    requires IsVersion(v) && HasAlignment(v, i, j)
    requires -2 <= x - AlignPosition(v, i) <= 2 && -2 <= y - AlignPosition(v, j) <= 2
    ensures !(x < 9 && y < 9) && !(x >= Size(v) - 9 && y < 9) && !(x < 9 && y >= Size(v) - 9)
    ensures !(Size(v) - 11 <= x && y < 6) && !(x < 6 && Size(v) - 11 <= y)
  {
    hide AlignPosition, NumAlign;
    NearBorder(v, i);
    NearBorder(v, j);
  }

  lemma CornerColour(v: int, x: int, y: int)
    requires IsVersion(v) && 0 <= x < Size(v) && 0 <= y < Size(v)
    requires (x < 8 && y < 8) || (x >= Size(v) - 8 && y < 8) || (x < 8 && y >= Size(v) - 8)
    ensures FinderAt(Size(v), x, y) == Nothing ==> TimingAt(Size(v), x, y) == Nothing
    ensures ColourAt(v, x, y) == (FinderAt(Size(v), x, y) == Nothing)
  {
    hide AlignPosition, HasAlignment, NumAlign, VersionWord, Lowest, Shifted;
    if i, j :| NearAlignment(v, i, j, x, y) {
      ClearOfCorners(v, i, j, x, y);
      assert false;
    }
    assert AlignmentAt(v, x, y) == Nothing;
    assert VersionAt(v, x, y) == Nothing;
  }

  // A corner with a finder pattern looks alike from each of the three corners.
  lemma CornersShow(v: int, x: int, y: int)
    requires IsVersion(v) && InCorner(x, y)
    ensures ColourAt(v, x, y) == DarkInCorner(x, y)
    ensures ColourAt(v, Size(v) - 1 - x, y) == DarkInCorner(x, y)
    ensures ColourAt(v, x, Size(v) - 1 - y) == DarkInCorner(x, y)
  {
    hide ColourAt, DarkInCorner, TimingAt;
    CornerIsPicture(x, y);
    CornerColour(v, x, y);
    CornerColour(v, Size(v) - 1 - x, y);
    CornerColour(v, x, Size(v) - 1 - y);
  }

  // ----- the alignment patterns -----

  lemma SamePosition(v: int, i: nat, k: nat, x: int)
    requires IsVersion(v) && i < AlignCount(v) && k < AlignCount(v)
    requires -2 <= x - AlignPosition(v, i) <= 2 && -2 <= x - AlignPosition(v, k) <= 2
    ensures i == k
  {
    hide AlignPosition, AlignCount;
    if i < k {
      AlignPositionsAscend(v, i, k);
    } else if k < i {
      AlignPositionsAscend(v, k, i);
    }
  }

  lemma OnlyAlignment(v: int, i: nat, j: nat, k: nat, l: nat, x: int, y: int)
    requires IsVersion(v) && HasAlignment(v, i, j)
    requires -2 <= x - AlignPosition(v, i) <= 2 && -2 <= y - AlignPosition(v, j) <= 2
    requires NearAlignment(v, k, l, x, y) || AtAlignment(v, k, l, x, y)
    ensures k == i && l == j
  {
    hide AlignPosition, AlignCount;
    SamePosition(v, i, k, x);
    SamePosition(v, j, l, y);
  }

  lemma AlignmentStroke(v: int, i: nat, j: nat, x: int, y: int)
    requires IsVersion(v) && HasAlignment(v, i, j)
    requires -2 <= x - AlignPosition(v, i) <= 2 && -2 <= y - AlignPosition(v, j) <= 2
    ensures var d := Distance(x - AlignPosition(v, i), y - AlignPosition(v, j));
            AlignmentAt(v, x, y) == if d <= 1 then Colour(d == 0) else Nothing
  {
    hide AlignPosition, HasAlignment;
    if k, l :| NearAlignment(v, k, l, x, y) {
      OnlyAlignment(v, i, j, k, l, x, y);
    }
    if k, l :| AtAlignment(v, k, l, x, y) {
      OnlyAlignment(v, i, j, k, l, x, y);
    }
    var d := Distance(x - AlignPosition(v, i), y - AlignPosition(v, j));
    if d <= 1 {
      assert NearAlignment(v, i, j, x, y);
    }
    if d == 0 {
      assert AtAlignment(v, i, j, x, y);
    }
  }

  // Every alignment pattern looks alike.
  lemma AlignmentShows(v: int, i: nat, j: nat, dx: int, dy: int)
    requires IsVersion(v) && HasAlignment(v, i, j) && InAlignment(dx, dy)
    ensures ColourAt(v, AlignPosition(v, i) + dx, AlignPosition(v, j) + dy) == DarkInAlignment(dx, dy)
  {
    hide AlignPosition, HasAlignment, DarkInAlignment, AlignmentAt, VersionWord, Lowest, Shifted;
    var x, y := AlignPosition(v, i) + dx, AlignPosition(v, j) + dy;
    AlignmentIsPicture(dx, dy);
    AlignmentStroke(v, i, j, x, y);
    ClearOfCorners(v, i, j, x, y);
    PositionsInRange(v, i, j);
    TwoAway(v, i, dx);
    TwoAway(v, j, dy);
    assert VersionAt(v, x, y) == Nothing;
    assert FinderAt(Size(v), x, y) == Nothing;
  }

  lemma PositionsInRange(v: int, i: nat, j: nat)
    requires IsVersion(v) && HasAlignment(v, i, j)
    ensures i < AlignCount(v) && j < AlignCount(v)
    ensures AlignPosition(v, i) % 2 == 0 && AlignPosition(v, j) % 2 == 0
    ensures 6 <= AlignPosition(v, i) <= Size(v) - 7 && 6 <= AlignPosition(v, j) <= Size(v) - 7
  {
    hide AlignPosition, AlignCount;
    PositionIsEven(v, i);
    PositionIsEven(v, j);
    AlignPositionsBound(v, i);
    AlignPositionsBound(v, j);
  }

  // A pattern reaches column 6 only from a position on it.
  lemma TwoAway(v: int, i: nat, dx: int)
    requires IsVersion(v) && i < AlignCount(v) && -2 <= dx <= 2
    ensures AlignPosition(v, i) + dx == 6 ==> dx == 0
  {
    hide AlignPosition;
    NearBorder(v, i);
  }

  // ----- the timing patterns -----

  lemma TimingThroughAlignment(v: int, i: nat, j: nat, x: int, y: int)
    requires IsVersion(v) && NearAlignment(v, i, j, x, y) && (x == 6 || y == 6)
    ensures AlignmentAt(v, x, y) == Colour((x + y) % 2 == 0)
  {
    hide AlignPosition, HasAlignment, AlignmentAt;
    PositionsInRange(v, i, j);
    AlignmentStroke(v, i, j, x, y);
    TwoAway(v, i, x - AlignPosition(v, i));
    TwoAway(v, j, y - AlignPosition(v, j));
  }

  // Between the corners row and column 6 alternate, also where they pass through alignment patterns.
  lemma TimingShows(v: int, x: int, y: int)
    requires IsVersion(v) && ((x == 6 && 8 <= y < Size(v) - 8) || (y == 6 && 8 <= x < Size(v) - 8))
    ensures ColourAt(v, x, y) == ((x + y) % 2 == 0)
  {
    hide AlignPosition, HasAlignment, VersionWord, Lowest, Shifted;
    if i, j :| NearAlignment(v, i, j, x, y) {
      TimingThroughAlignment(v, i, j, x, y);
    }
    assert VersionAt(v, x, y) == Nothing;
    assert FinderAt(Size(v), x, y) == Nothing;
  }

  // ----- the version blocks -----

  // Bit k of the version word, from the lowest on, is shown in both blocks.
  lemma VersionShows(v: int, k: nat)
    requires 7 <= v <= VERSION_MAX && k < 18
    ensures ColourAt(v, Size(v) - 11 + k % 3, k / 3) == Lowest(Shifted(VersionWord(v), k))
    ensures ColourAt(v, k / 3, Size(v) - 11 + k % 3) == Lowest(Shifted(VersionWord(v), k))
  {
    hide AlignmentAt, FinderAt, TimingAt, VersionWord, Lowest, Shifted;
  }
}
