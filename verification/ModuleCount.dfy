// There are at least NumRawDataModules modules outside the function area, so every codeword has its place.
module ModuleCount {
  import opened Arithmetic
  import opened Grids
  import opened Parameters
  import opened FunctionPatterns
  import opened LightPatterns
  import opened Zigzag

  // ----- sizes of sets of cells -----

  ghost function Line(left: int, width: nat, y: int): (s: set<Cell>)
    ensures |s| == width
    ensures forall p: Cell :: p in s <==> left <= p.x < left + width && p.y == y
  {
    if width == 0 then {} else Line(left, width - 1, y) + {Cell(left + width - 1, y)}
  }

  ghost function Block(left: int, top: int, width: nat, height: nat): (s: set<Cell>)
    ensures |s| == width * height
    ensures forall p: Cell :: p in s <==> left <= p.x < left + width && top <= p.y < top + height
  {
    if height == 0 then {}
    else
      assert width * height == width * (height - 1) + width;
      Block(left, top, width, height - 1) + Line(left, width, top + height - 1)
  }

  function Area(rects: seq<Rect>): nat {
    if rects == [] then 0 else Area(rects[..|rects| - 1]) + rects[|rects| - 1].width * rects[|rects| - 1].height
  }

  lemma {:induction false} AreaAppend(a: seq<Rect>, b: seq<Rect>)
    ensures Area(a + b) == Area(a) + Area(b)
  {
    if b == [] {
      assert a + b == a;
    } else {
      AreaAppend(a, b[..|b| - 1]);
      assert (a + b)[..|a + b| - 1] == a + b[..|b| - 1];
    }
  }

  // The cells of the rectangles number at most their total area.
  ghost function Union(rects: seq<Rect>): (s: set<Cell>)
    ensures |s| <= Area(rects)
    ensures forall p: Cell :: p in s <==> Covered(rects, p.x, p.y)
  {
    if rects == [] then {}
    else
      var r := rects[|rects| - 1];
      var s, t := Union(rects[..|rects| - 1]), Block(r.left, r.top, r.width, r.height);
      UnionStep(rects);
      assert |s + t| == |s| + |t| - |s * t|;
      s + t
  }

  lemma UnionStep(rects: seq<Rect>)
    requires rects != []
    ensures forall x, y :: Covered(rects, x, y) <==> Covered(rects[..|rects| - 1], x, y) || rects[|rects| - 1].Contains(x, y)
  {
    var a, r := rects[..|rects| - 1], rects[|rects| - 1];
    assert rects == a + [r];
    forall x, y
      ensures Covered(rects, x, y) <==> Covered(a, x, y) || r.Contains(x, y)
    {
      CoveredByEither(a, [r], x, y);
      CoveredByOne(r, x, y);
    }
  }

  // ----- a cover of the function area without waste -----

  // An alignment pattern, without the row or column that belongs to a timing pattern.
  function Pieces(v: int, i: nat, j: nat): seq<Rect>
    requires IsVersion(v)
  {
    var px, py := AlignPosition(v, i), AlignPosition(v, j);
    if !HasAlignment(v, i, j) then []
    else if i > 0 && j > 0 then [AlignmentRect(v, i, j)]
    else if i > 0 then [Rect(px - 2, 4, 5, 2), Rect(px - 2, 7, 5, 2)]
    else [Rect(4, py - 2, 2, 5), Rect(7, py - 2, 2, 5)]
  }

  function PieceRow(v: int, i: nat, j: nat): seq<Rect>
    requires IsVersion(v)
  {
    if j == 0 then [] else PieceRow(v, i, j - 1) + Pieces(v, i, j - 1)
  }

  function PieceRows(v: int, i: nat): seq<Rect>
    requires IsVersion(v)
  {
    if i == 0 then [] else PieceRows(v, i - 1) + PieceRow(v, i - 1, AlignCount(v))
  }

  function FixedPieces(v: int): seq<Rect>
    requires IsVersion(v)
  {
    var n := Size(v);
    [Rect(6, 9, 1, n - 17), Rect(9, 6, n - 17, 1), Rect(0, 0, 9, 9), Rect(n - 8, 0, 8, 9), Rect(0, n - 8, 9, 8)]
    + VersionRects(v)
  }

  function Cover(v: int): seq<Rect>
    requires IsVersion(v)
  {
    FixedPieces(v) + PieceRows(v, AlignCount(v))
  }

  // The area of the pieces at (i, j).
  function PieceArea(m: nat, i: nat, j: nat): nat {
    if i > 0 && j > 0 then 25
    else if i == 0 && j == 0 then 0
    else if i == m - 1 || j == m - 1 then 0
    else 20
  }

  lemma PiecesArea(v: int, i: nat, j: nat)
    requires IsVersion(v) && i < AlignCount(v) && j < AlignCount(v)
    ensures Area(Pieces(v, i, j)) == PieceArea(AlignCount(v), i, j)
  {
    var p := Pieces(v, i, j);
    assert |p| == 2 ==> p[..1] == [p[0]];
    assert |p| == 2 ==> Area(p[..1]) == Area(p[..1][..0]) + 10;
  }

  lemma {:induction false} PieceRowArea(v: int, i: nat, j: nat)
    requires IsVersion(v) && i < AlignCount(v) && j <= AlignCount(v)
    ensures Area(PieceRow(v, i, j)) ==
            if j == 0 then 0
            else if i == 0 then 20 * (if j < AlignCount(v) then j - 1 else AlignCount(v) - 2)
            else (if i < AlignCount(v) - 1 then 20 else 0) + 25 * (j - 1)
  {
    hide Pieces, Area;
    if j > 0 {
      PieceRowArea(v, i, j - 1);
      PiecesArea(v, i, j - 1);
      AreaAppend(PieceRow(v, i, j - 1), Pieces(v, i, j - 1));
    } else {
      NoArea();
    }
    TwoPositions(v);
    hide AlignCount;
  }

  lemma NoArea()
    ensures Area([]) == 0
  {
  }

  lemma TwoPositions(v: int)
    requires IsVersion(v)
    ensures AlignCount(v) > 0 ==> AlignCount(v) >= 2
  {
  }

  lemma {:induction false} PieceRowsArea(v: int, i: nat)
    requires IsVersion(v) && i <= AlignCount(v)
    ensures var m := AlignCount(v);
            Area(PieceRows(v, i)) ==
            if i == 0 then 0 else 20 * (m - 2) + 25 * ((m - 1) * (i - 1)) + 20 * (if i < m then i - 1 else m - 2)
  {
    hide AlignCount, PieceRow;
    if i > 0 {
      var m := AlignCount(v);
      PieceRowsArea(v, i - 1);
      PieceRowArea(v, i - 1, m);
      AreaAppend(PieceRows(v, i - 1), PieceRow(v, i - 1, m));
      TimesNext(m - 1, i - 2);
    }
  }

  lemma FixedPiecesArea(v: int)
    requires IsVersion(v)
    ensures Area(FixedPieces(v)) == 225 + 2 * (Size(v) - 17) + if v >= 7 then 36 else 0
  {
    var p := FixedPieces(v);
    assert p[..1][..0] == [] && p[..2][..1] == p[..1] && p[..3][..2] == p[..2] && p[..4][..3] == p[..3];
    assert p[..5][..4] == p[..4] && p[..5] + VersionRects(v) == p;
    assert Area(p[..1]) == Size(v) - 17;
    assert Area(p[..2]) == Area(p[..1]) + (Size(v) - 17);
    assert Area(p[..3]) == Area(p[..2]) + 81;
    assert Area(p[..4]) == Area(p[..3]) + 72;
    assert Area(p[..5]) == Area(p[..4]) + 72;
    AreaAppend(p[..5], VersionRects(v));
    if v >= 7 {
      assert VersionRects(v)[..1][..0] == [];
      assert Area(VersionRects(v)[..1]) == 18;
    }
  }

  lemma SizeSquared(v: int)
    ensures (v * 4 + 17) * (v * 4 + 17) == (16 * v + 128) * v + 64 + 225 + 2 * (v * 4)
  {
  }

  lemma AlignmentArea(m: int)
    ensures (25 * m - 10) * m - 55 == 20 * (m - 2) + 25 * ((m - 1) * (m - 1)) + 20 * (m - 2)
  {
  }

  // All modules are those of the formula, the fixed patterns and the alignment patterns.
  lemma RawFormula(v: int)
    requires IsVersion(v)
    ensures var m := AlignCount(v);
            Size(v) * Size(v) == NumRawDataModules(v) + (225 + 2 * (Size(v) - 17) + if v >= 7 then 36 else 0) +
                                 if m == 0 then 0 else 20 * (m - 2) + 25 * ((m - 1) * (m - 1)) + 20 * (m - 2)
  {
    SizeSquared(v);
    AlignmentArea(NumAlign(v));
    assert NumAlign(v) >= 2;
    hide NumAlign;
  }

  // The cover leaves exactly the number of modules that the formula gives.
  lemma CoverArea(v: int)
    requires IsVersion(v)
    ensures Area(Cover(v)) + NumRawDataModules(v) == Size(v) * Size(v)
  {
    hide FixedPieces, PieceRows, NumAlign, NumRawDataModules, Size, AlignCount;
    PieceRowsArea(v, AlignCount(v));
    FixedPiecesArea(v);
    AreaAppend(FixedPieces(v), PieceRows(v, AlignCount(v)));
    RawFormula(v);
  }

  // ----- the cover covers -----

  lemma {:induction false} PieceRowHas(v: int, i: nat, j: nat, m: nat, x: int, y: int)
    requires IsVersion(v) && j < m && Covered(Pieces(v, i, j), x, y)
    ensures Covered(PieceRow(v, i, m), x, y)
  {
    hide Pieces, Covered;
    CoveredByEither(PieceRow(v, i, m - 1), Pieces(v, i, m - 1), x, y);
    if j < m - 1 {
      PieceRowHas(v, i, j, m - 1, x, y);
    }
  }

  lemma {:induction false} PieceRowsHave(v: int, i: nat, j: nat, m: nat, x: int, y: int)
    requires IsVersion(v) && i < m && j < AlignCount(v) && Covered(Pieces(v, i, j), x, y)
    ensures Covered(PieceRows(v, m), x, y)
  {
    hide Pieces, PieceRow, Covered;
    CoveredByEither(PieceRows(v, m - 1), PieceRow(v, m - 1, AlignCount(v)), x, y);
    if i < m - 1 {
      PieceRowsHave(v, i, j, m - 1, x, y);
    } else {
      PieceRowHas(v, i, j, AlignCount(v), x, y);
    }
  }

  lemma {:induction false} RowCovers(v: int, i: nat, m: nat, x: int, y: int) returns (j: nat)
    requires IsVersion(v) && Covered(AlignmentRow(v, i, m), x, y)
    ensures j < m && HasAlignment(v, i, j) && AlignmentRect(v, i, j).Contains(x, y)
  {
    hide AlignmentRect, HasAlignment, Covered;
    if m == 0 {
      NothingCovered(x, y);
      assert false;
    }
    var last := if HasAlignment(v, i, m - 1) then [AlignmentRect(v, i, m - 1)] else [];
    CoveredByEither(AlignmentRow(v, i, m - 1), last, x, y);
    NothingCovered(x, y);
    if Covered(AlignmentRow(v, i, m - 1), x, y) {
      j := RowCovers(v, i, m - 1, x, y);
    } else {
      CoveredByOne(AlignmentRect(v, i, m - 1), x, y);
      j := m - 1;
    }
  }

  lemma NothingCovered(x: int, y: int)
    ensures !Covered([], x, y)
  {
  }

  lemma {:induction false} RowsCover(v: int, m: nat, x: int, y: int) returns (i: nat, j: nat)
    requires IsVersion(v) && Covered(AlignmentRows(v, m), x, y)
    ensures i < m && j < AlignCount(v) && HasAlignment(v, i, j) && AlignmentRect(v, i, j).Contains(x, y)
  {
    hide AlignmentRect, HasAlignment, AlignmentRow, Covered;
    if m == 0 {
      NothingCovered(x, y);
      assert false;
    }
    CoveredByEither(AlignmentRows(v, m - 1), AlignmentRow(v, m - 1, AlignCount(v)), x, y);
    if Covered(AlignmentRows(v, m - 1), x, y) {
      i, j := RowsCover(v, m - 1, x, y);
    } else {
      i := m - 1;
      j := RowCovers(v, i, AlignCount(v), x, y);
    }
  }

  lemma InFixedPieces(v: int, k: nat, x: int, y: int)
    requires IsVersion(v) && k < |FixedPieces(v)| && FixedPieces(v)[k].Contains(x, y)
    ensures Covered(Cover(v), x, y)
  {
    CoveredByEither(FixedPieces(v), PieceRows(v, AlignCount(v)), x, y);
  }

  lemma FinderCovered(v: int, x: int, y: int)
    requires IsVersion(v) && 0 <= x < Size(v) && 0 <= y < Size(v)
    requires Covered(FinderRects(v), x, y)
    ensures Covered(Cover(v), x, y)
  {
    hide Cover;
    var n := Size(v);
    if x < 9 && y < 9 {
      InFixedPieces(v, 2, x, y);
    } else if x >= n - 8 && y < 9 {
      InFixedPieces(v, 3, x, y);
    } else if x < 9 && y >= n - 8 {
      InFixedPieces(v, 4, x, y);
    } else if x == 6 {
      InFixedPieces(v, 0, x, y);
    } else {
      InFixedPieces(v, 1, x, y);
    }
  }

  lemma VersionCovered(v: int, x: int, y: int)
    requires IsVersion(v) && Covered(VersionRects(v), x, y)
    ensures Covered(Cover(v), x, y)
  {
    var k :| 0 <= k < |VersionRects(v)| && VersionRects(v)[k].Contains(x, y);
    assert FixedPieces(v)[5 + k] == VersionRects(v)[k];
    InFixedPieces(v, 5 + k, x, y);
  }

  lemma AlignmentCovered(v: int, i: nat, j: nat, x: int, y: int)
    requires IsVersion(v) && 0 <= x < Size(v) && 0 <= y < Size(v)
    requires HasAlignment(v, i, j) && AlignmentRect(v, i, j).Contains(x, y)
    ensures Covered(Cover(v), x, y)
  {
    hide Cover, PieceRows, HasAlignment, AlignPosition, FinderRects;
    FirstAlignPosition(v);
    if x == 6 || y == 6 {
      TimingCovered(v, x, y);
      FinderCovered(v, x, y);
    } else {
      var p := Pieces(v, i, j);
      if i > 0 && j > 0 {
        assert p[0].Contains(x, y);
      } else if i > 0 {
        assert p[if y < 6 then 0 else 1].Contains(x, y);
      } else {
        BothZero(v, i, j);
        assert p[if x < 6 then 0 else 1].Contains(x, y);
      }
      AlignmentIndices(v, i, j);
      PieceRowsHave(v, i, j, AlignCount(v), x, y);
      InPieceRows(v, x, y);
    }
  }

  lemma FirstAlignPosition(v: int)
    requires IsVersion(v)
    ensures AlignPosition(v, 0) == 6
  {
  }

  lemma BothZero(v: int, i: nat, j: nat)
    requires IsVersion(v) && HasAlignment(v, i, j) && i == 0
    ensures j > 0
  {
  }

  lemma AlignmentIndices(v: int, i: nat, j: nat)
    requires IsVersion(v) && HasAlignment(v, i, j)
    ensures i < AlignCount(v) && j < AlignCount(v)
  {
  }

  lemma InPieceRows(v: int, x: int, y: int)
    requires IsVersion(v) && Covered(PieceRows(v, AlignCount(v)), x, y)
    ensures Covered(Cover(v), x, y)
  {
    hide Covered, PieceRows, FixedPieces;
    CoveredByEither(FixedPieces(v), PieceRows(v, AlignCount(v)), x, y);
  }

  lemma TimingCovered(v: int, x: int, y: int)
    requires IsVersion(v) && 0 <= x < Size(v) && 0 <= y < Size(v) && (x == 6 || y == 6)
    ensures Covered(FinderRects(v), x, y)
  {
    assert FinderRects(v)[if x == 6 then 0 else 1].Contains(x, y);
  }

  lemma FunctionCovered(v: int, x: int, y: int)
    requires IsVersion(v) && 0 <= x < Size(v) && 0 <= y < Size(v) && IsFunction(v, x, y)
    ensures Covered(Cover(v), x, y)
  {
    hide Covered, Cover, AlignmentRows, VersionRects, FinderRects, HasAlignment, AlignmentRect;
    CoveredByEither(FinderRects(v) + AlignmentRows(v, AlignCount(v)), VersionRects(v), x, y);
    CoveredByEither(FinderRects(v), AlignmentRows(v, AlignCount(v)), x, y);
    if Covered(FinderRects(v), x, y) {
      FinderCovered(v, x, y);
    } else if Covered(VersionRects(v), x, y) {
      VersionCovered(v, x, y);
    } else {
      var i, j := RowsCover(v, AlignCount(v), x, y);
      AlignmentCovered(v, i, j, x, y);
    }
  }

  // ----- counting the light modules along the scan -----

  ghost predicate LightAt(area: Grid, n: nat, p: Cell)
    requires Square(area, n)
  {
    0 <= p.x < n && 0 <= p.y < n && !At(area, n, p)
  }

  ghost function LightCells(area: Grid, n: nat, cells: seq<Cell>): (s: set<Cell>)
    requires Square(area, n) && Inside(cells, n)
    ensures forall p: Cell :: p in s <==> p in cells && LightAt(area, n, p)
  {
    if cells == [] then {}
    else
      var p := cells[|cells| - 1];
      LightCells(area, n, cells[..|cells| - 1]) + if LightAt(area, n, p) then {p} else {}
  }

  lemma {:induction false} ReadCounts(area: Grid, n: nat, cells: seq<Cell>)
    requires Square(area, n) && Inside(cells, n) && NoRepeats(cells)
    ensures |Read(area, area, n, cells)| == |LightCells(area, n, cells)|
  {
    hide At;
    if cells != [] {
      var m := |cells| - 1;
      ReadCounts(area, n, cells[..m]);
      assert cells[m] !in cells[..m];
    }
  }

  lemma OutsideCoverIsLight(v: int, p: Cell)
    requires IsVersion(v) && 0 <= p.x < Size(v) && 0 <= p.y < Size(v) && !Covered(Cover(v), p.x, p.y)
    requires Inside(ZigzagCells(Size(v)), Size(v))
    ensures p in LightCells(FunctionGrid(v), Size(v), ZigzagCells(Size(v)))
  {
    hide Cover, IsFunction, Covered, ZigzagCells;
    var n, area, cells := Size(v), FunctionGrid(v), ZigzagCells(Size(v));
    if IsFunction(v, p.x, p.y) {
      FunctionCovered(v, p.x, p.y);
    }
    if p.x == 6 {
      ColumnSixIsFunction(v, p.y);
    }
    ZigzagVisitsOnce(n);
    assert p in cells && LightAt(area, n, p);
  }

  lemma DifferenceSize(s: set<Cell>, t: set<Cell>)
    ensures |s - t| >= |s| - |t|
  {
    assert s == (s - t) + (s * t) && t == (t - s) + (s * t);
  }

  // The live count of light modules is enough for every raw codeword.
  lemma EnoughLightModules(v: int)
    requires IsVersion(v)
    ensures Size(v) % 2 == 1 && Inside(ZigzagCells(Size(v)), Size(v))
    ensures 8 * RawCodewords(v) <= NumRawDataModules(v) <=
            |Read(FunctionGrid(v), FunctionGrid(v), Size(v), ZigzagCells(Size(v)))|
  {
    hide NumRawDataModules, Cover, Read, IsFunction, Covered, ZigzagCells, LightCells;
    var n, area, cells := Size(v), FunctionGrid(v), ZigzagCells(Size(v));
    ZigzagVisitsOnce(n);
    ScanInside(cells, n);
    ReadCounts(area, n, cells);
    CoverArea(v);
    var all, union, light := Block(0, 0, n, n), Union(Cover(v)), LightCells(area, n, cells);
    forall p: Cell | p in all - union
      ensures p in light
    {
      OutsideCoverIsLight(v, p);
    }
    SubsetBound(all - union, light);
    DifferenceSize(all, union);
  }

  lemma ScanInside(cells: seq<Cell>, n: nat)
    requires forall p: Cell | p in cells :: 0 <= p.x < n && 0 <= p.y < n
    ensures Inside(cells, n)
  {
  }

  lemma SubsetBound(s: set<Cell>, t: set<Cell>)
    requires s <= t
    ensures |s| <= |t|
  {
    assert t == s + (t - s);
  }

  lemma ColumnSixIsFunction(v: int, y: int)
    requires IsVersion(v) && 0 <= y < Size(v)
    ensures IsFunction(v, 6, y)
  {
    InFinderRects(v, 0, 6, y);
  }
}
