// Which modules of a symbol carry function patterns rather than codewords.
module FunctionPatterns {
  import opened Arithmetic
  import opened Bytes
  import opened BitBuffer
  import opened Grids
  import opened Parameters

  datatype Rect = Rect(left: int, top: int, width: nat, height: nat) {
    predicate Contains(x: int, y: int) {
      left <= x < left + width && top <= y < top + height
    }

    predicate Within(n: nat) {
      0 <= left && left + width <= n && 0 <= top && top + height <= n
    }
  }

  // ----- alignment patterns -----

  // The number of alignment pattern positions on an axis.
  function AlignCount(v: int): nat
    requires IsVersion(v)
  {
    if v == 1 then 0 else NumAlign(v)
  }

  function AlignStep(v: int): int
    requires IsVersion(v)
  {
    if v == 32 then 26 else (v * 4 + NumAlign(v) * 2 + 1) / (NumAlign(v) * 2 - 2) * 2
  }

  function AlignPosition(v: int, i: nat): int
    requires IsVersion(v)
  {
    if i == 0 then 6 else v * 4 + 10 - AlignStep(v) * (NumAlign(v) - 1 - i)
  }

  // Alignment patterns sit at every pair of positions except the three finder corners.
  predicate HasAlignment(v: int, i: nat, j: nat)
    requires IsVersion(v)
  {
    var last := AlignCount(v) - 1;
    i <= last && j <= last && !((i == 0 && j == 0) || (i == 0 && j == last) || (i == last && j == 0))
  }

  function AlignmentRect(v: int, i: nat, j: nat): Rect
    requires IsVersion(v)
  {
    Rect(AlignPosition(v, i) - 2, AlignPosition(v, j) - 2, 5, 5)
  }

  lemma AlignStepBound(v: int)
    requires 2 <= v <= VERSION_MAX
    ensures AlignStep(v) >= 12 && AlignStep(v) * (NumAlign(v) - 2) + 12 <= v * 4 + 4
  {
    var k := NumAlign(v);
    if k == 2 {
    } else if k == 3 {
      assert AlignStep(v) == (v * 4 + 7) / 4 * 2;
    } else if k == 4 {
      assert AlignStep(v) == (v * 4 + 9) / 6 * 2;
    } else if k == 5 {
      assert AlignStep(v) == (v * 4 + 11) / 8 * 2;
    } else if k == 6 {
      assert v != 32 ==> AlignStep(v) == (v * 4 + 13) / 10 * 2;
    } else {
      assert k == 7 && AlignStep(v) == (v * 4 + 15) / 12 * 2;
    }
  }

  lemma AlignPositionsBound(v: int, i: nat)
    requires IsVersion(v) && i < AlignCount(v)
    ensures 6 <= AlignPosition(v, i) <= Size(v) - 7
  {
    hide AlignStep, NumAlign;
    if i > 0 {
      AlignStepBound(v);
      TimesMonotone(AlignStep(v), NumAlign(v) - 1 - i, NumAlign(v) - 2);
    }
  }

  // Positions ascend, with room for the patterns between them.
  lemma AlignPositionsAscend(v: int, i: nat, j: nat)
    requires IsVersion(v) && i < j < AlignCount(v)
    ensures AlignPosition(v, i) + 12 <= AlignPosition(v, j)
  {
    hide AlignStep, NumAlign;
    AlignStepBound(v);
    if i == 0 {
      TimesMonotone(AlignStep(v), NumAlign(v) - 1 - j, NumAlign(v) - 2);
    } else {
      TimesMonotone(AlignStep(v), NumAlign(v) - 1 - j, NumAlign(v) - 2 - i);
      TimesNext(AlignStep(v), NumAlign(v) - 2 - i);
    }
  }

  // The alignment patterns (i, 0), ..., (i, j-1).
  function AlignmentRow(v: int, i: nat, j: nat): seq<Rect>
    requires IsVersion(v)
  {
    if j == 0 then []
    else AlignmentRow(v, i, j - 1) + if HasAlignment(v, i, j - 1) then [AlignmentRect(v, i, j - 1)] else []
  }

  // All alignment patterns in the first i rows.
  function AlignmentRows(v: int, i: nat): seq<Rect>
    requires IsVersion(v)
  {
    if i == 0 then [] else AlignmentRows(v, i - 1) + AlignmentRow(v, i - 1, AlignCount(v))
  }

  // ----- the function area -----

  // Timing patterns, and the three finder patterns with their separators and format bits.
  function FinderRects(v: int): seq<Rect>
    requires IsVersion(v)
  {
    var n := Size(v);
    [Rect(6, 0, 1, n), Rect(0, 6, n, 1), Rect(0, 0, 9, 9), Rect(n - 8, 0, 8, 9), Rect(0, n - 8, 9, 8)]
  }

  function VersionRects(v: int): seq<Rect>
    requires IsVersion(v)
  {
    if v >= 7 then [Rect(Size(v) - 11, 0, 3, 6), Rect(0, Size(v) - 11, 6, 3)] else []
  }

  function FunctionRects(v: int): seq<Rect>
    requires IsVersion(v)
  {
    FinderRects(v) + AlignmentRows(v, AlignCount(v)) + VersionRects(v)
  }

  predicate Covered(rects: seq<Rect>, x: int, y: int) {
    exists k | 0 <= k < |rects| :: rects[k].Contains(x, y)
  }

  predicate IsFunction(v: int, x: int, y: int)
    requires IsVersion(v)
  {
    Covered(FunctionRects(v), x, y)
  }

  function FunctionGrid(v: int): (g: Grid)
    requires IsVersion(v)
    ensures Square(g, Size(v))
    ensures forall x, y | 0 <= x < Size(v) && 0 <= y < Size(v) :: g[y][x] == IsFunction(v, x, y)
  {
    seq(Size(v), y requires 0 <= y < Size(v) => seq(Size(v), x requires 0 <= x < Size(v) => IsFunction(v, x, y)))
  }

  lemma CoveredByEither(a: seq<Rect>, b: seq<Rect>, x: int, y: int)
    ensures Covered(a + b, x, y) == (Covered(a, x, y) || Covered(b, x, y))
  {
    hide Rect.Contains;
    if Covered(a, x, y) {
      var k :| 0 <= k < |a| && a[k].Contains(x, y);
      assert (a + b)[k].Contains(x, y);
    }
    if Covered(b, x, y) {
      var k :| 0 <= k < |b| && b[k].Contains(x, y);
      assert (a + b)[|a| + k].Contains(x, y);
    }
  }

  // ----- drawing -----

  lemma EndPositions(v: int)
    requires 2 <= v <= VERSION_MAX
    ensures AlignPosition(v, 0) == 6 && AlignPosition(v, NumAlign(v) - 1) == v * 4 + 10
    ensures AlignStep(v) == if v == 32 then 26 else (v * 4 + NumAlign(v) * 2 + 1) / (NumAlign(v) * 2 - 2) * 2
    ensures NumAlign(v) == v / 7 + 2 <= 7
  {
    assert AlignStep(v) == if v == 32 then 26 else (v * 4 + NumAlign(v) * 2 + 1) / (NumAlign(v) * 2 - 2) * 2;
    hide AlignStep;
  }

  lemma PositionBefore(v: int, i: nat)
    requires 2 <= v <= VERSION_MAX && 2 <= i < NumAlign(v)
    ensures AlignPosition(v, i - 1) == AlignPosition(v, i) - AlignStep(v)
  {
    hide AlignStep, NumAlign;
    TimesNext(AlignStep(v), NumAlign(v) - 1 - i);
  }

  // The ascending alignment pattern positions, filled in from the last.
  method GetAlignmentPatternPositions(v: int) returns (positions: seq<int>)
    requires IsVersion(v)
    ensures |positions| == AlignCount(v) <= 7
    ensures forall i | 0 <= i < |positions| :: positions[i] == AlignPosition(v, i)
    ensures forall i, j | 0 <= i < j < |positions| :: positions[i] < positions[j]
  {
    hide AlignPosition, AlignStep;
    if v == 1 {
      return [];
    }
    var numAlign := v / 7 + 2;
    var result := new int[7];
    var step := if v == 32 then 26 else (v * 4 + numAlign * 2 + 1) / (numAlign * 2 - 2) * 2;
    var pos := v * 4 + 10;
    var i := numAlign - 1;
    EndPositions(v);
    while i >= 1
      invariant 0 <= i < numAlign && (i >= 1 ==> pos == AlignPosition(v, i))
      invariant forall k | i < k < numAlign :: result[k] == AlignPosition(v, k)
    {
      result[i] := pos;
      if i >= 2 {
        PositionBefore(v, i);
      }
      i, pos := i - 1, pos - step;
    }
    result[0] := 6;
    positions := result[..numAlign];
    forall k, l | 0 <= k < l < numAlign
      ensures positions[k] < positions[l]
    {
      AlignPositionsAscend(v, k, l);
    }
  }

  // The grid with every module of the rectangle dark.
  ghost predicate FilledWith(before: Grid, after: Grid, n: nat, r: Rect)
  {
    Square(before, n) && Square(after, n) &&
    forall x, y | 0 <= x < n && 0 <= y < n :: after[y][x] == (before[y][x] || r.Contains(x, y))
  }

  method FillRectangle(left: int, top: int, width: nat, height: nat, qrcode: array<Byte>)
    requires IsSymbol(qrcode[..]) && Rect(left, top, width, height).Within(SizeOf(qrcode[..]))
    modifies qrcode
    ensures IsSymbol(qrcode[..]) && qrcode[0] == old(qrcode[0])
    ensures FilledWith(old(View(qrcode[..])), View(qrcode[..]), SizeOf(qrcode[..]), Rect(left, top, width, height))
  {
    hide Value, View, SetAt;
    ghost var before, n := View(qrcode[..]), SizeOf(qrcode[..]);
    for dy := 0 to height
      invariant IsSymbol(qrcode[..]) && qrcode[0] == old(qrcode[0])
      invariant FilledWith(before, View(qrcode[..]), n, Rect(left, top, width, dy))
    {
      ghost var rows := View(qrcode[..]);
      for dx := 0 to width
        invariant IsSymbol(qrcode[..]) && qrcode[0] == old(qrcode[0])
        invariant FilledWith(rows, View(qrcode[..]), n, Rect(left, top + dy, dx, 1))
      {
        SetModule(qrcode, left + dx, top + dy, true);
      }
    }
  }

  // The dark modules are those covered by the rectangles.
  ghost predicate Drawn(g: Grid, n: nat, rects: seq<Rect>) {
    Square(g, n) && forall x, y | 0 <= x < n && 0 <= y < n :: g[y][x] == Covered(rects, x, y)
  }

  lemma DrawOneMore(before: Grid, after: Grid, n: nat, rects: seq<Rect>, r: Rect)
    requires Drawn(before, n, rects) && FilledWith(before, after, n, r)
    ensures Drawn(after, n, rects + [r])
  {
    hide Covered, Rect.Contains;
    forall x, y | 0 <= x < n && 0 <= y < n
      ensures after[y][x] == Covered(rects + [r], x, y)
    {
      CoveredByEither(rects, [r], x, y);
      CoveredByOne(r, x, y);
    }
  }

  lemma CoveredByOne(r: Rect, x: int, y: int)
    ensures Covered([r], x, y) == r.Contains(x, y)
  {
    assert [r][0] == r;
    hide Rect.Contains;
  }

  // Clears the grid to the version's size.
  method ClearSymbol(v: int, qrcode: array<Byte>)
    requires IsVersion(v) && BufferLen(v) <= qrcode.Length
    modifies qrcode
    ensures IsSymbol(qrcode[..]) && SizeOf(qrcode[..]) == Size(v)
    ensures Drawn(View(qrcode[..]), Size(v), [])
  {
    hide Bit, Value, View, Code, Holds;
    Clear(qrcode, BufferLen(v));
    ValueOfCode(Size(v));
    qrcode[0] := Code(Size(v));
    forall x: nat, y: nat | x < Size(v) && y < Size(v)
      ensures !Module(qrcode[..], x, y)
    {
      IndexBound(Size(v), x, y);
      BitOfZero(Index(Size(v), x, y) % 8);
      hide Index;
    }
  }

  // One rectangle of the function area.
  method DrawRect(r: Rect, qrcode: array<Byte>, ghost rects: seq<Rect>)
    requires IsSymbol(qrcode[..]) && r.Within(SizeOf(qrcode[..]))
    requires Drawn(View(qrcode[..]), SizeOf(qrcode[..]), rects)
    modifies qrcode
    ensures IsSymbol(qrcode[..]) && qrcode[0] == old(qrcode[0])
    ensures Drawn(View(qrcode[..]), SizeOf(qrcode[..]), rects + [r])
  {
    hide Value, View, Covered, Rect.Contains;
    ghost var before := View(qrcode[..]);
    FillRectangle(r.left, r.top, r.width, r.height, qrcode);
    DrawOneMore(before, View(qrcode[..]), SizeOf(qrcode[..]), rects, r);
  }

  method DrawRects(rs: seq<Rect>, qrcode: array<Byte>, ghost rects: seq<Rect>)
    requires IsSymbol(qrcode[..]) && forall k | 0 <= k < |rs| :: rs[k].Within(SizeOf(qrcode[..]))
    requires Drawn(View(qrcode[..]), SizeOf(qrcode[..]), rects)
    modifies qrcode
    ensures IsSymbol(qrcode[..]) && qrcode[0] == old(qrcode[0])
    ensures Drawn(View(qrcode[..]), SizeOf(qrcode[..]), rects + rs)
  {
    hide Value, View, Drawn, Rect.Within;
    assert rects + rs[..0] == rects;
    for k := 0 to |rs|
      invariant IsSymbol(qrcode[..]) && qrcode[0] == old(qrcode[0])
      invariant Drawn(View(qrcode[..]), SizeOf(qrcode[..]), rects + rs[..k])
    {
      DrawRect(rs[k], qrcode, rects + rs[..k]);
      assert rects + rs[..k] + [rs[k]] == rects + rs[..k + 1];
    }
    assert rs[..|rs|] == rs;
  }

  method DrawAlignmentRow(v: int, i: nat, alignPatPos: seq<int>, qrcode: array<Byte>, ghost rects: seq<Rect>)
    requires IsVersion(v) && i < |alignPatPos| == AlignCount(v)
    requires forall k | 0 <= k < |alignPatPos| :: alignPatPos[k] == AlignPosition(v, k)
    requires IsSymbol(qrcode[..]) && SizeOf(qrcode[..]) == Size(v)
    requires Drawn(View(qrcode[..]), Size(v), rects)
    modifies qrcode
    ensures IsSymbol(qrcode[..]) && SizeOf(qrcode[..]) == Size(v)
    ensures Drawn(View(qrcode[..]), Size(v), rects + AlignmentRow(v, i, |alignPatPos|))
  {
    hide Value, View, Drawn, AlignPosition;
    var numAlign := |alignPatPos|;
    assert rects + AlignmentRow(v, i, 0) == rects;
    for j := 0 to numAlign
      invariant IsSymbol(qrcode[..]) && SizeOf(qrcode[..]) == Size(v)
      invariant Drawn(View(qrcode[..]), Size(v), rects + AlignmentRow(v, i, j))
    {
      ghost var drawn := rects + AlignmentRow(v, i, j);
      if !((i == 0 && j == 0) || (i == 0 && j == numAlign - 1) || (i == numAlign - 1 && j == 0)) {
        AlignPositionsBound(v, i);
        AlignPositionsBound(v, j);
        DrawRect(Rect(alignPatPos[i] - 2, alignPatPos[j] - 2, 5, 5), qrcode, drawn);
        assert drawn + [AlignmentRect(v, i, j)] == rects + AlignmentRow(v, i, j + 1);
      } else {
        assert drawn == rects + AlignmentRow(v, i, j + 1);
      }
    }
  }

  // Clears the grid, then marks every function module as dark.
  method InitializeFunctionModules(v: int, qrcode: array<Byte>)
    requires IsVersion(v) && BufferLen(v) <= qrcode.Length
    modifies qrcode
    ensures IsSymbol(qrcode[..]) && SizeOf(qrcode[..]) == Size(v)
    ensures View(qrcode[..]) == FunctionGrid(v)
  {
    hide Value, View, Drawn, AlignPosition, AlignmentRow, Rect.Within;
    FixedRectsWithin(v);
    ClearSymbol(v, qrcode);
    DrawRects(FinderRects(v), qrcode, []);
    ghost var rects := FinderRects(v);
    assert [] + rects == rects;
    var alignPatPos := GetAlignmentPatternPositions(v);
    var numAlign := |alignPatPos|;
    assert rects + AlignmentRows(v, 0) == rects;
    for i := 0 to numAlign
      invariant IsSymbol(qrcode[..]) && SizeOf(qrcode[..]) == Size(v)
      invariant Drawn(View(qrcode[..]), Size(v), rects + AlignmentRows(v, i))
    {
      DrawAlignmentRow(v, i, alignPatPos, qrcode, rects + AlignmentRows(v, i));
      assert rects + AlignmentRows(v, i) + AlignmentRow(v, i, numAlign) == rects + AlignmentRows(v, i + 1);
    }
    DrawRects(VersionRects(v), qrcode, rects + AlignmentRows(v, numAlign));
    DrawnIsFunctionGrid(v, View(qrcode[..]));
  }

  lemma FixedRectsWithin(v: int)
    requires IsVersion(v)
    ensures forall k | 0 <= k < |FinderRects(v)| :: FinderRects(v)[k].Within(Size(v))
    ensures forall k | 0 <= k < |VersionRects(v)| :: VersionRects(v)[k].Within(Size(v))
  {
  }

  lemma DrawnIsFunctionGrid(v: int, g: Grid)
    requires IsVersion(v) && Drawn(g, Size(v), FunctionRects(v))
    ensures g == FunctionGrid(v)
  {
    hide FunctionRects, Covered;
    SameGrid(g, FunctionGrid(v), Size(v));
  }
}
