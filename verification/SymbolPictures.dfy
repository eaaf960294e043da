// The function patterns on a finished symbol.
module SymbolPictures {
  import ReedSolomon
  import opened Parameters
  import opened Grids
  import opened FunctionPatterns
  import opened LightPatterns
  import opened Zigzag
  import opened FormatBits
  import opened Encoder
  import opened PatternPictures

  ghost predicate CornersShown(v: int, g: Grid)
    requires IsVersion(v) && Square(g, Size(v))
  {
    forall x, y | InCorner(x, y) ::
      g[y][x] == DarkInCorner(x, y) && g[y][Size(v) - 1 - x] == DarkInCorner(x, y) &&
      g[Size(v) - 1 - y][x] == DarkInCorner(x, y)
  }

  ghost predicate AlignmentShown(v: int, g: Grid, i: nat, j: nat)
    requires IsVersion(v) && Square(g, Size(v)) && HasAlignment(v, i, j)
  {
    PositionsInRange(v, i, j);
    forall dx, dy | InAlignment(dx, dy) ::
      g[AlignPosition(v, j) + dy][AlignPosition(v, i) + dx] == DarkInAlignment(dx, dy)
  }

  ghost predicate TimingShown(v: int, g: Grid)
    requires IsVersion(v) && Square(g, Size(v))
  {
    forall k | 8 <= k < Size(v) - 8 :: g[k][6] == (k % 2 == 0) && g[6][k] == (k % 2 == 0)
  }

  ghost predicate VersionShown(v: int, g: Grid)
    requires 7 <= v <= VERSION_MAX && Square(g, Size(v))
  {
    forall k: nat | k < 18 ::
      g[k / 3][Size(v) - 11 + k % 3] == Lowest(Shifted(VersionWord(v), k)) &&
      g[Size(v) - 11 + k % 3][k / 3] == Lowest(Shifted(VersionWord(v), k))
  }

  // Row and column 8 hold no format bit here.
  predicate OffFormat(n: nat, x: int, y: int) {
    (x == 8 ==> y == 6 || 9 <= y < n - 8) && (y == 8 ==> x == 6 || 9 <= x < n - 8)
  }

  lemma OffFormatCells(n: nat, x: int, y: int)
    requires n >= 21 && OffFormat(n, x, y)
    ensures !IsFormatCell(n, 31, x, y)
  {
  }

  lemma ModuleShows(c: Choice, data: ReedSolomon.Poly, g: Grid, x: int, y: int)
    requires Shows(c, data, g) && 0 <= x < Size(c.version) && 0 <= y < Size(c.version)
    requires IsFunction(c.version, x, y) && OffFormat(Size(c.version), x, y)
    ensures Square(g, Size(c.version)) && g[y][x] == ColourAt(c.version, x, y)
  {
    hide Shows, IsFunction, PatternAt, OffFormat, IsFormatCell;
    ShowsSquare(c, data, g);
    OffFormatCells(Size(c.version), x, y);
    ShowsPatterns(c, data, g, x, y);
  }

  lemma ShowsSquare(c: Choice, data: ReedSolomon.Poly, g: Grid)
    requires Shows(c, data, g)
    ensures IsVersion(c.version) && Square(g, Size(c.version))
  {
    ShowsReads(c, data, g);
  }

  lemma CornersAreFunction(v: int, x: int, y: int)
    requires IsVersion(v) && InCorner(x, y)
    ensures IsFunction(v, x, y) && IsFunction(v, Size(v) - 1 - x, y) && IsFunction(v, x, Size(v) - 1 - y)
  {
    hide IsFunction;
    InFinderRects(v, 2, x, y);
    InFinderRects(v, 3, Size(v) - 1 - x, y);
    InFinderRects(v, 4, x, Size(v) - 1 - y);
  }

  lemma ShowsCorners(c: Choice, data: ReedSolomon.Poly, g: Grid)
    requires Shows(c, data, g)
    ensures IsVersion(c.version) && Square(g, Size(c.version)) && CornersShown(c.version, g)
  {
    hide Shows, IsFunction, ColourAt, DarkInCorner;
    ShowsSquare(c, data, g);
    var v := c.version;
    forall x, y | InCorner(x, y)
      ensures g[y][x] == DarkInCorner(x, y) && g[y][Size(v) - 1 - x] == DarkInCorner(x, y) &&
              g[Size(v) - 1 - y][x] == DarkInCorner(x, y)
    {
      CornersAreFunction(v, x, y);
      CornersShow(v, x, y);
      ModuleShows(c, data, g, x, y);
      ModuleShows(c, data, g, Size(v) - 1 - x, y);
      ModuleShows(c, data, g, x, Size(v) - 1 - y);
    }
  }

  lemma ShowsAlignment(c: Choice, data: ReedSolomon.Poly, g: Grid, i: nat, j: nat)
    requires Shows(c, data, g) && HasAlignment(c.version, i, j)
    ensures IsVersion(c.version) && Square(g, Size(c.version)) && AlignmentShown(c.version, g, i, j)
  {
    hide Shows, IsFunction, ColourAt, DarkInAlignment, AlignPosition, HasAlignment;
    ShowsSquare(c, data, g);
    var v := c.version;
    PositionsInRange(v, i, j);
    forall dx, dy | InAlignment(dx, dy)
      ensures g[AlignPosition(v, j) + dy][AlignPosition(v, i) + dx] == DarkInAlignment(dx, dy)
    {
      var x, y := AlignPosition(v, i) + dx, AlignPosition(v, j) + dy;
      InAlignmentRect(v, i, j, x, y);
      ClearOfCorners(v, i, j, x, y);
      AlignmentShows(v, i, j, dx, dy);
      ModuleShows(c, data, g, x, y);
    }
  }

  lemma ShowsTiming(c: Choice, data: ReedSolomon.Poly, g: Grid)
    requires Shows(c, data, g)
    ensures IsVersion(c.version) && Square(g, Size(c.version)) && TimingShown(c.version, g)
  {
    hide Shows, IsFunction, ColourAt;
    ShowsSquare(c, data, g);
    var v := c.version;
    forall k | 8 <= k < Size(v) - 8
      ensures g[k][6] == (k % 2 == 0) && g[6][k] == (k % 2 == 0)
    {
      InFinderRects(v, 0, 6, k);
      InFinderRects(v, 1, k, 6);
      TimingShows(v, 6, k);
      TimingShows(v, k, 6);
      ModuleShows(c, data, g, 6, k);
      ModuleShows(c, data, g, k, 6);
    }
  }

  lemma ShowsVersion(c: Choice, data: ReedSolomon.Poly, g: Grid)
    requires Shows(c, data, g) && c.version >= 7
    ensures c.version <= VERSION_MAX && Square(g, Size(c.version)) && VersionShown(c.version, g)
  {
    hide Shows, IsFunction, ColourAt, Lowest, Shifted, VersionWord;
    ShowsSquare(c, data, g);
    var v := c.version;
    forall k: nat | k < 18
      ensures g[k / 3][Size(v) - 11 + k % 3] == Lowest(Shifted(VersionWord(v), k))
      ensures g[Size(v) - 11 + k % 3][k / 3] == Lowest(Shifted(VersionWord(v), k))
    {
      var x, y := Size(v) - 11 + k % 3, k / 3;
      InVersionRects(v, 0, x, y);
      InVersionRects(v, 1, y, x);
      VersionShows(v, k);
      ModuleShows(c, data, g, x, y);
      ModuleShows(c, data, g, y, x);
    }
  }
}
