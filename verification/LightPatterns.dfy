// Drawing the light parts of the function patterns, and the format bits.
module LightPatterns {
  import opened Bytes
  import opened Grids
  import opened Parameters
  import opened FunctionPatterns

  // A symbol of version v whose modules outside the function area agree with the grid.
  ghost predicate DataKept(v: int, g: Grid, qrcode: seq<Byte>)
    requires IsVersion(v)
  {
    IsSymbol(qrcode) && SizeOf(qrcode) == Size(v) && Square(g, Size(v)) &&
    forall x, y | 0 <= x < Size(v) && 0 <= y < Size(v) && !IsFunction(v, x, y) :: View(qrcode)[y][x] == g[y][x]
  }

  // A symbol that shows h, a grid of this size.
  ghost predicate Displays(qrcode: seq<Byte>, n: nat, h: Grid) {
    IsSymbol(qrcode) && SizeOf(qrcode) == n && Square(h, n) && View(qrcode) == h
  }

  // ----- what the patterns look like -----

  // A pattern shows a colour on a module, or nothing.
  datatype Stroke = Nothing | Colour(dark: bool)

  function Over(s: Stroke, below: bool): bool {
    if s.Nothing? then below else s.dark
  }

  function Distance(dx: int, dy: int): int {
    var a, b := if dx < 0 then -dx else dx, if dy < 0 then -dy else dy;
    if b > a then b else a
  }

  // Every second module of row and column 6 is light.
  function TimingAt(n: nat, x: int, y: int): Stroke {
    if (x == 6 && 7 <= y < n - 7 && y % 2 == 1) || (y == 6 && 7 <= x < n - 7 && x % 2 == 1) then Colour(false) else Nothing
  }

  predicate IsRing(dx: int, dy: int) {
    Distance(dx, dy) == 2 || Distance(dx, dy) == 4
  }

  // Around the centres of the finder patterns two rings are light.
  function FinderAt(n: nat, x: int, y: int): Stroke {
    if IsRing(x - 3, y - 3) || IsRing(x - (n - 4), y - 3) || IsRing(x - 3, y - (n - 4)) then Colour(false) else Nothing
  }

  ghost predicate NearAlignment(v: int, i: nat, j: nat, x: int, y: int)
    requires IsVersion(v)
  {
    HasAlignment(v, i, j) && Distance(x - AlignPosition(v, i), y - AlignPosition(v, j)) <= 1
  }

  ghost predicate AtAlignment(v: int, i: nat, j: nat, x: int, y: int)
    requires IsVersion(v)
  {
    HasAlignment(v, i, j) && x == AlignPosition(v, i) && y == AlignPosition(v, j)
  }

  // The centre of an alignment pattern is dark and the ring around it light.
  ghost function AlignmentAt(v: int, x: int, y: int): Stroke
    requires IsVersion(v)
  {
    if exists i, j :: NearAlignment(v, i, j, x, y) then Colour(exists i, j :: AtAlignment(v, i, j, x, y)) else Nothing
  }

  // Which bit of the version word the module shows, if any: there are two blocks of six by three.
  function VersionIndex(n: nat, x: int, y: int): int {
    if 0 <= y < 6 && n - 11 <= x < n - 8 then 3 * y + x - (n - 11)
    else if 0 <= x < 6 && n - 11 <= y < n - 8 then 3 * x + y - (n - 11)
    else -1
  }

  function VersionAt(v: int, x: int, y: int): Stroke
    requires IsVersion(v)
  {
    if v >= 7 && VersionIndex(Size(v), x, y) >= 0
    then Colour(Lowest(Shifted(VersionWord(v), VersionIndex(Size(v), x, y)))) else Nothing
  }

  // Patterns drawn later cover earlier ones.
  ghost function PatternAt(v: int, x: int, y: int): Stroke
    requires IsVersion(v)
  {
    if VersionAt(v, x, y) != Nothing then VersionAt(v, x, y)
    else if AlignmentAt(v, x, y) != Nothing then AlignmentAt(v, x, y)
    else if FinderAt(Size(v), x, y) != Nothing then FinderAt(Size(v), x, y)
    else TimingAt(Size(v), x, y)
  }

  // ----- the version word -----

  type LongWord = bv32

  // One step of the division that yields the version's check bits.
  function DivisionStep(rem: LongWord): LongWord {
    (rem << 1) ^ ((rem >> 11) * 0x1F25)
  }

  function VersionRemainder(data: LongWord, i: nat): LongWord {
    if i == 0 then data else DivisionStep(VersionRemainder(data, i - 1))
  }

  function Joined(data: LongWord, rem: LongWord): LongWord {
    (data << 12) | rem
  }

  function WordOf(data: LongWord): LongWord {
    Joined(data, VersionRemainder(data, 12))
  }

  function VersionData(v: int): LongWord
    requires IsVersion(v)
  {
    v as LongWord
  }

  function VersionWord(v: int): LongWord
    requires IsVersion(v)
  {
    WordOf(VersionData(v))
  }

  function Half(word: LongWord): LongWord {
    word >> 1
  }

  predicate Lowest(word: LongWord) {
    word & 1 != 0
  }

  function Shifted(word: LongWord, t: nat): LongWord {
    if t == 0 then word else Half(Shifted(word, t - 1))
  }

  // ----- cells of the function area -----

  lemma InFinderRects(v: int, k: nat, x: int, y: int)
    requires IsVersion(v) && k < 5 && FinderRects(v)[k].Contains(x, y)
    ensures IsFunction(v, x, y)
  {
    assert FunctionRects(v)[k] == FinderRects(v)[k];
  }

  lemma InVersionRects(v: int, k: nat, x: int, y: int)
    requires IsVersion(v) && k < |VersionRects(v)| && VersionRects(v)[k].Contains(x, y)
    ensures IsFunction(v, x, y)
  {
    var m := |FinderRects(v) + AlignmentRows(v, AlignCount(v))|;
    assert FunctionRects(v)[m + k] == VersionRects(v)[k];
  }

  lemma {:induction false} RowHasAlignment(v: int, i: nat, j: nat, m: nat)
    requires IsVersion(v) && HasAlignment(v, i, j) && j < m
    ensures AlignmentRect(v, i, j) in AlignmentRow(v, i, m)
  {
    if j < m - 1 {
      RowHasAlignment(v, i, j, m - 1);
    }
  }

  lemma {:induction false} RowsHaveAlignment(v: int, i: nat, j: nat, m: nat)
    requires IsVersion(v) && HasAlignment(v, i, j) && i < m
    ensures AlignmentRect(v, i, j) in AlignmentRows(v, m)
  {
    hide AlignmentRect, AlignmentRow;
    if i < m - 1 {
      RowsHaveAlignment(v, i, j, m - 1);
    } else {
      RowHasAlignment(v, i, j, AlignCount(v));
    }
  }

  lemma InAlignmentRect(v: int, i: nat, j: nat, x: int, y: int)
    requires IsVersion(v) && HasAlignment(v, i, j) && AlignmentRect(v, i, j).Contains(x, y)
    ensures IsFunction(v, x, y)
  {
    RowsHaveAlignment(v, i, j, AlignCount(v));
    assert AlignmentRect(v, i, j) in FunctionRects(v);
    var k :| 0 <= k < |FunctionRects(v)| && FunctionRects(v)[k] == AlignmentRect(v, i, j);
    hide FunctionRects, AlignmentRect;
  }

  // ----- timing and finder patterns -----

  ghost predicate TimingDrawn(g: Grid, h: Grid, n: nat, i: int) {
    Square(g, n) && Square(h, n) &&
    forall x, y | 0 <= x < n && 0 <= y < n ::
      h[y][x] == Over(if x < i && y < i then TimingAt(n, x, y) else Nothing, g[y][x])
  }

  lemma TimingNext(g: Grid, h: Grid, n: nat, i: nat)
    requires 7 <= i < n - 7 && i % 2 == 1 && TimingDrawn(g, h, n, i)
    ensures TimingDrawn(g, SetAt(SetAt(h, n, 6, i, false), n, i, 6, false), n, i + 2)
  {
    hide SetAt;
  }

  // The timing patterns are drawn up to i.
  ghost predicate TimingUpTo(v: int, g: Grid, qrcode: seq<Byte>, i: int) {
    IsSymbol(qrcode) && SizeOf(qrcode) == Size(v) && TimingDrawn(g, View(qrcode), Size(v), i)
  }

  method DrawTimingModules(v: int, qrcode: array<Byte>, ghost g: Grid, i: int)
    requires IsVersion(v) && TimingUpTo(v, g, qrcode[..], i) && 7 <= i < Size(v) - 7 && i % 2 == 1
    modifies qrcode
    ensures TimingUpTo(v, g, qrcode[..], i + 2)
  {
    hide View, Value, SetAt, TimingDrawn, Square;
    TimingNext(g, View(qrcode[..]), Size(v), i);
    SetModule(qrcode, 6, i, false);
    SetModule(qrcode, i, 6, false);
  }

  method DrawTiming(v: int, qrcode: array<Byte>, ghost g: Grid)
    requires IsVersion(v) && Displays(qrcode[..], Size(v), g)
    modifies qrcode
    ensures TimingUpTo(v, g, qrcode[..], Size(v))
  {
    hide TimingUpTo, Displays, IsSymbol, View, Value;
    StartTiming(v, qrcode[..], g);
    var i := 7;
    while i < Size(v) - 7
      invariant 7 <= i && i % 2 == 1 && TimingUpTo(v, g, qrcode[..], i)
    {
      DrawTimingModules(v, qrcode, g, i);
      i := i + 2;
    }
    EndTiming(v, qrcode[..], g, i);
  }

  lemma StartTiming(v: int, qrcode: seq<Byte>, g: Grid)
    requires IsVersion(v) && Displays(qrcode, Size(v), g)
    ensures TimingUpTo(v, g, qrcode, 7)
  {
    hide View, Value, TimingDrawn, Square;
    TimingStart(g, Size(v));
  }

  lemma EndTiming(v: int, qrcode: seq<Byte>, g: Grid, i: int)
    requires IsVersion(v) && TimingUpTo(v, g, qrcode, i) && Size(v) - 7 <= i
    ensures TimingUpTo(v, g, qrcode, Size(v))
  {
    hide View, Value, TimingDrawn;
    TimingEnd(g, View(qrcode), Size(v), i);
  }

  lemma TimingStart(g: Grid, n: nat)
    requires Square(g, n)
    ensures TimingDrawn(g, g, n, 7)
  {
  }

  lemma TimingEnd(g: Grid, h: Grid, n: nat, i: int)
    requires n - 7 <= i && TimingDrawn(g, h, n, i)
    ensures TimingDrawn(g, h, n, n)
  {
  }

  // The rings of the finder patterns as far as they come before (dx, dy) in row order.
  predicate FinderBefore(dx: int, dy: int, ex: int, ey: int) {
    IsRing(ex, ey) && (ey < dy || (ey == dy && ex < dx))
  }

  ghost predicate FindersDrawn(g: Grid, h: Grid, n: nat, dx: int, dy: int) {
    Square(g, n) && Square(h, n) &&
    forall x, y | 0 <= x < n && 0 <= y < n ::
      h[y][x] == (g[y][x] && !FinderBefore(dx, dy, x - 3, y - 3) && !FinderBefore(dx, dy, x - (n - 4), y - 3) &&
                  !FinderBefore(dx, dy, x - 3, y - (n - 4)))
  }

  function SetBounded(g: Grid, n: nat, x: int, y: int, dark: bool): (h: Grid)
    requires Square(g, n)
    ensures Square(h, n)
    ensures forall u, v | 0 <= u < n && 0 <= v < n :: h[v][u] == if u == x && v == y then dark else g[v][u]
  {
    if 0 <= x < n && 0 <= y < n then SetAt(g, n, x, y, dark) else g
  }

  lemma FinderNext(g: Grid, h: Grid, n: nat, dx: int, dy: int)
    requires FindersDrawn(g, h, n, dx, dy)
    ensures FindersDrawn(g, if IsRing(dx, dy) then WithRingModules(h, n, dx, dy) else h, n, dx + 1, dy)
  {
    hide IsRing, SetBounded;
  }

  function WithRingModules(h: Grid, n: nat, dx: int, dy: int): (r: Grid)
    requires Square(h, n)
    ensures Square(r, n)
  {
    SetBounded(SetBounded(SetBounded(h, n, 3 + dx, 3 + dy, false), n, n - 4 + dx, 3 + dy, false),
               n, 3 + dx, n - 4 + dy, false)
  }

  lemma FinderRow(g: Grid, h: Grid, n: nat, dy: int)
    requires FindersDrawn(g, h, n, 5, dy)
    ensures FindersDrawn(g, h, n, -4, dy + 1)
  {
  }

  lemma FinderStart(g: Grid, n: nat)
    requires Square(g, n)
    ensures FindersDrawn(g, g, n, -4, -4)
  {
  }

  method DrawRingModules(v: int, qrcode: array<Byte>, dx: int, dy: int)
    requires IsVersion(v) && IsSymbol(qrcode[..]) && SizeOf(qrcode[..]) == Size(v)
    modifies qrcode
    ensures IsSymbol(qrcode[..]) && SizeOf(qrcode[..]) == Size(v)
    ensures View(qrcode[..]) == WithRingModules(old(View(qrcode[..])), Size(v), dx, dy)
  {
    hide View, Value, SetAt;
    var n := Size(v);
    SetModuleBounded(qrcode, 3 + dx, 3 + dy, false);
    SetModuleBounded(qrcode, n - 4 + dx, 3 + dy, false);
    SetModuleBounded(qrcode, 3 + dx, n - 4 + dy, false);
  }

  method DrawFinders(v: int, qrcode: array<Byte>, ghost g: Grid)
    requires IsVersion(v) && Displays(qrcode[..], Size(v), g)
    modifies qrcode
    ensures IsSymbol(qrcode[..]) && SizeOf(qrcode[..]) == Size(v)
    ensures FindersDrawn(g, View(qrcode[..]), Size(v), -4, 5)
  {
    hide View, Value, FindersDrawn, IsRing, WithRingModules, Square;
    FinderStart(g, Size(v));
    for dy := -4 to 5
      invariant IsSymbol(qrcode[..]) && SizeOf(qrcode[..]) == Size(v)
      invariant FindersDrawn(g, View(qrcode[..]), Size(v), -4, dy)
    {
      for dx := -4 to 5
        invariant IsSymbol(qrcode[..]) && SizeOf(qrcode[..]) == Size(v)
        invariant FindersDrawn(g, View(qrcode[..]), Size(v), dx, dy)
      {
        FinderNext(g, View(qrcode[..]), Size(v), dx, dy);
        if IsRing(dx, dy) {
          DrawRingModules(v, qrcode, dx, dy);
        }
      }
      FinderRow(g, View(qrcode[..]), Size(v), dy);
    }
  }

  // ----- alignment patterns -----

  // The modules of a pattern around (px, py) as far as they come before (dx, dy) in row order.
  ghost predicate SquareDrawn(g: Grid, h: Grid, n: nat, px: int, py: int, dx: int, dy: int) {
    Square(g, n) && Square(h, n) &&
    forall x, y | 0 <= x < n && 0 <= y < n ::
      h[y][x] == if Distance(x - px, y - py) <= 1 && (y - py < dy || (y - py == dy && x - px < dx))
                 then x == px && y == py else g[y][x]
  }

  lemma SquareNext(g: Grid, h: Grid, n: nat, px: int, py: int, dx: int, dy: int)
    requires -1 <= dx <= 1 && -1 <= dy <= 1 && 1 <= px < n - 1 && 1 <= py < n - 1 && SquareDrawn(g, h, n, px, py, dx, dy)
    ensures SquareDrawn(g, SetAt(h, n, px + dx, py + dy, dx == 0 && dy == 0), n, px, py, dx + 1, dy)
  {
    hide SetAt;
  }

  lemma SquareRow(g: Grid, h: Grid, n: nat, px: int, py: int, dy: int)
    requires SquareDrawn(g, h, n, px, py, 2, dy)
    ensures SquareDrawn(g, h, n, px, py, -1, dy + 1)
  {
  }

  lemma SquareStart(g: Grid, n: nat, px: int, py: int)
    requires Square(g, n)
    ensures SquareDrawn(g, g, n, px, py, -1, -1)
  {
  }

  method DrawAlignment(v: int, px: int, py: int, qrcode: array<Byte>, ghost g: Grid)
    requires IsVersion(v) && Displays(qrcode[..], Size(v), g) && 6 <= px <= Size(v) - 7 && 6 <= py <= Size(v) - 7
    modifies qrcode
    ensures IsSymbol(qrcode[..]) && SizeOf(qrcode[..]) == Size(v)
    ensures SquareDrawn(g, View(qrcode[..]), Size(v), px, py, -1, 2)
  {
    hide View, Value, SquareDrawn, Square, SetAt;
    SquareStart(g, Size(v), px, py);
    for dy := -1 to 2
      invariant IsSymbol(qrcode[..]) && SizeOf(qrcode[..]) == Size(v)
      invariant SquareDrawn(g, View(qrcode[..]), Size(v), px, py, -1, dy)
    {
      for dx := -1 to 2
        invariant IsSymbol(qrcode[..]) && SizeOf(qrcode[..]) == Size(v)
        invariant SquareDrawn(g, View(qrcode[..]), Size(v), px, py, dx, dy)
      {
        SquareNext(g, View(qrcode[..]), Size(v), px, py, dx, dy);
        SetModule(qrcode, px + dx, py + dy, dx == 0 && dy == 0);
      }
      SquareRow(g, View(qrcode[..]), Size(v), px, py, dy);
    }
  }

  lemma AlignmentInside(v: int, i: nat, j: nat)
    requires IsVersion(v) && HasAlignment(v, i, j)
    ensures 6 <= AlignPosition(v, i) <= Size(v) - 7 && 6 <= AlignPosition(v, j) <= Size(v) - 7
  {
    AlignPositionsBound(v, i);
    AlignPositionsBound(v, j);
    hide AlignPosition;
  }

  lemma NotBothNear(v: int, i: nat, k: nat, x: int)
    requires IsVersion(v) && i < AlignCount(v) && k < AlignCount(v)
    requires -1 <= x - AlignPosition(v, i) <= 1 && -1 <= x - AlignPosition(v, k) <= 1
    ensures i == k
  {
    hide AlignPosition;
    if i < k {
      AlignPositionsAscend(v, i, k);
    } else if k < i {
      AlignPositionsAscend(v, k, i);
    }
  }

  // No two alignment patterns share a module.
  lemma AlignmentsDisjoint(v: int, i: nat, j: nat, k: nat, l: nat, x: int, y: int)
    requires IsVersion(v) && NearAlignment(v, i, j, x, y) && NearAlignment(v, k, l, x, y)
    ensures i == k && j == l
  {
    hide AlignPosition;
    NotBothNear(v, i, k, x);
    NotBothNear(v, j, l, y);
  }

  predicate Earlier(a: nat, b: nat, i: nat, j: nat) {
    a < i || (a == i && b < j)
  }

  ghost predicate EarlierNear(v: int, i: nat, j: nat, x: int, y: int)
    requires IsVersion(v)
  {
    exists a, b :: Earlier(a, b, i, j) && NearAlignment(v, a, b, x, y)
  }

  ghost predicate EarlierAt(v: int, i: nat, j: nat, x: int, y: int)
    requires IsVersion(v)
  {
    exists a, b :: Earlier(a, b, i, j) && AtAlignment(v, a, b, x, y)
  }

  // The alignment patterns that come before (i, j) are drawn.
  ghost predicate AlignmentsDrawn(v: int, g: Grid, h: Grid, i: nat, j: nat)
    requires IsVersion(v)
  {
    Square(g, Size(v)) && Square(h, Size(v)) &&
    forall x, y | 0 <= x < Size(v) && 0 <= y < Size(v) ::
      h[y][x] == if EarlierNear(v, i, j, x, y) then EarlierAt(v, i, j, x, y) else g[y][x]
  }

  lemma EarlierNext(v: int, i: nat, j: nat, x: int, y: int)
    requires IsVersion(v)
    ensures EarlierNear(v, i, j + 1, x, y) <==> EarlierNear(v, i, j, x, y) || NearAlignment(v, i, j, x, y)
    ensures EarlierAt(v, i, j + 1, x, y) <==> EarlierAt(v, i, j, x, y) || AtAlignment(v, i, j, x, y)
    ensures NearAlignment(v, i, j, x, y) ==> !EarlierNear(v, i, j, x, y)
    ensures EarlierAt(v, i, j, x, y) ==> EarlierNear(v, i, j, x, y)
    ensures AtAlignment(v, i, j, x, y) ==> NearAlignment(v, i, j, x, y)
  {
    hide AlignPosition, HasAlignment;
    assert Earlier(i, j, i, j + 1);
    if EarlierNear(v, i, j, x, y) {
      var a, b :| Earlier(a, b, i, j) && NearAlignment(v, a, b, x, y);
      assert Earlier(a, b, i, j + 1);
      if NearAlignment(v, i, j, x, y) {
        AlignmentsDisjoint(v, a, b, i, j, x, y);
      }
    }
    if EarlierAt(v, i, j, x, y) {
      var a, b :| Earlier(a, b, i, j) && AtAlignment(v, a, b, x, y);
      assert Earlier(a, b, i, j + 1) && NearAlignment(v, a, b, x, y);
    }
  }

  lemma AlignmentsNext(v: int, g: Grid, h: Grid, h': Grid, i: nat, j: nat)
    requires IsVersion(v) && AlignmentsDrawn(v, g, h, i, j)
    requires if HasAlignment(v, i, j) then SquareDrawn(h, h', Size(v), AlignPosition(v, i), AlignPosition(v, j), -1, 2)
             else h' == h
    ensures AlignmentsDrawn(v, g, h', i, j + 1)
  {
    hide AlignPosition, HasAlignment, EarlierNear, EarlierAt;
    forall x, y | 0 <= x < Size(v) && 0 <= y < Size(v)
      ensures h'[y][x] == if EarlierNear(v, i, j + 1, x, y) then EarlierAt(v, i, j + 1, x, y) else g[y][x]
    {
      EarlierNext(v, i, j, x, y);
    }
  }

  lemma AlignmentsRow(v: int, g: Grid, h: Grid, i: nat)
    requires IsVersion(v) && AlignmentsDrawn(v, g, h, i, AlignCount(v))
    ensures AlignmentsDrawn(v, g, h, i + 1, 0)
  {
    hide AlignPosition;
    forall x, y
      ensures EarlierNear(v, i, AlignCount(v), x, y) <==> EarlierNear(v, i + 1, 0, x, y)
      ensures EarlierAt(v, i, AlignCount(v), x, y) <==> EarlierAt(v, i + 1, 0, x, y)
    {
      SameEarlier(v, i, x, y);
    }
    hide EarlierNear, EarlierAt;
  }

  lemma SameEarlier(v: int, i: nat, x: int, y: int)
    requires IsVersion(v)
    ensures EarlierNear(v, i, AlignCount(v), x, y) <==> EarlierNear(v, i + 1, 0, x, y)
    ensures EarlierAt(v, i, AlignCount(v), x, y) <==> EarlierAt(v, i + 1, 0, x, y)
  {
    hide AlignPosition;
    forall a: nat, b: nat | NearAlignment(v, a, b, x, y) || AtAlignment(v, a, b, x, y)
      ensures Earlier(a, b, i, AlignCount(v)) <==> Earlier(a, b, i + 1, 0)
    {
    }
    hide Earlier;
  }

  lemma AlignmentsStart(v: int, g: Grid)
    requires IsVersion(v) && Square(g, Size(v))
    ensures AlignmentsDrawn(v, g, g, 0, 0)
  {
    hide AlignPosition;
  }

  // In the end the drawn modules are what AlignmentAt says.
  lemma AlignmentsEnd(v: int, g: Grid, h: Grid, x: int, y: int)
    requires IsVersion(v) && AlignmentsDrawn(v, g, h, AlignCount(v), 0) && 0 <= x < Size(v) && 0 <= y < Size(v)
    ensures h[y][x] == Over(AlignmentAt(v, x, y), g[y][x])
  {
    hide AlignPosition;
    assert EarlierNear(v, AlignCount(v), 0, x, y) <==> exists i, j :: NearAlignment(v, i, j, x, y) by {
      if i, j :| NearAlignment(v, i, j, x, y) {
        assert Earlier(i, j, AlignCount(v), 0);
      }
    }
    assert EarlierAt(v, AlignCount(v), 0, x, y) <==> exists i, j :: AtAlignment(v, i, j, x, y) by {
      if i, j :| AtAlignment(v, i, j, x, y) {
        assert Earlier(i, j, AlignCount(v), 0);
      }
    }
    hide EarlierNear, EarlierAt;
  }

  method DrawAlignments(v: int, qrcode: array<Byte>, ghost g: Grid)
    requires IsVersion(v) && Displays(qrcode[..], Size(v), g)
    modifies qrcode
    ensures IsSymbol(qrcode[..]) && SizeOf(qrcode[..]) == Size(v)
    ensures AlignmentsDrawn(v, g, View(qrcode[..]), AlignCount(v), 0)
  {
    hide View, Value, AlignmentsDrawn, SquareDrawn, AlignPosition, Square;
    var alignPatPos := GetAlignmentPatternPositions(v);
    var numAlign := |alignPatPos|;
    AlignmentsStart(v, g);
    for i := 0 to numAlign
      invariant IsSymbol(qrcode[..]) && SizeOf(qrcode[..]) == Size(v)
      invariant AlignmentsDrawn(v, g, View(qrcode[..]), i, 0)
    {
      for j := 0 to numAlign
        invariant IsSymbol(qrcode[..]) && SizeOf(qrcode[..]) == Size(v)
        invariant AlignmentsDrawn(v, g, View(qrcode[..]), i, j)
      {
        ghost var h := View(qrcode[..]);
        if (i == 0 && j == 0) || (i == 0 && j == numAlign - 1) || (i == numAlign - 1 && j == 0) {
          AlignmentsNext(v, g, h, h, i, j);
          continue;
        }
        AlignmentInside(v, i, j);
        DrawAlignment(v, alignPatPos[i], alignPatPos[j], qrcode, h);
        AlignmentsNext(v, g, h, View(qrcode[..]), i, j);
      }
      AlignmentsRow(v, g, View(qrcode[..]), i);
    }
  }

  // ----- version blocks -----

  // The first t bits of the version word are drawn.
  ghost predicate VersionDrawn(v: int, g: Grid, h: Grid, t: nat)
    requires IsVersion(v)
  {
    Square(g, Size(v)) && Square(h, Size(v)) &&
    forall x, y | 0 <= x < Size(v) && 0 <= y < Size(v) ::
      var k := VersionIndex(Size(v), x, y);
      h[y][x] == if 0 <= k < t then Lowest(Shifted(VersionWord(v), k)) else g[y][x]
  }

  lemma VersionNext(v: int, g: Grid, h: Grid, i: nat, j: nat)
    requires IsVersion(v) && v >= 7 && i < 6 && j < 3 && VersionDrawn(v, g, h, 3 * i + j)
    ensures var k, bit := Size(v) - 11 + j, Lowest(Shifted(VersionWord(v), 3 * i + j));
            VersionDrawn(v, g, SetAt(SetAt(h, Size(v), k, i, bit), Size(v), i, k, bit), 3 * i + j + 1)
  {
    hide SetAt, Lowest, Shifted, VersionWord;
  }

  lemma VersionStart(v: int, g: Grid)
    requires IsVersion(v) && Square(g, Size(v))
    ensures VersionDrawn(v, g, g, 0)
  {
    hide Lowest, Shifted, VersionWord;
  }

  method DrawVersion(v: int, qrcode: array<Byte>, ghost g: Grid)
    requires IsVersion(v) && v >= 7 && Displays(qrcode[..], Size(v), g)
    modifies qrcode
    ensures IsSymbol(qrcode[..]) && SizeOf(qrcode[..]) == Size(v)
    ensures VersionDrawn(v, g, View(qrcode[..]), 18)
  {
    hide View, Value, VersionDrawn, Square, SetAt, Lowest, Half, VersionWord;
    var bits := MakeVersionWord(v);
    VersionStart(v, g);
    for i := 0 to 6
      invariant IsSymbol(qrcode[..]) && SizeOf(qrcode[..]) == Size(v)
      invariant VersionDrawn(v, g, View(qrcode[..]), 3 * i) && bits == Shifted(VersionWord(v), 3 * i)
    {
      for j := 0 to 3
        invariant IsSymbol(qrcode[..]) && SizeOf(qrcode[..]) == Size(v)
        invariant VersionDrawn(v, g, View(qrcode[..]), 3 * i + j) && bits == Shifted(VersionWord(v), 3 * i + j)
      {
        VersionNext(v, g, View(qrcode[..]), i, j);
        var k := Size(v) - 11 + j;
        SetModule(qrcode, k, i, Lowest(bits));
        SetModule(qrcode, i, k, Lowest(bits));
        bits := Half(bits);
      }
    }
  }

  // The word is made in steps, as the division goes.
  method MakeVersionWord(v: int) returns (bits: LongWord)
    requires IsVersion(v)
    ensures bits == VersionWord(v)
  {
    hide DivisionStep, Joined, VersionData;
    var rem := VersionData(v);
    for i := 0 to 12
      invariant rem == VersionRemainder(VersionData(v), i)
    {
      rem := DivisionStep(rem);
    }
    bits := Joined(VersionData(v), rem);
  }

  // ----- all patterns -----

  // Every module shows its pattern, or what it showed before where there is none.
  ghost predicate Patterned(v: int, g: Grid, h: Grid)
    requires IsVersion(v)
  {
    Square(g, Size(v)) && Square(h, Size(v)) &&
    forall x, y | 0 <= x < Size(v) && 0 <= y < Size(v) :: h[y][x] == Over(PatternAt(v, x, y), g[y][x])
  }

  lemma TimingMeans(g: Grid, h: Grid, n: nat, x: int, y: int)
    requires TimingDrawn(g, h, n, n) && 0 <= x < n && 0 <= y < n
    ensures h[y][x] == Over(TimingAt(n, x, y), g[y][x])
  {
  }

  lemma FindersMean(g: Grid, h: Grid, n: nat, x: int, y: int)
    requires FindersDrawn(g, h, n, -4, 5) && 0 <= x < n && 0 <= y < n
    ensures h[y][x] == Over(FinderAt(n, x, y), g[y][x])
  {
  }

  lemma VersionMeans(v: int, g: Grid, h: Grid, x: int, y: int)
    requires IsVersion(v) && if v >= 7 then VersionDrawn(v, g, h, 18) else g == h && Square(g, Size(v))
    requires 0 <= x < Size(v) && 0 <= y < Size(v)
    ensures Square(h, Size(v)) && Square(g, Size(v)) && h[y][x] == Over(VersionAt(v, x, y), g[y][x])
  {
    hide Lowest, Shifted, VersionWord;
  }

  lemma AllPatterned(v: int, g: Grid, timing: Grid, finders: Grid, alignments: Grid, h: Grid)
    requires IsVersion(v) && TimingDrawn(g, timing, Size(v), Size(v)) && FindersDrawn(timing, finders, Size(v), -4, 5)
    requires AlignmentsDrawn(v, finders, alignments, AlignCount(v), 0)
    requires if v >= 7 then VersionDrawn(v, alignments, h, 18) else h == alignments
    ensures Patterned(v, g, h)
  {
    var n := Size(v);
    assert Square(g, n) && Square(timing, n) && Square(finders, n) && Square(alignments, n) && Square(h, n);
    hide TimingDrawn, FindersDrawn, AlignmentsDrawn, VersionDrawn, TimingAt, FinderAt, AlignmentAt, VersionAt, Square;
    forall x, y | 0 <= x < n && 0 <= y < n
      ensures |g| == |h| == n && |g[y]| == |h[y]| == n && h[y][x] == Over(PatternAt(v, x, y), g[y][x])
    {
      PatternHere(v, g, timing, finders, alignments, h, x, y);
    }
    ManySquares(g, h, n);
  }

  lemma ManySquares(g: Grid, h: Grid, n: nat)
    requires Square(g, n) && Square(h, n)
    ensures |g| == n && |h| == n && forall y | 0 <= y < n :: |g[y]| == n && |h[y]| == n
  {
  }

  lemma PatternHere(v: int, g: Grid, timing: Grid, finders: Grid, alignments: Grid, h: Grid, x: int, y: int)
    requires IsVersion(v) && TimingDrawn(g, timing, Size(v), Size(v)) && FindersDrawn(timing, finders, Size(v), -4, 5)
    requires AlignmentsDrawn(v, finders, alignments, AlignCount(v), 0)
    requires if v >= 7 then VersionDrawn(v, alignments, h, 18) else h == alignments
    requires 0 <= x < Size(v) && 0 <= y < Size(v)
    ensures Square(g, Size(v)) && Square(h, Size(v)) && h[y][x] == Over(PatternAt(v, x, y), g[y][x])
  {
    TimingMeans(g, timing, Size(v), x, y);
    FindersMean(timing, finders, Size(v), x, y);
    AlignmentsEnd(v, finders, alignments, x, y);
    VersionMeans(v, alignments, h, x, y);
    hide TimingAt, FinderAt, AlignmentAt, VersionAt, EarlierAt, EarlierNear, FinderBefore, Shifted, Lowest, VersionWord;
  }

  // ----- patterns lie in the function area -----

  lemma FinderCells(v: int, dx: int, dy: int)
    requires IsVersion(v) && -4 <= dx <= 4 && -4 <= dy <= 4
    ensures FunctionIfInside(v, 3 + dx, 3 + dy)
    ensures FunctionIfInside(v, Size(v) - 4 + dx, 3 + dy)
    ensures FunctionIfInside(v, 3 + dx, Size(v) - 4 + dy)
  {
    hide IsFunction;
    var n := Size(v);
    if 0 <= 3 + dx && 0 <= 3 + dy {
      InFinderRects(v, 2, 3 + dx, 3 + dy);
    }
    if n - 4 + dx < n && 0 <= 3 + dy {
      InFinderRects(v, 3, n - 4 + dx, 3 + dy);
    }
    if 0 <= 3 + dx && n - 4 + dy < n {
      InFinderRects(v, 4, 3 + dx, n - 4 + dy);
    }
  }

  ghost predicate FunctionIfInside(v: int, x: int, y: int)
    requires IsVersion(v)
  {
    0 <= x < Size(v) && 0 <= y < Size(v) ==> IsFunction(v, x, y)
  }

  lemma TimingIsFunction(v: int, x: int, y: int)
    requires IsVersion(v) && 0 <= x < Size(v) && 0 <= y < Size(v) && TimingAt(Size(v), x, y) != Nothing
    ensures IsFunction(v, x, y)
  {
    hide IsFunction;
    if x == 6 {
      InFinderRects(v, 0, x, y);
    } else {
      InFinderRects(v, 1, x, y);
    }
  }

  lemma FinderIsFunction(v: int, x: int, y: int)
    requires IsVersion(v) && 0 <= x < Size(v) && 0 <= y < Size(v) && FinderAt(Size(v), x, y) != Nothing
    ensures IsFunction(v, x, y)
  {
    hide IsFunction;
    var n := Size(v);
    if IsRing(x - 3, y - 3) {
      FinderCells(v, x - 3, y - 3);
    } else if IsRing(x - (n - 4), y - 3) {
      FinderCells(v, x - (n - 4), y - 3);
    } else {
      FinderCells(v, x - 3, y - (n - 4));
    }
  }

  lemma AlignmentIsFunction(v: int, x: int, y: int)
    requires IsVersion(v) && AlignmentAt(v, x, y) != Nothing
    ensures IsFunction(v, x, y)
  {
    hide IsFunction, AlignPosition, HasAlignment;
    var i, j :| NearAlignment(v, i, j, x, y);
    InAlignmentRect(v, i, j, x, y);
  }

  lemma VersionIsFunction(v: int, x: int, y: int)
    requires IsVersion(v) && VersionAt(v, x, y) != Nothing
    ensures IsFunction(v, x, y)
  {
    hide IsFunction, Lowest, Shifted, VersionWord;
    if 0 <= y < 6 && Size(v) - 11 <= x < Size(v) - 8 {
      InVersionRects(v, 0, x, y);
    } else {
      InVersionRects(v, 1, x, y);
    }
  }

  lemma PatternIsFunction(v: int, x: int, y: int)
    requires IsVersion(v) && 0 <= x < Size(v) && 0 <= y < Size(v) && PatternAt(v, x, y) != Nothing
    ensures IsFunction(v, x, y)
  {
    hide IsFunction, TimingAt, FinderAt, AlignmentAt, VersionAt;
    if VersionAt(v, x, y) != Nothing {
      VersionIsFunction(v, x, y);
    } else if AlignmentAt(v, x, y) != Nothing {
      AlignmentIsFunction(v, x, y);
    } else if FinderAt(Size(v), x, y) != Nothing {
      FinderIsFunction(v, x, y);
    } else {
      TimingIsFunction(v, x, y);
    }
  }

  lemma PatternedKeeps(v: int, g: Grid, qrcode: seq<Byte>)
    requires IsVersion(v) && IsSymbol(qrcode) && SizeOf(qrcode) == Size(v) && Patterned(v, g, View(qrcode))
    ensures DataKept(v, g, qrcode)
  {
    hide IsFunction, PatternAt, View, Value;
    forall x, y | 0 <= x < Size(v) && 0 <= y < Size(v) && !IsFunction(v, x, y)
      ensures View(qrcode)[y][x] == g[y][x]
    {
      if PatternAt(v, x, y) != Nothing {
        PatternIsFunction(v, x, y);
      }
    }
  }

  // Draws light function modules, and some dark ones, without changing any other module.
  method DrawLightFunctionModules(v: int, qrcode: array<Byte>)
    requires IsVersion(v) && IsSymbol(qrcode[..]) && SizeOf(qrcode[..]) == Size(v)
    modifies qrcode
    ensures DataKept(v, old(View(qrcode[..])), qrcode[..])
    ensures Patterned(v, old(View(qrcode[..])), View(qrcode[..]))
  {
    hide View, Value, TimingDrawn, FindersDrawn, AlignmentsDrawn, VersionDrawn, Square, Patterned;
    ghost var g := View(qrcode[..]);
    DrawTiming(v, qrcode, g);
    ghost var timing := View(qrcode[..]);
    DrawFinders(v, qrcode, timing);
    ghost var finders := View(qrcode[..]);
    DrawAlignments(v, qrcode, finders);
    ghost var alignments := View(qrcode[..]);
    if v >= 7 {
      DrawVersion(v, qrcode, alignments);
    }
    AllPatterned(v, g, timing, finders, alignments, View(qrcode[..]));
    PatternedKeeps(v, g, qrcode[..]);
  }
}
