// The zigzag scan that places codeword bits on the modules outside the function area.
module Zigzag {
  import opened BitStrings
  import opened Bytes
  import opened Grids

  datatype Cell = Cell(x: int, y: int)

  // ----- the scan -----

  // The right column of the c-th column pair, skipping the vertical timing pattern in column 6.
  function RightColumn(n: nat, c: nat): int {
    if n - 1 - 2 * c > 6 then n - 1 - 2 * c else n - 2 - 2 * c
  }

  function Row(n: nat, right: int, vert: nat): int {
    if (right + 1) / 2 % 2 == 0 then n - 1 - vert else vert
  }

  // The cells of the first `vert` rows visited in a column pair.
  function PairCells(n: nat, right: int, vert: nat): (cells: seq<Cell>) {
    if vert == 0 then []
    else PairCells(n, right, vert - 1) + [Cell(right, Row(n, right, vert - 1)), Cell(right - 1, Row(n, right, vert - 1))]
  }

  // The cells of the first c column pairs.
  function Scan(n: nat, c: nat): seq<Cell> {
    if c == 0 then [] else Scan(n, c - 1) + PairCells(n, RightColumn(n, c - 1), n)
  }

  function ZigzagCells(n: nat): seq<Cell> {
    Scan(n, n / 2)
  }

  ghost predicate NoRepeats(cells: seq<Cell>) {
    forall i, j | 0 <= i < j < |cells| :: cells[i] != cells[j]
  }

  // Column pair and row in which a cell outside column 6 is visited.
  function PairOf(n: nat, x: int): int {
    if x > 6 then (n - 1 - x) / 2 else (n - 2 - x) / 2
  }

  lemma {:induction false} PairCellsAre(n: nat, right: int, vert: nat, p: Cell)
    requires vert <= n
    ensures p in PairCells(n, right, vert) <==>
            (p.x == right || p.x == right - 1) && exists k | 0 <= k < vert :: p.y == Row(n, right, k)
  {
    if vert > 0 {
      PairCellsAre(n, right, vert - 1, p);
    }
  }

  lemma {:induction false} PairCellsNoRepeats(n: nat, right: int, vert: nat)
    requires vert <= n
    ensures NoRepeats(PairCells(n, right, vert))
  {
    if vert > 0 {
      PairCellsNoRepeats(n, right, vert - 1);
      var a, b := Cell(right, Row(n, right, vert - 1)), Cell(right - 1, Row(n, right, vert - 1));
      PairCellsAre(n, right, vert - 1, a);
      PairCellsAre(n, right, vert - 1, b);
    }
  }

  // The c-th pair holds exactly the columns that belong to it.
  lemma PairColumns(n: nat, c: nat, x: int)
    requires n % 2 == 1 && n >= 9 && c < n / 2
    ensures x == RightColumn(n, c) || x == RightColumn(n, c) - 1 <==> 0 <= x < n && x != 6 && PairOf(n, x) == c
    ensures 0 <= x < n && x != 6 ==> 0 <= PairOf(n, x) < n / 2
  {
  }

  lemma RowsOfPair(n: nat, right: int, y: int)
    ensures (exists k | 0 <= k < n :: y == Row(n, right, k)) <==> 0 <= y < n
  {
    if 0 <= y < n {
      assert y == Row(n, right, if (right + 1) / 2 % 2 == 0 then n - 1 - y else y);
    }
  }

  // The first c pairs visit exactly the cells of their columns.
  lemma {:induction false} ScanVisits(n: nat, c: nat, p: Cell)
    requires n % 2 == 1 && n >= 9 && c <= n / 2
    ensures p in Scan(n, c) <==> 0 <= p.x < n && p.x != 6 && 0 <= p.y < n && PairOf(n, p.x) < c
  {
    hide PairOf, RightColumn, PairCells, Row;
    if c > 0 {
      ScanVisits(n, c - 1, p);
      var right := RightColumn(n, c - 1);
      PairCellsAre(n, right, n, p);
      RowsOfPair(n, right, p.y);
      PairColumns(n, c - 1, p.x);
    } else {
      PairColumns(n, 0, p.x);
    }
  }

  lemma {:induction false} ScanNoRepeats(n: nat, c: nat)
    requires n % 2 == 1 && n >= 9 && c <= n / 2
    ensures NoRepeats(Scan(n, c))
  {
    hide PairOf, RightColumn, PairCells, Row;
    if c > 0 {
      ScanNoRepeats(n, c - 1);
      var right := RightColumn(n, c - 1);
      var pair := PairCells(n, right, n);
      PairCellsNoRepeats(n, right, n);
      var prefix := Scan(n, c - 1);
      forall i, j | 0 <= i < |prefix| && 0 <= j < |pair|
        ensures prefix[i] != pair[j]
      {
        ScanVisits(n, c - 1, prefix[i]);
        PairColumns(n, c - 1, pair[j].x);
        PairCellsAre(n, right, n, pair[j]);
      }
    }
  }

  // The scan visits each cell outside column 6 exactly once.
  lemma ZigzagVisitsOnce(n: nat)
    requires n % 2 == 1 && n >= 9
    ensures NoRepeats(ZigzagCells(n))
    ensures forall p: Cell :: p in ZigzagCells(n) <==> 0 <= p.x < n && p.x != 6 && 0 <= p.y < n
  {
    hide Scan, PairOf;
    ScanNoRepeats(n, n / 2);
    forall p: Cell
      ensures p in ZigzagCells(n) <==> 0 <= p.x < n && p.x != 6 && 0 <= p.y < n
    {
      ScanVisits(n, n / 2, p);
      PairColumns(n, 0, p.x);
    }
  }

  // ----- reading the modules that were light to begin with -----

  ghost predicate Inside(cells: seq<Cell>, n: nat) {
    forall k | 0 <= k < |cells| :: 0 <= cells[k].x < n && 0 <= cells[k].y < n
  }

  function At(g: Grid, n: nat, p: Cell): bool
    requires Square(g, n) && 0 <= p.x < n && 0 <= p.y < n
  {
    g[p.y][p.x]
  }

  // The modules of g, in scan order, at the cells that are light in `area`.
  function Read(area: Grid, g: Grid, n: nat, cells: seq<Cell>): Bits
    requires Square(area, n) && Square(g, n) && Inside(cells, n)
  {
    if cells == [] then []
    else
      var p := cells[|cells| - 1];
      Read(area, g, n, cells[..|cells| - 1]) + if At(area, n, p) then [] else [At(g, n, p)]
  }

  ghost predicate SameAt(g: Grid, h: Grid, n: nat, cells: seq<Cell>)
    requires Square(g, n) && Square(h, n) && Inside(cells, n)
  {
    forall k | 0 <= k < |cells| :: At(g, n, cells[k]) == At(h, n, cells[k])
  }

  lemma {:induction false} ReadSame(area: Grid, g: Grid, h: Grid, n: nat, cells: seq<Cell>)
    requires Square(area, n) && Square(g, n) && Square(h, n) && Inside(cells, n)
    requires SameAt(g, h, n, cells)
    ensures Read(area, g, n, cells) == Read(area, h, n, cells)
  {
    hide At;
    if cells != [] {
      ReadSame(area, g, h, n, cells[..|cells| - 1]);
      assert At(g, n, cells[|cells| - 1]) == At(h, n, cells[|cells| - 1]);
    }
  }

  lemma {:induction false} ReadLength(area: Grid, g: Grid, h: Grid, n: nat, cells: seq<Cell>)
    requires Square(area, n) && Square(g, n) && Square(h, n) && Inside(cells, n)
    ensures |Read(area, g, n, cells)| == |Read(area, h, n, cells)|
  {
    if cells != [] {
      ReadLength(area, g, h, n, cells[..|cells| - 1]);
    }
  }

  // ----- placing the bits -----

  function Min(a: nat, b: nat): nat {
    if a < b then a else b
  }

  // What placing bits on the light cells among `done` leaves: those cells read back the bits, then light;
  // every other cell is as it was.
  ghost predicate Placed(area: Grid, g: Grid, n: nat, done: seq<Cell>, bits: Bits)
    requires Square(area, n) && Square(g, n) && Inside(done, n)
  {
    var count := |Read(area, area, n, done)|;
    Read(area, g, n, done) == bits[..Min(count, |bits|)] + Zeros(count - Min(count, |bits|)) &&
    forall x, y | 0 <= x < n && 0 <= y < n && (Cell(x, y) !in done || area[y][x]) :: g[y][x] == area[y][x]
  }

  lemma PlaceDark(area: Grid, g: Grid, n: nat, done: seq<Cell>, bits: Bits, p: Cell)
    requires Square(area, n) && Square(g, n) && Inside(done, n) && 0 <= p.x < n && 0 <= p.y < n
    requires Placed(area, g, n, done, bits) && At(area, n, p)
    ensures Inside(done + [p], n)
    ensures Placed(area, g, n, done + [p], bits)
  {
    assert (done + [p])[..|done|] == done;
    assert (done + [p])[|done|] == p;
  }

  lemma PlaceLight(area: Grid, g: Grid, g': Grid, n: nat, done: seq<Cell>, bits: Bits, p: Cell)
    requires Square(area, n) && Square(g, n) && Square(g', n) && Inside(done, n) && 0 <= p.x < n && 0 <= p.y < n
    requires Placed(area, g, n, done, bits) && !At(area, n, p) && p !in done
    requires var i := |Read(area, area, n, done)|;
             g' == SetAt(g, n, p.x, p.y, i < |bits| && bits[i])
    ensures Inside(done + [p], n)
    ensures Placed(area, g', n, done + [p], bits)
    ensures |Read(area, area, n, done + [p])| == |Read(area, area, n, done)| + 1
  {
    var i := |Read(area, area, n, done)|;
    var all := done + [p];
    assert all[..|done|] == done && all[|done|] == p;
    forall k | 0 <= k < |done|
      ensures At(g', n, done[k]) == At(g, n, done[k])
    {
      assert done[k] in done;
    }
    ReadSame(area, g', g, n, done);
    hide Read;
    ReadOneMore(area, g', n, done, p);
    ReadOneMore(area, area, n, done, p);
  }

  lemma ReadOneMore(area: Grid, g: Grid, n: nat, done: seq<Cell>, p: Cell)
    requires Square(area, n) && Square(g, n) && Inside(done, n) && 0 <= p.x < n && 0 <= p.y < n && !At(area, n, p)
    ensures Inside(done + [p], n)
    ensures Read(area, g, n, done + [p]) == Read(area, g, n, done) + [At(g, n, p)]
  {
    assert (done + [p])[..|done|] == done;
  }

  // The symbol after the cells in `done` have been visited, with i bits used up.
  ghost predicate Progress(qrcode: seq<Byte>, area: Grid, n: nat, done: seq<Cell>, bits: Bits, i: nat) {
    IsSymbol(qrcode) && SizeOf(qrcode) == n && Square(area, n) && Inside(done, n) &&
    Placed(area, View(qrcode), n, done, bits) && i == Min(|Read(area, area, n, done)|, |bits|)
  }

  // One module of the scan. The live test of the module sees what the module was to begin with.
  method PlaceOne(data: array<Byte>, dataLen: nat, qrcode: array<Byte>, x: int, y: int, i: nat,
                  ghost area: Grid, ghost n: nat, ghost done: seq<Cell>)
    returns (i': nat)
    requires data != qrcode && dataLen <= data.Length
    requires Progress(qrcode[..], area, n, done, BufferBits(data[..dataLen]), i)
    requires 0 <= x < n && 0 <= y < n && Cell(x, y) !in done
    modifies qrcode
    ensures Progress(qrcode[..], area, n, done + [Cell(x, y)], BufferBits(data[..dataLen]), i')
  {
    hide Bit, Value, View, Read, SetAt;
    ghost var bits, p, g := BufferBits(data[..dataLen]), Cell(x, y), View(qrcode[..]);
    i' := i;
    assert At(g, n, p) == At(area, n, p);
    if !GetModule(qrcode, x, y) && i < dataLen * 8 {
      var dark := Bit(data[i / 8], 7 - i % 8);
      assert bits[i] == BufferBit(data[..dataLen], i);
      SetModule(qrcode, x, y, dark);
      i' := i + 1;
      PlaceLight(area, g, View(qrcode[..]), n, done, bits, p);
    } else if At(area, n, p) {
      PlaceDark(area, g, n, done, bits, p);
      ReadDark(area, n, done, p);
    } else {
      SetAtSame(g, n, x, y);
      PlaceLight(area, g, g, n, done, bits, p);
    }
  }

  lemma ReadDark(area: Grid, n: nat, done: seq<Cell>, p: Cell)
    requires Square(area, n) && Inside(done, n) && 0 <= p.x < n && 0 <= p.y < n && At(area, n, p)
    ensures Inside(done + [p], n)
    ensures Read(area, area, n, done + [p]) == Read(area, area, n, done)
  {
    assert (done + [p])[..|done|] == done;
  }

  lemma SetAtSame(g: Grid, n: nat, x: nat, y: nat)
    requires Square(g, n) && x < n && y < n
    ensures SetAt(g, n, x, y, g[y][x]) == g
  {
    SameGrid(SetAt(g, n, x, y, g[y][x]), g, n);
  }

  lemma {:induction false} ScanPrefix(n: nat, c: nat, m: nat)
    requires c <= m
    ensures Scan(n, c) <= Scan(n, m)
    decreases m - c
  {
    if c < m {
      ScanPrefix(n, c + 1, m);
    }
  }

  lemma {:induction false} PairPrefix(n: nat, right: int, vert: nat, m: nat)
    requires vert <= m
    ensures PairCells(n, right, vert) <= PairCells(n, right, m)
    decreases m - vert
  {
    if vert < m {
      PairPrefix(n, right, vert + 1, m);
    }
  }

  // The cells visited before the j-th module of row `vert` in the c-th pair.
  function Visited(n: nat, c: nat, vert: nat, j: nat): seq<Cell> {
    var right := RightColumn(n, c);
    Scan(n, c) + PairCells(n, right, vert) + if j == 0 then [] else [Cell(right, Row(n, right, vert))]
  }

  // The cell visited j-th in row `vert` of the c-th pair.
  function Visiting(n: nat, c: nat, vert: nat, j: nat): Cell {
    Cell(RightColumn(n, c) - j, Row(n, RightColumn(n, c), vert))
  }

  lemma VisitStep(n: nat, c: nat, vert: nat)
    ensures Visited(n, c, vert, 0) + [Visiting(n, c, vert, 0)] == Visited(n, c, vert, 1)
    ensures Visited(n, c, vert, 1) + [Visiting(n, c, vert, 1)] == Visited(n, c, vert + 1, 0)
  {
    hide Row, RightColumn, Scan;
  }

  lemma AppendPrefix(s: seq<Cell>, a: seq<Cell>, b: seq<Cell>)
    requires a <= b
    ensures s + a <= s + b
  {
    assert b == a + b[|a|..];
    assert s + b == (s + a) + b[|a|..];
  }

  lemma VisitedPrefix(n: nat, c: nat, vert: nat)
    requires c < n / 2 && vert <= n
    ensures Visited(n, c, vert, 0) <= ZigzagCells(n)
  {
    var right := RightColumn(n, c);
    PairPrefix(n, right, vert, n);
    assert Scan(n, c + 1) == Scan(n, c) + PairCells(n, right, n);
    hide Scan, PairCells, RightColumn;
    AppendPrefix(Scan(n, c), PairCells(n, right, vert), PairCells(n, right, n));
    ScanPrefix(n, c + 1, n / 2);
    assert Visited(n, c, vert, 0) == Scan(n, c) + PairCells(n, right, vert);
  }

  // Every step of the scan reaches a cell not visited before.
  lemma VisitNext(n: nat, c: nat, vert: nat, j: nat)
    requires n % 2 == 1 && n >= 9 && c < n / 2 && vert < n && j < 2
    ensures var p := Visiting(n, c, vert, j);
            0 <= p.x < n && 0 <= p.y < n && Inside(Visited(n, c, vert, j), n) && p !in Visited(n, c, vert, j) &&
            Visited(n, c, vert, j) + [p] == if j == 0 then Visited(n, c, vert, 1) else Visited(n, c, vert + 1, 0)
  {
    hide ZigzagCells, Visited, Visiting;
    VisitStep(n, c, vert);
    VisitedPrefix(n, c, vert + 1);
    ZigzagVisitsOnce(n);
    PrefixFacts(ZigzagCells(n), Visited(n, c, vert, j), Visiting(n, c, vert, j), n);
  }

  lemma PrefixFacts(all: seq<Cell>, done: seq<Cell>, p: Cell, n: nat)
    requires NoRepeats(all) && done + [p] <= all
    requires forall q: Cell | q in all :: 0 <= q.x < n && 0 <= q.y < n
    ensures p !in done && p in all && Inside(done, n)
  {
    assert all[|done|] == p;
    forall k | 0 <= k < |done|
      ensures done[k] == all[k] && all[k] != all[|done|]
    {
      assert (done + [p])[k] == all[k];
    }
  }

  method DrawPair(data: array<Byte>, dataLen: nat, qrcode: array<Byte>, right: int, i: nat,
                  ghost area: Grid, n: nat, ghost c: nat)
    returns (i': nat)
    requires data != qrcode && dataLen <= data.Length
    requires n % 2 == 1 && n >= 9 && c < n / 2 && right == RightColumn(n, c)
    requires Progress(qrcode[..], area, n, Visited(n, c, 0, 0), BufferBits(data[..dataLen]), i)
    modifies qrcode
    ensures Progress(qrcode[..], area, n, Visited(n, c + 1, 0, 0), BufferBits(data[..dataLen]), i')
  {
    hide Progress, Visited, RightColumn, BufferBits, Row;
    ghost var bits := BufferBits(data[..dataLen]);
    i' := i;
    for vert := 0 to n
      invariant Progress(qrcode[..], area, n, Visited(n, c, vert, 0), bits, i')
    {
      for j := 0 to 2
        invariant Progress(qrcode[..], area, n, if j < 2 then Visited(n, c, vert, j) else Visited(n, c, vert + 1, 0), bits, i')
      {
        VisitNext(n, c, vert, j);
        var x := right - j;
        var upward := (right + 1) / 2 % 2 == 0;
        var y := if upward then n - 1 - vert else vert;
        VisitingIs(n, c, vert, j, x, y);
        i' := PlaceOne(data, dataLen, qrcode, x, y, i', area, n, Visited(n, c, vert, j));
      }
    }
    PairDone(n, c);
  }

  // Draws the codewords, most significant bit first, on the light modules in scan order. The modules left
  // over stay light, and dark modules are not touched.
  method DrawCodewords(data: array<Byte>, dataLen: nat, qrcode: array<Byte>)
    requires data != qrcode && dataLen <= data.Length
    requires IsSymbol(qrcode[..]) && SizeOf(qrcode[..]) % 2 == 1
    requires var area, n := View(qrcode[..]), SizeOf(qrcode[..]);
             Inside(ZigzagCells(n), n) && 8 * dataLen <= |Read(area, area, n, ZigzagCells(n))|
    modifies qrcode
    ensures Progress(qrcode[..], old(View(qrcode[..])), old(SizeOf(qrcode[..])), ZigzagCells(old(SizeOf(qrcode[..]))),
                     BufferBits(data[..dataLen]), 8 * dataLen)
  {
    hide Value, View, Read, Placed, Visited, RightColumn, Inside, BufferBits, Progress, ZigzagCells, IsSymbol;
    ghost var area, bits := View(qrcode[..]), BufferBits(data[..dataLen]);
    StartProgress(qrcode[..], bits);
    var qrsize := Value(qrcode[0]);
    var i := 0;
    var right: int := qrsize - 1;
    ghost var c: nat := 0;
    while right >= 1
      invariant 0 <= c <= qrsize / 2
      invariant qrsize - 1 - 2 * c >= 6 ==> right == qrsize - 1 - 2 * c
      invariant qrsize - 1 - 2 * c < 6 ==> right == qrsize - 2 - 2 * c
      invariant Progress(qrcode[..], area, qrsize, Visited(qrsize, c, 0, 0), bits, i)
    {
      if right == 6 {
        right := 5;
      }
      RightIs(qrsize, c, right);
      i := DrawPair(data, dataLen, qrcode, right, i, area, qrsize, c);
      right, c := right - 2, c + 1;
    }
    AllVisited(qrsize, c);
    AllUsed(qrcode[..], area, qrsize, bits, i);
  }

  lemma StartProgress(qrcode: seq<Byte>, bits: Bits)
    requires IsSymbol(qrcode)
    ensures Progress(qrcode, View(qrcode), SizeOf(qrcode), Visited(SizeOf(qrcode), 0, 0, 0), bits, 0)
    ensures |qrcode| > 0 && SizeOf(qrcode) >= 21
  {
    NothingPlaced(View(qrcode), SizeOf(qrcode), bits);
    hide View, Value, Read, Placed;
  }

  lemma AllUsed(qrcode: seq<Byte>, area: Grid, n: nat, bits: Bits, i: nat)
    requires Progress(qrcode, area, n, ZigzagCells(n), bits, i)
    requires |bits| <= |Read(area, area, n, ZigzagCells(n))|
    ensures i == |bits|
  {
    hide Value, View, Read, Placed, ZigzagCells;
  }

  lemma NothingPlaced(area: Grid, n: nat, bits: Bits)
    requires Square(area, n)
    ensures Visited(n, 0, 0, 0) == []
    ensures Placed(area, area, n, [], bits) && Read(area, area, n, []) == []
  {
  }

  lemma RightIs(n: nat, c: nat, right: int)
    requires n % 2 == 1 && c < n / 2
    requires right == if n - 1 - 2 * c > 6 then n - 1 - 2 * c else n - 2 - 2 * c
    ensures right == RightColumn(n, c)
  {
  }

  lemma VisitingIs(n: nat, c: nat, vert: nat, j: nat, x: int, y: int)
    requires x == RightColumn(n, c) - j
    requires y == if (RightColumn(n, c) + 1) / 2 % 2 == 0 then n - 1 - vert else vert
    ensures Visiting(n, c, vert, j) == Cell(x, y)
  {
    hide RightColumn;
  }

  lemma PairDone(n: nat, c: nat)
    ensures Visited(n, c, n, 0) == Visited(n, c + 1, 0, 0)
  {
    hide RightColumn;
    assert Visited(n, c, n, 0) == Scan(n, c) + PairCells(n, RightColumn(n, c), n);
  }

  lemma AllVisited(n: nat, c: nat)
    requires c == n / 2
    ensures Visited(n, c, 0, 0) == ZigzagCells(n)
  {
    hide Scan;
  }
}
