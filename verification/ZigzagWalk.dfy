// The zigzag scan as a walk over the grid.
module ZigzagWalk {
  import opened Arithmetic
  import opened Zigzag

  // The step from the k-th cell of the walk to the next. Within a row it goes left. From the left column of a pair it
  // goes on to the next row, upwards in the first pair and then alternating; at the border it stays in the row and goes
  // on to the next pair, passing over column 6.
  predicate Step(n: nat, k: nat, p: Cell, q: Cell)
    requires n > 0
  {
    Moves(n, Upward(k / (2 * n)), k % 2 == 0, p, q)
  }

  predicate Moves(n: nat, upward: bool, right: bool, p: Cell, q: Cell) {
    if right then q == Cell(p.x - 1, p.y)
    else if p.y == (if upward then 0 else n - 1) then q == Cell(if p.x == 7 then 5 else p.x - 1, p.y)
    else q == Cell(p.x + 1, if upward then p.y - 1 else p.y + 1)
  }

  lemma {:induction false} PairLength(n: nat, right: int, vert: nat)
    ensures |PairCells(n, right, vert)| == 2 * vert
  {
    if vert > 0 {
      PairLength(n, right, vert - 1);
    }
  }

  lemma {:induction false} PairAt(n: nat, right: int, vert: nat, k: nat)
    requires k < vert
    ensures |PairCells(n, right, vert)| == 2 * vert
    ensures PairCells(n, right, vert)[2 * k] == Cell(right, Row(n, right, k))
    ensures PairCells(n, right, vert)[2 * k + 1] == Cell(right - 1, Row(n, right, k))
  {
    hide Row;
    PairLength(n, right, vert);
    PairLength(n, right, vert - 1);
    if k < vert - 1 {
      PairAt(n, right, vert - 1, k);
    }
  }

  // Where pair c begins in the walk.
  function Begin(n: nat, c: nat): nat {
    2 * n * c
  }

  lemma {:induction false} ScanLength(n: nat, c: nat)
    ensures |Scan(n, c)| == Begin(n, c)
  {
    hide RightColumn;
    if c > 0 {
      ScanLength(n, c - 1);
      PairLength(n, RightColumn(n, c - 1), n);
      TimesNext(2 * n, c - 1);
    }
  }

  lemma AfterPrefix(a: seq<Cell>, b: seq<Cell>, all: seq<Cell>, j: nat)
    requires a + b <= all && j < |b|
    ensures |a| + j < |all| && all[|a| + j] == b[j]
  {
    assert (a + b)[|a| + j] == b[j];
  }

  // Row k of pair c, in the middle of the walk.
  lemma WalkAt(n: nat, c: nat, k: nat)
    requires c < n / 2 && k < n
    ensures var all, i, right := ZigzagCells(n), Begin(n, c) + 2 * k, RightColumn(n, c);
            i + 1 < |all| && all[i] == Cell(right, Row(n, right, k)) && all[i + 1] == Cell(right - 1, Row(n, right, k))
  {
    hide PairCells, Row, RightColumn, Begin;
    var right := RightColumn(n, c);
    var pair := PairCells(n, right, n);
    ScanLength(n, c);
    ScanPrefix(n, c + 1, n / 2);
    PairAt(n, right, n, k);
    assert Scan(n, c + 1) == Scan(n, c) + pair;
    hide Scan;
    AfterPrefix(Scan(n, c), pair, ZigzagCells(n), 2 * k);
    AfterPrefix(Scan(n, c), pair, ZigzagCells(n), 2 * k + 1);
  }

  predicate Upward(c: nat) {
    c % 2 == 0
  }

  lemma Turns(c: nat)
    ensures Upward(c + 1) == !Upward(c)
  {
  }

  // The rows of a pair: upwards in every second pair.
  lemma RowIs(n: nat, c: nat, k: nat)
    requires n % 4 == 1 && n >= 9 && c < n / 2 && k < n
    ensures Row(n, RightColumn(n, c), k) == if Upward(c) then n - 1 - k else k
  {
    var h := n / 4;
    Quotient(n, 4);
    HalfRight(n, h, c);
    EvenMinus(h, c);
    hide RightColumn;
  }

  lemma HalfRight(n: nat, h: nat, c: nat)
    requires n == 4 * h + 1 && c < 2 * h
    ensures RightColumn(n, c) >= 0 && (RightColumn(n, c) + 1) / 2 == 2 * h - c
  {
    if n - 1 - 2 * c > 6 {
      QuotientUnique(RightColumn(n, c) + 1, 2, 2 * h - c, 1);
    } else {
      QuotientUnique(RightColumn(n, c) + 1, 2, 2 * h - c, 0);
    }
  }

  lemma EvenMinus(h: nat, c: nat)
    requires c <= 2 * h
    ensures (2 * h - c) % 2 == 0 <==> Upward(c)
  {
  }

  lemma WhereInWalk(n: nat, i: nat) returns (c: nat, k: nat)
    requires n > 0 && i < Begin(n, n / 2)
    ensures c < n / 2 && k < n && c == i / (2 * n) && k == i % (2 * n) / 2 && i == Begin(n, c) + 2 * k + i % 2
  {
    Quotient(i, 2 * n);
    c, k := i / (2 * n), i % (2 * n) / 2;
    if c >= n / 2 {
      TimesMonotone(2 * n, n / 2, c);
    }
    var r := i % (2 * n);
    assert r == 2 * k + r % 2;
    EvenAway(n * c, r);
    assert Begin(n, c) == 2 * (n * c);
  }

  lemma EvenAway(a: nat, r: nat)
    ensures (2 * a + r) % 2 == r % 2
  {
  }

  // The scan starts in the lower right corner and goes on step by step; being a list of all cells outside column 6
  // without repeats, this is all there is to know about it.
  lemma ZigzagIsWalk(n: nat, i: nat)
    requires n % 4 == 1 && n >= 9
    ensures |ZigzagCells(n)| == n * (n - 1) && ZigzagCells(n)[0] == Cell(n - 1, n - 1)
    ensures i + 1 < |ZigzagCells(n)| ==> Step(n, i, ZigzagCells(n)[i], ZigzagCells(n)[i + 1])
  {
    hide ZigzagCells, Step;
    WalkLength(n);
    WalkAt(n, 0, 0);
    RowIs(n, 0, 0);
    if i + 1 < |ZigzagCells(n)| {
      WalkStep(n, i);
    }
  }

  lemma WalkLength(n: nat)
    requires n % 4 == 1 && n >= 9
    ensures |ZigzagCells(n)| == Begin(n, n / 2) == n * (n - 1)
  {
    ScanLength(n, n / 2);
    var h := n / 2;
    assert n == 2 * h + 1;
    assert n * (2 * h) == 2 * n * h == Begin(n, h);
  }

  lemma WalkStep(n: nat, i: nat)
    requires n % 4 == 1 && n >= 9 && i + 1 < |ZigzagCells(n)|
    ensures Step(n, i, ZigzagCells(n)[i], ZigzagCells(n)[i + 1])
  {
    WalkLength(n);
    var c, k := WhereInWalk(n, i);
    if i % 2 == 0 {
      WithinRow(n, c, k);
    } else if k + 1 < n {
      ToNextRow(n, c, k);
    } else {
      NextPair(n, c);
      ToNextPair(n, c);
    }
    hide ZigzagCells, Moves, Begin;
  }

  lemma WithinRow(n: nat, c: nat, k: nat)
    requires c < n / 2 && k < n
    ensures var all, i := ZigzagCells(n), Begin(n, c) + 2 * k; i + 1 < |all| && Moves(n, Upward(c), true, all[i], all[i + 1])
  {
    hide ZigzagCells, Row, RightColumn, Begin, Upward;
    WalkAt(n, c, k);
  }

  lemma ToNextRow(n: nat, c: nat, k: nat)
    requires n % 4 == 1 && n >= 9 && c < n / 2 && k + 1 < n
    ensures var all, i := ZigzagCells(n), Begin(n, c) + 2 * k + 1;
            i + 1 < |all| && Moves(n, Upward(c), false, all[i], all[i + 1])
  {
    hide ZigzagCells, Row, RightColumn, Begin, Upward;
    WalkAt(n, c, k);
    WalkAt(n, c, k + 1);
    RowIs(n, c, k);
    RowIs(n, c, k + 1);
  }

  lemma ToNextPair(n: nat, c: nat)
    requires n % 4 == 1 && n >= 9 && c + 1 < n / 2
    ensures var all, i := ZigzagCells(n), Begin(n, c + 1) - 1;
            0 <= i && i + 1 < |all| && Moves(n, Upward(c), false, all[i], all[i + 1])
  {
    hide ZigzagCells, Row, RightColumn, Begin, Upward;
    BeginNext(n, c);
    Turns(c);
    WalkAt(n, c, n - 1);
    WalkAt(n, c + 1, 0);
    RowIs(n, c, n - 1);
    RowIs(n, c + 1, 0);
    NextColumn(n, c);
  }

  lemma BeginNext(n: nat, c: nat)
    ensures Begin(n, c) + 2 * n == Begin(n, c + 1)
  {
    TimesNext(2 * n, c);
  }

  lemma NextPair(n: nat, c: nat)
    requires n > 0 && Begin(n, c) + 2 * n < Begin(n, n / 2)
    ensures c + 1 < n / 2 && Begin(n, c) + 2 * n == Begin(n, c + 1)
  {
    TimesNext(2 * n, c);
    if n / 2 <= c + 1 {
      TimesMonotone(2 * n, n / 2, c + 1);
    }
  }

  lemma NextColumn(n: nat, c: nat)
    requires n >= 9 && n % 2 == 1 && c + 1 < n / 2
    ensures RightColumn(n, c + 1) == if RightColumn(n, c) - 1 == 7 then 5 else RightColumn(n, c) - 2
  {
  }
}
