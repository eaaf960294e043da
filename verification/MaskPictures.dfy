// The mask patterns as pictures.
module MaskPictures {
  import opened Arithmetic
  import opened Grids
  import opened Masking

  // A picture that repeats in both directions; # is inverted.
  function Tile(mask: nat): seq<string>
    requires mask < 8
  {
    match mask
    case 0 => ["#.", ".#"]
    case 1 => ["#", "."]
    case 2 => ["#.."]
    case 3 => ["#..", "..#", ".#."]
    case 4 => ["###...",
               "###...",
               "...###",
               "...###"]
    case 5 => ["######",
               "#.....",
               "#..#..",
               "#.#.#.",
               "#..#..",
               "#....."]
    case 6 => ["######",
               "###...",
               "##.##.",
               "#.#.#.",
               "#.##.#",
               "#...##"]
    case _ => ["#.#.#.",
               "...###",
               "#...##",
               ".#.#.#",
               "###...",
               ".###.."]
  }

  function Width(mask: nat): nat {
    match mask
    case 0 => 2 case 1 => 1 case 2 => 3 case 3 => 3
    case _ => 6
  }

  function Height(mask: nat): nat {
    match mask
    case 0 => 2 case 1 => 2 case 2 => 1 case 3 => 3 case 4 => 4
    case _ => 6
  }

  lemma ProductOfRemainders(x: nat, y: nat)
    ensures x * y % 2 == (x % 6) * (y % 6) % 2 && x * y % 3 == (x % 6) * (y % 6) % 3
  {
    var p, a, q, b := x / 6, x % 6, y / 6, y % 6;
    ProductSplits(p, a, q, b);
    var k := 6 * (p * q) + p * b + q * a;
    QuotientUnique(x * y, 2, 3 * k + a * b / 2, a * b % 2);
    QuotientUnique(x * y, 3, 2 * k + a * b / 3, a * b % 3);
  }

  lemma ProductSplits(p: nat, a: nat, q: nat, b: nat)
    ensures (6 * p + a) * (6 * q + b) == 6 * (6 * (p * q) + p * b + q * a) + a * b
  {
    assert (6 * p + a) * (6 * q + b) == 6 * p * (6 * q + b) + a * (6 * q + b);
    assert 6 * p * (6 * q + b) == 36 * (p * q) + 6 * (p * b);
    assert a * (6 * q + b) == 6 * (q * a) + a * b;
  }

  lemma SimpleRepeat(mask: nat, x: nat, y: nat)
    requires mask < 5
    ensures MaskBit(mask, x, y) <==> MaskBit(mask, x % Width(mask), y % Height(mask))
  {
    RemaindersAdd(x, y, 2);
    RemaindersAdd(x, y, 3);
    BlocksRepeat(x, y);
    SimpleBits(mask, x, y);
    SimpleBits(mask, x % Width(mask), y % Height(mask));
    hide MaskBit;
  }

  lemma SimpleBits(mask: nat, x: nat, y: nat)
    requires mask < 5
    ensures MaskBit(mask, x, y) <==>
            if mask == 0 then (x + y) % 2 == 0 else if mask == 1 then y % 2 == 0 else if mask == 2 then x % 3 == 0
            else if mask == 3 then (x + y) % 3 == 0 else (x / 3 + y / 2) % 2 == 0
  {
  }

  lemma RemaindersAdd(x: nat, y: nat, d: nat)
    requires d > 0
    ensures (x + y) % d == (x % d + y % d) % d
  {
    Quotient(x, d);
    Quotient(y, d);
    Quotient(x % d + y % d, d);
    QuotientUnique(x + y, d, x / d + y / d + (x % d + y % d) / d, (x % d + y % d) % d);
  }

  lemma BlocksRepeat(x: nat, y: nat)
    ensures (x / 3 + y / 2) % 2 == (x % 6 / 3 + y % 4 / 2) % 2
  {
    var i, j := x / 6, y / 4;
    assert x / 3 == 2 * i + x % 6 / 3;
    assert y / 2 == 2 * j + y % 4 / 2;
  }

  // A function of the product's remainders and the parity of the sum.
  predicate Mixed(mask: nat, two: nat, three: nat, parity: nat) {
    if mask == 5 then two + three == 0 else if mask == 6 then (two + three) % 2 == 0 else (parity + three) % 2 == 0
  }

  lemma MixedBit(mask: nat, x: nat, y: nat)
    requires 5 <= mask < 8
    ensures MaskBit(mask, x, y) <==> Mixed(mask, x * y % 2, x * y % 3, (x + y) % 2)
  {
  }

  lemma MixedRepeat(mask: nat, x: nat, y: nat)
    requires 5 <= mask < 8
    ensures MaskBit(mask, x, y) <==> MaskBit(mask, x % 6, y % 6)
  {
    MixedBit(mask, x, y);
    MixedBit(mask, x % 6, y % 6);
    ProductOfRemainders(x, y);
    SameParity(x, y);
    hide *;
  }

  lemma SameParity(x: nat, y: nat)
    ensures (x + y) % 2 == (x % 6 + y % 6) % 2
  {
    assert x + y == 2 * (3 * (x / 6) + 3 * (y / 6)) + (x % 6 + y % 6);
  }

  lemma Tile0(a: nat, b: nat)
    requires a < 2 && b < 2
    ensures 2 == |Tile(0)| && |Tile(0)[b]| == 2 && (MaskBit(0, a, b) <==> Tile(0)[b][a] == '#')
  {
    if b == 0 {
      assert Tile(0)[0] == "#.";
    } else {
      assert Tile(0)[1] == ".#";
    }
  }

  lemma Tile1(a: nat, b: nat)
    requires a < 1 && b < 2
    ensures 2 == |Tile(1)| && |Tile(1)[b]| == 1 && (MaskBit(1, a, b) <==> Tile(1)[b][a] == '#')
  {
    if b == 0 {
      assert Tile(1)[0] == "#";
    } else {
      assert Tile(1)[1] == ".";
    }
  }

  lemma Tile2(a: nat, b: nat)
    requires a < 3 && b < 1
    ensures 1 == |Tile(2)| && |Tile(2)[b]| == 3 && (MaskBit(2, a, b) <==> Tile(2)[b][a] == '#')
  {
  }

  lemma Tile3(a: nat, b: nat)
    requires a < 3 && b < 3
    ensures 3 == |Tile(3)| && |Tile(3)[b]| == 3 && (MaskBit(3, a, b) <==> Tile(3)[b][a] == '#')
  {
    if b == 0 {
      assert Tile(3)[0] == "#..";
    } else if b == 1 {
      assert Tile(3)[1] == "..#";
    } else {
      assert Tile(3)[2] == ".#.";
    }
  }

  lemma Tile4(a: nat, b: nat)
    requires a < 6 && b < 4
    ensures 4 == |Tile(4)| && |Tile(4)[b]| == 6 && (MaskBit(4, a, b) <==> Tile(4)[b][a] == '#')
  {
    if b == 0 {
      assert Tile(4)[0] == "###...";
    } else if b == 1 {
      assert Tile(4)[1] == "###...";
    } else if b == 2 {
      assert Tile(4)[2] == "...###";
    } else {
      assert Tile(4)[3] == "...###";
    }
  }

  // A row of a picture, module by module.
  lemma RowIs(mask: nat, a: nat, b: nat, row: string)
    requires mask < 8 && a < 6 && |row| == 6
    requires row[0] == '#' <==> MaskBit(mask, 0, b)
    requires row[1] == '#' <==> MaskBit(mask, 1, b)
    requires row[2] == '#' <==> MaskBit(mask, 2, b)
    requires row[3] == '#' <==> MaskBit(mask, 3, b)
    requires row[4] == '#' <==> MaskBit(mask, 4, b)
    requires row[5] == '#' <==> MaskBit(mask, 5, b)
    ensures MaskBit(mask, a, b) <==> row[a] == '#'
  {
    hide MaskBit;
    assert a == 0 || a == 1 || a == 2 || a == 3 || a == 4 || a == 5;
  }

  lemma FirstRow(a: nat)
    ensures MaskBit(5, a, 0) && MaskBit(6, a, 0) && (MaskBit(7, a, 0) <==> a % 2 == 0)
  {
  }

  lemma Row1()
    ensures MaskBit(5, 0, 1) && !MaskBit(5, 1, 1) && !MaskBit(5, 2, 1) && !MaskBit(5, 3, 1) && !MaskBit(5, 4, 1) && !MaskBit(5, 5, 1)
    ensures MaskBit(6, 0, 1) && MaskBit(6, 1, 1) && MaskBit(6, 2, 1) && !MaskBit(6, 3, 1) && !MaskBit(6, 4, 1) && !MaskBit(6, 5, 1)
    ensures !MaskBit(7, 0, 1) && !MaskBit(7, 1, 1) && !MaskBit(7, 2, 1) && MaskBit(7, 3, 1) && MaskBit(7, 4, 1) && MaskBit(7, 5, 1)
  {
  }

  lemma Row2()
    ensures MaskBit(5, 0, 2) && !MaskBit(5, 1, 2) && !MaskBit(5, 2, 2) && MaskBit(5, 3, 2) && !MaskBit(5, 4, 2) && !MaskBit(5, 5, 2)
    ensures MaskBit(6, 0, 2) && MaskBit(6, 1, 2) && !MaskBit(6, 2, 2) && MaskBit(6, 3, 2) && MaskBit(6, 4, 2) && !MaskBit(6, 5, 2)
    ensures MaskBit(7, 0, 2) && !MaskBit(7, 1, 2) && !MaskBit(7, 2, 2) && !MaskBit(7, 3, 2) && MaskBit(7, 4, 2) && MaskBit(7, 5, 2)
  {
  }

  lemma Row3()
    ensures MaskBit(5, 0, 3) && !MaskBit(5, 1, 3) && MaskBit(5, 2, 3) && !MaskBit(5, 3, 3) && MaskBit(5, 4, 3) && !MaskBit(5, 5, 3)
    ensures MaskBit(6, 0, 3) && !MaskBit(6, 1, 3) && MaskBit(6, 2, 3) && !MaskBit(6, 3, 3) && MaskBit(6, 4, 3) && !MaskBit(6, 5, 3)
    ensures !MaskBit(7, 0, 3) && MaskBit(7, 1, 3) && !MaskBit(7, 2, 3) && MaskBit(7, 3, 3) && !MaskBit(7, 4, 3) && MaskBit(7, 5, 3)
  {
  }

  lemma Row4()
    ensures MaskBit(5, 0, 4) && !MaskBit(5, 1, 4) && !MaskBit(5, 2, 4) && MaskBit(5, 3, 4) && !MaskBit(5, 4, 4) && !MaskBit(5, 5, 4)
    ensures MaskBit(6, 0, 4) && !MaskBit(6, 1, 4) && MaskBit(6, 2, 4) && MaskBit(6, 3, 4) && !MaskBit(6, 4, 4) && MaskBit(6, 5, 4)
    ensures MaskBit(7, 0, 4) && MaskBit(7, 1, 4) && MaskBit(7, 2, 4) && !MaskBit(7, 3, 4) && !MaskBit(7, 4, 4) && !MaskBit(7, 5, 4)
  {
  }

  lemma Row5()
    ensures MaskBit(5, 0, 5) && !MaskBit(5, 1, 5) && !MaskBit(5, 2, 5) && !MaskBit(5, 3, 5) && !MaskBit(5, 4, 5) && !MaskBit(5, 5, 5)
    ensures MaskBit(6, 0, 5) && !MaskBit(6, 1, 5) && !MaskBit(6, 2, 5) && !MaskBit(6, 3, 5) && MaskBit(6, 4, 5) && MaskBit(6, 5, 5)
    ensures !MaskBit(7, 0, 5) && MaskBit(7, 1, 5) && MaskBit(7, 2, 5) && MaskBit(7, 3, 5) && !MaskBit(7, 4, 5) && !MaskBit(7, 5, 5)
  {
  }

  lemma Tile5(a: nat, b: nat)
    requires a < 6 && b < 6
    ensures |Tile(5)| == 6 && |Tile(5)[b]| == 6 && (MaskBit(5, a, b) <==> Tile(5)[b][a] == '#')
  {
    hide MaskBit;
    if b == 0 {
      FirstRow(a);
      assert Tile(5)[0] == "######";
    } else if b == 1 {
      Row1();
      RowIs(5, a, 1, "#.....");
    } else if b == 2 {
      Row2();
      RowIs(5, a, 2, "#..#..");
    } else if b == 3 {
      Row3();
      RowIs(5, a, 3, "#.#.#.");
    } else if b == 4 {
      Row4();
      RowIs(5, a, 4, "#..#..");
    } else {
      Row5();
      RowIs(5, a, 5, "#.....");
    }
  }

  lemma Tile6(a: nat, b: nat)
    requires a < 6 && b < 6
    ensures |Tile(6)| == 6 && |Tile(6)[b]| == 6 && (MaskBit(6, a, b) <==> Tile(6)[b][a] == '#')
  {
    hide MaskBit;
    if b == 0 {
      FirstRow(a);
      assert Tile(6)[0] == "######";
    } else if b == 1 {
      Row1();
      RowIs(6, a, 1, "###...");
    } else if b == 2 {
      Row2();
      RowIs(6, a, 2, "##.##.");
    } else if b == 3 {
      Row3();
      RowIs(6, a, 3, "#.#.#.");
    } else if b == 4 {
      Row4();
      RowIs(6, a, 4, "#.##.#");
    } else {
      Row5();
      RowIs(6, a, 5, "#...##");
    }
  }

  lemma Tile7(a: nat, b: nat)
    requires a < 6 && b < 6
    ensures |Tile(7)| == 6 && |Tile(7)[b]| == 6 && (MaskBit(7, a, b) <==> Tile(7)[b][a] == '#')
  {
    hide MaskBit;
    if b == 0 {
      FirstRow(a);
      assert Tile(7)[0] == "#.#.#.";
    } else if b == 1 {
      Row1();
      RowIs(7, a, 1, "...###");
    } else if b == 2 {
      Row2();
      RowIs(7, a, 2, "#...##");
    } else if b == 3 {
      Row3();
      RowIs(7, a, 3, ".#.#.#");
    } else if b == 4 {
      Row4();
      RowIs(7, a, 4, "###...");
    } else {
      Row5();
      RowIs(7, a, 5, ".###..");
    }
  }

  // A mask inverts the modules that its picture, repeated over the grid, marks.
  lemma MaskIsPicture(mask: nat, x: nat, y: nat)
    requires mask < 8
    ensures |Tile(mask)| == Height(mask) && |Tile(mask)[y % Height(mask)]| == Width(mask)
    ensures MaskBit(mask, x, y) <==> Tile(mask)[y % Height(mask)][x % Width(mask)] == '#'
  {
    hide MaskBit, Tile;
    var a, b := x % Width(mask), y % Height(mask);
    match mask {
      case 0 => SimpleRepeat(mask, x, y); Tile0(a, b);
      case 1 => SimpleRepeat(mask, x, y); Tile1(a, b);
      case 2 => SimpleRepeat(mask, x, y); Tile2(a, b);
      case 3 => SimpleRepeat(mask, x, y); Tile3(a, b);
      case 4 => SimpleRepeat(mask, x, y); Tile4(a, b);
      case 5 => MixedRepeat(mask, x, y); Tile5(a, b);
      case 6 => MixedRepeat(mask, x, y); Tile6(a, b);
      case _ => MixedRepeat(mask, x, y); Tile7(a, b);
    }
  }

  // What applying a mask does to a module, read off the picture.
  lemma MaskedByPicture(area: Grid, g: Grid, n: nat, mask: nat, x: nat, y: nat)
    requires Square(area, n) && Square(g, n) && mask < 8 && x < n && y < n
    ensures |Tile(mask)| == Height(mask) && |Tile(mask)[y % Height(mask)]| == Width(mask)
    ensures var inverted := !area[y][x] && Tile(mask)[y % Height(mask)][x % Width(mask)] == '#';
            Masked(area, g, n, mask)[y][x] == if inverted then !g[y][x] else g[y][x]
  {
    MaskIsPicture(mask, x, y);
    hide MaskBit, Tile;
  }
}
