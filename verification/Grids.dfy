// The packed grid of modules: byte 0 is the side length, then one bit for each module, row by row.
module Grids {
  import opened Arithmetic
  import opened Bytes

  // g[y][x], true for dark.
  type Grid = seq<seq<bool>>

  ghost predicate Square(g: Grid, n: nat) {
    |g| == n && forall y | 0 <= y < n :: |g[y]| == n
  }

  function SetAt(g: Grid, n: nat, x: nat, y: nat, dark: bool): (g': Grid)
    requires Square(g, n) && x < n && y < n
    ensures Square(g', n)
    ensures forall u, v | 0 <= u < n && 0 <= v < n :: g'[v][u] == if u == x && v == y then dark else g[v][u]
  {
    g[y := g[y][x := dark]]
  }

  lemma SameGrid(g: Grid, h: Grid, n: nat)
    requires Square(g, n) && Square(h, n)
    requires forall x, y | 0 <= x < n && 0 <= y < n :: g[y][x] == h[y][x]
    ensures g == h
  {
    forall y | 0 <= y < n
      ensures g[y] == h[y]
    {
    }
  }

  // ----- the packed form -----

  function SizeOf(buf: seq<Byte>): nat
    requires |buf| > 0
  {
    Value(buf[0])
  }

  predicate IsSymbol(buf: seq<Byte>) {
    |buf| > 0 && 21 <= SizeOf(buf) <= 177 && |buf| >= (SizeOf(buf) * SizeOf(buf) + 7) / 8 + 1
  }

  function Index(n: nat, x: nat, y: nat): nat {
    y * n + x
  }

  lemma IndexBound(n: nat, x: nat, y: nat)
    requires x < n && y < n
    ensures Index(n, x, y) < n * n
    ensures Index(n, x, y) / 8 + 1 < (n * n + 7) / 8 + 1
  {
    TimesMonotone(n, y + 1, n);
  }

  lemma IndexInjective(n: nat, x: nat, y: nat, u: nat, v: nat)
    requires x < n && u < n && Index(n, x, y) == Index(n, u, v)
    ensures x == u && y == v
  {
    QuotientUnique(Index(n, x, y), n, y, x);
    QuotientUnique(Index(n, u, v), n, v, u);
  }

  function Module(buf: seq<Byte>, x: nat, y: nat): bool
    requires IsSymbol(buf) && x < SizeOf(buf) && y < SizeOf(buf)
  {
    IndexBound(SizeOf(buf), x, y);
    var index := Index(SizeOf(buf), x, y);
    Bit(buf[index / 8 + 1], index % 8)
  }

  function View(buf: seq<Byte>): (g: Grid)
    requires IsSymbol(buf)
    ensures Square(g, SizeOf(buf))
    ensures forall x, y | 0 <= x < SizeOf(buf) && 0 <= y < SizeOf(buf) :: g[y][x] == Module(buf, x, y)
  {
    seq(SizeOf(buf), y requires 0 <= y < SizeOf(buf) =>
      seq(SizeOf(buf), x requires 0 <= x < SizeOf(buf) => Module(buf, x, y)))
  }

  // The module at the given coordinates, which must be in bounds.
  function GetModule(qrcode: array<Byte>, x: int, y: int): (dark: bool)
    requires IsSymbol(qrcode[..]) && 0 <= x < SizeOf(qrcode[..]) && 0 <= y < SizeOf(qrcode[..])
    reads qrcode
    ensures dark == View(qrcode[..])[y][x]
  {
    var qrsize := Value(qrcode[0]);
    IndexBound(qrsize, x, y);
    var index := Index(qrsize, x, y);
    Bit(qrcode[index / 8 + 1], index % 8)
  }

  function WithModule(buf: seq<Byte>, x: nat, y: nat, dark: bool): (buf': seq<Byte>)
    requires IsSymbol(buf) && x < SizeOf(buf) && y < SizeOf(buf)
    ensures |buf'| == |buf| && buf'[0] == buf[0] && IsSymbol(buf')
  {
    IndexBound(SizeOf(buf), x, y);
    var index := Index(SizeOf(buf), x, y);
    buf[index / 8 + 1 := WithBit(buf[index / 8 + 1], index % 8, dark)]
  }

  lemma ModuleOfWithModule(buf: seq<Byte>, x: nat, y: nat, dark: bool, u: nat, v: nat)
    requires IsSymbol(buf)
    requires x < SizeOf(buf) && y < SizeOf(buf) && u < SizeOf(buf) && v < SizeOf(buf)
    ensures Module(WithModule(buf, x, y, dark), u, v) == if u == x && v == y then dark else Module(buf, u, v)
  {
    hide Bit, WithBit, Value;
    var n := SizeOf(buf);
    var i, j := Index(n, x, y), Index(n, u, v);
    IndexBound(n, x, y);
    IndexBound(n, u, v);
    hide Index;
    if i / 8 == j / 8 {
      BitOfWithBit(buf[i / 8 + 1], i % 8, dark, j % 8);
    }
    if i == j {
      IndexInjective(n, x, y, u, v);
    }
  }

  lemma ViewOfWithModule(buf: seq<Byte>, x: nat, y: nat, dark: bool)
    requires IsSymbol(buf) && x < SizeOf(buf) && y < SizeOf(buf)
    ensures View(WithModule(buf, x, y, dark)) == SetAt(View(buf), SizeOf(buf), x, y, dark)
  {
    hide Module, WithModule, Value;
    var n := SizeOf(buf);
    forall u, v | 0 <= u < n && 0 <= v < n
      ensures View(WithModule(buf, x, y, dark))[v][u] == SetAt(View(buf), n, x, y, dark)[v][u]
    {
      ModuleOfWithModule(buf, x, y, dark, u, v);
    }
    SameGrid(View(WithModule(buf, x, y, dark)), SetAt(View(buf), n, x, y, dark), n);
  }

  // Sets the module at the given coordinates, which must be in bounds.
  method SetModule(qrcode: array<Byte>, x: int, y: int, isDark: bool)
    requires IsSymbol(qrcode[..]) && 0 <= x < SizeOf(qrcode[..]) && 0 <= y < SizeOf(qrcode[..])
    modifies qrcode
    ensures IsSymbol(qrcode[..]) && qrcode[0] == old(qrcode[0])
    ensures View(qrcode[..]) == SetAt(old(View(qrcode[..])), SizeOf(qrcode[..]), x, y, isDark)
  {
    hide Bit, WithBit, Value, View;
    var qrsize := Value(qrcode[0]);
    ViewOfWithModule(qrcode[..], x, y, isDark);
    IndexBound(qrsize, x, y);
    var index := Index(qrsize, x, y);
    ghost var buf := qrcode[..];
    qrcode[index / 8 + 1] := WithBit(qrcode[index / 8 + 1], index % 8, isDark);
    assert qrcode[..] == WithModule(buf, x, y, isDark);
  }

  // As SetModule, but does nothing out of bounds.
  method SetModuleBounded(qrcode: array<Byte>, x: int, y: int, isDark: bool)
    requires IsSymbol(qrcode[..])
    modifies qrcode
    ensures IsSymbol(qrcode[..]) && qrcode[0] == old(qrcode[0])
    ensures View(qrcode[..]) ==
            if 0 <= x < SizeOf(qrcode[..]) && 0 <= y < SizeOf(qrcode[..])
            then SetAt(old(View(qrcode[..])), SizeOf(qrcode[..]), x, y, isDark) else old(View(qrcode[..]))
  {
    var qrsize := Value(qrcode[0]);
    if 0 <= x < qrsize && 0 <= y < qrsize {
      SetModule(qrcode, x, y, isDark);
    }
  }
}
