// The penalty score of a grid.
module Penalty {
  import opened Arithmetic
  import opened Bytes
  import opened Grids
  import opened Runs

  // ----- the score, declaratively -----

  function Column(g: Grid, n: nat, x: nat): (line: Line)
    requires Square(g, n) && x < n
    ensures |line| == n && forall y | 0 <= y < n :: line[y] == g[y][x]
  {
    seq(n, y requires 0 <= y < n => g[y][x])
  }

  // The k-th row or column.
  function LineOf(g: Grid, n: nat, k: nat, horizontal: bool): (line: Line)
    requires Square(g, n) && k < n
    ensures |line| == n
  {
    if horizontal then g[k] else Column(g, n, k)
  }

  function LinesScore(g: Grid, n: nat, count: nat, horizontal: bool): nat
    requires Square(g, n) && count <= n
  {
    if count == 0 then 0
    else LinesScore(g, n, count - 1, horizontal) + LineScore(LineOf(g, n, count - 1, horizontal), n)
  }

  // The 2*2 block with this top left corner has one colour.
  predicate Uniform(g: Grid, n: nat, x: nat, y: nat)
    requires Square(g, n) && x + 1 < n && y + 1 < n
  {
    g[y][x] == g[y][x + 1] == g[y + 1][x] == g[y + 1][x + 1]
  }

  ghost function UniformBlocks(g: Grid, n: nat): (s: set<(nat, nat)>)
    requires Square(g, n)
  {
    set x: nat, y: nat | x < n && y < n && x + 1 < n && y + 1 < n && Uniform(g, n, x, y) :: (x, y)
  }

  ghost function DarkModules(g: Grid, n: nat): (s: set<(nat, nat)>)
    requires Square(g, n)
  {
    set x: nat, y: nat | x < n && y < n && g[y][x] :: (x, y)
  }

  // The dark modules are within (45-5k)% and (55+5k)% of the total.
  predicate Balanced(dark: nat, total: nat, k: int) {
    (45 - 5 * k) * total <= 100 * dark <= (55 + 5 * k) * total
  }

  // How far twenty times the dark modules is from ten times the total.
  function Excess(dark: nat, total: nat): nat {
    var d := 20 * dark - 10 * total;
    if d < 0 then -d else d
  }

  function Imbalance(dark: nat, total: nat): int
    requires total > 0
  {
    (Excess(dark, total) + total - 1) / total - 1
  }

  lemma BalancedIff(dark: nat, total: nat, k: int)
    ensures Balanced(dark, total, k) <==> Excess(dark, total) <= total * (k + 1)
  {
    var p := total * k;
    assert (45 - 5 * k) * total == 45 * total - 5 * p;
    assert (55 + 5 * k) * total == 55 * total + 5 * p;
    assert total * (k + 1) == p + total;
  }

  lemma CeilingQuotient(m: nat, d: nat)
    requires 0 < m <= 10 * d
    ensures var q := (m + d - 1) / d; 1 <= q <= 10 && d * (q - 1) < m <= d * q
  {
    Quotient(m + d - 1, d);
    var q := (m + d - 1) / d;
    if q > 10 {
      TimesMonotone(d, 11, q);
    }
  }

  // The least k >= 0 for which the grid is balanced; an odd total is never half dark.
  lemma ImbalanceIsLeast(dark: nat, total: nat)
    requires dark <= total && total % 2 == 1
    ensures var k := Imbalance(dark, total);
            0 <= k <= 9 && Balanced(dark, total, k) && forall j: int | 0 <= j < k :: !Balanced(dark, total, j)
  {
    var k := Imbalance(dark, total);
    CeilingQuotient(Excess(dark, total), total);
    hide Balanced, Excess;
    BalancedIff(dark, total, k);
    forall j: int | 0 <= j < k
      ensures !Balanced(dark, total, j)
    {
      BalancedIff(dark, total, j);
      TimesMonotone(total, j + 1, k);
    }
  }

  // The grid's penalty: long runs and finder-like patterns on every line, uniform blocks, imbalance.
  ghost function Score(g: Grid, n: nat): int
    requires Square(g, n) && n > 0
  {
    LinesScore(g, n, n, true) + LinesScore(g, n, n, false) + |UniformBlocks(g, n)| * PENALTY_N2 +
    Imbalance(|DarkModules(g, n)|, n * n) * PENALTY_N4
  }

  // ----- the run history -----

  // The last seven runs, newest first, zero-filled.
  ghost predicate IsHistory(h: seq<nat>, p: seq<nat>) {
    |h| == 7 && forall j | 0 <= j < 7 :: h[j] == if j < |p| then p[|p| - 1 - j] else 0
  }

  // Pushes the value to the front and drops the last; the first run gets the light border too.
  method AddHistory(currentRunLength: nat, runHistory: array<nat>, qrsize: nat, ghost p: seq<nat>)
    requires runHistory.Length == 7 && IsHistory(runHistory[..], p)
    requires forall i | 0 <= i < |p| :: p[i] > 0
    modifies runHistory
    ensures IsHistory(runHistory[..], p + [currentRunLength + if p == [] then qrsize else 0])
  {
    var length := currentRunLength;
    if runHistory[0] == 0 {
      length := length + qrsize;
    }
    forall j | 1 <= j < 7 {
      runHistory[j] := runHistory[j - 1];
    }
    runHistory[0] := length;
  }

  // Called just after a light run was added.
  function CountPatterns(runHistory: array<nat>, qrsize: nat): nat
    requires runHistory.Length == 7 && runHistory[1] <= qrsize * 3
    reads runHistory
  {
    var n := runHistory[1];
    var core := n > 0 && runHistory[2] == n && runHistory[3] == n * 3 && runHistory[4] == n && runHistory[5] == n;
    (if core && runHistory[0] >= n * 4 && runHistory[6] >= n then 1 else 0) +
    (if core && runHistory[6] >= n * 4 && runHistory[0] >= n then 1 else 0)
  }

  lemma FinderCountLight(p: seq<nat>)
    requires |p| % 2 == 1
    ensures FinderCount(p) == FinderCount(p[..|p| - 1]) + if |p| >= 7 then PatternsIn(p[|p| - 7..]) else 0
  {
  }

  lemma HistoryIsWindow(h: seq<nat>, p: seq<nat>)
    requires IsHistory(h, p) && |p| >= 7
    ensures var w := p[|p| - 7..];
            w[0] == h[6] && w[1] == h[5] && w[2] == h[4] && w[3] == h[3] && w[4] == h[2] && w[5] == h[1] && w[6] == h[0]
  {
  }

  lemma CountIsNewPatterns(runHistory: array<nat>, qrsize: nat, p: seq<nat>)
    requires runHistory.Length == 7 && IsHistory(runHistory[..], p) && |p| % 2 == 1
    requires runHistory[1] <= qrsize * 3
    ensures FinderCount(p) == FinderCount(p[..|p| - 1]) + CountPatterns(runHistory, qrsize)
  {
    FinderCountLight(p);
    hide FinderCount;
    if |p| >= 7 {
      HistoryIsWindow(runHistory[..], p);
      hide IsHistory;
    } else {
      assert runHistory[..][5] == 0;
    }
  }

  lemma HistoryBound(h: seq<nat>, p: seq<nat>, bound: nat)
    requires IsHistory(h, p) && Sum(p) <= bound
    ensures h[1] <= bound
  {
    if |p| > 1 {
      SumBounds(p, |p| - 2);
    }
  }

  // ----- scanning one line -----

  // The runs pushed to the history while the last one is still being counted.
  function Pushed(r: seq<nat>, n: nat): (p: seq<nat>)
    requires |r| > 0
    ensures |p| == |r| - 1
  {
    WithLeadingBorder(r, n)[..|r| - 1]
  }

  lemma PushLast(r: seq<nat>, n: nat)
    requires |r| > 0
    ensures WithLeadingBorder(r, n) == Pushed(r, n) + [r[|r| - 1] + if Pushed(r, n) == [] then n else 0]
  {
  }

  lemma PushedGrow(r: seq<nat>, n: nat, m: nat)
    requires |r| > 0
    ensures Pushed(r[|r| - 1 := m], n) == Pushed(r, n)
  {
  }

  lemma PushedNew(r: seq<nat>, n: nat, m: nat)
    requires |r| > 0
    ensures Pushed(r + [m], n) == WithLeadingBorder(r, n)
  {
  }

  lemma RunScoreGrow(r: seq<nat>)
    requires |r| > 0
    ensures var m := r[|r| - 1] + 1;
            RunScore(r[|r| - 1 := m]) == RunScore(r) + if m == 5 then PENALTY_N1 else if m > 5 then 1 else 0
  {
    assert r[|r| - 1 := r[|r| - 1] + 1][..|r| - 1] == r[..|r| - 1];
  }

  lemma RunScoreNew(r: seq<nat>)
    ensures RunScore(r + [1]) == RunScore(r)
  {
    assert (r + [1])[..|r|] == r;
  }

  lemma FinderCountDark(p: seq<nat>)
    requires |p| > 0 && |p| % 2 == 0
    ensures FinderCount(p) == FinderCount(p[..|p| - 1])
  {
  }

  // What the scan knows after the first modules of a line, whose runs are r.
  ghost predicate Scanned(line: Line, n: nat, color: bool, length: nat, h: seq<nat>, score: nat) {
    var r := RunsOf(line);
    color == LastDark(r) && length == r[|r| - 1] && IsHistory(h, Pushed(r, n)) &&
    score == RunScore(r) + FinderCount(Pushed(r, n)) * PENALTY_N3
  }

  lemma StartOfLine(n: nat, h: seq<nat>)
    requires h == [0, 0, 0, 0, 0, 0, 0]
    ensures Scanned([], n, false, 0, h, 0)
  {
  }

  // Every run pushed has some modules, and with the border after the line they total three lines.
  lemma PushedPositive(line: Line, n: nat)
    requires n > 0
    ensures var p := WithLeadingBorder(RunsOf(line), n); forall i | 0 <= i < |p| :: p[i] > 0
    ensures var q := Pushed(RunsOf(line), n); forall i | 0 <= i < |q| :: q[i] > 0
    ensures Sum(WithLeadingBorder(RunsOf(line), n)) == n + |line|
  {
    hide Expand, Sum, RunsOf;
    var r := RunsOf(line);
    RunsOfAreMaximal(line);
    ExpandLeading(r, n);
    SumOfRuns(WithLeadingBorder(r, n));
  }

  lemma SameColor(line: Line, b: bool, n: nat, h: seq<nat>, length: nat, score: nat)
    requires Scanned(line, n, b, length, h, score)
    ensures Scanned(line + [b], n, b, length + 1, h,
                    score + if length + 1 == 5 then PENALTY_N1 else if length + 1 > 5 then 1 else 0)
  {
    hide RunsOf, FinderCount, RunScore, Pushed;
    var r := RunsOf(line);
    RunsOfAppend(line, b);
    RunScoreGrow(r);
    PushedGrow(r, n, r[|r| - 1] + 1);
  }

  lemma OtherColor(line: Line, b: bool, n: nat, h: seq<nat>, h': seq<nat>, length: nat, score: nat, count: nat)
    requires Scanned(line, n, !b, length, h, score)
    requires IsHistory(h', WithLeadingBorder(RunsOf(line), n))
    requires b ==> FinderCount(WithLeadingBorder(RunsOf(line), n)) == FinderCount(Pushed(RunsOf(line), n)) + count
    ensures Scanned(line + [b], n, b, 1, h', score + if b then count * PENALTY_N3 else 0)
  {
    hide RunsOf, FinderCount, RunScore, WithLeadingBorder, IsHistory;
    var r := RunsOf(line);
    RunsOfAppend(line, b);
    RunScoreNew(r);
    PushedNew(r, n, 1);
    if !b {
      FinderCountDark(WithLeadingBorder(r, n));
    }
  }

  lemma HistoryCap(line: Line, n: nat, h: seq<nat>)
    requires 0 < n && |line| <= n && IsHistory(h, WithLeadingBorder(RunsOf(line), n))
    ensures h[1] <= n * 3
  {
    hide Sum, RunsOf, WithLeadingBorder;
    PushedPositive(line, n);
    HistoryBound(h, WithLeadingBorder(RunsOf(line), n), n * 3);
  }

  // After the line, a dark run is pushed, then the final light run with the border.
  lemma LineEnds(line: Line, n: nat, color: bool, length: nat, h: seq<nat>, score: nat, h': seq<nat>, count: nat)
    requires 0 < n && Scanned(line, n, color, length, h, score)
    requires var q := Bordered(RunsOf(line), n);
             IsHistory(h', q) && FinderCount(q) == FinderCount(q[..|q| - 1]) + count
    ensures score + count * PENALTY_N3 == LineScore(line, n)
  {
    hide RunsOf, FinderCount, RunScore, WithLeadingBorder, IsHistory;
    var r := RunsOf(line);
    var p := WithLeadingBorder(r, n);
    if LastDark(r) {
      FinderCountDark(p);
      assert Bordered(r, n)[..|p|] == p;
    } else {
      assert Bordered(r, n)[..|p| - 1] == p[..|p| - 1];
    }
  }

  lemma BorderedOdd(r: seq<nat>, n: nat)
    requires |r| > 0
    ensures |Bordered(r, n)| % 2 == 1
  {
  }

  lemma BorderedCap(line: Line, n: nat, h: seq<nat>)
    requires 0 < n && |line| == n && IsHistory(h, Bordered(RunsOf(line), n))
    ensures h[1] <= n * 3
  {
    hide Sum, RunsOf, Bordered;
    BorderedRuns(line, n);
    HistoryBound(h, Bordered(RunsOf(line), n), n * 3);
  }

  lemma BorderedPush(r: seq<nat>, n: nat)
    requires |r| > 0 && n > 0
    ensures var p := Pushed(r, n);
            Bordered(r, n) ==
            if LastDark(r) then WithLeadingBorder(r, n) + [n]
            else p + [r[|r| - 1] + n + if p == [] then n else 0]
  {
  }

  // Ends a line: returns the finder-like patterns that its last run completes.
  method TerminateAndCount(currentRunColor: bool, currentRunLength: nat, runHistory: array<nat>, qrsize: nat,
                           ghost line: Line, ghost score: nat)
      returns (count: nat)
    requires 0 < qrsize == |line| && runHistory.Length == 7
    requires Scanned(line, qrsize, currentRunColor, currentRunLength, runHistory[..], score)
    modifies runHistory
    ensures score + count * PENALTY_N3 == LineScore(line, qrsize)
  {
    hide RunsOf, FinderCount, RunScore, WithLeadingBorder, IsHistory, Bordered, Pushed, Sum, LineScore;
    var length := currentRunLength;
    ghost var r := RunsOf(line);
    ghost var h := runHistory[..];
    PushedPositive(line, qrsize);
    PushLast(r, qrsize);
    BorderedPush(r, qrsize);
    BorderedOdd(r, qrsize);
    ghost var q := Bordered(r, qrsize);
    if currentRunColor {
      AddHistory(length, runHistory, qrsize, Pushed(r, qrsize));
      length := 0;
    }
    length := length + qrsize;
    AddHistory(length, runHistory, qrsize, if currentRunColor then WithLeadingBorder(r, qrsize) else Pushed(r, qrsize));
    assert IsHistory(runHistory[..], q);
    BorderedCap(line, qrsize, runHistory[..]);
    CountIsNewPatterns(runHistory, qrsize, q);
    count := CountPatterns(runHistory, qrsize);
    LineEnds(line, qrsize, currentRunColor, currentRunLength, h, score, runHistory[..], count);
  }

  function LineModule(qrcode: array<Byte>, k: nat, i: nat, horizontal: bool): (dark: bool)
    requires IsSymbol(qrcode[..]) && k < SizeOf(qrcode[..]) && i < SizeOf(qrcode[..])
    reads qrcode
    ensures dark == LineOf(View(qrcode[..]), SizeOf(qrcode[..]), k, horizontal)[i]
  {
    if horizontal then GetModule(qrcode, i, k) else GetModule(qrcode, k, i)
  }

  // One row or column: long runs, and finder-like patterns.
  method ScanLine(qrcode: array<Byte>, k: nat, horizontal: bool) returns (result: nat)
    requires IsSymbol(qrcode[..]) && k < SizeOf(qrcode[..])
    ensures result == LineScore(LineOf(View(qrcode[..]), SizeOf(qrcode[..]), k, horizontal), SizeOf(qrcode[..]))
  {
    hide RunsOf, FinderCount, RunScore, WithLeadingBorder, IsHistory, Bordered, Pushed, Sum, LineScore, LineOf, View,
      Value, Scanned, CountPatterns;
    var qrsize := Value(qrcode[0]);
    ghost var line := LineOf(View(qrcode[..]), qrsize, k, horizontal);
    result := 0;
    var runColor, run := false, 0;
    var runHistory := new nat[7](_ => 0);
    StartOfLine(qrsize, runHistory[..]);
    assert line[..0] == [];
    for i := 0 to qrsize
      invariant Scanned(line[..i], qrsize, runColor, run, runHistory[..], result)
    {
      assert line[..i + 1] == line[..i] + [line[i]];
      ghost var h := runHistory[..];
      if LineModule(qrcode, k, i, horizontal) == runColor {
        SameColor(line[..i], runColor, qrsize, h, run, result);
        run := run + 1;
        if run == 5 {
          result := result + PENALTY_N1;
        } else if run > 5 {
          result := result + 1;
        }
      } else {
        ghost var r := RunsOf(line[..i]);
        CurrentRun(line[..i], qrsize, runColor, run, h, result);
        AddHistory(run, runHistory, qrsize, Pushed(r, qrsize));
        HistoryCap(line[..i], qrsize, runHistory[..]);
        ghost var count, before := CountPatterns(runHistory, qrsize), result;
        if !runColor {
          CountIsNewPatterns(runHistory, qrsize, WithLeadingBorder(r, qrsize));
          result := result + CountPatterns(runHistory, qrsize) * PENALTY_N3;
        }
        OtherColor(line[..i], !runColor, qrsize, h, runHistory[..], run, before, count);
        runColor := LineModule(qrcode, k, i, horizontal);
        run := 1;
      }
    }
    assert line[..qrsize] == line;
    var count := TerminateAndCount(runColor, run, runHistory, qrsize, line, result);
    result := result + count * PENALTY_N3;
  }

  lemma CurrentRun(line: Line, n: nat, color: bool, length: nat, h: seq<nat>, score: nat)
    requires 0 < n && Scanned(line, n, color, length, h, score)
    ensures var r := RunsOf(line);
            var p := Pushed(r, n);
            IsHistory(h, p) && (forall i | 0 <= i < |p| :: p[i] > 0) &&
            WithLeadingBorder(r, n) == p + [length + if p == [] then n else 0] &&
            WithLeadingBorder(r, n)[..|r| - 1] == p &&
            color == LastDark(r)
  {
    hide Sum, RunsOf, WithLeadingBorder, IsHistory, FinderCount, RunScore;
    PushedPositive(line, n);
    PushLast(RunsOf(line), n);
  }

  // ----- counting cells in row order -----

  // The cells of s that a scan has met when it reaches (x, y).
  ghost function Before(s: set<(nat, nat)>, x: nat, y: nat): set<(nat, nat)> {
    set c | c in s && (c.1 < y || (c.1 == y && c.0 < x))
  }

  lemma BeforeNext(s: set<(nat, nat)>, x: nat, y: nat)
    ensures |Before(s, x + 1, y)| == |Before(s, x, y)| + if (x, y) in s then 1 else 0
  {
    if (x, y) in s {
      assert Before(s, x + 1, y) == Before(s, x, y) + {(x, y)};
    } else {
      assert Before(s, x + 1, y) == Before(s, x, y);
    }
  }

  lemma BeforeRow(s: set<(nat, nat)>, n: nat, y: nat)
    requires forall c | c in s :: c.0 < n
    ensures |Before(s, n, y)| == |Before(s, 0, y + 1)|
  {
    assert Before(s, n, y) == Before(s, 0, y + 1);
  }

  lemma BeforeEnds(s: set<(nat, nat)>, m: nat)
    requires forall c | c in s :: c.1 < m
    ensures |Before(s, 0, 0)| == 0 && |Before(s, 0, m)| == |s|
  {
    assert Before(s, 0, 0) == {};
    assert Before(s, 0, m) == s;
  }

  lemma UniformBlocksIn(g: Grid, n: nat)
    requires Square(g, n)
    ensures forall c | c in UniformBlocks(g, n) :: c.0 < n - 1 && c.1 < n - 1
  {
  }

  lemma IsUniformBlock(g: Grid, n: nat, x: nat, y: nat)
    requires Square(g, n) && x < n - 1 && y < n - 1
    ensures (x, y) in UniformBlocks(g, n) <==> Uniform(g, n, x, y)
  {
  }

  lemma DarkModulesIn(g: Grid, n: nat)
    requires Square(g, n)
    ensures forall c | c in DarkModules(g, n) :: c.0 < n && c.1 < n
  {
  }

  lemma IsDarkModule(g: Grid, n: nat, x: nat, y: nat)
    requires Square(g, n) && x < n && y < n
    ensures (x, y) in DarkModules(g, n) <==> g[y][x]
  {
  }

  function IsUniform(qrcode: array<Byte>, x: nat, y: nat): (uniform: bool)
    requires IsSymbol(qrcode[..]) && x < SizeOf(qrcode[..]) - 1 && y < SizeOf(qrcode[..]) - 1
    reads qrcode
    ensures uniform == Uniform(View(qrcode[..]), SizeOf(qrcode[..]), x, y)
  {
    hide View, Value;
    var color := GetModule(qrcode, x, y);
    color == GetModule(qrcode, x + 1, y) && color == GetModule(qrcode, x, y + 1) &&
    color == GetModule(qrcode, x + 1, y + 1)
  }

  // 2*2 blocks of modules having same color.
  method CountUniformBlocks(qrcode: array<Byte>) returns (count: nat)
    requires IsSymbol(qrcode[..])
    ensures count == |UniformBlocks(View(qrcode[..]), SizeOf(qrcode[..]))|
  {
    hide View, Value, UniformBlocks, Before, Uniform;
    var qrsize := Value(qrcode[0]);
    ghost var g := View(qrcode[..]);
    ghost var s := UniformBlocks(g, qrsize);
    count := 0;
    UniformBlocksIn(g, qrsize);
    BeforeEnds(s, qrsize - 1);
    for y := 0 to qrsize - 1
      invariant count == |Before(s, 0, y)|
    {
      for x := 0 to qrsize - 1
        invariant count == |Before(s, x, y)|
      {
        BeforeNext(s, x, y);
        IsUniformBlock(g, qrsize, x, y);
        if IsUniform(qrcode, x, y) {
          count := count + 1;
        }
      }
      BeforeRow(s, qrsize - 1, y);
    }
  }

  method CountDarkModules(qrcode: array<Byte>) returns (dark: nat)
    requires IsSymbol(qrcode[..])
    ensures dark == |DarkModules(View(qrcode[..]), SizeOf(qrcode[..]))|
  {
    hide View, Value, DarkModules, Before;
    var qrsize := Value(qrcode[0]);
    ghost var g := View(qrcode[..]);
    ghost var s := DarkModules(g, qrsize);
    dark := 0;
    DarkModulesIn(g, qrsize);
    BeforeEnds(s, qrsize);
    for y := 0 to qrsize
      invariant dark == |Before(s, 0, y)|
    {
      for x := 0 to qrsize
        invariant dark == |Before(s, x, y)|
      {
        BeforeNext(s, x, y);
        IsDarkModule(g, qrsize, x, y);
        if GetModule(qrcode, x, y) {
          dark := dark + 1;
        }
      }
      BeforeRow(s, qrsize, y);
    }
  }

  // The penalty score of the symbol's current modules.
  method GetPenaltyScore(qrcode: array<Byte>) returns (result: int)
    requires IsSymbol(qrcode[..])
    ensures result == Score(View(qrcode[..]), SizeOf(qrcode[..]))
  {
    hide View, Value, DarkModules, UniformBlocks, LineScore, LineOf, Imbalance;
    var qrsize := Value(qrcode[0]);
    ghost var g := View(qrcode[..]);
    result := 0;
    for y := 0 to qrsize
      invariant result == LinesScore(g, qrsize, y, true)
    {
      var line := ScanLine(qrcode, y, true);
      result := result + line;
    }
    for x := 0 to qrsize
      invariant result == LinesScore(g, qrsize, qrsize, true) + LinesScore(g, qrsize, x, false)
    {
      var line := ScanLine(qrcode, x, false);
      result := result + line;
    }
    var blocks := CountUniformBlocks(qrcode);
    result := result + blocks * PENALTY_N2;
    var dark := CountDarkModules(qrcode);
    var k := Imbalance(dark, qrsize * qrsize);
    result := result + k * PENALTY_N4;
  }

  // ----- the score of a whole symbol is small -----

  lemma {:induction false} RunScoreBound(r: seq<nat>)
    ensures RunScore(r) <= Sum(r)
  {
    if r != [] {
      RunScoreBound(r[..|r| - 1]);
    }
  }

  lemma {:induction false} FinderCountBound(p: seq<nat>)
    ensures FinderCount(p) <= 2 * |p|
  {
    if p != [] {
      FinderCountBound(p[..|p| - 1]);
      hide PatternsIn;
    }
  }

  lemma {:induction false} RunsBound(line: Line)
    ensures |RunsOf(line)| <= |line| + 1
  {
    if line != [] {
      RunsBound(line[..|line| - 1]);
    }
  }

  lemma LineScoreBound(line: Line, n: nat)
    requires |line| == n > 0
    ensures LineScore(line, n) <= 81 * n + 160
    ensures n <= 177 ==> LineScore(line, n) <= 14497
  {
    hide FinderCount, RunScore, RunsOf, Expand, Sum;
    var r := RunsOf(line);
    RunsOfAreMaximal(line);
    SumOfRuns(r);
    RunScoreBound(r);
    FinderCountBound(Bordered(r, n));
    RunsBound(line);
  }

  lemma {:induction false} LinesScoreBound(g: Grid, n: nat, count: nat, horizontal: bool)
    requires Square(g, n) && 0 < n <= 177 && count <= n
    ensures LinesScore(g, n, count, horizontal) <= 14497 * count
  {
    hide Square, LineScore, LineOf;
    if count > 0 {
      LinesScoreBound(g, n, count - 1, horizontal);
      LineScoreBound(LineOf(g, n, count - 1, horizontal), n);
      LinesScoreNext(g, n, count - 1, horizontal);
    }
  }

  lemma LinesScoreNext(g: Grid, n: nat, k: nat, horizontal: bool)
    requires Square(g, n) && k < n
    ensures LinesScore(g, n, k + 1, horizontal) ==
            LinesScore(g, n, k, horizontal) + LineScore(LineOf(g, n, k, horizontal), n)
  {
    hide LineOf, LineScore;
  }

  lemma {:induction false} BeforeBound(s: set<(nat, nat)>, n: nat, x: nat, y: nat)
    requires x <= n && forall c | c in s :: c.0 < n
    ensures |Before(s, x, y)| <= n * y + x
    decreases y, x
  {
    hide Before;
    if x > 0 {
      BeforeNext(s, x - 1, y);
      BeforeBound(s, n, x - 1, y);
    } else if y > 0 {
      BeforeRow(s, n, y - 1);
      BeforeBound(s, n, n, y - 1);
      TimesNext(n, y - 1);
    } else {
      AtTheStart(s);
    }
  }

  lemma AtTheStart(s: set<(nat, nat)>)
    ensures Before(s, 0, 0) == {}
  {
  }

  lemma CellsBound(s: set<(nat, nat)>, n: nat)
    requires forall c | c in s :: c.0 < n && c.1 < n
    ensures |s| <= n * n
  {
    BeforeEnds(s, n);
    BeforeBound(s, n, 0, n);
  }

  lemma CellCounts(g: Grid, n: nat)
    requires Square(g, n) && n <= 177
    ensures |UniformBlocks(g, n)| <= n * n && |DarkModules(g, n)| <= n * n <= 31329
  {
    UniformBlocksIn(g, n);
    DarkModulesIn(g, n);
    hide UniformBlocks, DarkModules;
    CellsBound(UniformBlocks(g, n), n);
    CellsBound(DarkModules(g, n), n);
    TimesMonotone(n, n, 177);
  }

  // The score of any symbol fits in 32 bits, so it is below the starting value of the mask search.
  lemma ScoreBound(g: Grid, n: nat)
    requires Square(g, n) && 21 <= n <= 177 && n % 2 == 1
    ensures 0 <= Score(g, n) < 0x7FFF_FFFF
  {
    hide LinesScore, UniformBlocks, DarkModules, Imbalance;
    LinesScoreBound(g, n, n, true);
    LinesScoreBound(g, n, n, false);
    CellCounts(g, n);
    OddSquare(n);
    ImbalanceIsLeast(|DarkModules(g, n)|, n * n);
  }

  lemma OddSquare(n: nat)
    requires n % 2 == 1
    ensures n * n % 2 == 1
  {
    var h := n / 2;
    assert n * n == 2 * (2 * h * h + 2 * h) + 1;
  }
}
