// What the scores count, read off the modules, with the weights written out.
module LineScores {
  import opened Grids
  import opened Runs
  import opened FinderPatterns
  import opened Penalty

  // Five modules of one colour from i on.
  predicate Five(line: Line, i: nat) {
    i + 5 <= |line| && forall j | i <= j < i + 5 :: line[j] == line[i]
  }

  // Five modules of one colour that nothing of that colour comes before.
  predicate NewFive(line: Line, i: nat) {
    Five(line, i) && (i == 0 || line[i - 1] != line[i])
  }

  ghost function Fives(line: Line): set<nat> {
    set i: nat | i < |line| && Five(line, i)
  }

  ghost function NewFives(line: Line): set<nat> {
    set i: nat | i < |line| && NewFive(line, i)
  }

  // The last run of a line: its length, and that it is maximal.
  lemma LastRun(line: Line)
    ensures var r := RunsOf(line);
            var m, c := r[|r| - 1], LastDark(r);
            m <= |line| && (forall j | |line| - m <= j < |line| :: line[j] == c) &&
            (m < |line| ==> line[|line| - m - 1] == !c) && (m == 0 ==> line == [])
  {
    var r := RunsOf(line);
    RunsOfAreMaximal(line);
    RunModules(r, |r| - 1);
    AllRuns(r);
    LastIsDark(r);
    assert Start(r, 0) == 0;
    if |r| > 1 && Start(r, |r| - 1) > 0 {
      RunBefore(r, |r| - 1);
    }
    hide RunsOf, Expand, Start, LastDark, Dark;
  }

  lemma FiveAppend(line: Line, b: bool, m: nat, c: bool)
    requires m <= |line| && (forall j | |line| - m <= j < |line| :: line[j] == c)
    requires (m < |line| ==> line[|line| - m - 1] == !c) && (m == 0 ==> line == [])
    ensures var all, i := line + [b], |line| - 4;
            Fives(all) == Fives(line) + (if b == c && m >= 4 then {i} else {}) &&
            NewFives(all) == NewFives(line) + (if b == c && m == 4 then {i} else {})
  {
    var all, i := line + [b], |line| - 4;
    forall k: nat | k + 5 <= |line|
      ensures Five(all, k) <==> Five(line, k)
      ensures NewFive(all, k) <==> NewFive(line, k)
    {
      assert forall j | k <= j < k + 5 :: all[j] == line[j];
    }
    if i >= 0 {
      LastFive(line, b, m, c);
    }
    hide Five, NewFive;
    assert i < 0 ==> Fives(all) == {} by { NoFives(all); }
    FivesEnd(all);
    FivesEnd(line);
  }

  lemma FivesEnd(line: Line)
    ensures forall k: nat | k in Fives(line) :: k + 5 <= |line|
    ensures NewFives(line) <= Fives(line)
  {
  }

  lemma NoFives(line: Line)
    ensures |line| < 5 ==> Fives(line) == {}
  {
  }

  lemma LastFive(line: Line, b: bool, m: nat, c: bool)
    requires 4 <= |line| && m <= |line| && (forall j | |line| - m <= j < |line| :: line[j] == c)
    requires (m < |line| ==> line[|line| - m - 1] == !c) && m > 0
    ensures Five(line + [b], |line| - 4) <==> b == c && m >= 4
    ensures NewFive(line + [b], |line| - 4) <==> b == c && m == 4
  {
    var all, i := line + [b], |line| - 4;
    assert all[i] == line[i] && all[i + 4] == b && all[i + 3] == line[i + 3] == c;
    if m < 4 {
      assert all[|line| - m - 1] == !c;
    }
  }

  lemma RunScoreCounted(r: seq<nat>, b: bool)
    requires |r| > 0
    ensures var m := r[|r| - 1];
            RunScore(Counted(r, b)) == RunScore(r) + if b != LastDark(r) || m < 4 then 0 else if m == 4 then 3 else 1
  {
    RunScoreGrow(r);
    RunScoreNew(r);
    hide RunScore, LastDark;
  }

  lemma RunScoreStep(line: Line, b: bool)
    requires RunScore(RunsOf(line)) == |Fives(line)| + 2 * |NewFives(line)|
    ensures RunScore(RunsOf(line + [b])) == |Fives(line + [b])| + 2 * |NewFives(line + [b])|
  {
    var r := RunsOf(line);
    RunsOfAppend(line, b);
    LastRun(line);
    FiveAppend(line, b, r[|r| - 1], LastDark(r));
    FivesEnd(line);
    RunScoreCounted(r, b);
    hide RunsOf, RunScore, Fives, NewFives, LastDark, Counted;
  }

  // Long runs: one point for each five modules of one colour, and two more where such a run begins.
  lemma {:induction false} RunScoreMeans(line: Line)
    ensures RunScore(RunsOf(line)) == |Fives(line)| + 2 * |NewFives(line)|
  {
    hide RunsOf, RunScore, Fives, NewFives;
    if line == [] {
      NoScore();
    } else {
      var n := |line| - 1;
      RunScoreMeans(line[..n]);
      RunScoreStep(line[..n], line[n]);
      assert line == line[..n] + [line[n]];
    }
  }

  lemma NoScore()
    ensures RunScore(RunsOf([])) == 0 && Fives([]) == {} && NewFives([]) == {}
  {
    assert RunsOf([]) == [0];
    assert [0][..0] == [];
  }

  // ----- the whole score -----

  // One point for each five modules of one colour and two more where a run of five begins; forty for each finder-like
  // pattern between light borders.
  ghost function LineValue(line: Line): nat {
    |Fives(line)| + 2 * |NewFives(line)| + 40 * |Finders(Stretch(|line|, false) + line + Stretch(|line|, false))|
  }

  lemma LineScoreMeans(line: Line)
    requires line != []
    ensures LineScore(line, |line|) == LineValue(line)
  {
    RunScoreMeans(line);
    FindersOfLine(line, |line|);
    hide RunsOf, Bordered, FinderCount, Finders, Fives, NewFives;
  }

  // The first m rows and the first m columns.
  ghost function LinesValue(g: Grid, n: nat, m: nat): nat
    requires Square(g, n) && m <= n
  {
    if m == 0 then 0
    else LinesValue(g, n, m - 1) + LineValue(g[m - 1]) + LineValue(seq(n, y requires 0 <= y < n => g[y][m - 1]))
  }

  lemma {:induction false} LinesScoreMeans(g: Grid, n: nat, m: nat)
    requires Square(g, n) && m <= n
    ensures LinesScore(g, n, m, true) + LinesScore(g, n, m, false) == LinesValue(g, n, m)
  {
    hide LineScore, LineValue;
    if m > 0 {
      LinesScoreMeans(g, n, m - 1);
      LineScoreMeans(g[m - 1]);
      assert Column(g, n, m - 1) == seq(n, y requires 0 <= y < n => g[y][m - 1]);
      LineScoreMeans(Column(g, n, m - 1));
    }
  }

  // The share of dark modules lies within five percent times k of the band from 45 to 55 percent.
  predicate InBand(k: int, dark: int, total: int) {
    (45 - 5 * k) * total <= 100 * dark <= (55 + 5 * k) * total
  }

  // The blocks of two by two modules of one colour.
  ghost function Blocks(g: Grid, n: nat): set<(nat, nat)>
    requires Square(g, n)
  {
    set x: nat, y: nat | x < n - 1 && y < n - 1 && g[y][x] == g[y][x + 1] == g[y + 1][x] == g[y + 1][x + 1] :: (x, y)
  }

  lemma BlocksAreUniform(g: Grid, n: nat)
    requires Square(g, n)
    ensures UniformBlocks(g, n) == Blocks(g, n)
  {
  }

  ghost function DarkCells(g: Grid, n: nat): set<(nat, nat)>
    requires Square(g, n)
  {
    set x: nat, y: nat | x < n && y < n && g[y][x] :: (x, y)
  }

  lemma SameDark(g: Grid, n: nat)
    requires Square(g, n)
    ensures DarkModules(g, n) == DarkCells(g, n)
  {
  }

  // The score: the lines, three points for each block, and ten for each step by which the dark modules are off balance.
  lemma ScoreMeans(g: Grid, n: nat) returns (k: nat)
    requires Square(g, n) && n > 0 && n % 2 == 1
    ensures Score(g, n) == LinesValue(g, n, n) + 3 * |Blocks(g, n)| + 10 * k
    ensures k <= 9 && InBand(k, |DarkCells(g, n)|, n * n)
    ensures forall j | 0 <= j < k :: !InBand(j, |DarkCells(g, n)|, n * n)
  {
    hide *;
    OddSquare(n);
    LinesScoreMeans(g, n, n);
    BlocksAreUniform(g, n);
    DarkModulesIn(g, n);
    SameDark(g, n);
    CellsBound(DarkModules(g, n), n);
    ImbalanceIsLeast(|DarkModules(g, n)|, n * n);
    k := Imbalance(|DarkModules(g, n)|, n * n);
    BandIsBalance(|DarkModules(g, n)|, n * n);
    ScoreIs(g, n);
  }

  lemma ScoreIs(g: Grid, n: nat)
    requires Square(g, n) && n > 0
    ensures Score(g, n) == LinesScore(g, n, n, true) + LinesScore(g, n, n, false) + |UniformBlocks(g, n)| * 3 +
                           Imbalance(|DarkModules(g, n)|, n * n) * 10
  {
    hide LinesScore, UniformBlocks, Imbalance, DarkModules;
  }

  lemma BandIsBalance(dark: nat, total: nat)
    ensures forall k: int :: Balanced(dark, total, k) <==> InBand(k, dark, total)
  {
  }
}
