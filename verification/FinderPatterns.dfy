// What the line scores count, read off the modules rather than the runs.
module FinderPatterns {
  import opened Runs

  // k modules of one colour from the given place on.
  predicate Reads(line: Line, from: int, k: nat, dark: bool) {
    0 <= from && from + k <= |line| && forall i | from <= i < from + k :: line[i] == dark
  }

  // dark 1 : light 1 : dark 3 : light 1 : dark 1 from p on, in units of u modules.
  predicate CoreAt(line: Line, p: nat, u: nat) {
    u >= 1 && Reads(line, p, u, true) && Reads(line, p + u, u, false) && Reads(line, p + 2 * u, 3 * u, true) &&
    Reads(line, p + 5 * u, u, false) && Reads(line, p + 6 * u, u, true)
  }

  // A finder-like pattern: a core with four light units after it and one before, or the other way round.
  predicate FinderAt(line: Line, p: nat, u: nat, after: bool) {
    CoreAt(line, p, u) &&
    if after then Reads(line, p - u, u, false) && Reads(line, p + 7 * u, 4 * u, false)
    else Reads(line, p - 4 * u, 4 * u, false) && Reads(line, p + 7 * u, u, false)
  }

  ghost function Finders(line: Line): set<(nat, nat, bool)> {
    set p: nat, u: nat, after: bool | p < |line| && u <= |line| && FinderAt(line, p, u, after) :: (p, u, after)
  }

  // ----- where runs begin -----

  function Start(r: seq<nat>, i: nat): nat
    requires i <= |r|
  {
    if i == 0 then 0 else Start(r, i - 1) + r[i - 1]
  }

  lemma {:induction false} ExpandPrefix(r: seq<nat>, i: nat)
    requires i <= |r|
    ensures |Expand(r[..i])| == Start(r, i) <= |Expand(r)| && Expand(r)[..Start(r, i)] == Expand(r[..i])
    decreases |r| - i, i
  {
    if i == |r| {
      assert r[..i] == r;
      StartIsLength(r, i);
    } else {
      ExpandPrefix(r, i + 1);
      StartIsLength(r, i);
      assert r[..i + 1][..i] == r[..i];
      hide Stretch;
    }
  }

  lemma {:induction false} StartIsLength(r: seq<nat>, i: nat)
    requires i <= |r|
    ensures |Expand(r[..i])| == Start(r, i)
  {
    if i > 0 {
      StartIsLength(r, i - 1);
      assert r[..i][..i - 1] == r[..i - 1];
    }
  }

  // Runs alternate, and the first is light.
  predicate Dark(i: nat) {
    i % 2 == 1
  }

  lemma Alternating(i: nat)
    ensures Dark(i + 1) == !Dark(i) && (i > 0 ==> Dark(i - 1) == !Dark(i))
  {
  }

  lemma Parities(m: nat)
    requires !Dark(m)
    ensures m >= 1 ==> Dark(m - 1)
    ensures m >= 2 ==> !Dark(m - 2)
    ensures m >= 3 ==> Dark(m - 3)
    ensures m >= 4 ==> !Dark(m - 4)
    ensures m >= 5 ==> Dark(m - 5)
  {
  }

  // The modules of run i.
  lemma RunModules(r: seq<nat>, i: nat)
    requires i < |r|
    ensures Start(r, i + 1) == Start(r, i) + r[i] <= |Expand(r)|
    ensures forall j | Start(r, i) <= j < Start(r, i + 1) :: Expand(r)[j] == Dark(i)
  {
    ExpandPrefix(r, i + 1);
    ExpandPrefix(r, i);
    assert r[..i + 1][..i] == r[..i];
    hide Expand, Dark, Start;
    ExpandLast(r[..i + 1]);
    forall j | Start(r, i) <= j < Start(r, i + 1)
      ensures Expand(r)[j] == Dark(i)
    {
      assert Expand(r)[j] == Expand(r)[..Start(r, i + 1)][j];
    }
  }

  lemma ExpandLast(r: seq<nat>)
    requires r != []
    ensures Expand(r) == Expand(r[..|r| - 1]) + Stretch(r[|r| - 1], Dark(|r| - 1))
  {
    LastIsDark(r);
    hide Dark, LastDark, Stretch;
  }

  lemma LastIsDark(r: seq<nat>)
    requires r != []
    ensures LastDark(r) == Dark(|r| - 1)
  {
  }

  // ----- finding runs from modules -----

  lemma RunBefore(r: seq<nat>, i: nat)
    requires Maximal(r) && 0 < i < |r| && Start(r, i) > 0
    ensures Start(r, i) <= |Expand(r)| && Expand(r)[Start(r, i) - 1] == !Dark(i)
  {
    RunModules(r, i - 1);
    Alternating(i);
    hide Expand, Dark;
    if i == 1 {
      assert Start(r, 1) == r[0];
    }
  }

  // Modules of one colour that end at b, where run i ends, with another colour before them, are the run.
  lemma RunEnds(r: seq<nat>, i: nat, b: nat, k: nat, dark: bool)
    requires Maximal(r) && i < |r| && b == Start(r, i + 1) && dark == Dark(i)
    requires 1 <= k < b <= |Expand(r)| && Reads(Expand(r), b - k, k, dark) && Expand(r)[b - k - 1] == !dark
    ensures r[i] == k && Start(r, i) == b - k && i > 0
  {
    assert Start(r, 0) == 0;
    RunModules(r, i);
    if 0 < i && Start(r, i) > 0 {
      RunBefore(r, i);
    }
    hide Expand, Dark, Start;
  }

  // The light modules before run i: as many as the run before it has, if it is a light one.
  lemma LeadIff(r: seq<nat>, i: nat, k: nat)
    requires Maximal(r) && 0 < i < |r| && Dark(i) && k >= 1
    ensures Reads(Expand(r), Start(r, i) - k, k, false) <==> r[i - 1] >= k
  {
    RunModules(r, i - 1);
    Alternating(i);
    assert Start(r, 0) == 0;
    if i > 1 && Start(r, i - 1) > 0 {
      RunBefore(r, i - 1);
    }
    hide Expand, Dark, Start, Maximal;
  }

  // The light modules from run i on.
  lemma TrailIff(r: seq<nat>, i: nat, k: nat)
    requires Maximal(r) && i < |r| && !Dark(i) && k >= 1
    ensures Reads(Expand(r), Start(r, i), k, false) <==> r[i] >= k
  {
    RunModules(r, i);
    AllRuns(r);
    Alternating(i);
    hide Expand, Start, Dark;
    if r[i] < k {
      if i + 1 < |r| {
        RunModules(r, i + 1);
        assert Expand(r)[Start(r, i + 1)];
      }
    }
  }

  lemma AllRuns(r: seq<nat>)
    ensures Start(r, |r|) == |Expand(r)|
  {
    StartIsLength(r, |r|);
    assert r[..|r|] == r;
  }

  // The runs of a pattern: m is the light run after its core.
  ghost predicate CoreRuns(r: seq<nat>, m: nat, u: nat) {
    6 <= m < |r| && !Dark(m) && u >= 1 &&
    r[m - 1] == u && r[m - 2] == u && r[m - 3] == 3 * u && r[m - 4] == u && r[m - 5] == u
  }

  lemma CoreStarts(r: seq<nat>, m: nat, u: nat)
    requires CoreRuns(r, m, u)
    ensures Start(r, m - 4) == Start(r, m - 5) + u && Start(r, m - 3) == Start(r, m - 5) + 2 * u
    ensures Start(r, m - 2) == Start(r, m - 5) + 5 * u && Start(r, m - 1) == Start(r, m - 5) + 6 * u
    ensures Start(r, m) == Start(r, m - 5) + 7 * u
  {
  }

  lemma CoreFromRuns(r: seq<nat>, m: nat, u: nat)
    requires CoreRuns(r, m, u)
    ensures Start(r, m) == Start(r, m - 5) + 7 * u && CoreAt(Expand(r), Start(r, m - 5), u)
  {
    CoreStarts(r, m, u);
    Parities(m);
    RunModules(r, m - 5);
    RunModules(r, m - 4);
    RunModules(r, m - 3);
    RunModules(r, m - 2);
    RunModules(r, m - 1);
    hide Expand, Start, Dark;
  }

  lemma LastHalf(r: seq<nat>, m: nat, p: nat, u: nat)
    requires Maximal(r) && m < |r| && !Dark(m) && Start(r, m) == p + 7 * u && CoreAt(Expand(r), p, u)
    ensures m > 3 && r[m - 1] == u && r[m - 2] == u && r[m - 3] == 3 * u && Start(r, m - 3) == p + 2 * u
  {
    ExpandPrefix(r, m);
    LastRead(Expand(r), p + u, u, false);
    LastRead(Expand(r), p + 2 * u, 3 * u, true);
    LastRead(Expand(r), p + 5 * u, u, false);
    assert m > 0;
    Parities(m);
    hide Expand, Reads, Maximal, Start, Dark;
    RunEnds(r, m - 1, p + 7 * u, u, true);
    RunEnds(r, m - 2, p + 6 * u, u, false);
    RunEnds(r, m - 3, p + 5 * u, 3 * u, true);
  }

  // A core that is followed and preceded by light modules consists of runs.
  lemma RunsFromCore(r: seq<nat>, m: nat, p: nat, u: nat)
    requires Maximal(r) && m < |r| && !Dark(m) && Start(r, m) == p + 7 * u && CoreAt(Expand(r), p, u)
    requires p >= 1 && !Expand(r)[p - 1]
    ensures CoreRuns(r, m, u) && p == Start(r, m - 5)
  {
    LastHalf(r, m, p, u);
    Parities(m);
    ExpandPrefix(r, m - 3);
    LastRead(Expand(r), p, u, true);
    hide Expand, Reads, Maximal, Start, Dark;
    RunEnds(r, m - 4, p + 2 * u, u, false);
    RunEnds(r, m - 5, p + u, u, true);
  }

  lemma LastRead(line: Line, from: nat, k: nat, dark: bool)
    requires Reads(line, from, k, dark) && k >= 1
    ensures from + k <= |line| && line[from + k - 1] == dark
  {
  }

  // ----- counting -----

  // The patterns whose core ends before run m begins.
  ghost function FindersBefore(r: seq<nat>, m: nat): set<(nat, nat, bool)>
    requires m <= |r|
  {
    set f | f in Finders(Expand(r)) && f.0 + 7 * f.1 < Start(r, m)
  }

  // The patterns whose core ends where run m begins.
  ghost function FindersUpTo(r: seq<nat>, m: nat): set<(nat, nat, bool)>
    requires m < |r|
  {
    if m < 6 || Dark(m) then {}
    else
      (if CoreRuns(r, m, r[m - 1]) && r[m] >= 4 * r[m - 1] && r[m - 6] >= r[m - 1]
       then {(Start(r, m - 5), r[m - 1], true)} else {}) +
      (if CoreRuns(r, m, r[m - 1]) && r[m - 6] >= 4 * r[m - 1] && r[m] >= r[m - 1]
       then {(Start(r, m - 5), r[m - 1], false)} else {})
  }

  lemma FindersUpToCount(r: seq<nat>, m: nat)
    requires m < |r|
    ensures |FindersUpTo(r, m)| == FinderCount(r[..m + 1]) - FinderCount(r[..m])
  {
    assert r[..m + 1][..m] == r[..m];
    if m >= 6 {
      var w := r[..m + 1][m - 6..];
      assert w[0] == r[m - 6] && w[1] == r[m - 5] && w[2] == r[m - 4] && w[3] == r[m - 3] && w[4] == r[m - 2] &&
             w[5] == r[m - 1] && w[6] == r[m];
    }
    hide Start;
  }

  lemma FinderFromRuns(r: seq<nat>, m: nat, u: nat, after: bool)
    requires Maximal(r) && CoreRuns(r, m, u)
    requires if after then r[m] >= 4 * u && r[m - 6] >= u else r[m - 6] >= 4 * u && r[m] >= u
    ensures FinderAt(Expand(r), Start(r, m - 5), u, after) && Start(r, m) == Start(r, m - 5) + 7 * u
  {
    Parities(m);
    CoreFromRuns(r, m, u);
    LeadIff(r, m - 5, if after then u else 4 * u);
    TrailIff(r, m, if after then 4 * u else u);
    hide Expand, Start, Dark, CoreAt, Reads;
  }

  lemma RunsFromFinder(r: seq<nat>, m: nat, p: nat, u: nat, after: bool)
    requires Maximal(r) && m < |r| && FinderAt(Expand(r), p, u, after) && Start(r, m) <= p + 7 * u < Start(r, m + 1)
    ensures (p, u, after) in FindersUpTo(r, m)
  {
    FinderEndsLight(r, m, p, u, after);
    Parities(m);
    RunsFromCore(r, m, p, u);
    LeadIff(r, m - 5, if after then u else 4 * u);
    TrailIff(r, m, if after then 4 * u else u);
    hide Expand, Start, Dark, CoreAt, Reads;
  }

  // A pattern's core is followed by a new light run, and a light module comes before it.
  lemma FinderEndsLight(r: seq<nat>, m: nat, p: nat, u: nat, after: bool)
    requires Maximal(r) && m < |r| && FinderAt(Expand(r), p, u, after) && Start(r, m) <= p + 7 * u < Start(r, m + 1)
    ensures !Dark(m) && Start(r, m) == p + 7 * u && p >= 1 && p <= |Expand(r)| && !Expand(r)[p - 1]
  {
    RunModules(r, m);
    LastRead(Expand(r), p + 6 * u, u, true);
    hide Expand, Start, Dark;
    assert !Expand(r)[p + 7 * u];
    assert Expand(r)[p + 7 * u - 1];
    LastRead(Expand(r), p - (if after then u else 4 * u), if after then u else 4 * u, false);
  }

  // One more run completes just these patterns.
  lemma FindersNext(r: seq<nat>, m: nat)
    requires Maximal(r) && m < |r|
    ensures FindersBefore(r, m + 1) == FindersBefore(r, m) + FindersUpTo(r, m)
    ensures FindersBefore(r, m) !! FindersUpTo(r, m)
  {
    RunModules(r, m);
    forall p: nat, u: nat, after: bool | (p, u, after) in FindersUpTo(r, m)
      ensures FinderAt(Expand(r), p, u, after) && p + 7 * u == Start(r, m) && (p, u, after) in FindersBefore(r, m + 1)
    {
      FinderFromRuns(r, m, u, after);
      FindersIn(Expand(r), p, u, after);
      NextIsLater(r, m, u, after);
    }
    forall p: nat, u: nat, after: bool | (p, u, after) in FindersBefore(r, m + 1) - FindersBefore(r, m)
      ensures (p, u, after) in FindersUpTo(r, m)
    {
      RunsFromFinder(r, m, p, u, after);
    }
    hide Expand, Start, FinderAt, FindersUpTo;
  }

  lemma FindersIn(line: Line, p: nat, u: nat, after: bool)
    ensures FinderAt(line, p, u, after) <==> (p, u, after) in Finders(line)
  {
  }

  lemma NextIsLater(r: seq<nat>, m: nat, u: nat, after: bool)
    requires Maximal(r) && 6 <= m < |r|
    ensures Start(r, m) < Start(r, m + 1)
  {
  }

  lemma {:induction false} FindersCounted(r: seq<nat>, m: nat)
    requires Maximal(r) && m <= |r|
    ensures |FindersBefore(r, m)| == FinderCount(r[..m])
  {
    hide Expand, Finders, FinderCount, FindersUpTo;
    if m == 0 {
      NoFinders(r);
    } else {
      FindersCounted(r, m - 1);
      FindersNext(r, m - 1);
      FindersUpToCount(r, m - 1);
    }
  }

  lemma NoFinders(r: seq<nat>)
    ensures FindersBefore(r, 0) == {} && FinderCount(r[..0]) == 0
  {
    assert r[..0] == [];
  }

  lemma AllFinders(r: seq<nat>)
    ensures FindersBefore(r, |r|) == Finders(Expand(r))
  {
    AllRuns(r);
    hide Expand, Start;
  }

  // The number counted from runs is the number of finder-like patterns on the line between light borders.
  lemma FindersOfLine(line: Line, n: nat)
    requires n > 0
    ensures FinderCount(Bordered(RunsOf(line), n)) == |Finders(Stretch(n, false) + line + Stretch(n, false))|
  {
    hide RunsOf, Expand, FinderCount, Finders, FindersBefore, Bordered;
    var full := Stretch(n, false) + line + Stretch(n, false);
    var r := RunsOf(full);
    BorderedRuns(line, n);
    RunsOfAreMaximal(full);
    FindersCounted(r, |r|);
    AllFinders(r);
    assert r[..|r|] == r;
  }
}
