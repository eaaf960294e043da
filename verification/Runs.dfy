// Runs of equal modules along a line, and the scores that depend on them.
module Runs {

  // true for dark
  type Line = seq<bool>

  // ----- maximal runs -----

  // Whether the last of these runs is dark: runs alternate, and the first is light.
  predicate LastDark(r: seq<nat>) {
    |r| % 2 == 0
  }

  lemma LastDarkNew(r: seq<nat>, n: nat)
    ensures LastDark(r + [n]) == !LastDark(r)
  {
  }

  // Lengths of the maximal runs, alternating in colour from a light run that may be empty.
  function RunsOf(line: Line): (r: seq<nat>)
    ensures |r| > 0
  {
    if line == [] then [0]
    else
      Counted(RunsOf(line[..|line| - 1]), line[|line| - 1])
  }

  // n modules of one colour.
  function Stretch(n: nat, dark: bool): (s: Line)
    ensures |s| == n && forall k | 0 <= k < n :: s[k] == dark
  {
    seq(n, _ => dark)
  }

  // The line that a sequence of runs stands for.
  function Expand(r: seq<nat>): Line {
    if r == [] then [] else Expand(r[..|r| - 1]) + Stretch(r[|r| - 1], LastDark(r))
  }

  // Only the first run may be empty, so each run is maximal.
  ghost predicate Maximal(r: seq<nat>) {
    |r| > 0 && forall i | 1 <= i < |r| :: r[i] > 0
  }

  lemma ExpandGrow(r: seq<nat>, n: nat)
    requires |r| > 0
    ensures Expand(r[|r| - 1 := r[|r| - 1] + n]) == Expand(r) + Stretch(n, LastDark(r))
  {
    var r' := r[|r| - 1 := r[|r| - 1] + n];
    assert r'[..|r| - 1] == r[..|r| - 1];
    assert LastDark(r') == LastDark(r);
    assert Stretch(r[|r| - 1] + n, LastDark(r)) == Stretch(r[|r| - 1], LastDark(r)) + Stretch(n, LastDark(r));
  }

  lemma ExpandNew(r: seq<nat>, n: nat)
    ensures Expand(r + [n]) == Expand(r) + Stretch(n, !LastDark(r))
  {
    assert (r + [n])[..|r|] == r;
    LastDarkNew(r, n);
    hide LastDark;
  }

  lemma {:induction false} RunsOfAreMaximal(line: Line)
    ensures Maximal(RunsOf(line))
    ensures Expand(RunsOf(line)) == line
  {
    hide Expand, RunsOf, Counted, Maximal;
    if line == [] {
      NoLine();
    } else {
      var n := |line| - 1;
      RunsOfAreMaximal(line[..n]);
      RunsOfLast(line, line[..n], line[n]);
      CountedMeans(RunsOf(line[..n]), line[n]);
      assert line == line[..n] + [line[n]];
    }
  }

  lemma NoLine()
    ensures RunsOf([]) == [0] && Maximal([0]) && Expand([0]) == []
  {
  }

  lemma CountedMeans(r: seq<nat>, b: bool)
    requires Maximal(r)
    ensures Maximal(Counted(r, b)) && Expand(Counted(r, b)) == Expand(r) + [b]
  {
    ExpandGrow(r, 1);
    ExpandNew(r, 1);
    StretchOfOne(b);
    hide Expand, Stretch;
  }

  lemma RunsOfLast(all: Line, line: Line, b: bool)
    requires all != [] && all[..|all| - 1] == line && all[|all| - 1] == b
    ensures RunsOf(all) == Counted(RunsOf(line), b)
  {
    hide LastDark;
  }

  // The runs of a line with one more module.
  function Counted(r: seq<nat>, b: bool): (r': seq<nat>)
    requires |r| > 0
    ensures |r'| > 0
  {
    if b == LastDark(r) then r[|r| - 1 := r[|r| - 1] + 1] else r + [1]
  }

  lemma RunsOfAppend(line: Line, b: bool)
    ensures RunsOf(line + [b]) == Counted(RunsOf(line), b)
  {
    hide *;
    var all := line + [b];
    assert all[..|all| - 1] == line;
    RunsOfLast(all, line, b);
  }

  // The maximal runs of a line are unique.
  lemma {:induction false} RunsOfExpand(r: seq<nat>)
    requires Maximal(r)
    ensures RunsOf(Expand(r)) == r
    decreases |r|, if |r| > 0 then r[|r| - 1] else 0
  {
    hide Expand, RunsOf;
    var last := |r| - 1;
    StretchOfOne(LastDark(r));
    if |r| == 1 && r[0] == 0 {
      NoRuns();
      assert r == [0];
    } else if r[last] > 1 || |r| == 1 {
      var shorter := r[last := r[last] - 1];
      RunsOfExpand(shorter);
      ExpandGrow(shorter, 1);
      assert shorter[last := shorter[last] + 1] == r;
      RunsOfAppend(Expand(shorter), LastDark(r));
    } else {
      var shorter := r[..last];
      RunsOfExpand(shorter);
      ExpandNew(shorter, 1);
      LastDarkNew(shorter, 1);
      assert r == shorter + [1];
      RunsOfAppend(Expand(shorter), LastDark(r));
    }
  }

  lemma NoRuns()
    ensures RunsOf(Expand([0])) == [0]
  {
    assert Expand([0]) == [];
  }

  lemma StretchOfOne(dark: bool)
    ensures Stretch(1, dark) == [dark]
  {
  }

  function Sum(r: seq<nat>): nat {
    if r == [] then 0 else Sum(r[..|r| - 1]) + r[|r| - 1]
  }

  lemma {:induction false} SumOfRuns(r: seq<nat>)
    ensures Sum(r) == |Expand(r)|
  {
    if r != [] {
      SumOfRuns(r[..|r| - 1]);
    }
  }

  lemma {:induction false} SumBounds(r: seq<nat>, i: nat)
    requires i < |r|
    ensures r[i] <= Sum(r)
  {
    if i < |r| - 1 {
      SumBounds(r[..|r| - 1], i);
    }
  }

  // ----- five or more in a run -----

  function RunScore(r: seq<nat>): nat {
    if r == [] then 0
    else RunScore(r[..|r| - 1]) + if r[|r| - 1] >= 5 then r[|r| - 1] - 2 else 0
  }

  // ----- finder-like patterns -----

  // The runs so far, with the light border before the line.
  function WithLeadingBorder(r: seq<nat>, n: nat): (p: seq<nat>)
    ensures |p| == |r|
  {
    if r == [] then [] else r[0 := r[0] + n]
  }

  // The runs so far, with the light border after the line.
  function WithTrailingBorder(p: seq<nat>, n: nat): seq<nat>
    requires |p| > 0
  {
    if LastDark(p) then p + [n] else p[|p| - 1 := p[|p| - 1] + n]
  }

  // The runs of a line between light borders of n modules.
  function Bordered(r: seq<nat>, n: nat): (p: seq<nat>)
    requires |r| > 0
  {
    WithTrailingBorder(WithLeadingBorder(r, n), n)
  }

  // dark : light : dark : light : dark in the ratio 1 : 1 : 3 : 1 : 1, with light runs of at least
  // 4 units on one side and 1 unit on the other; counted once for each side that qualifies.
  function PatternsIn(w: seq<nat>): nat
    requires |w| == 7
  {
    var unit := w[5];
    var core := unit > 0 && w[4] == unit && w[3] == unit * 3 && w[2] == unit && w[1] == unit;
    (if core && w[6] >= unit * 4 && w[0] >= unit then 1 else 0) +
    (if core && w[0] >= unit * 4 && w[6] >= unit then 1 else 0)
  }

  // Patterns over all windows of seven runs that begin and end with a light run.
  function FinderCount(p: seq<nat>): nat {
    if p == [] then 0
    else FinderCount(p[..|p| - 1]) +
         if |p| >= 7 && |p| % 2 == 1 then PatternsIn(p[|p| - 7..]) else 0
  }

  lemma {:induction false} ExpandLeading(r: seq<nat>, n: nat)
    requires |r| > 0
    ensures Expand(WithLeadingBorder(r, n)) == Stretch(n, false) + Expand(r)
  {
    var p := WithLeadingBorder(r, n);
    if |r| == 1 {
      assert p[..0] == [] && r[..0] == [];
    } else {
      ExpandLeading(r[..|r| - 1], n);
      assert p[..|p| - 1] == WithLeadingBorder(r[..|r| - 1], n);
    }
  }

  lemma BorderedMaximal(r: seq<nat>, n: nat)
    requires Maximal(r) && n > 0
    ensures Maximal(Bordered(r, n))
  {
  }

  lemma ExpandTrailing(p: seq<nat>, n: nat)
    requires |p| > 0
    ensures Expand(WithTrailingBorder(p, n)) == Expand(p) + Stretch(n, false)
  {
    hide Expand, Stretch, LastDark;
    ExpandNew(p, n);
    ExpandGrow(p, n);
  }

  // The bordered runs are the maximal runs of the line with a light border on both sides.
  lemma BorderedRuns(line: Line, n: nat)
    requires n > 0
    ensures Bordered(RunsOf(line), n) == RunsOf(Stretch(n, false) + line + Stretch(n, false))
    ensures Sum(Bordered(RunsOf(line), n)) == |line| + 2 * n
  {
    hide Expand, RunsOf, Sum, WithLeadingBorder, WithTrailingBorder, Stretch, Maximal;
    RunsOfAreMaximal(line);
    ExpandLeading(RunsOf(line), n);
    ExpandTrailing(WithLeadingBorder(RunsOf(line), n), n);
    BorderedMaximal(RunsOf(line), n);
    RunsOfExpand(Bordered(RunsOf(line), n));
    SumOfRuns(Bordered(RunsOf(line), n));
  }

  const PENALTY_N1 := 3
  const PENALTY_N2 := 3
  const PENALTY_N3 := 40
  const PENALTY_N4 := 10

  function LineScore(line: Line, n: nat): nat {
    RunScore(RunsOf(line)) + FinderCount(Bordered(RunsOf(line), n)) * PENALTY_N3
  }
}
