// What the error correction codewords buy: blocks that differ stay more than `degree` codewords apart,
// so a block with at most degree/2 damaged codewords still determines its data.
module ErrorCorrection {
  import opened Bytes
  import opened Galois
  import opened ReedSolomon

  // A data block followed by its error correction codewords.
  function Codeword(data: Poly, degree: nat): (w: Poly)
    requires degree > 0
    ensures |w| == |data| + degree
  {
    data + Remainder(data, Generator(degree))
  }

  // Evaluates to zero at 2^0, ..., 2^(degree-1).
  ghost predicate Vanishes(w: Poly, degree: nat) {
    forall i: nat | i < degree :: Eval(w, Root(i)) == 0
  }

  lemma CodewordIsMultiple(data: Poly, degree: nat)
    requires degree > 0
    ensures exists q: Poly | |q| == |data| :: Product(q, Generator(degree)) == Codeword(data, degree)
    ensures Vanishes(Codeword(data, degree), degree)
  {
    hide Times, Root, Eval, Product, Remainder, Generator, Quotient;
    var g := Generator(degree);
    GeneratorMonic(degree);
    var q := Quotient(data, g);
    Division(data, g);
    forall i: nat | i < degree
      ensures Eval(Codeword(data, degree), Root(i)) == 0
    {
      EvalProduct(q, g, Root(i));
      GeneratorRoots(degree, i);
      TimesUnits(Eval(q, Root(i)));
    }
  }

  // ----- power sums with distinct locators -----

  function Pow(x: Byte, n: nat): Byte {
    if n == 0 then 1 else Times(Pow(x, n - 1), x)
  }

  // c[0]*x[0]^n + c[1]*x[1]^n + ...
  function PowerSum(c: Poly, x: Poly, n: nat): Byte
    requires |c| == |x|
  {
    if c == [] then 0
    else Plus(PowerSum(c[..|c| - 1], x[..|c| - 1], n), Times(c[|c| - 1], Pow(x[|c| - 1], n)))
  }

  ghost predicate Distinct(x: Poly) {
    forall j, k | 0 <= j < k < |x| :: x[j] != x[k]
  }

  // Each coefficient times the distance of its locator from y.
  function Deflate(c: Poly, x: Poly, y: Byte): (r: Poly)
    requires |c| == |x|
    ensures |r| == |c| && forall k | 0 <= k < |r| :: r[k] == Times(c[k], Plus(x[k], y))
  {
    seq(|c|, k requires 0 <= k < |c| => Times(c[k], Plus(x[k], y)))
  }

  lemma {:induction false} PowerSumDeflate(c: Poly, x: Poly, y: Byte, n: nat)
    requires |c| == |x|
    ensures PowerSum(Deflate(c, x, y), x, n) == Plus(PowerSum(c, x, n + 1), Times(PowerSum(c, x, n), y))
  {
    hide Times, Plus;
    if c == [] {
      TimesUnits(y);
      PlusSelf(0);
    } else {
      var m := |c| - 1;
      PowerSumDeflate(c[..m], x[..m], y, n);
      assert Deflate(c, x, y)[..m] == Deflate(c[..m], x[..m], y);
      DeflateTerm(c[m], x[m], y, n);
      var s, s' := PowerSum(c[..m], x[..m], n), PowerSum(c[..m], x[..m], n + 1);
      var t, t' := Times(c[m], Pow(x[m], n)), Times(c[m], Pow(x[m], n + 1));
      TimesPlus(y, s, t);
      PlusSwap(s', Times(s, y), t', Times(t, y));
    }
  }

  lemma DeflateTerm(c: Byte, x: Byte, y: Byte, n: nat)
    ensures Times(Times(c, Plus(x, y)), Pow(x, n)) == Plus(Times(c, Pow(x, n + 1)), Times(Times(c, Pow(x, n)), y))
  {
    hide Times, Plus;
    var p := Pow(x, n);
    TimesComm(Times(c, Plus(x, y)), p);
    TimesAssoc(p, c, Plus(x, y));
    TimesPlus(Times(p, c), x, y);
    TimesComm(p, c);
    TimesAssoc(c, p, x);
  }

  lemma {:induction false} PowerSumZeros(c: Poly, x: Poly, n: nat)
    requires |c| == |x| && forall k | 0 <= k < |c| :: c[k] == 0
    ensures PowerSum(c, x, n) == 0
  {
    hide Times, Plus;
    if c != [] {
      PowerSumZeros(c[..|c| - 1], x[..|c| - 1], n);
      TimesUnits(Pow(x[|c| - 1], n));
      PlusSelf(0);
    }
  }

  // A Vandermonde system has only the zero solution.
  lemma {:induction false} Vandermonde(c: Poly, x: Poly, degree: nat)
    requires |c| == |x| <= degree && Distinct(x)
    requires forall n: nat | n < degree :: PowerSum(c, x, n) == 0
    ensures forall k | 0 <= k < |c| :: c[k] == 0
    decreases |c|
  {
    hide Times, Plus;
    if c == [] {
    } else {
      var m := |c| - 1;
      var d := Deflate(c, x, x[m]);
      PlusSelf(x[m]);
      forall n: nat | n < degree - 1
        ensures PowerSum(d[..m], x[..m], n) == 0
      {
        PowerSumDeflate(c, x, x[m], n);
        assert PowerSum(c, x, n) == PowerSum(c, x, n + 1) == 0;
        TimesUnits(x[m]);
        PlusSelf(0);
        TimesUnits(c[m]);
        TimesUnits(Pow(x[m], n));
        PlusSelf(PowerSum(d[..m], x[..m], n));
      }
      Vandermonde(d[..m], x[..m], degree - 1);
      forall k | 0 <= k < m
        ensures c[k] == 0
      {
        assert d[..m][k] == Times(c[k], Plus(x[k], x[m]));
        NoZeroDivisors(c[k], Plus(x[k], x[m]));
        PlusCancel(x[k], x[m]);
      }
      PowerSumZeros(c[..m], x[..m], 0);
      TimesUnits(c[m]);
      PlusSelf(c[m]);
      assert PowerSum(c, x, 0) == 0;
    }
  }

  // ----- a word as a power sum over its nonzero coefficients -----

  function Coefficients(w: Poly, from: nat): (c: Poly)
    requires from <= |w|
    decreases |w| - from
  {
    if from == |w| then []
    else Coefficients(w, from + 1) + if w[from] == 0 then [] else [w[from]]
  }

  function Locators(w: Poly, from: nat): (x: Poly)
    requires from <= |w|
    ensures |x| == |Coefficients(w, from)|
    decreases |w| - from
  {
    if from == |w| then []
    else Locators(w, from + 1) + if w[from] == 0 then [] else [Root(|w| - 1 - from)]
  }

  ghost function Support(w: Poly, from: nat): set<nat> {
    set k: nat | from <= k < |w| && w[k] != 0
  }

  lemma {:induction false} CountCoefficients(w: Poly, from: nat)
    requires from <= |w|
    ensures |Coefficients(w, from)| == |Support(w, from)|
    ensures forall k | 0 <= k < |Coefficients(w, from)| :: Coefficients(w, from)[k] != 0
    decreases |w| - from
  {
    if from < |w| {
      CountCoefficients(w, from + 1);
      if w[from] == 0 {
        assert Support(w, from) == Support(w, from + 1);
      } else {
        assert Support(w, from) == Support(w, from + 1) + {from};
      }
    } else {
      assert Support(w, from) == {};
    }
  }

  lemma {:induction false} LocatorsDistinct(w: Poly, from: nat)
    requires from <= |w| <= 255
    ensures Distinct(Locators(w, from))
    ensures forall k | 0 <= k < |Locators(w, from)| ::
              exists e: nat :: e < |w| - from && Locators(w, from)[k] == Root(e)
    decreases |w| - from
  {
    hide Root;
    if from < |w| {
      LocatorsDistinct(w, from + 1);
      var x, y, n := Locators(w, from), Locators(w, from + 1), |w| - 1 - from;
      forall k | 0 <= k < |y|
        ensures y[k] != Root(n)
      {
        var e: nat :| e < n && y[k] == Root(e);
        RootsDistinct(e, n);
      }
      forall k | 0 <= k < |x|
        ensures exists e: nat :: e < |w| - from && x[k] == Root(e)
      {
        if k < |y| {
          var e: nat :| e < n && y[k] == Root(e);
          assert x[k] == Root(e);
        } else {
          assert x[k] == Root(n);
        }
      }
    }
  }

  lemma {:induction false} EvalFirst(w: Poly, x: Byte)
    requires w != []
    ensures Eval(w, x) == Plus(Eval(w[1..], x), Times(w[0], Pow(x, |w| - 1)))
  {
    hide Times, Plus;
    var n := |w| - 1;
    if n == 0 {
      TimesUnits(x);
      TimesUnits(w[0]);
      PlusComm(0, w[0]);
      assert w[..0] == [] && w[1..] == [];
    } else {
      EvalFirst(w[..n], x);
      assert w[..n][1..] == w[1..][..n - 1];
      var s, t := Eval(w[..n][1..], x), Times(w[0], Pow(x, n - 1));
      TimesPlus(x, s, t);
      TimesAssoc(w[0], Pow(x, n - 1), x);
      PlusAssoc(Times(s, x), Times(t, x), w[n]);
      PlusComm(Times(t, x), w[n]);
      PlusAssoc(Times(s, x), w[n], Times(t, x));
    }
  }

  lemma {:induction false} PowOfRoot(m: nat, n: nat)
    ensures Pow(Root(m), n) == Root(m * n)
  {
    hide Times, Root;
    if n == 0 {
      RootZero();
    } else {
      PowOfRoot(m, n - 1);
      RootSum(m * (n - 1), m);
      assert m * (n - 1) + m == m * n;
    }
  }

  lemma RootsCommute(m: nat, n: nat)
    ensures Pow(Root(m), n) == Pow(Root(n), m)
  {
    PowOfRoot(m, n);
    PowOfRoot(n, m);
    assert m * n == n * m;
  }

  lemma {:induction false} EvalIsPowerSum(w: Poly, from: nat, i: nat)
    requires from <= |w|
    ensures Eval(w[from..], Root(i)) == PowerSum(Coefficients(w, from), Locators(w, from), i)
    decreases |w| - from
  {
    hide Times, Plus, Root, Eval, Pow;
    if from < |w| {
      var n := |w| - 1 - from;
      EvalIsPowerSum(w, from + 1, i);
      EvalFirst(w[from..], Root(i));
      assert w[from..][1..] == w[from + 1..];
      RootsCommute(i, n);
      TimesUnits(Pow(Root(i), n));
      PlusSelf(Eval(w[from + 1..], Root(i)));
      var c, x := Coefficients(w, from), Locators(w, from);
      if w[from] != 0 {
        assert c[..|c| - 1] == Coefficients(w, from + 1) && x[..|x| - 1] == Locators(w, from + 1);
      } else {
        assert c == Coefficients(w, from + 1) && x == Locators(w, from + 1);
      }
    } else {
      assert Eval(w[from..], Root(i)) == 0 by { EvalNil(0, Root(i)); assert w[from..] == Nil(0); }
    }
  }

  // A vanishing word of length at most 255 with few nonzero coefficients is zero.
  lemma LightWordIsZero(w: Poly, degree: nat)
    requires |w| <= 255 && Vanishes(w, degree) && |Support(w, 0)| <= degree
    ensures forall k | 0 <= k < |w| :: w[k] == 0
  {
    hide Eval, PowerSum, Root, Coefficients, Locators;
    var c, x := Coefficients(w, 0), Locators(w, 0);
    CountCoefficients(w, 0);
    var first := if |c| > 0 then c[0] else 1;
    assert first != 0;
    LocatorsDistinct(w, 0);
    forall n: nat | n < degree
      ensures PowerSum(c, x, n) == 0
    {
      EvalIsPowerSum(w, 0, n);
      assert w[0..] == w;
    }
    Vandermonde(c, x, degree);
    assert |c| == 0;
    forall k: nat | k < |w|
      ensures w[k] == 0
    {
      assert k !in Support(w, 0);
    }
  }

  // ----- distance -----

  ghost function Differences(v: Poly, w: Poly): set<nat>
    requires |v| == |w|
  {
    set k: nat | k < |v| && v[k] != w[k]
  }

  ghost function Distance(v: Poly, w: Poly): nat
    requires |v| == |w|
  {
    |Differences(v, w)|
  }

  lemma DistanceTriangle(u: Poly, v: Poly, w: Poly)
    requires |u| == |v| == |w|
    ensures Distance(u, w) <= Distance(u, v) + Distance(w, v)
  {
    var s, t := Differences(u, v), Differences(w, v);
    assert Differences(u, w) <= s + t;
    SubsetSize(Differences(u, w), s + t);
    assert |s + t| == |s| + |t| - |s * t|;
  }

  lemma SubsetSize(s: set<nat>, t: set<nat>)
    requires s <= t
    ensures |s| <= |t|
  {
    assert t == s + (t - s);
  }

  // Being a vanishing word is exactly being data followed by its remainder.
  lemma VanishesIffCodeword(data: Poly, tail: Poly, degree: nat)
    requires 0 < degree == |tail| && |data| + degree <= 255
    ensures Vanishes(data + tail, degree) <==> data + tail == Codeword(data, degree)
  {
    hide Eval, Root, Remainder, Generator, Plus;
    CodewordIsMultiple(data, degree);
    if Vanishes(data + tail, degree) {
      var w := Codeword(data, degree);
      SumVanishes(data + tail, w, degree);
      var s := Sum(data + tail, w);
      forall k | 0 <= k < |data|
        ensures s[k] == 0
      {
        PlusSelf(data[k]);
      }
      SubsetSize(Support(s, 0), Range(|data|, |w|));
      LightWordIsZero(s, degree);
      forall k | 0 <= k < |w|
        ensures (data + tail)[k] == w[k]
      {
        assert s[k] == 0;
        PlusCancel((data + tail)[k], w[k]);
      }
    }
  }

  ghost function Range(m: nat, n: nat): (r: set<nat>)
    requires m <= n
    ensures |r| == n - m && forall k: nat :: k in r <==> m <= k < n
  {
    if m == n then {} else Range(m, n - 1) + {n - 1}
  }

  lemma SumVanishes(v: Poly, w: Poly, degree: nat)
    requires |v| == |w| && Vanishes(v, degree) && Vanishes(w, degree)
    ensures Vanishes(Sum(v, w), degree)
  {
    hide Eval, Root, Plus;
    forall i: nat | i < degree
      ensures Eval(Sum(v, w), Root(i)) == 0
    {
      EvalSum(v, w, Root(i));
      PlusSelf(0);
    }
  }

  // Codewords of different data blocks differ in more than `degree` places.
  lemma MinimumDistance(a: Poly, b: Poly, degree: nat)
    requires degree > 0 && |a| == |b| && |a| + degree <= 255 && a != b
    ensures Distance(Codeword(a, degree), Codeword(b, degree)) > degree
  {
    hide Eval, Root, Remainder, Generator, Plus;
    var v, w := Codeword(a, degree), Codeword(b, degree);
    var s := Sum(v, w);
    CodewordIsMultiple(a, degree);
    CodewordIsMultiple(b, degree);
    SumVanishes(v, w, degree);
    forall k: nat | k < |v|
      ensures s[k] == 0 <==> v[k] == w[k]
    {
      PlusCancel(v[k], w[k]);
      PlusSelf(v[k]);
    }
    assert Support(s, 0) == Differences(v, w);
    var k :| 0 <= k < |a| && a[k] != b[k];
    assert s[k] != 0;
    if |Support(s, 0)| <= degree {
      LightWordIsZero(s, degree);
      assert false;
    }
  }

  // However its codewords were damaged, a received block is within degree/2 of at most one data block.
  lemma HalfTheCodewordsCorrect(a: Poly, b: Poly, received: Poly, degree: nat)
    requires degree > 0 && |a| == |b| && |a| + degree == |received| <= 255
    requires 2 * Distance(Codeword(a, degree), received) <= degree
    requires 2 * Distance(Codeword(b, degree), received) <= degree
    ensures a == b
  {
    DistanceTriangle(Codeword(a, degree), received, Codeword(b, degree));
    if a != b {
      MinimumDistance(a, b, degree);
    }
  }
}
