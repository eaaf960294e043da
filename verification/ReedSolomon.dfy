// Reed-Solomon codes over GF(2^8): generator polynomial, remainder, and the code they define.
// A polynomial is the sequence of its coefficients, highest power first.
module ReedSolomon {
  import opened Bytes
  import opened Galois

  const MAX_DEGREE := 30

  type Poly = seq<Byte>

  // ----- polynomials -----

  function Nil(n: nat): (p: Poly)
    ensures |p| == n && forall k | 0 <= k < n :: p[k] == 0
  {
    seq(n, _ => 0)
  }

  function Sum(p: Poly, q: Poly): (r: Poly)
    requires |p| == |q|
    ensures |r| == |p| && forall k | 0 <= k < |r| :: r[k] == Plus(p[k], q[k])
  {
    seq(|p|, k requires 0 <= k < |p| => Plus(p[k], q[k]))
  }

  function Scale(c: Byte, p: Poly): (r: Poly)
    ensures |r| == |p| && forall k | 0 <= k < |r| :: r[k] == Times(p[k], c)
  {
    seq(|p|, k requires 0 <= k < |p| => Times(p[k], c))
  }

  function Product(p: Poly, q: Poly): (r: Poly)
    requires |q| > 0
    ensures |r| == |p| + |q| - 1
  {
    if p == [] then Nil(|q| - 1)
    else Sum(Product(p[..|p| - 1], q) + [0], Nil(|p| - 1) + Scale(p[|p| - 1], q))
  }

  // The value of p at x, by Horner's rule.
  function Eval(p: Poly, x: Byte): Byte {
    if p == [] then 0 else Plus(Times(Eval(p[..|p| - 1], x), x), p[|p| - 1])
  }

  lemma {:induction false} EvalNil(n: nat, x: Byte)
    ensures Eval(Nil(n), x) == 0
  {
    hide Times, Plus;
    if n > 0 {
      EvalNil(n - 1, x);
      assert Nil(n)[..n - 1] == Nil(n - 1);
      TimesUnits(x);
      PlusSelf(0);
    }
  }

  lemma {:induction false} EvalPadded(n: nat, p: Poly, x: Byte)
    ensures Eval(Nil(n) + p, x) == Eval(p, x)
  {
    hide Times, Plus;
    var q := Nil(n) + p;
    if p == [] {
      EvalNil(n, x);
      assert q == Nil(n);
    } else {
      EvalPadded(n, p[..|p| - 1], x);
      assert q[..|q| - 1] == Nil(n) + p[..|p| - 1];
    }
  }

  lemma {:induction false} EvalSum(p: Poly, q: Poly, x: Byte)
    requires |p| == |q|
    ensures Eval(Sum(p, q), x) == Plus(Eval(p, x), Eval(q, x))
  {
    hide Times, Plus;
    if p == [] {
      PlusSelf(0);
    } else {
      var n := |p| - 1;
      EvalSum(p[..n], q[..n], x);
      assert Sum(p, q)[..n] == Sum(p[..n], q[..n]);
      TimesPlus(x, Eval(p[..n], x), Eval(q[..n], x));
      PlusSwap(Times(Eval(p[..n], x), x), Times(Eval(q[..n], x), x), p[n], q[n]);
    }
  }

  lemma {:induction false} EvalScale(c: Byte, p: Poly, x: Byte)
    ensures Eval(Scale(c, p), x) == Times(c, Eval(p, x))
  {
    hide Times, Plus;
    if p == [] {
      TimesUnits(c);
    } else {
      var n := |p| - 1;
      EvalScale(c, p[..n], x);
      assert Scale(c, p)[..n] == Scale(c, p[..n]);
      TimesAssoc(c, Eval(p[..n], x), x);
      TimesPlus(c, Times(Eval(p[..n], x), x), p[n]);
      TimesComm(c, p[n]);
    }
  }

  lemma {:induction false} EvalProduct(p: Poly, q: Poly, x: Byte)
    requires |q| > 0
    ensures Eval(Product(p, q), x) == Times(Eval(p, x), Eval(q, x))
  {
    hide Times, Plus;
    if p == [] {
      EvalNil(|q| - 1, x);
      TimesUnits(Eval(q, x));
    } else {
      var n := |p| - 1;
      var a, c := Eval(p[..n], x), p[n];
      EvalProduct(p[..n], q, x);
      EvalSum(Product(p[..n], q) + [0], Nil(n) + Scale(c, q), x);
      var shifted := Product(p[..n], q) + [0];
      assert shifted[..|shifted| - 1] == Product(p[..n], q);
      PlusSelf(Times(Eval(Product(p[..n], q), x), x));
      EvalPadded(n, Scale(c, q), x);
      EvalScale(c, q, x);
      TimesSwapLast(a, Eval(q, x), x);
      TimesPlus(Eval(q, x), Times(a, x), c);
    }
  }

  lemma TimesSwapLast(a: Byte, b: Byte, c: Byte)
    ensures Times(Times(a, b), c) == Times(Times(a, c), b)
  {
    hide Times;
    TimesAssoc(a, b, c);
    TimesComm(b, c);
    TimesAssoc(a, c, b);
  }

  // ----- the generator polynomial -----

  // (x - r) * p
  function TimesLinear(p: Poly, r: Byte): (q: Poly)
    ensures |q| == |p| + 1
  {
    Sum(p + [0], [0] + Scale(r, p))
  }

  // (x - 2^0) * (x - 2^1) * ... * (x - 2^(n-1))
  function Generator(n: nat): (g: Poly)
    ensures |g| == n + 1
  {
    if n == 0 then [1] else TimesLinear(Generator(n - 1), Root(n - 1))
  }

  lemma {:induction false} GeneratorMonic(n: nat)
    ensures Generator(n)[0] == 1
  {
    hide Times, Plus, Root;
    if n > 0 {
      GeneratorMonic(n - 1);
      PlusSelf(1);
    }
  }

  lemma EvalTimesLinear(p: Poly, r: Byte, x: Byte)
    ensures Eval(TimesLinear(p, r), x) == Times(Eval(p, x), Plus(x, r))
  {
    hide Times, Plus;
    EvalSum(p + [0], [0] + Scale(r, p), x);
    assert (p + [0])[..|p|] == p;
    PlusSelf(Times(Eval(p, x), x));
    assert [0] + Scale(r, p) == Nil(1) + Scale(r, p);
    EvalPadded(1, Scale(r, p), x);
    EvalScale(r, p, x);
    TimesComm(r, Eval(p, x));
    TimesPlus(Eval(p, x), x, r);
  }

  lemma EvalGenerator(n: nat, x: Byte)
    requires n > 0
    ensures Eval(Generator(n), x) == Times(Eval(Generator(n - 1), x), Plus(x, Root(n - 1)))
  {
    EvalTimesLinear(Generator(n - 1), Root(n - 1), x);
    hide Times, Plus, Eval, Root, TimesLinear;
  }

  lemma {:induction false} GeneratorRoots(n: nat, i: nat)
    requires i < n
    ensures Eval(Generator(n), Root(i)) == 0
  {
    hide Times, Plus, Eval, Root, Generator;
    EvalGenerator(n, Root(i));
    if i < n - 1 {
      GeneratorRoots(n - 1, i);
      TimesUnits(Plus(Root(i), Root(n - 1)));
    } else {
      PlusSelf(Root(i));
      TimesUnits(Eval(Generator(n - 1), Root(i)));
    }
  }

  // The coefficients of p * (x - r).
  lemma TimesLinearAt(p: Poly, r: Byte, m: nat)
    requires m <= |p|
    ensures TimesLinear(p, r)[m] ==
            Plus(if m < |p| then p[m] else 0, if m > 0 then Times(p[m - 1], r) else 0)
  {
    hide Times, Plus;
    if m > 0 {
      TimesComm(r, p[m - 1]);
    }
  }

  // Generator(n) padded on the left to degree d, before and after one more factor.
  lemma PaddedGeneratorStep(d: nat, n: nat, k: nat)
    requires n < d && k <= d
    ensures var p, q := Nil(d - n) + Generator(n), Nil(d - n - 1) + Generator(n + 1);
            q[k] == Plus(Times(p[k], Root(n)), if k < d then p[k + 1] else 0)
  {
    GeneratorNext(n);
    hide Times, Plus, Root, Generator, Nil, TimesLinear;
    TimesUnits(Root(n));
    PlusSelf(0);
    var g, m := Generator(n), k - (d - n - 1);
    if m >= 0 {
      TimesLinearAt(g, Root(n), m);
      PlusComm(if m < |g| then g[m] else 0, if m > 0 then Times(g[m - 1], Root(n)) else 0);
    }
  }

  lemma GeneratorNext(n: nat)
    ensures Generator(n + 1) == TimesLinear(Generator(n), Root(n))
  {
  }

  // The monic polynomial of degree d at most, its leading coefficient dropped when it has degree d.
  ghost predicate HoldsProduct(result: seq<Byte>, d: nat, n: nat)
    requires n <= d <= |result|
  {
    forall k | 0 <= k < d :: result[k] == (Nil(d - n) + Generator(n))[k + 1]
  }

  // Multiplying the product held in result by (x - root), in place.
  method MultiplyByFactor(degree: nat, root: Byte, result: array<Byte>, ghost n: nat)
    requires n < degree <= result.Length
    requires root == Root(n)
    requires HoldsProduct(result[..], degree, n)
    modifies result
    ensures HoldsProduct(result[..], degree, n + 1)
    ensures result[degree..] == old(result[degree..])
  {
    hide Times, Plus, Doubled, Generator, Nil;
    ghost var p, q := Nil(degree - n) + Generator(n), Nil(degree - n - 1) + Generator(n + 1);
    for j := 0 to degree
      invariant forall k | 0 <= k < j :: result[k] == q[k + 1]
      invariant forall k | j <= k < degree :: result[k] == p[k + 1]
      invariant forall k | degree <= k < result.Length :: result[k] == old(result[k])
    {
      PaddedGeneratorStep(degree, n, j + 1);
      var product := Multiply(result[j], root);
      result[j] := product;
      PlusSelf(product);
      if j + 1 < degree {
        result[j] := Plus(result[j], result[j + 1]);
      }
    }
  }

  method ComputeDivisor(degree: nat, result: array<Byte>)
    requires 1 <= degree <= MAX_DEGREE && degree <= result.Length
    modifies result
    ensures [1] + result[..degree] == Generator(degree)
    ensures result[degree..] == old(result[degree..])
  {
    hide Times, Plus, Doubled, Generator;
    forall j | 0 <= j < degree {
      result[j] := 0;
    }
    result[degree - 1] := 1;
    var root: Byte := 1;
    GeneratorZero();
    RootZero();
    for i := 0 to degree
      invariant root == Root(i)
      invariant HoldsProduct(result[..], degree, i)
      invariant result[degree..] == old(result[degree..])
    {
      MultiplyByFactor(degree, root, result, i);
      TimesUnits(root);
      assert Root(i + 1) == Double(root) by { RootNext(i); }
      root := Multiply(root, 0x02);
    }
    GeneratorMonic(degree);
    assert Nil(0) + Generator(degree) == Generator(degree);
  }

  lemma GeneratorZero()
    ensures Generator(0) == [1]
  {
  }

  // ----- division -----

  // One round of the shift register that divides by the monic polynomial g.
  function Shifted(r: Poly, b: Byte, g: Poly): (s: Poly)
    requires |r| > 0 && |g| == |r| + 1
    ensures |s| == |r|
  {
    Sum(r[1..] + [0], Scale(Plus(b, r[0]), g[1..]))
  }

  function Remainder(data: Poly, g: Poly): (r: Poly)
    requires |g| > 1
    ensures |r| == |g| - 1
  {
    if data == [] then Nil(|g| - 1)
    else Shifted(Remainder(data[..|data| - 1], g), data[|data| - 1], g)
  }

  function Quotient(data: Poly, g: Poly): (q: Poly)
    requires |g| > 1
    ensures |q| == |data|
  {
    if data == [] then []
    else Quotient(data[..|data| - 1], g) + [Plus(data[|data| - 1], Remainder(data[..|data| - 1], g)[0])]
  }

  // Subtracting f * g from a dividend whose leading coefficient is f leaves the shifted register.
  lemma DivisionStep(prev: Poly, r: Poly, b: Byte, g: Poly)
    requires |r| > 0 && |g| == |r| + 1 && g[0] == 1
    ensures Sum((prev + r) + [0], Nil(|prev|) + Scale(Plus(b, r[0]), g)) == prev + [b] + Shifted(r, b, g)
  {
    hide Times, Plus, Sum, Scale, Nil;
    var n, f := |prev|, Plus(b, r[0]);
    var left, lifted := (prev + r) + [0], Nil(n) + Scale(f, g);
    var right := prev + [b] + Shifted(r, b, g);
    forall k | 0 <= k < |left|
      ensures Sum(left, lifted)[k] == right[k]
    {
      if k < n {
        PlusSelf(prev[k]);
      } else if k == n {
        TimesUnits(f);
        PlusComm(b, r[0]);
        PlusCancel(r[0], b);
      } else {
        var t := k - n - 1;
        assert lifted[k] == Scale(f, g[1..])[t];
        assert left[k] == (r[1..] + [0])[t];
        assert right[k] == Shifted(r, b, g)[t];
      }
    }
  }

  // Data followed by its remainder is a multiple of the divisor.
  lemma {:induction false} Division(data: Poly, g: Poly)
    requires |g| > 1 && g[0] == 1
    ensures Product(Quotient(data, g), g) == data + Remainder(data, g)
  {
    hide Times, Plus, Sum, Scale, Nil, Shifted;
    if data == [] {
      assert Product([], g) == [] + Remainder([], g);
    } else {
      var n := |data| - 1;
      var prev, r := data[..n], Remainder(data[..n], g);
      var q := Quotient(data, g);
      Division(prev, g);
      assert q[..n] == Quotient(prev, g);
      DivisionStep(prev, r, data[n], g);
      assert data == prev + [data[n]];
    }
  }

  // Undoing one round: the leading coefficient determines the factor.
  lemma UndoStep(prev: Poly, b: Byte, inner: Poly, f: Byte, r: Poly, g: Poly)
    requires |r| > 0 && |g| == |r| + 1 && g[0] == 1 && |inner| == |prev| + |r|
    requires Sum(inner + [0], Nil(|prev|) + Scale(f, g)) == prev + [b] + r
    ensures inner[..|prev|] == prev
    ensures f == Plus(b, inner[|prev|]) && r == Shifted(inner[|prev|..], b, g)
  {
    hide Times, Plus, Sum, Scale, Nil;
    var n := |prev|;
    var left, lifted := inner + [0], Nil(n) + Scale(f, g);
    var right := prev + [b] + r;
    forall k | 0 <= k < n
      ensures inner[k] == prev[k]
    {
      assert right[k] == Plus(left[k], lifted[k]);
      PlusSelf(inner[k]);
    }
    assert right[n] == Plus(left[n], lifted[n]);
    TimesUnits(f);
    PlusCancel(inner[n], f);
    PlusComm(inner[n], b);
    var s := Shifted(inner[n..], b, g);
    forall k | 0 <= k < |r|
      ensures r[k] == s[k]
    {
      assert right[n + 1 + k] == Plus(left[n + 1 + k], lifted[n + 1 + k]);
      assert left[n + 1 + k] == (inner[n..][1..] + [0])[k];
      assert lifted[n + 1 + k] == Scale(f, g[1..])[k];
    }
  }

  // The remainder is the only tail that makes a multiple of the divisor.
  lemma {:induction false} RemainderUnique(data: Poly, r: Poly, q: Poly, g: Poly)
    requires |g| > 1 && g[0] == 1 && |r| == |g| - 1
    requires |q| == |data| && Product(q, g) == data + r
    ensures q == Quotient(data, g) && r == Remainder(data, g)
  {
    hide Times, Plus, Sum, Scale, Nil, Shifted;
    if data == [] {
      assert Product([], g) == [] + r;
    } else {
      var n := |data| - 1;
      var inner := Product(q[..n], g);
      assert data + r == data[..n] + [data[n]] + r;
      UndoStep(data[..n], data[n], inner, q[n], r, g);
      assert inner == data[..n] + inner[n..];
      RemainderUnique(data[..n], inner[n..], q[..n], g);
      assert q == q[..n] + [q[n]];
    }
  }

  ghost predicate SameOutside(a: seq<Byte>, b: seq<Byte>, from: nat, to: nat)
  {
    |a| == |b| && forall k | 0 <= k < |a| && !(from <= k < to) :: a[k] == b[k]
  }

  // Moves the register one place towards its head and clears the last cell.
  method ShiftRegister(degree: nat, result: array<Byte>, from: nat)
    requires 1 <= degree && from + degree <= result.Length
    modifies result
    ensures result[from..from + degree] == old(result[from..from + degree][1..]) + [0]
    ensures SameOutside(result[..], old(result[..]), from, from + degree)
  {
    forall j | 0 <= j < degree - 1 {
      result[from + j] := result[from + j + 1];
    }
    result[from + degree - 1] := 0;
  }

  // Adds factor times the generator to the register.
  method AddMultiple(generator: array<Byte>, degree: nat, factor: Byte, result: array<Byte>, from: nat)
    requires 1 <= degree <= generator.Length && from + degree <= result.Length
    requires generator != result
    modifies result
    ensures result[from..from + degree] == old(Sum(result[from..from + degree], Scale(factor, generator[..degree])))
    ensures SameOutside(result[..], old(result[..]), from, from + degree)
  {
    hide Times, Plus, Sum, Scale;
    ghost var before := result[from..from + degree];
    ghost var scaled := Scale(factor, generator[..degree]);
    for j := 0 to degree
      invariant forall k | 0 <= k < j :: result[from + k] == Plus(before[k], scaled[k])
      invariant forall k | j <= k < degree :: result[from + k] == before[k]
      invariant SameOutside(result[..], old(result[..]), from, from + degree)
    {
      var product := Multiply(generator[j], factor);
      result[from + j] := Plus(result[from + j], product);
    }
    assert result[from..from + degree] == Sum(before, scaled);
  }

  lemma RemainderOfNothing(d: Poly, g: Poly)
    requires |g| > 1 && d == []
    ensures Remainder(d, g) == Nil(|g| - 1)
  {
  }

  lemma RemainderLast(all: Poly, d: Poly, b: Byte, g: Poly)
    requires |g| > 1 && all != [] && all[..|all| - 1] == d && all[|all| - 1] == b
    ensures var r := Remainder(d, g);
            Remainder(all, g) == Sum(r[1..] + [0], Scale(Plus(b, r[0]), g[1..]))
  {
    hide Times, Plus, Sum, Scale;
  }

  lemma RemainderNext(d: Poly, i: nat, g: Poly)
    requires |g| > 1 && i < |d|
    ensures var r := Remainder(d[..i], g);
            Remainder(d[..i + 1], g) == Sum(r[1..] + [0], Scale(Plus(d[i], r[0]), g[1..]))
  {
    hide *;
    var all := d[..i + 1];
    assert all[..|all| - 1] == d[..i];
    RemainderLast(all, d[..i], d[i], g);
  }

  // Divides the dataLen bytes at dataFrom by the generator (whose leading 1 is implicit), leaving the
  // remainder in the degree bytes at resultFrom. The two regions may lie in one array.
  method ComputeRemainder(data: array<Byte>, dataFrom: nat, dataLen: nat, generator: array<Byte>, degree: nat,
                          result: array<Byte>, resultFrom: nat)
    requires 1 <= degree <= MAX_DEGREE && degree <= generator.Length
    requires dataFrom + dataLen <= data.Length && resultFrom + degree <= result.Length
    requires generator != result
    requires data == result ==> dataFrom + dataLen <= resultFrom
    modifies result
    ensures result[resultFrom..resultFrom + degree] ==
            old(Remainder(data[dataFrom..dataFrom + dataLen], [1] + generator[..degree]))
    ensures SameOutside(result[..], old(result[..]), resultFrom, resultFrom + degree)
  {
    hide Times, Plus, Sum, Scale, Remainder;
    ghost var d, g := data[dataFrom..dataFrom + dataLen], [1] + generator[..degree];
    forall j | 0 <= j < degree {
      result[resultFrom + j] := 0;
    }
    RemainderOfNothing(d[..0], g);
    for i := 0 to dataLen
      invariant result[resultFrom..resultFrom + degree] == Remainder(d[..i], g)
      invariant SameOutside(result[..], old(result[..]), resultFrom, resultFrom + degree)
      invariant data[dataFrom..dataFrom + dataLen] == d
    {
      var factor := Plus(data[dataFrom + i], result[resultFrom]);
      ShiftRegister(degree, result, resultFrom);
      AddMultiple(generator, degree, factor, result, resultFrom);
      RemainderNext(d, i, g);
      assert g[1..] == generator[..degree];
    }
    assert d[..dataLen] == d;
  }
}
