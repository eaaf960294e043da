// Facts about multiplication and division.
module Arithmetic {

  lemma Quotient(v: nat, d: nat)
    requires d > 0
    ensures 0 <= v / d && 0 <= v % d < d && v == d * (v / d) + v % d
  {
  }

  function Div(v: nat, d: nat): nat
    requires d > 0
  {
    Quotient(v, d);
    v / d
  }

  function Mod(v: nat, d: nat): (r: nat)
    requires d > 0
    ensures r < d
  {
    Quotient(v, d);
    v % d
  }

  lemma DivDiv(v: nat, p: nat)
    requires p > 0
    ensures v / 2 / p == v / (2 * p)
  {
    var q := v / 2 / p;
    var r := v / 2 - q * p;
    var s := v - 2 * (v / 2);
    assert v == (2 * p) * q + (2 * r + s);
    QuotientUnique(v, 2 * p, q, 2 * r + s);
  }

  lemma QuotientUnique(v: nat, d: nat, q: nat, r: nat)
    requires d > 0 && r < d && v == d * q + r
    ensures v / d == q && v % d == r
  {
    var q', r' := v / d, v % d;
    if q > q' {
      TimesMonotone(d, q' + 1, q);
    } else if q < q' {
      TimesMonotone(d, q + 1, q');
    }
  }

  lemma TimesMonotone(d: nat, a: nat, b: nat)
    requires a <= b
    ensures d * a <= d * b
  {
  }

  lemma TimesNext(d: int, a: int)
    ensures d * (a + 1) == d * a + d
  {
  }

  lemma QuotientBounds(v: nat, d: nat, low: nat, high: nat)
    requires d > 0 && d * low <= v <= d * high
    ensures low <= v / d <= high
  {
    var q := v / d;
    if q < low {
      TimesMonotone(d, q + 1, low);
    }
    if q > high {
      TimesMonotone(d, high + 1, q);
    }
  }
}
