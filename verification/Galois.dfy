// The field GF(2^8) of Reed-Solomon codes, with modulus 0x11D.
module Galois {
  import opened BitStrings
  import opened Bytes

  function Plus(x: Byte, y: Byte): Byte {
    x ^ y
  }

  // Multiplication by the field element 2: (uint8_t)((z << 1) ^ ((z >> 7) * 0x11D)).
  function Double(z: Byte): Byte {
    (((z as bv16) << 1) ^ (((z as bv16) >> 7) * 0x11D)) as Byte
  }

  function Pick(y: Byte, i: nat, x: Byte): Byte
    requires i < 8
  {
    if Bit(y, i) then x else 0
  }

  // The n most significant bits of y, times x.
  function Horner(x: Byte, y: Byte, n: nat): Byte
    requires n <= 8
  {
    if n == 0 then 0 else Plus(Double(Horner(x, y, n - 1)), Pick(y, 8 - n, x))
  }

  function Times(x: Byte, y: Byte): Byte {
    Horner(x, y, 8)
  }

  method Multiply(x: Byte, y: Byte) returns (z: Byte)
    ensures z == Times(x, y)
  {
    hide Double, Pick, Plus;
    z := 0;
    var i: int := 7;
    while i >= 0
      invariant -1 <= i <= 7
      invariant z == Horner(x, y, 7 - i)
    {
      z := Double(z);
      z := Plus(z, Pick(y, i, x));
      i := i - 1;
    }
  }

  // ----- addition -----

  lemma PlusComm(x: Byte, y: Byte)
    ensures Plus(x, y) == Plus(y, x)
  {
  }

  lemma PlusAssoc(x: Byte, y: Byte, z: Byte)
    ensures Plus(Plus(x, y), z) == Plus(x, Plus(y, z))
  {
    assert (x ^ y) ^ z == x ^ (y ^ z);
  }

  lemma PlusSelf(x: Byte)
    ensures Plus(x, x) == 0 && Plus(x, 0) == x && Plus(0, x) == x
  {
  }

  lemma PlusSwap(a: Byte, b: Byte, c: Byte, d: Byte)
    ensures Plus(Plus(a, b), Plus(c, d)) == Plus(Plus(a, c), Plus(b, d))
  {
    assert (a ^ b) ^ (c ^ d) == (a ^ c) ^ (b ^ d);
  }

  lemma PlusCancel(x: Byte, y: Byte)
    ensures Plus(x, Plus(x, y)) == y
    ensures Plus(x, y) == 0 ==> x == y
  {
    assert x ^ (x ^ y) == y;
  }

  // ----- Times is bilinear -----

  lemma DoublePlus(x: Byte, y: Byte)
    ensures Double(Plus(x, y)) == Plus(Double(x), Double(y))
  {
  }

  lemma PickPlus(x: Byte, y: Byte, i: nat, a: Byte, b: Byte)
    requires i < 8
    ensures Pick(Plus(x, y), i, a) == Plus(Pick(x, i, a), Pick(y, i, a))
    ensures Pick(x, i, Plus(a, b)) == Plus(Pick(x, i, a), Pick(x, i, b))
  {
    BitPlus(x, y, i);
    PlusSelf(a);
    hide Bit;
    hide Plus;
    PlusSelf(b);
    PlusSelf(Plus(a, b));
    PlusSelf(0);
  }

  lemma BitPlus(x: Byte, y: Byte, i: nat)
    requires i < 8
    ensures Bit(Plus(x, y), i) == (Bit(x, i) != Bit(y, i))
  {
    HasPlus(x, y, Power(i));
    hide Has, Plus;
  }

  lemma HasPlus(x: Byte, y: Byte, p: Byte)
    requires p == 1 || p == 2 || p == 4 || p == 8 || p == 16 || p == 32 || p == 64 || p == 128
    ensures Has(Plus(x, y), p) == (Has(x, p) != Has(y, p))
  {
    if p == 1 {} else if p == 2 {} else if p == 4 {} else if p == 8 {}
    else if p == 16 {} else if p == 32 {} else if p == 64 {} else {}
  }

  lemma {:induction false} HornerPlusRight(x: Byte, y: Byte, z: Byte, n: nat)
    requires n <= 8
    ensures Horner(x, Plus(y, z), n) == Plus(Horner(x, y, n), Horner(x, z, n))
  {
    hide Double, Pick, Plus;
    if n == 0 {
      PlusSelf(0);
    } else {
      HornerPlusRight(x, y, z, n - 1);
      DoublePlus(Horner(x, y, n - 1), Horner(x, z, n - 1));
      PickPlus(y, z, 8 - n, x, x);
      PlusSwap(Double(Horner(x, y, n - 1)), Double(Horner(x, z, n - 1)), Pick(y, 8 - n, x), Pick(z, 8 - n, x));
    }
  }

  lemma {:induction false} HornerPlusLeft(x: Byte, y: Byte, z: Byte, n: nat)
    requires n <= 8
    ensures Horner(Plus(y, z), x, n) == Plus(Horner(y, x, n), Horner(z, x, n))
  {
    hide Double, Pick, Plus;
    if n == 0 {
      PlusSelf(0);
    } else {
      HornerPlusLeft(x, y, z, n - 1);
      DoublePlus(Horner(y, x, n - 1), Horner(z, x, n - 1));
      PickPlus(x, x, 8 - n, y, z);
      PlusSwap(Double(Horner(y, x, n - 1)), Double(Horner(z, x, n - 1)), Pick(x, 8 - n, y), Pick(x, 8 - n, z));
    }
  }

  lemma TimesPlus(x: Byte, y: Byte, z: Byte)
    ensures Times(x, Plus(y, z)) == Plus(Times(x, y), Times(x, z))
    ensures Times(Plus(y, z), x) == Plus(Times(y, x), Times(z, x))
  {
    HornerPlusRight(x, y, z, 8);
    HornerPlusLeft(x, y, z, 8);
  }

  // ----- linear maps are determined by the eight powers of two -----

  ghost predicate Additive(f: Byte -> Byte) {
    forall a, b {:trigger f(Plus(a, b))} :: f(Plus(a, b)) == Plus(f(a), f(b))
  }

  lemma PowerExpansion(y: Byte)
    ensures y == Plus(Plus(Plus(Pick(y, 0, Power(0)), Pick(y, 1, Power(1))), Plus(Pick(y, 2, Power(2)), Pick(y, 3, Power(3)))),
                      Plus(Plus(Pick(y, 4, Power(4)), Pick(y, 5, Power(5))), Plus(Pick(y, 6, Power(6)), Pick(y, 7, Power(7)))))
  {
  }

  lemma AdditiveAtZero(f: Byte -> Byte)
    requires Additive(f)
    ensures f(0) == 0
  {
    PlusSelf(0);
    assert f(Plus(0, 0)) == Plus(f(0), f(0));
    PlusSelf(f(0));
  }

  lemma AgreeOnSums(f: Byte -> Byte, g: Byte -> Byte, a: Byte, b: Byte)
    requires Additive(f) && Additive(g)
    requires f(a) == g(a) && f(b) == g(b)
    ensures f(Plus(a, b)) == g(Plus(a, b))
  {
    hide Plus;
  }

  lemma AgreeOnPick(f: Byte -> Byte, g: Byte -> Byte, y: Byte, i: nat)
    requires Additive(f) && Additive(g)
    requires i < 8 && f(Power(i)) == g(Power(i))
    ensures f(Pick(y, i, Power(i))) == g(Pick(y, i, Power(i)))
  {
    AdditiveAtZero(f);
    AdditiveAtZero(g);
    hide Bit, Plus, Power;
  }

  lemma LinearMapsAgree(f: Byte -> Byte, g: Byte -> Byte, y: Byte)
    requires Additive(f) && Additive(g)
    requires forall i: nat | i < 8 :: f(Power(i)) == g(Power(i))
    ensures f(y) == g(y)
  {
    hide Plus, Pick, Power, Additive;
    forall i: nat | i < 8
      ensures f(Pick(y, i, Power(i))) == g(Pick(y, i, Power(i)))
    {
      AgreeOnPick(f, g, y, i);
    }
    var p := (i: nat) requires i < 8 => Pick(y, i, Power(i));
    AgreeOnSums(f, g, p(0), p(1));
    AgreeOnSums(f, g, p(2), p(3));
    AgreeOnSums(f, g, p(4), p(5));
    AgreeOnSums(f, g, p(6), p(7));
    AgreeOnSums(f, g, Plus(p(0), p(1)), Plus(p(2), p(3)));
    AgreeOnSums(f, g, Plus(p(4), p(5)), Plus(p(6), p(7)));
    AgreeOnSums(f, g, Plus(Plus(p(0), p(1)), Plus(p(2), p(3))), Plus(Plus(p(4), p(5)), Plus(p(6), p(7))));
    PowerExpansion(y);
  }

  // ----- Times is commutative and associative, and has no zero divisors -----

  function Doubled(x: Byte, n: nat): Byte {
    if n == 0 then x else Double(Doubled(x, n - 1))
  }

  // The n-th power of the field element 2.
  function Root(n: nat): Byte {
    Doubled(1, n)
  }

  lemma RootZero()
    ensures Root(0) == 1
  {
  }

  lemma RootNext(n: nat)
    ensures Root(n + 1) == Double(Root(n))
  {
    hide Double;
  }

  lemma BitOfPower(i: nat, k: nat)
    requires i < 8 && k < 8
    ensures Bit(Power(i), k) == (i == k)
  {
  }

  lemma DoubleZero()
    ensures Double(0) == 0
  {
  }

  lemma {:induction false} HornerPower(x: Byte, i: nat, n: nat)
    requires i < 8 && n <= 8
    ensures Horner(x, Power(i), n) == if n < 8 - i then 0 else Doubled(x, n - (8 - i))
  {
    hide Bit, Plus, Power, Double;
    if n > 0 {
      HornerPower(x, i, n - 1);
      BitOfPower(i, 8 - n);
      DoubleZero();
      var h := Double(Horner(x, Power(i), n - 1));
      PlusSelf(h);
      PlusSelf(x);
    }
  }

  lemma TimesPower(x: Byte, i: nat)
    requires i < 8
    ensures Times(x, Power(i)) == Doubled(x, i)
  {
    HornerPower(x, i, 8);
  }

  lemma DoublePower(i: nat)
    requires i < 8
    ensures i < 7 ==> Double(Power(i)) == Power(i + 1)
    ensures Double(Power(7)) == Plus(Plus(Power(4), Power(3)), Plus(Power(2), Power(0)))
  {
  }

  // x * 2^8 = x * (2^4 + 2^3 + 2^2 + 1), the modulus at work.
  lemma EightDoublings(x: Byte)
    ensures Doubled(x, 8) == Plus(Plus(Doubled(x, 4), Doubled(x, 3)), Plus(Doubled(x, 2), Doubled(x, 0)))
  {
    var x2 := Double(Double(x));
    var x4 := Double(Double(x2));
    assert Doubled(x, 1) == Double(x);
    assert Doubled(x, 2) == x2;
    assert Doubled(x, 3) == Double(x2);
    assert Doubled(x, 4) == x4;
    assert Doubled(x, 6) == Double(Double(x4));
    assert Doubled(x, 8) == Double(Double(Double(Double(x4))));
  }

  lemma TimesDoublePower(x: Byte, i: nat)
    requires i < 8
    ensures Times(x, Double(Power(i))) == Double(Times(x, Power(i)))
  {
    hide Times, Double, Plus, Power;
    DoublePower(i);
    TimesPower(x, i);
    if i < 7 {
      TimesPower(x, i + 1);
    } else {
      TimesPower(x, 4);
      TimesPower(x, 3);
      TimesPower(x, 2);
      TimesPower(x, 0);
      TimesPlus(x, Plus(Power(4), Power(3)), Plus(Power(2), Power(0)));
      TimesPlus(x, Power(4), Power(3));
      TimesPlus(x, Power(2), Power(0));
      EightDoublings(x);
    }
  }

  lemma TimesDouble(x: Byte, y: Byte)
    ensures Times(x, Double(y)) == Double(Times(x, y))
  {
    hide Times, Double, Plus, Power;
    var f := z => Times(x, Double(z));
    var g := z => Double(Times(x, z));
    forall a, b {:trigger f(Plus(a, b))} {:trigger g(Plus(a, b))}
      ensures f(Plus(a, b)) == Plus(f(a), f(b)) && g(Plus(a, b)) == Plus(g(a), g(b))
    {
      DoublePlus(a, b);
      TimesPlus(x, Double(a), Double(b));
      TimesPlus(x, a, b);
      DoublePlus(Times(x, a), Times(x, b));
    }
    forall i: nat | i < 8
      ensures f(Power(i)) == g(Power(i))
    {
      TimesDoublePower(x, i);
    }
    LinearMapsAgree(f, g, y);
  }

  lemma {:induction false} TimesDoubled(x: Byte, y: Byte, n: nat)
    ensures Times(x, Doubled(y, n)) == Doubled(Times(x, y), n)
  {
    hide Times, Double;
    if n > 0 {
      TimesDoubled(x, y, n - 1);
      TimesDouble(x, Doubled(y, n - 1));
    }
  }

  lemma TimesAssoc(x: Byte, y: Byte, z: Byte)
    ensures Times(Times(x, y), z) == Times(x, Times(y, z))
  {
    hide Times, Double, Plus, Power;
    var f := w => Times(Times(x, y), w);
    var g := w => Times(x, Times(y, w));
    forall a, b {:trigger f(Plus(a, b))} {:trigger g(Plus(a, b))}
      ensures f(Plus(a, b)) == Plus(f(a), f(b)) && g(Plus(a, b)) == Plus(g(a), g(b))
    {
      TimesPlus(Times(x, y), a, b);
      TimesPlus(y, a, b);
      TimesPlus(x, Times(y, a), Times(y, b));
    }
    forall i: nat | i < 8
      ensures f(Power(i)) == g(Power(i))
    {
      TimesPower(Times(x, y), i);
      TimesPower(y, i);
      TimesDoubled(x, y, i);
    }
    LinearMapsAgree(f, g, z);
  }

  lemma {:induction false} DoubledDoubled(x: Byte, m: nat, n: nat)
    ensures Doubled(Doubled(x, m), n) == Doubled(x, m + n)
  {
    hide Double;
    if n > 0 {
      DoubledDoubled(x, m, n - 1);
    }
  }

  lemma {:induction false} PowerIsRoot(i: nat)
    requires i < 8
    ensures Power(i) == Root(i)
  {
    if i > 0 {
      PowerIsRoot(i - 1);
      DoublePower(i - 1);
    }
    hide Double;
  }

  lemma PowersCommute(i: nat, y: Byte)
    requires i < 8
    ensures Times(Power(i), y) == Times(y, Power(i))
  {
    hide Times, Double, Plus, Power;
    var f := z => Times(Power(i), z);
    var g := z => Times(z, Power(i));
    forall a, b {:trigger f(Plus(a, b))} {:trigger g(Plus(a, b))}
      ensures f(Plus(a, b)) == Plus(f(a), f(b)) && g(Plus(a, b)) == Plus(g(a), g(b))
    {
      TimesPlus(Power(i), a, b);
    }
    forall j: nat | j < 8
      ensures f(Power(j)) == g(Power(j))
    {
      PowerIsRoot(i);
      PowerIsRoot(j);
      TimesPower(Power(i), j);
      TimesPower(Power(j), i);
      DoubledDoubled(1, i, j);
      DoubledDoubled(1, j, i);
    }
    LinearMapsAgree(f, g, y);
  }

  lemma TimesComm(x: Byte, y: Byte)
    ensures Times(x, y) == Times(y, x)
  {
    hide Times, Double, Plus, Power;
    var f := z => Times(z, y);
    var g := z => Times(y, z);
    forall a, b {:trigger f(Plus(a, b))} {:trigger g(Plus(a, b))}
      ensures f(Plus(a, b)) == Plus(f(a), f(b)) && g(Plus(a, b)) == Plus(g(a), g(b))
    {
      TimesPlus(y, a, b);
    }
    forall i: nat | i < 8
      ensures f(Power(i)) == g(Power(i))
    {
      PowersCommute(i, y);
    }
    LinearMapsAgree(f, g, x);
  }

  lemma TimesUnits(x: Byte)
    ensures Times(x, 1) == x && Times(1, x) == x
    ensures Times(x, 0) == 0 && Times(0, x) == 0
    ensures Times(x, 2) == Double(x)
  {
    hide Times, Double, Plus;
    TimesPower(x, 0);
    TimesPower(x, 1);
    TimesComm(x, 1);
    TimesPlus(x, x, x);
    PlusSelf(x);
    PlusSelf(Times(x, x));
  }

  // Times with its loop unrolled, as one bit-vector term.
  function Unrolled(x: Byte, y: Byte): Byte {
    Stage(Stage(Stage(Stage(Stage(Stage(Stage(Stage(0, y, 128, x), y, 64, x), y, 32, x), y, 16, x), y, 8, x), y, 4, x), y, 2, x), y, 1, x)
  }

  function Stage(z: Byte, y: Byte, p: Byte, x: Byte): Byte {
    ((z << 1) ^ ((z >> 7) * 0x1D)) ^ if y & p != 0 then x else 0
  }

  lemma StageIsStep(z: Byte, y: Byte, p: Byte, x: Byte)
    ensures Stage(z, y, p, x) == Plus(Double(z), if Has(y, p) then x else 0)
  {
    assert (z << 1) ^ ((z >> 7) * 0x1D) == Double(z);
    hide Double;
  }

  lemma HornerStep(x: Byte, y: Byte, n: nat, p: Byte)
    requires 0 < n <= 8 && p == Power(8 - n)
    ensures Horner(x, y, n) == Stage(Horner(x, y, n - 1), y, p, x)
  {
    StageIsStep(Horner(x, y, n - 1), y, p, x);
    hide Double, Stage, Power, Has, Plus;
  }

  lemma TimesUnrolled(x: Byte, y: Byte)
    ensures Times(x, y) == Unrolled(x, y)
  {
    hide Stage;
    HornerStep(x, y, 1, 128);
    assert Horner(x, y, 0) == 0;
    hide Horner;
    HornerStep(x, y, 2, 64);
    HornerStep(x, y, 3, 32);
    HornerStep(x, y, 4, 16);
    HornerStep(x, y, 5, 8);
    HornerStep(x, y, 6, 4);
    HornerStep(x, y, 7, 2);
    HornerStep(x, y, 8, 1);
  }

  lemma OddFactors(x: Byte, y: Byte)
    requires x & 1 == 1 && y & 1 == 1
    ensures Unrolled(x, y) != 0
  {
  }

  lemma HalveEven(x: Byte)
    requires x & 1 == 0 && x != 0
    ensures Double(x >> 1) == x && x >> 1 != 0 && x >> 1 < x
  {
  }

  lemma DoubleInjective(x: Byte)
    requires Double(x) == 0
    ensures x == 0
  {
  }

  lemma {:induction false} NoZeroDivisors(x: Byte, y: Byte)
    requires Times(x, y) == 0
    ensures x == 0 || y == 0
    decreases x, y
  {
    hide Times, Double, Unrolled;
    if x != 0 && y != 0 {
      if x & 1 == 0 {
        HalveEven(x);
        TimesComm(x, y);
        TimesDouble(y, x >> 1);
        DoubleInjective(Times(y, x >> 1));
        TimesComm(y, x >> 1);
        NoZeroDivisors(x >> 1, y);
      } else if y & 1 == 0 {
        HalveEven(y);
        TimesDouble(x, y >> 1);
        DoubleInjective(Times(x, y >> 1));
        NoZeroDivisors(x, y >> 1);
      } else {
        LowBit(x);
        LowBit(y);
        TimesUnrolled(x, y);
        OddFactors(x, y);
      }
    }
  }

  lemma LowBit(x: Byte)
    ensures x & 1 == 0 || x & 1 == 1
  {
  }

  lemma TimesCancel(x: Byte, y: Byte, z: Byte)
    requires x != 0 && Times(x, y) == Times(x, z)
    ensures y == z
  {
    TimesPlus(x, y, z);
    PlusSelf(Times(x, y));
    NoZeroDivisors(x, Plus(y, z));
    PlusCancel(y, z);
    hide Times, Plus;
  }

  // ----- the field element 2 generates all 255 nonzero elements -----

  lemma RootSum(m: nat, n: nat)
    ensures Root(m + n) == Times(Root(m), Root(n))
  {
    TimesDoubled(Root(m), 1, n);
    TimesUnits(Root(m));
    DoubledDoubled(1, m, n);
    hide Times;
  }

  lemma {:induction false} RootNonzero(n: nat)
    ensures Root(n) != 0
  {
    if n > 0 {
      RootNonzero(n - 1);
      DoubleInjectiveAt(Root(n - 1));
    }
    hide Double;
  }

  lemma DoubleInjectiveAt(x: Byte)
    requires x != 0
    ensures Double(x) != 0
  {
  }

  // 2^b and 2^(16*a), tabulated.
  function SmallPower(b: nat): Byte
    requires 1 <= b <= 16
  {
    if b == 1 then 2 else if b == 2 then 4 else if b == 3 then 8 else if b == 4 then 16 else if b == 5 then 32
    else if b == 6 then 64 else if b == 7 then 128 else if b == 8 then 29 else if b == 9 then 58 else if b == 10 then 116
    else if b == 11 then 232 else if b == 12 then 205 else if b == 13 then 135 else if b == 14 then 19 else if b == 15 then 38
    else 76
  }

  function LargePower(a: nat): Byte
    requires 1 <= a <= 16
  {
    if a == 1 then 76 else if a == 2 then 157 else if a == 3 then 70 else if a == 4 then 95 else if a == 5 then 253
    else if a == 6 then 217 else if a == 7 then 129 else if a == 8 then 133 else if a == 9 then 168 else if a == 10 then 230
    else if a == 11 then 227 else if a == 12 then 130 else if a == 13 then 81 else if a == 14 then 18 else if a == 15 then 44
    else 2
  }

  lemma SmallPowerStep(b: nat)
    requires 1 <= b < 16
    ensures SmallPower(b + 1) == Double(SmallPower(b))
  {
  }

  lemma LargePowerStep(a: nat)
    requires 1 <= a < 16
    ensures LargePower(a + 1) == Unrolled(LargePower(a), 76)
  {
  }

  lemma {:induction false} RootIsSmallPower(b: nat)
    requires 1 <= b <= 16
    ensures Root(b) == SmallPower(b)
  {
    if b == 1 {
    } else {
      RootIsSmallPower(b - 1);
      SmallPowerStep(b - 1);
      hide Double;
    }
  }

  lemma {:induction false} RootIsLargePower(a: nat)
    requires 1 <= a <= 16
    ensures Root(16 * a) == LargePower(a)
  {
    hide Unrolled, Doubled, Times, SmallPower, LargePower;
    RootIsSmallPower(16);
    TablesMeet();
    if a == 1 {
    } else {
      RootIsLargePower(a - 1);
      RootSum(16 * (a - 1), 16);
      TimesUnrolled(LargePower(a - 1), 76);
      LargePowerStep(a - 1);
    }
  }

  lemma TablesMeet()
    ensures SmallPower(16) == LargePower(1) == 76
  {
  }

  lemma TablesDisjoint(a: nat, b: nat)
    requires 1 <= a <= 16 && 1 <= b <= 16
    ensures LargePower(a) == SmallPower(b) ==> (a == 1 && b == 16) || (a == 16 && b == 1)
  {
  }

  lemma RootIsNotOne(k: nat)
    requires 0 < k < 255
    ensures Root(k) != 1
  {
    hide Times, Doubled, SmallPower, LargePower;
    var a, b := k / 16, k % 16;
    if Root(k) == 1 {
      RootSum(k, 16 - b);
      TimesUnits(Root(16 - b));
      assert k + (16 - b) == 16 * (a + 1);
      RootIsLargePower(a + 1);
      RootIsSmallPower(16 - b);
      TablesDisjoint(a + 1, 16 - b);
    }
  }

  // The first 255 powers of 2 are distinct.
  lemma RootsDistinct(m: nat, n: nat)
    requires m < n < 255
    ensures Root(m) != Root(n)
  {
    if Root(m) == Root(n) {
      RootSum(m, n - m);
      TimesUnits(Root(m));
      RootNonzero(m);
      TimesCancel(Root(m), Root(n - m), 1);
      RootIsNotOne(n - m);
    }
    hide Times;
  }

  // ----- Times is the carry-less product reduced modulo 0x11D -----

  function Add16(a: bv16, b: bv16): bv16 {
    a ^ b
  }

  function Shift16(a: bv16): bv16 {
    a << 1
  }

  function Wide(x: Byte): bv16 {
    x as bv16
  }

  function If16(on: bool, a: bv16): bv16 {
    if on then a else 0
  }

  // The product over GF(2)[t] of a and the polynomial whose coefficients are s, highest power first.
  function CarryLess(a: bv16, s: Bits): bv16 {
    if s == [] then 0 else Add16(Shift16(CarryLess(a, s[..|s| - 1])), If16(s[|s| - 1], a))
  }

  lemma WidenStep(z: Byte, x: Byte, on: bool)
    ensures Wide(Plus(Double(z), if on then x else 0)) ==
            Add16(Add16(Shift16(Wide(z)), If16(Has(z, 128), 0x11D)), If16(on, Wide(x)))
  {
    WidenDouble(z);
    WidenPlus(Double(z), if on then x else 0);
    hide Double;
  }

  lemma WidenDouble(z: Byte)
    ensures Wide(Double(z)) == Add16(Shift16(Wide(z)), If16(Has(z, 128), 0x11D))
  {
  }

  lemma WidenPlus(x: Byte, y: Byte)
    ensures Wide(Plus(x, y)) == Add16(Wide(x), Wide(y))
  {
  }

  lemma Regroup(p: bv16, z: bv16, c: bv16, r: bv16, t: bv16)
    requires p == Add16(z, c)
    ensures Add16(Shift16(p), t) == Add16(Add16(Add16(Shift16(z), r), t), Add16(Shift16(c), r))
  {
    ShiftAdd16(z, c);
    Shuffle16(Shift16(z), Shift16(c), r, t);
    hide Add16, Shift16;
  }

  lemma ShiftAdd16(z: bv16, c: bv16)
    ensures Shift16(Add16(z, c)) == Add16(Shift16(z), Shift16(c))
  {
  }

  lemma Shuffle16(z: bv16, c: bv16, r: bv16, t: bv16)
    ensures Add16(Add16(z, c), t) == Add16(Add16(Add16(z, r), t), Add16(c, r))
  {
    assert (z ^ c) ^ t == ((z ^ r) ^ t) ^ (c ^ r);
  }

  lemma {:induction false} HornerReduces(x: Byte, y: Byte, n: nat) returns (q: Bits)
    requires n <= 8
    ensures |q| == n
    ensures CarryLess(Wide(x), ByteBits(y)[..n]) == Add16(Wide(Horner(x, y, n)), CarryLess(0x11D, q))
  {
    hide Add16, Shift16, If16, Wide, Plus, Double, Bit, Has;
    if n == 0 {
      q := [];
      WideZero();
    } else {
      var s := ByteBits(y)[..n];
      var q' := HornerReduces(x, y, n - 1);
      var z := Horner(x, y, n - 1);
      q := q' + [Has(z, 128)];
      assert s[..n - 1] == ByteBits(y)[..n - 1];
      assert q[..n - 1] == q';
      WidenStep(z, x, s[n - 1]);
      Regroup(CarryLess(Wide(x), s[..n - 1]), Wide(z), CarryLess(0x11D, q'), If16(Has(z, 128), 0x11D), If16(s[n - 1], Wide(x)));
    }
  }

  lemma WideZero()
    ensures Add16(Wide(0), 0) == 0
  {
  }

  // The product differs from the carry-less product by a multiple of the modulus.
  lemma TimesIsProductModulo(x: Byte, y: Byte)
    ensures exists q: Bits | |q| == 8 ::
              CarryLess(Wide(x), ByteBits(y)) == Add16(Wide(Times(x, y)), CarryLess(0x11D, q))
  {
    var q := HornerReduces(x, y, 8);
    assert ByteBits(y)[..8] == ByteBits(y);
    hide Add16, Shift16, If16, Wide, Horner;
  }
}
