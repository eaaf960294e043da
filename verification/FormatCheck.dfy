// What the check bits of the format word are for: words of different levels or masks differ in seven places or more,
// so that three damaged modules do not matter.
module FormatCheck {
  import opened BitStrings
  import opened Parameters
  import opened FormatBits

  // ----- the word as a multiple -----

  function Xor(a: Word, b: Word): Word {
    a ^ b
  }

  function Twice(a: Word): Word {
    a << 1
  }

  // The carry-less product with 0x537.
  function Multiple(q: Word): Word {
    q ^ (q << 1) ^ (q << 2) ^ (q << 4) ^ (q << 5) ^ (q << 8) ^ (q << 10)
  }

  function Top(rem: Word): Word {
    rem >> 9
  }

  function Quotient(data: Word, i: nat): Word {
    if i == 0 then 0 else Xor(Twice(Quotient(data, i - 1)), Top(Remainder(data, i - 1)))
  }

  function Raised(data: Word, i: nat): Word {
    if i == 0 then data else Twice(Raised(data, i - 1))
  }

  lemma XorRegroups(a: Word, b: Word, c: Word)
    ensures Xor(a, Xor(b, c)) == Xor(Xor(a, b), c)
  {
  }

  lemma TwiceXor(a: Word, b: Word)
    ensures Twice(Xor(a, b)) == Xor(Twice(a), Twice(b))
  {
  }

  lemma MultipleTwice(q: Word)
    ensures Multiple(Twice(q)) == Twice(Multiple(q))
  {
  }

  lemma MultipleFlip(p: Word)
    ensures Multiple(Xor(p, 1)) == Xor(Multiple(p), 0x537)
  {
  }

  lemma MultipleXorBit(p: Word, bit: Word)
    requires bit < 2
    ensures Multiple(Xor(p, bit)) == Xor(Multiple(p), Multiple(bit))
  {
    MultiplesOfBits(p);
    MultipleFlip(p);
    hide Multiple, Xor;
    BitIs(bit);
  }

  lemma MultiplesOfBits(p: Word)
    ensures Multiple(0) == 0 && Multiple(1) == 0x537 && Xor(p, 0) == p && Xor(Multiple(p), 0) == Multiple(p)
  {
  }

  lemma BitIs(bit: Word)
    requires bit < 2
    ensures bit == 0 || bit == 1
  {
  }

  lemma TopIsBit(rem: Word)
    requires rem < 0x400
    ensures Top(rem) < 2
  {
  }

  lemma StepAddsMultiple(rem: Word)
    requires rem < 0x400
    ensures DivisionStep(rem) == Xor(Twice(rem), Multiple(Top(rem)))
  {
  }

  lemma {:induction false} RemainderDivides(data: Word, i: nat)
    requires data < 32
    ensures Xor(Raised(data, i), Remainder(data, i)) == Multiple(Quotient(data, i))
  {
    hide Multiple, DivisionStep, Xor, Twice, Top;
    if i == 0 {
      MultipleOfNone(data);
    } else {
      var raised, rem, q := Raised(data, i - 1), Remainder(data, i - 1), Quotient(data, i - 1);
      RemainderDivides(data, i - 1);
      RemainderInRange(data, i - 1);
      StepAddsMultiple(rem);
      XorRegroups(Twice(raised), Twice(rem), Multiple(Top(rem)));
      TwiceXor(raised, rem);
      MultipleTwice(q);
      TopIsBit(rem);
      MultipleXorBit(Twice(q), Top(rem));
    }
  }

  lemma MultipleOfNone(data: Word)
    ensures Xor(data, data) == Multiple(0)
  {
  }

  lemma RaisedByTen(data: Word)
    ensures Raised(data, 10) == Twice(Twice(Twice(Twice(Twice(Twice(Twice(Twice(Twice(Twice(data))))))))))
  {
    hide Twice;
    RaisedByTwo(data, 2);
    RaisedByTwo(data, 4);
    RaisedByTwo(data, 6);
    RaisedByTwo(data, 8);
    RaisedByTwo(data, 10);
    assert Raised(data, 0) == data;
  }

  lemma RaisedByTwo(data: Word, i: nat)
    requires i >= 2
    ensures Raised(data, i) == Twice(Twice(Raised(data, i - 2)))
  {
    hide Twice;
    assert Raised(data, i - 1) == Twice(Raised(data, i - 2));
  }

  lemma TenTimesTwice(data: Word)
    ensures Twice(Twice(Twice(Twice(Twice(Twice(Twice(Twice(Twice(Twice(data)))))))))) == data << 10
  {
  }

  // The word without its fixed pattern.
  function Plain(word: Word): Word {
    word ^ 0x5412
  }

  lemma Unpack(data: Word, rem: Word)
    requires data < 32 && rem < 0x400
    ensures Plain(Pack(data, rem)) == Xor(data << 10, rem)
  {
  }

  // The remainder does not reach degree 10 in the first five steps.
  lemma SmallStep(rem: Word, bound: Word)
    requires rem < bound <= 0x100
    ensures DivisionStep(rem) < bound << 1
  {
  }

  lemma NoTop(rem: Word)
    requires rem < 0x200
    ensures Top(rem) == 0
  {
  }

  lemma NextDigit(q: Word, bit: Word, bound: Word)
    requires q < bound <= 0x10 && bit < 2
    ensures Xor(Twice(q), bit) < bound << 1
  {
  }

  lemma NoDigit()
    ensures Xor(Twice(0), 0) == 0
  {
  }

  lemma FirstRemainders(data: Word)
    requires data < 32
    ensures forall i: nat | i < 5 :: Top(Remainder(data, i)) == 0
  {
    hide Top, DivisionStep;
    SmallStep(Remainder(data, 0), 0x20);
    SmallStep(Remainder(data, 1), 0x40);
    SmallStep(Remainder(data, 2), 0x80);
    SmallStep(Remainder(data, 3), 0x100);
    forall i: nat | i < 5
      ensures Top(Remainder(data, i)) == 0
    {
      assert i == 0 || i == 1 || i == 2 || i == 3 || i == 4;
      NoTop(Remainder(data, i));
    }
  }

  lemma {:induction false} FirstDigits(data: Word, i: nat)
    requires data < 32 && i <= 5
    ensures Quotient(data, i) == 0
  {
    hide Xor, Twice, Top, Remainder;
    if i > 0 {
      FirstDigits(data, i - 1);
      FirstRemainders(data);
      NoDigit();
    }
  }

  lemma QuotientNext(data: Word, i: nat, bound: Word)
    requires data < 32 && i > 0 && Quotient(data, i - 1) < bound <= 0x10
    ensures Quotient(data, i) < bound << 1
  {
    hide Xor, Twice, Top, Remainder;
    RemainderInRange(data, i - 1);
    TopIsBit(Remainder(data, i - 1));
    NextDigit(Quotient(data, i - 1), Top(Remainder(data, i - 1)), bound);
  }

  // A polynomial of degree 14 is divided by one of degree 10.
  lemma QuotientInRange(data: Word)
    requires data < 32
    ensures Quotient(data, 10) < 32
  {
    hide Quotient;
    FirstDigits(data, 5);
    QuotientNext(data, 6, 1);
    QuotientNext(data, 7, 2);
    QuotientNext(data, 8, 4);
    QuotientNext(data, 9, 8);
    QuotientNext(data, 10, 16);
  }

  // Apart from the fixed pattern the word is a multiple of 0x537, by a factor of degree below 5: nothing is lost to
  // the width of a word.
  lemma WordIsMultiple(ecl: Ecc, mask: nat) returns (q: Word)
    requires mask < 8
    ensures q < 32 && Plain(FormatWord(ecl, mask)) == Multiple(q)
  {
    hide FormatData, Remainder, Pack, Multiple, Quotient, Raised, Overlaps, Xor, Twice, Plain;
    var data := FormatData(ecl, mask);
    DataInRange(ecl, mask);
    RemainderInRange(data, 10);
    RemainderDivides(data, 10);
    RaisedByTen(data);
    TenTimesTwice(data);
    Unpack(data, Remainder(data, 10));
    QuotientInRange(data);
    q := Quotient(data, 10);
  }

  // ----- distance -----

  // In how many of the first n places the bits differ.
  function Differing(a: Bits, b: Bits, n: nat): nat
    requires n <= |a| && n <= |b|
  {
    if n == 0 then 0 else Differing(a, b, n - 1) + One(a[n - 1] != b[n - 1])
  }

  lemma {:induction false} DifferingTriangle(a: Bits, b: Bits, c: Bits, n: nat)
    requires n <= |a| && n <= |b| && n <= |c|
    ensures Differing(a, c, n) <= Differing(a, b, n) + Differing(c, b, n)
  {
    if n > 0 {
      DifferingTriangle(a, b, c, n - 1);
    }
  }

  // The coefficients of a polynomial of degree below 5.
  datatype Factor = Factor(b0: bool, b1: bool, b2: bool, b3: bool, b4: bool)

  // Coefficient k of the product with the polynomial of 0x537.
  predicate ProductBit(f: Factor, k: nat)
    requires k < 15
  {
    match k
    case 0 => f.b0
    case 1 => (f.b1 != f.b0)
    case 2 => ((f.b2 != f.b1) != f.b0)
    case 3 => ((f.b3 != f.b2) != f.b1)
    case 4 => (((f.b4 != f.b3) != f.b2) != f.b0)
    case 5 => (((f.b4 != f.b3) != f.b1) != f.b0)
    case 6 => ((f.b4 != f.b2) != f.b1)
    case 7 => (f.b3 != f.b2)
    case 8 => ((f.b4 != f.b3) != f.b0)
    case 9 => (f.b4 != f.b1)
    case 10 => (f.b2 != f.b0)
    case 11 => (f.b3 != f.b1)
    case 12 => (f.b4 != f.b2)
    case 13 => f.b3
    case _ => f.b4
  }

  function Sum(f: Factor, g: Factor): Factor {
    Factor(f.b0 != g.b0, f.b1 != g.b1, f.b2 != g.b2, f.b3 != g.b3, f.b4 != g.b4)
  }

  lemma ProductOfSum(f: Factor, g: Factor, k: nat)
    requires k < 15
    ensures ProductBit(Sum(f, g), k) == (ProductBit(f, k) != ProductBit(g, k))
  {
  }

  // How many of the first n coefficients of the product are 1.
  function Ones(f: Factor, n: nat): nat
    requires n <= 15
  {
    if n == 0 then 0 else Ones(f, n - 1) + One(ProductBit(f, n - 1))
  }

  lemma FiveMore(f: Factor, n: nat)
    requires n + 5 <= 15
    ensures Ones(f, n + 5) == Ones(f, n) + One(ProductBit(f, n)) + One(ProductBit(f, n + 1)) + One(ProductBit(f, n + 2)) +
                              One(ProductBit(f, n + 3)) + One(ProductBit(f, n + 4))
    ensures Ones(f, 0) == 0
  {
    hide One, ProductBit;
    assert Ones(f, n + 1) == Ones(f, n) + One(ProductBit(f, n));
    assert Ones(f, n + 2) == Ones(f, n + 1) + One(ProductBit(f, n + 1));
    assert Ones(f, n + 3) == Ones(f, n + 2) + One(ProductBit(f, n + 2));
    assert Ones(f, n + 4) == Ones(f, n + 3) + One(ProductBit(f, n + 3));
    assert Ones(f, n + 5) == Ones(f, n + 4) + One(ProductBit(f, n + 4));
  }

  // The product with a polynomial other than 0 has seven coefficients or more.
  lemma SevenOnes(f: Factor)
    requires f.b0 || f.b1 || f.b2 || f.b3 || f.b4
    ensures Ones(f, 15) >= 7
  {
    FiveMore(f, 0);
    FiveMore(f, 5);
    FiveMore(f, 10);
    hide Ones;
  }

  lemma {:induction false} DifferingOnes(a: Bits, b: Bits, f: Factor, n: nat)
    requires n <= |a| && n <= |b| && n <= 15 && forall k | 0 <= k < n :: (a[k] != b[k]) == ProductBit(f, k)
    ensures Differing(a, b, n) == Ones(f, n)
  {
    hide ProductBit;
    if n > 0 {
      DifferingOnes(a, b, f, n - 1);
    }
  }

  function One(on: bool): nat {
    if on then 1 else 0
  }

  // ----- format words -----

  lemma PlainBit(w: Word, p: Word)
    requires p & (p - 1) == 0 && p != 0
    ensures Overlaps(Plain(w), p) == (Overlaps(w, p) != Overlaps(0x5412, p))
  {
  }

  lemma PowersAreSingle(k: nat)
    requires k < 15
    ensures WordPower(k) & (WordPower(k) - 1) == 0 && WordPower(k) != 0
  {
  }

  lemma BitOfPlain(w: Word, k: nat)
    requires k < 15
    ensures WordBit(Plain(w), k) == (WordBit(w, k) != WordBit(0x5412, k))
  {
    PowersAreSingle(k);
    PlainBit(w, WordPower(k));
    hide Overlaps, Plain, WordPower;
  }

  lemma SamePlain(v: Word, w: Word)
    ensures Plain(v) == Plain(w) ==> v == w
  {
  }

  // The coefficients of the lower five bits.
  function FactorOf(q: Word): Factor {
    Factor(Overlaps(q, 1), Overlaps(q, 2), Overlaps(q, 4), Overlaps(q, 8), Overlaps(q, 16))
  }

  lemma FactorsDiffer(p: Word, q: Word)
    requires p < 32 && q < 32 && p != q
    ensures var f := Sum(FactorOf(p), FactorOf(q)); f.b0 || f.b1 || f.b2 || f.b3 || f.b4
  {
  }

  lemma MultipleBits(q: Word)
    requires q < 32
    ensures Overlaps(Multiple(q), 0x1) == Overlaps(q, 1)
    ensures Overlaps(Multiple(q), 0x2) == (Overlaps(q, 2) != Overlaps(q, 1))
    ensures Overlaps(Multiple(q), 0x4) == ((Overlaps(q, 4) != Overlaps(q, 2)) != Overlaps(q, 1))
    ensures Overlaps(Multiple(q), 0x8) == ((Overlaps(q, 8) != Overlaps(q, 4)) != Overlaps(q, 2))
    ensures Overlaps(Multiple(q), 0x10) == (((Overlaps(q, 16) != Overlaps(q, 8)) != Overlaps(q, 4)) != Overlaps(q, 1))
    ensures Overlaps(Multiple(q), 0x20) == (((Overlaps(q, 16) != Overlaps(q, 8)) != Overlaps(q, 2)) != Overlaps(q, 1))
    ensures Overlaps(Multiple(q), 0x40) == ((Overlaps(q, 16) != Overlaps(q, 4)) != Overlaps(q, 2))
    ensures Overlaps(Multiple(q), 0x80) == (Overlaps(q, 8) != Overlaps(q, 4))
    ensures Overlaps(Multiple(q), 0x100) == ((Overlaps(q, 16) != Overlaps(q, 8)) != Overlaps(q, 1))
    ensures Overlaps(Multiple(q), 0x200) == (Overlaps(q, 16) != Overlaps(q, 2))
    ensures Overlaps(Multiple(q), 0x400) == (Overlaps(q, 4) != Overlaps(q, 1))
    ensures Overlaps(Multiple(q), 0x800) == (Overlaps(q, 8) != Overlaps(q, 2))
    ensures Overlaps(Multiple(q), 0x1000) == (Overlaps(q, 16) != Overlaps(q, 4))
    ensures Overlaps(Multiple(q), 0x2000) == Overlaps(q, 8)
    ensures Overlaps(Multiple(q), 0x4000) == Overlaps(q, 16)
  {
  }

  lemma BitOfMultiple(q: Word, k: nat)
    requires q < 32 && k < 15
    ensures WordBit(Multiple(q), k) == ProductBit(FactorOf(q), k)
  {
    MultipleBits(q);
    hide Overlaps, Multiple;
  }

  // The words of different levels or masks differ in at least seven of their fifteen places.
  lemma WordsFarApart(ecl: Ecc, mask: nat, ecl': Ecc, mask': nat)
    requires mask < 8 && mask' < 8 && (ecl != ecl' || mask != mask')
    ensures Differing(WordBits(FormatWord(ecl, mask)), WordBits(FormatWord(ecl', mask')), 15) >= 7
  {
    hide FormatWord, Multiple, Plain, WordBit, ProductBit, Sum, FactorOf, Differing, Ones;
    var v, w := FormatWord(ecl, mask), FormatWord(ecl', mask');
    ReadWord(ecl, mask);
    ReadWord(ecl', mask');
    SamePlain(v, w);
    var p := WordIsMultiple(ecl, mask);
    var q := WordIsMultiple(ecl', mask');
    var f := Sum(FactorOf(p), FactorOf(q));
    forall k | 0 <= k < 15
      ensures (WordBits(v)[k] != WordBits(w)[k]) == ProductBit(f, k)
    {
      BitOfPlain(v, k);
      BitOfPlain(w, k);
      BitOfMultiple(p, k);
      BitOfMultiple(q, k);
      ProductOfSum(FactorOf(p), FactorOf(q), k);
    }
    FactorsDiffer(p, q);
    SevenOnes(f);
    DifferingOnes(WordBits(v), WordBits(w), f, 15);
  }

  // A copy of the format bits with up to three damaged modules still determines the level and the mask.
  lemma ThreeDamagedModules(ecl: Ecc, mask: nat, ecl': Ecc, mask': nat, received: Bits)
    requires mask < 8 && mask' < 8 && |received| == 15
    requires Differing(WordBits(FormatWord(ecl, mask)), received, 15) <= 3
    requires Differing(WordBits(FormatWord(ecl', mask')), received, 15) <= 3
    ensures ecl == ecl' && mask == mask'
  {
    if ecl != ecl' || mask != mask' {
      WordsFarApart(ecl, mask, ecl', mask');
      DifferingTriangle(WordBits(FormatWord(ecl, mask)), received, WordBits(FormatWord(ecl', mask')), 15);
    }
  }
}
