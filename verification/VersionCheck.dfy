// What the check bits of the version word are: the word is a multiple of a polynomial, with the version in its upper bits.
module VersionCheck {
  import opened Parameters
  import opened LightPatterns

  function Xor(a: LongWord, b: LongWord): LongWord {
    a ^ b
  }

  function Twice(a: LongWord): LongWord {
    a << 1
  }

  function TimesSixteen(a: LongWord): LongWord {
    a << 4
  }

  function Top(rem: LongWord): LongWord {
    rem >> 11
  }

  // The carry-less product with x^12 + x^11 + x^10 + x^9 + x^8 + x^5 + x^2 + 1.
  function Multiple(q: LongWord): LongWord {
    q ^ (q << 2) ^ (q << 5) ^ (q << 8) ^ (q << 9) ^ (q << 10) ^ (q << 11) ^ (q << 12)
  }

  function Quotient(data: LongWord, i: nat): LongWord {
    if i == 0 then 0 else Xor(Twice(Quotient(data, i - 1)), Top(VersionRemainder(data, i - 1)))
  }

  function Raised(data: LongWord, i: nat): LongWord {
    if i == 0 then data else Twice(Raised(data, i - 1))
  }

  // ----- one step -----

  lemma StepInRange(rem: LongWord)
    requires rem < 0x1000
    ensures DivisionStep(rem) < 0x1000 && Top(rem) < 2
  {
  }

  lemma SmallStep(rem: LongWord, bound: LongWord)
    requires rem < bound <= 0x400
    ensures DivisionStep(rem) < bound << 1
  {
  }

  lemma NoTop(rem: LongWord)
    requires rem < 0x800
    ensures Top(rem) == 0
  {
  }

  lemma StepAddsMultiple(rem: LongWord)
    requires rem < 0x1000
    ensures DivisionStep(rem) == Xor(Twice(rem), Multiple(Top(rem)))
  {
  }

  lemma XorRegroups(a: LongWord, b: LongWord, c: LongWord)
    ensures Xor(a, Xor(b, c)) == Xor(Xor(a, b), c)
  {
  }

  lemma TwiceXor(a: LongWord, b: LongWord)
    ensures Twice(Xor(a, b)) == Xor(Twice(a), Twice(b))
  {
  }

  lemma MultipleTwice(q: LongWord)
    requires q < 32
    ensures Multiple(Twice(q)) == Twice(Multiple(q))
  {
  }

  lemma MultipleXorBit(p: LongWord, bit: LongWord)
    requires p < 64 && bit < 2
    ensures Multiple(Xor(p, bit)) == Xor(Multiple(p), Multiple(bit))
  {
  }

  lemma NextDigit(q: LongWord, bit: LongWord, bound: LongWord)
    requires q < bound <= 0x20 && bit < 2
    ensures Twice(q) < 64 && Xor(Twice(q), bit) < bound << 1
  {
  }

  lemma MultipleOfNone(data: LongWord)
    ensures Xor(data, data) == Multiple(0) && Twice(0) == 0 && Xor(0, 0) == 0
  {
  }

  // ----- the division -----

  lemma {:induction false} RemainderInRange(data: LongWord, i: nat)
    requires data < 64
    ensures VersionRemainder(data, i) < 0x1000 && Top(VersionRemainder(data, i)) < 2
  {
    hide DivisionStep, Top;
    if i > 0 {
      RemainderInRange(data, i - 1);
      StepInRange(VersionRemainder(data, i - 1));
    }
    StepInRange(VersionRemainder(data, i));
  }

  // The remainder reaches degree 11 after six steps.
  lemma FirstRemainders(data: LongWord)
    requires data < 64
    ensures forall i: nat | i < 6 :: Top(VersionRemainder(data, i)) == 0
  {
    hide Top, DivisionStep;
    SmallStep(VersionRemainder(data, 0), 0x40);
    SmallStep(VersionRemainder(data, 1), 0x80);
    SmallStep(VersionRemainder(data, 2), 0x100);
    SmallStep(VersionRemainder(data, 3), 0x200);
    SmallStep(VersionRemainder(data, 4), 0x400);
    forall i: nat | i < 6
      ensures Top(VersionRemainder(data, i)) == 0
    {
      assert i == 0 || i == 1 || i == 2 || i == 3 || i == 4 || i == 5;
      NoTop(VersionRemainder(data, i));
    }
  }

  lemma {:induction false} FirstDigits(data: LongWord, i: nat)
    requires data < 64 && i <= 6
    ensures Quotient(data, i) == 0
  {
    hide Xor, Twice, Top, VersionRemainder;
    if i > 0 {
      FirstDigits(data, i - 1);
      FirstRemainders(data);
      MultipleOfNone(0);
    }
  }

  lemma QuotientNext(data: LongWord, i: nat, bound: LongWord)
    requires data < 64 && i > 0 && Quotient(data, i - 1) < bound <= 0x20
    ensures Quotient(data, i) < bound << 1
  {
    hide Xor, Twice, Top, VersionRemainder;
    RemainderInRange(data, i - 1);
    NextDigit(Quotient(data, i - 1), Top(VersionRemainder(data, i - 1)), bound);
  }

  lemma QuotientInRange(data: LongWord, i: nat)
    requires data < 64 && i <= 12
    ensures Quotient(data, i) < 64 && (i < 12 ==> Quotient(data, i) < 32)
  {
    hide Quotient;
    FirstDigits(data, if i < 6 then i else 6);
    if i > 6 {
      QuotientNext(data, 7, 1);
    }
    if i > 7 {
      QuotientNext(data, 8, 2);
    }
    if i > 8 {
      QuotientNext(data, 9, 4);
    }
    if i > 9 {
      QuotientNext(data, 10, 8);
    }
    if i > 10 {
      QuotientNext(data, 11, 16);
    }
    if i > 11 {
      QuotientNext(data, 12, 32);
    }
  }

  lemma {:induction false} RemainderDivides(data: LongWord, i: nat)
    requires data < 64 && i <= 12
    ensures Xor(Raised(data, i), VersionRemainder(data, i)) == Multiple(Quotient(data, i))
  {
    hide Multiple, DivisionStep, Xor, Twice, Top;
    if i == 0 {
      MultipleOfNone(data);
    } else {
      var raised, rem, q := Raised(data, i - 1), VersionRemainder(data, i - 1), Quotient(data, i - 1);
      RemainderDivides(data, i - 1);
      RemainderInRange(data, i - 1);
      QuotientInRange(data, i - 1);
      StepAddsMultiple(rem);
      XorRegroups(Twice(raised), Twice(rem), Multiple(Top(rem)));
      TwiceXor(raised, rem);
      MultipleTwice(q);
      NextDigit(q, Top(rem), 32);
      MultipleXorBit(Twice(q), Top(rem));
    }
  }

  lemma RaisedByFour(data: LongWord, i: nat)
    requires i >= 4
    ensures Raised(data, i) == TimesSixteen(Raised(data, i - 4))
  {
    hide Twice, TimesSixteen;
    FourTimesTwice(Raised(data, i - 4));
    assert Raised(data, i - 1) == Twice(Raised(data, i - 2));
    assert Raised(data, i - 2) == Twice(Raised(data, i - 3));
    assert Raised(data, i - 3) == Twice(Raised(data, i - 4));
  }

  lemma FourTimesTwice(data: LongWord)
    ensures Twice(Twice(Twice(Twice(data)))) == TimesSixteen(data)
  {
  }

  lemma ThreeTimesFour(data: LongWord)
    ensures TimesSixteen(TimesSixteen(TimesSixteen(data))) == data << 12
  {
  }

  lemma RaisedByNothing(data: LongWord)
    ensures Raised(data, 0) == data
  {
  }

  lemma RaisedByTwelve(data: LongWord)
    ensures Raised(data, 12) == data << 12
  {
    hide Raised, TimesSixteen;
    RaisedByFour(data, 4);
    RaisedByFour(data, 8);
    RaisedByFour(data, 12);
    RaisedByNothing(data);
    ThreeTimesFour(data);
  }

  lemma JoinedIs(data: LongWord, rem: LongWord)
    requires data < 64 && rem < 0x1000
    ensures Joined(data, rem) == Xor(data << 12, rem) && Joined(data, rem) >> 12 == data
  {
  }

  lemma DataInRange(v: int)
    requires IsVersion(v)
    ensures VersionData(v) < 64
  {
  }

  // The version stands in the upper six of eighteen bits, and the word is the product of the polynomial with one of
  // degree below 6: nothing is lost to the width of a word.
  lemma VersionWordIsMultiple(v: int) returns (q: LongWord)
    requires IsVersion(v)
    ensures VersionWord(v) >> 12 == v as LongWord
    ensures q < 64 && VersionWord(v) == Multiple(q)
  {
    hide VersionRemainder, Joined, Multiple, Quotient, Raised, Xor, Twice;
    DataInRange(v);
    var data := VersionData(v);
    RemainderInRange(data, 12);
    RemainderDivides(data, 12);
    RaisedByTwelve(data);
    JoinedIs(data, VersionRemainder(data, 12));
    QuotientInRange(data, 12);
    q := Quotient(data, 12);
  }
}
