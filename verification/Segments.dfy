// Segment modes and the packing of text into segment bits.
module Segments {
  import opened Arithmetic
  import opened BitStrings
  import opened Bytes
  import opened BitBuffer

  const INT16_MAX := 32767

  datatype Mode = Numeric | Alphanumeric | EightBit | Kanji | Eci

  // The four-bit mode indicator.
  function Indicator(mode: Mode): nat {
    match mode
    case Numeric => 0x1
    case Alphanumeric => 0x2
    case EightBit => 0x4
    case Kanji => 0x8
    case Eci => 0x7
  }

  // The exact number of data bits for n characters; the worst case for ECI.
  function BitLengthOf(mode: Mode, n: nat): nat {
    match mode
    case Numeric => (n * 10 + 2) / 3
    case Alphanumeric => (n * 11 + 1) / 2
    case EightBit => n * 8
    case Kanji => n * 13
    case Eci => 24
  }

  // -1 when the characters or the bits they need exceed INT16_MAX.
  method CalcSegmentBitLength(mode: Mode, numChars: nat) returns (result: int)
    requires mode == Eci && numChars <= INT16_MAX ==> numChars == 0
    ensures result == if numChars <= INT16_MAX && BitLengthOf(mode, numChars) <= INT16_MAX
                      then BitLengthOf(mode, numChars) else -1
  {
    if numChars > INT16_MAX {
      return -1;
    }
    result := numChars;
    match mode {
      case Numeric => result := (result * 10 + 2) / 3;
      case Alphanumeric => result := (result * 11 + 1) / 2;
      case EightBit => result := result * 8;
      case Kanji => result := result * 13;
      case Eci => result := 3 * 8;
    }
    if result > INT16_MAX {
      return -1;
    }
  }

  // ----- packing groups of characters -----

  // Characters are numbers below base; each group of up to `group` of them, read as one number in that
  // base, becomes one field of 1 + perChar bits for each character.
  datatype Packing = Packing(base: nat, group: nat, perChar: nat) {
    ghost predicate Fits() {
      base > 0 && group > 0 && forall n: nat | n <= group :: Exp(base, n) <= Pow2(Width(n))
    }

    function Width(n: nat): nat {
      perChar * n + 1
    }
  }

  const NUMERIC_PACKING := Packing(10, 3, 3)
  const ALPHANUMERIC_PACKING := Packing(45, 2, 5)

  function Exp(base: nat, n: nat): nat {
    if n == 0 then 1 else base * Exp(base, n - 1)
  }

  lemma PackingsFit()
    ensures NUMERIC_PACKING.Fits() && ALPHANUMERIC_PACKING.Fits()
  {
    assert Exp(10, 1) == 10 && Exp(10, 2) == 100 && Exp(10, 3) == 1000;
    assert Exp(45, 1) == 45 && Exp(45, 2) == 2025;
    assert Pow2(1) == 2 && Pow2(4) == 16 && Pow2(7) == 128 && Pow2(10) == 1024;
    assert Pow2(6) == 64 && Pow2(11) == 2048;
  }

  type Chars = seq<nat>

  ghost predicate Below(chars: Chars, base: nat) {
    forall k | 0 <= k < |chars| :: chars[k] < base
  }

  function Number(chars: Chars, base: nat): nat {
    if chars == [] then 0 else base * Number(chars[..|chars| - 1], base) + chars[|chars| - 1]
  }

  function Digits(v: nat, n: nat, base: nat): (chars: Chars)
    requires base > 0
    ensures |chars| == n
    decreases n
  {
    if n == 0 then [] else Digits(Div(v, base), n - 1, base) + [Mod(v, base)]
  }

  lemma DigitsStep(v: nat, d: nat, n: nat, base: nat)
    requires d < base
    ensures Digits(base * v + d, n + 1, base) == Digits(v, n, base) + [d]
  {
    QuotientUnique(base * v + d, base, v, d);
  }

  lemma NextBelow(base: nat, v: nat, d: nat, bound: nat)
    requires v < bound && d < base
    ensures base * v + d < base * bound
  {
    TimesMonotone(base, v + 1, bound);
  }

  lemma {:induction false} DigitsOfNumber(chars: Chars, base: nat)
    requires base > 0 && Below(chars, base)
    ensures Number(chars, base) < Exp(base, |chars|)
    ensures Digits(Number(chars, base), |chars|, base) == chars
  {
    hide Digits;
    if chars == [] {
      assert Digits(0, 0, base) == [];
    } else {
      var n := |chars| - 1;
      var rest := Number(chars[..n], base);
      DigitsOfNumber(chars[..n], base);
      NextBelow(base, rest, chars[n], Exp(base, n));
      DigitsStep(rest, chars[n], n, base);
    }
  }

  function Pack(chars: Chars, p: Packing): Bits
    requires p.group > 0
  {
    if chars == [] then []
    else
      var n := if |chars| < p.group then |chars| else p.group;
      ToBits(Number(chars[..n], p.base), p.Width(n)) + Pack(chars[n..], p)
  }

  function Unpack(bits: Bits, count: nat, p: Packing): Chars
    requires p.group > 0 && p.base > 0
    decreases count
  {
    if count == 0 then []
    else
      var n := if count < p.group then count else p.group;
      if |bits| < p.Width(n) then []
      else Digits(FromBits(bits[..p.Width(n)]), n, p.base) + Unpack(bits[p.Width(n)..], count - n, p)
  }

  // Unpacking the bits of the right number of characters returns the characters.
  lemma {:induction false} UnpackPack(chars: Chars, p: Packing)
    requires p.Fits() && Below(chars, p.base)
    ensures Unpack(Pack(chars, p), |chars|, p) == chars
    decreases |chars|
  {
    hide Number, Digits, Exp, Pow2, ToBits, FromBits;
    if chars != [] {
      var n := if |chars| < p.group then |chars| else p.group;
      var v := Number(chars[..n], p.base);
      var field := ToBits(v, p.Width(n));
      DigitsOfNumber(chars[..n], p.base);
      FromBitsToBits(v, p.Width(n));
      UnpackPack(chars[n..], p);
      assert Pack(chars, p)[..p.Width(n)] == field;
      assert Pack(chars, p)[p.Width(n)..] == Pack(chars[n..], p);
      assert chars[..n] + chars[n..] == chars;
    }
  }

  lemma GroupStep(n: nat, g: nat, w: nat)
    requires g > 0
    ensures (n + g) % g == n % g && (n + g) / g * w == w + n / g * w
  {
    Quotient(n, g);
    QuotientUnique(n + g, g, n / g + 1, n % g);
  }

  lemma {:induction false} PackLength(chars: Chars, p: Packing)
    requires p.group > 0
    ensures |Pack(chars, p)| == |chars| / p.group * p.Width(p.group) +
                                if |chars| % p.group == 0 then 0 else p.Width(|chars| % p.group)
    decreases |chars|
  {
    hide ToBits, Number, Packing.Width, Pack;
    PackUnfolds(chars, p);
    if |chars| < p.group {
      QuotientUnique(|chars|, p.group, 0, |chars|);
    } else {
      PackLength(chars[p.group..], p);
      GroupStep(|chars| - p.group, p.group, p.Width(p.group));
    }
  }

  lemma PackUnfolds(chars: Chars, p: Packing)
    requires p.group > 0
    ensures |chars| >= p.group ==> |Pack(chars, p)| == p.Width(p.group) + |Pack(chars[p.group..], p)|
    ensures 0 < |chars| < p.group ==> |Pack(chars, p)| == p.Width(|chars|)
    ensures chars == [] ==> Pack(chars, p) == []
  {
    hide ToBits, Number;
    if 0 < |chars| < p.group {
      assert chars[|chars|..] == [];
    }
  }

  // The bit lengths promised for numeric and alphanumeric segments are exact.
  lemma PackLengthExact(chars: Chars)
    ensures |Pack(chars, NUMERIC_PACKING)| == BitLengthOf(Numeric, |chars|)
    ensures |Pack(chars, ALPHANUMERIC_PACKING)| == BitLengthOf(Alphanumeric, |chars|)
  {
    PackLength(chars, NUMERIC_PACKING);
    PackLength(chars, ALPHANUMERIC_PACKING);
  }

  lemma {:induction false} PackAppend(a: Chars, b: Chars, p: Packing)
    requires p.group > 0 && |a| % p.group == 0
    ensures Pack(a + b, p) == Pack(a, p) + Pack(b, p)
    decreases |a|
  {
    hide ToBits, Number, Packing.Width;
    var g := p.group;
    if a == [] {
      assert a + b == b;
    } else {
      if |a| < g {
        QuotientUnique(|a|, g, 0, |a|);
      }
      Quotient(|a|, g);
      QuotientUnique(|a| - g, g, |a| / g - 1, 0);
      PackAppend(a[g..], b, p);
      assert (a + b)[..g] == a[..g] && (a + b)[g..] == a[g..] + b;
    }
  }

  // ----- text -----

  predicate IsNumeric(text: string) {
    forall i | 0 <= i < |text| :: '0' <= text[i] <= '9'
  }

  const ALPHANUMERIC_CHARSET := "0123456789" + "ABCDEFGHIJKLMNOPQRSTUVWXYZ" + " $%*+-./:"

  predicate InCharset(c: char) {
    c in ALPHANUMERIC_CHARSET
  }

  predicate IsAlphanumeric(text: string) {
    forall i | 0 <= i < |text| :: InCharset(text[i])
  }

  // The index of the first occurrence of c.
  function IndexIn(charset: string, c: char): (i: nat)
    requires c in charset
    ensures i < |charset| && charset[i] == c
  {
    if charset[0] == c then 0 else 1 + IndexIn(charset[1..], c)
  }

  // The number of a character of the set.
  function CharsetValue(c: char): (v: nat)
    requires InCharset(c)
    ensures v < 45 && ALPHANUMERIC_CHARSET[v] == c
  {
    IndexIn(ALPHANUMERIC_CHARSET, c)
  }

  function DigitValues(text: string): (chars: Chars)
    requires IsNumeric(text)
    ensures |chars| == |text|
  {
    seq(|text|, i requires 0 <= i < |text| => (text[i] - '0') as int)
  }

  function CharsetValues(text: string): (chars: Chars)
    requires IsAlphanumeric(text)
    ensures |chars| == |text|
  {
    seq(|text|, i requires 0 <= i < |text| => CharsetValue(text[i]))
  }

  // Reading the payload of a text segment.
  function DecodeNumeric(bits: Bits, count: nat): string {
    var chars := Unpack(bits, count, NUMERIC_PACKING);
    seq(|chars|, i requires 0 <= i < |chars| => ((chars[i] % 10) as char) + '0')
  }

  function CharsetAt(v: nat): char {
    ALPHANUMERIC_CHARSET[v % 45]
  }

  function DecodeAlphanumeric(bits: Bits, count: nat): string {
    var chars := Unpack(bits, count, ALPHANUMERIC_PACKING);
    seq(|chars|, i requires 0 <= i < |chars| => CharsetAt(chars[i]))
  }

  lemma NumericRoundTrip(text: string)
    requires IsNumeric(text)
    ensures DecodeNumeric(Pack(DigitValues(text), NUMERIC_PACKING), |text|) == text
  {
    hide Pack, Unpack;
    PackingsFit();
    UnpackPack(DigitValues(text), NUMERIC_PACKING);
  }

  lemma CharsetAtValue(c: char)
    requires InCharset(c)
    ensures CharsetAt(CharsetValue(c)) == c
  {
    hide InCharset, CharsetValue;
    var v := CharsetValue(c);
    assert v % 45 == v;
  }

  lemma AlphanumericRoundTrip(text: string)
    requires IsAlphanumeric(text)
    ensures DecodeAlphanumeric(Pack(CharsetValues(text), ALPHANUMERIC_PACKING), |text|) == text
  {
    hide Pack, Unpack, CharsetValue, InCharset, CharsetAt;
    PackingsFit();
    UnpackPack(CharsetValues(text), ALPHANUMERIC_PACKING);
    forall i | 0 <= i < |text|
      ensures CharsetAt(CharsetValue(text[i])) == text[i]
    {
      CharsetAtValue(text[i]);
    }
  }

  lemma NumberOfNothing(chars: Chars, i: nat, base: nat)
    requires i <= |chars|
    ensures Number(chars[i..i], base) == 0
  {
  }

  // One more character of the group being accumulated.
  lemma Accumulate(chars: Chars, from: nat, i: nat, base: nat)
    requires from <= i < |chars|
    ensures Number(chars[from..i + 1], base) == base * Number(chars[from..i], base) + chars[i]
  {
    assert chars[from..i + 1][..i - from] == chars[from..i];
  }

  lemma NumberFits(chars: Chars, from: nat, to: nat, p: Packing)
    requires p.Fits() && Below(chars, p.base)
    requires from <= to <= |chars| && to - from <= p.group
    ensures Number(chars[from..to], p.base) < Pow2(p.Width(to - from))
  {
    hide Exp, Pow2, Packing.Width, Number;
    DigitsOfNumber(chars[from..to], p.base);
    assert Exp(p.base, to - from) <= Pow2(p.Width(to - from));
  }

  // Flushing a full group, or the last one.
  lemma Flush(chars: Chars, from: nat, to: nat, p: Packing)
    requires p.group > 0 && from < to <= |chars| && from % p.group == 0
    requires to - from == p.group || (to == |chars| && to - from < p.group)
    ensures Pack(chars[..to], p) == Pack(chars[..from], p) + ToBits(Number(chars[from..to], p.base), p.Width(to - from))
    ensures to - from == p.group ==> to % p.group == 0
  {
    hide ToBits, Number;
    assert chars[..to] == chars[..from] + chars[from..to];
    PackAppend(chars[..from], chars[from..to], p);
    assert chars[from..to][..to - from] == chars[from..to] && chars[from..to][to - from..] == [];
    Quotient(from, p.group);
    if to - from == p.group {
      QuotientUnique(to, p.group, from / p.group + 1, 0);
    }
  }

  // The buffer holds the packing of the first `count` characters.
  ghost predicate Packed(buffer: seq<Byte>, n: nat, bitLength: nat, chars: Chars, count: nat, p: Packing)
    requires count <= |chars| && p.group > 0
  {
    bitLength == |Pack(chars[..count], p)| && Holds(buffer, n, Pack(chars[..count], p))
  }

  lemma NothingPacked(buffer: seq<Byte>, n: nat, chars: Chars, p: Packing)
    requires p.group > 0 && Holds(buffer, n, [])
    ensures Packed(buffer, n, 0, chars, 0, p)
  {
    assert chars[..0] == [];
    hide Holds;
  }

  lemma AllPacked(buffer: seq<Byte>, n: nat, bitLength: nat, chars: Chars, p: Packing)
    requires p.group > 0 && Packed(buffer, n, bitLength, chars, |chars|, p)
    ensures bitLength == |Pack(chars, p)| && Holds(buffer, n, Pack(chars, p))
  {
    hide Holds, Pack;
    assert chars[..|chars|] == chars;
  }

  method AppendGroup(accumData: nat, width: nat, buf: array<Byte>, bitLength: nat,
                     ghost n: nat, ghost chars: Chars, ghost from: nat, ghost to: nat, ghost p: Packing)
    returns (newLength: nat)
    requires p.Fits() && Below(chars, p.base)
    requires from < to <= |chars| && from % p.group == 0
    requires to - from == p.group || (to == |chars| && to - from < p.group)
    requires accumData == Number(chars[from..to], p.base) && width == p.Width(to - from) <= 16
    requires |Pack(chars[..to], p)| <= 8 * n && n <= buf.Length
    requires Packed(buf[..], n, bitLength, chars, from, p)
    modifies buf
    ensures Packed(buf[..], n, newLength, chars, to, p)
    ensures to - from == p.group ==> to % p.group == 0
    ensures forall k | n <= k < buf.Length :: buf[k] == old(buf[k])
  {
    hide Holds, Pack, Number, ToBits, Pow2;
    Flush(chars, from, to, p);
    NumberFits(chars, from, to, p);
    newLength := AppendBits(accumData, width, buf, bitLength, n, Pack(chars[..from], p));
  }

  // The first i characters are packed, except for the last accumCount, which make up accumData.
  ghost predicate Accumulating(buffer: seq<Byte>, n: nat, bitLength: nat, accumData: nat, accumCount: nat,
                               chars: Chars, i: nat, p: Packing)
    requires p.group > 0
  {
    accumCount < p.group && accumCount <= i <= |chars| && (i - accumCount) % p.group == 0 &&
    accumData == Number(chars[i - accumCount..i], p.base) && Packed(buffer, n, bitLength, chars, i - accumCount, p)
  }

  lemma StartAccumulating(buffer: seq<Byte>, n: nat, chars: Chars, p: Packing)
    requires p.group > 0 && Holds(buffer, n, [])
    ensures Accumulating(buffer, n, 0, 0, 0, chars, 0, p)
  {
    hide Holds, Packed, Number;
    NumberOfNothing(chars, 0, p.base);
    NothingPacked(buffer, n, chars, p);
  }

  // Takes one more character, and appends the group if that fills it.
  method AccumulateChar(value: nat, width: nat, buf: array<Byte>, bitLength: nat, accumData: nat, accumCount: nat,
                        ghost n: nat, ghost chars: Chars, i: nat, p: Packing)
    returns (newLength: nat, newData: nat, newCount: nat)
    requires p.Fits() && Below(chars, p.base) && i < |chars| && value == chars[i] && width == p.Width(p.group) <= 16
    requires n <= buf.Length && forall k | 0 <= k <= |chars| :: |Pack(chars[..k], p)| <= 8 * n
    requires Accumulating(buf[..], n, bitLength, accumData, accumCount, chars, i, p)
    modifies buf
    ensures Accumulating(buf[..], n, newLength, newData, newCount, chars, i + 1, p)
    ensures forall k | n <= k < buf.Length :: buf[k] == old(buf[k])
  {
    hide Holds, Packed, Pack, Number, Below;
    ghost var from := i - accumCount;
    Accumulate(chars, from, i, p.base);
    newLength, newData, newCount := bitLength, accumData * p.base + value, accumCount + 1;
    assert newData == Number(chars[from..i + 1], p.base);
    if newCount == p.group {
      newLength := AppendGroup(newData, width, buf, bitLength, n, chars, from, i + 1, p);
      newData, newCount := 0, 0;
      NumberOfNothing(chars, i + 1, p.base);
    }
  }

  // Appends the last group, if it is not full.
  method FlushRest(width: nat, buf: array<Byte>, bitLength: nat, accumData: nat, accumCount: nat,
                   ghost n: nat, ghost chars: Chars, ghost p: Packing)
    returns (newLength: nat)
    requires p.Fits() && Below(chars, p.base) && (accumCount > 0 ==> width == p.Width(accumCount) <= 16)
    requires n <= buf.Length && forall k | 0 <= k <= |chars| :: |Pack(chars[..k], p)| <= 8 * n
    requires Accumulating(buf[..], n, bitLength, accumData, accumCount, chars, |chars|, p)
    modifies buf
    ensures newLength == |Pack(chars, p)| && Holds(buf[..], n, Pack(chars, p))
    ensures forall k | n <= k < buf.Length :: buf[k] == old(buf[k])
  {
    hide Holds, Packed, Pack, Number, Below;
    newLength := bitLength;
    if accumCount > 0 {
      newLength := AppendGroup(accumData, width, buf, bitLength, n, chars, |chars| - accumCount, |chars|, p);
    }
    AllPacked(buf[..], n, newLength, chars, p);
  }

  // Any first characters take no more room than all of them.
  lemma PackingRoom(chars: Chars, n: nat)
    ensures BitLengthOf(Numeric, |chars|) <= 8 * n ==>
              forall k | 0 <= k <= |chars| :: |Pack(chars[..k], NUMERIC_PACKING)| <= 8 * n
    ensures BitLengthOf(Alphanumeric, |chars|) <= 8 * n ==>
              forall k | 0 <= k <= |chars| :: |Pack(chars[..k], ALPHANUMERIC_PACKING)| <= 8 * n
  {
    hide Pack;
    forall k | 0 <= k <= |chars|
      ensures |Pack(chars[..k], NUMERIC_PACKING)| == BitLengthOf(Numeric, k)
      ensures |Pack(chars[..k], ALPHANUMERIC_PACKING)| == BitLengthOf(Alphanumeric, k)
    {
      PackLengthExact(chars[..k]);
    }
  }

  lemma DigitsBelow(digits: string)
    requires IsNumeric(digits)
    ensures Below(DigitValues(digits), 10)
  {
  }

  lemma CharsetValuesBelow(text: string)
    requires IsAlphanumeric(text)
    ensures Below(CharsetValues(text), 45)
  {
    hide CharsetValue, InCharset;
  }

  method MakeNumeric(digits: string, buf: array<Byte>) returns (numChars: nat, bitLength: nat)
    requires IsNumeric(digits)
    requires |digits| <= INT16_MAX && BitLengthOf(Numeric, |digits|) <= INT16_MAX
    requires (BitLengthOf(Numeric, |digits|) + 7) / 8 <= buf.Length
    modifies buf
    ensures numChars == |digits| && bitLength == BitLengthOf(Numeric, |digits|)
    ensures Holds(buf[..], (bitLength + 7) / 8, Pack(DigitValues(digits), NUMERIC_PACKING))
    ensures forall k | (bitLength + 7) / 8 <= k < buf.Length :: buf[k] == old(buf[k])
  {
    hide Holds, Pack, Packing.Fits, Accumulating, Below;
    var bitLen := CalcSegmentBitLength(Numeric, |digits|);
    numChars := |digits|;
    ghost var chars := DigitValues(digits);
    var p := NUMERIC_PACKING;
    var n := (bitLen + 7) / 8;
    PackingsFit();
    DigitsBelow(digits);
    PackingRoom(chars, n);
    Clear(buf, n);
    bitLength := 0;
    var accumData: nat, accumCount: nat := 0, 0;
    StartAccumulating(buf[..], n, chars, p);
    for i := 0 to |digits|
      invariant Accumulating(buf[..], n, bitLength, accumData, accumCount, chars, i, p)
      invariant forall k | n <= k < buf.Length :: buf[k] == old(buf[k])
    {
      bitLength, accumData, accumCount :=
        AccumulateChar((digits[i] - '0') as int, 10, buf, bitLength, accumData, accumCount, n, chars, i, p);
    }
    LessThanAGroup(buf[..], n, bitLength, accumData, accumCount, chars, |digits|, p);
    PackLengthExact(chars);
    bitLength := FlushRest(accumCount * 3 + 1, buf, bitLength, accumData, accumCount, n, chars, p);
  }

  method MakeAlphanumeric(text: string, buf: array<Byte>) returns (numChars: nat, bitLength: nat)
    requires IsAlphanumeric(text)
    requires |text| <= INT16_MAX && BitLengthOf(Alphanumeric, |text|) <= INT16_MAX
    requires (BitLengthOf(Alphanumeric, |text|) + 7) / 8 <= buf.Length
    modifies buf
    ensures numChars == |text| && bitLength == BitLengthOf(Alphanumeric, |text|)
    ensures Holds(buf[..], (bitLength + 7) / 8, Pack(CharsetValues(text), ALPHANUMERIC_PACKING))
    ensures forall k | (bitLength + 7) / 8 <= k < buf.Length :: buf[k] == old(buf[k])
  {
    hide Holds, Pack, Packing.Fits, Accumulating, Below, CharsetValue, InCharset;
    var bitLen := CalcSegmentBitLength(Alphanumeric, |text|);
    numChars := |text|;
    ghost var chars := CharsetValues(text);
    var p := ALPHANUMERIC_PACKING;
    var n := (bitLen + 7) / 8;
    PackingsFit();
    CharsetValuesBelow(text);
    PackingRoom(chars, n);
    Clear(buf, n);
    bitLength := 0;
    var accumData: nat, accumCount: nat := 0, 0;
    StartAccumulating(buf[..], n, chars, p);
    for i := 0 to |text|
      invariant Accumulating(buf[..], n, bitLength, accumData, accumCount, chars, i, p)
      invariant forall k | n <= k < buf.Length :: buf[k] == old(buf[k])
    {
      bitLength, accumData, accumCount :=
        AccumulateChar(CharsetValue(text[i]), 11, buf, bitLength, accumData, accumCount, n, chars, i, p);
    }
    LessThanAGroup(buf[..], n, bitLength, accumData, accumCount, chars, |text|, p);
    PackLengthExact(chars);
    bitLength := FlushRest(6, buf, bitLength, accumData, accumCount, n, chars, p);
  }

  lemma LessThanAGroup(buffer: seq<Byte>, n: nat, bitLength: nat, accumData: nat, accumCount: nat, chars: Chars, i: nat,
                       p: Packing)
    requires p.group > 0 && Accumulating(buffer, n, bitLength, accumData, accumCount, chars, i, p)
    ensures accumCount < p.group
  {
    hide Packed, Number;
  }

  // ----- ECI designators -----

  // One, two or three bytes, told apart by their leading bits.
  function EciBits(assignVal: nat): Bits
    requires assignVal < 1000000
  {
    if assignVal < 0x80 then ToBits(assignVal, 8)
    else if assignVal < 0x4000 then ToBits(2, 2) + ToBits(assignVal, 14)
    else ToBits(6, 3) + ToBits(assignVal / 0x400, 11) + ToBits(assignVal % 0x400, 10)
  }

  // The length of the designator that starts these bits, by its leading ones.
  function EciLength(bits: Bits): nat {
    if |bits| > 0 && !bits[0] then 8
    else if |bits| > 1 && !bits[1] then 16
    else 24
  }

  function DecodeEci(bits: Bits): nat {
    match EciLength(bits)
    case 8 => FromBits(bits)
    case 16 => FromBits(bits) % 0x4000
    case _ => FromBits(bits) % 0x200000
  }

  lemma DoubleProduct(x: nat, p: nat)
    ensures x * (2 * p) == 2 * (x * p)
  {
  }

  lemma {:induction false} FromBitsAppend(a: Bits, b: Bits)
    ensures FromBits(a + b) == FromBits(a) * Pow2(|b|) + FromBits(b)
  {
    if b == [] {
      assert a + b == a;
    } else {
      var n := |b| - 1;
      FromBitsAppend(a, b[..n]);
      assert (a + b)[..|a + b| - 1] == a + b[..n];
      DoubleProduct(FromBits(a), Pow2(n));
      hide FromBits;
    }
  }

  lemma EciShapes(assignVal: nat)
    requires assignVal < 1000000
    ensures var bits := EciBits(assignVal);
            |bits| == if assignVal < 0x80 then 8 else if assignVal < 0x4000 then 16 else 24
    ensures EciLength(EciBits(assignVal)) == |EciBits(assignVal)|
  {
    assert ToBits(2, 2) == [true, false] && ToBits(6, 3) == [true, true, false];
    if assignVal < 0x80 {
      ToBitsAt(assignVal, 8, 0);
      assert Pow2(7) == 128;
    }
    hide ToBits;
  }

  lemma TwoFields(u: nat, m: nat, v: nat, n: nat)
    requires u < Pow2(m) && v < Pow2(n)
    ensures FromBits(ToBits(u, m) + ToBits(v, n)) == u * Pow2(n) + v
  {
    hide ToBits, FromBits, Pow2;
    FromBitsToBits(u, m);
    FromBitsToBits(v, n);
    FromBitsAppend(ToBits(u, m), ToBits(v, n));
  }

  lemma ThreeFields(t: nat, l: nat, u: nat, m: nat, v: nat, n: nat)
    requires t < Pow2(l) && u < Pow2(m) && v < Pow2(n)
    ensures FromBits(ToBits(t, l) + ToBits(u, m) + ToBits(v, n)) == (t * Pow2(m) + u) * Pow2(n) + v
  {
    hide ToBits, FromBits, Pow2;
    FromBitsToBits(v, n);
    TwoFields(t, l, u, m);
    FromBitsAppend(ToBits(t, l) + ToBits(u, m), ToBits(v, n));
  }

  lemma EciValue(assignVal: nat)
    requires assignVal < 1000000
    ensures FromBits(EciBits(assignVal)) ==
            if assignVal < 0x80 then assignVal
            else if assignVal < 0x4000 then 0x8000 + assignVal
            else 0xC00000 + assignVal
  {
    assert Pow2(2) == 4 && Pow2(3) == 8 && Pow2(8) == 0x100;
    assert Pow2(10) == 0x400 && Pow2(11) == 0x800 && Pow2(14) == 0x4000;
    hide Pow2, ToBits, FromBits;
    if assignVal < 0x80 {
      FromBitsToBits(assignVal, 8);
    } else if assignVal < 0x4000 {
      TwoFields(2, 2, assignVal, 14);
    } else {
      ThreeFields(6, 3, assignVal / 0x400, 11, assignVal % 0x400, 10);
    }
  }

  lemma EciRoundTrip(assignVal: nat)
    requires assignVal < 1000000
    ensures DecodeEci(EciBits(assignVal)) == assignVal
  {
    hide EciBits, EciLength, FromBits;
    EciShapes(assignVal);
    EciValue(assignVal);
  }

  method MakeEci(assignVal: nat, buf: array<Byte>) returns (bitLength: nat)
    requires assignVal < 1000000
    requires |EciBits(assignVal)| <= 8 * buf.Length
    modifies buf
    ensures bitLength == |EciBits(assignVal)|
    ensures Holds(buf[..], bitLength / 8, EciBits(assignVal))
  {
    hide Holds, ToBits;
    assert Pow2(8) == 0x100 && Pow2(10) == 0x400 && Pow2(11) == 0x800 && Pow2(14) == 0x4000;
    assert Pow2(2) == 4 && Pow2(3) == 8;
    hide Pow2;
    bitLength := 0;
    if assignVal < 0x80 {
      Clear(buf, 1);
      bitLength := AppendBits(assignVal, 8, buf, bitLength, 1, []);
      assert [] + ToBits(assignVal, 8) == ToBits(assignVal, 8);
    } else if assignVal < 0x4000 {
      Clear(buf, 2);
      bitLength := AppendBits(2, 2, buf, bitLength, 2, []);
      assert [] + ToBits(2, 2) == ToBits(2, 2);
      bitLength := AppendBits(assignVal, 14, buf, bitLength, 2, ToBits(2, 2));
    } else {
      Clear(buf, 3);
      bitLength := AppendBits(6, 3, buf, bitLength, 3, []);
      assert [] + ToBits(6, 3) == ToBits(6, 3);
      bitLength := AppendBits(assignVal / 0x400, 11, buf, bitLength, 3, ToBits(6, 3));
      bitLength := AppendBits(assignVal % 0x400, 10, buf, bitLength, 3, ToBits(6, 3) + ToBits(assignVal / 0x400, 11));
    }
  }
}
