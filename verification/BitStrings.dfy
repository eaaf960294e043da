// Fixed-width binary fields, most significant bit first.
module BitStrings {
  import opened Arithmetic

  type Bits = seq<bool>

  function Pow2(n: nat): (p: nat)
    ensures p > 0
  {
    if n == 0 then 1 else 2 * Pow2(n - 1)
  }

  // The low n bits of v.
  function ToBits(v: nat, n: nat): (s: Bits)
    ensures |s| == n
  {
    if n == 0 then [] else ToBits(v / 2, n - 1) + [v % 2 == 1]
  }

  function FromBits(s: Bits): nat
  {
    if s == [] then 0 else 2 * FromBits(s[..|s| - 1]) + if s[|s| - 1] then 1 else 0
  }

  function Zeros(n: nat): (s: Bits)
    ensures |s| == n
    ensures forall k | 0 <= k < n :: !s[k]
  {
    seq(n, _ => false)
  }

  lemma {:induction false} FromBitsToBits(v: nat, n: nat)
    requires v < Pow2(n)
    ensures FromBits(ToBits(v, n)) == v
  {
    if n == 0 {
    } else {
      FromBitsToBits(v / 2, n - 1);
      assert ToBits(v, n)[..n - 1] == ToBits(v / 2, n - 1);
    }
  }

  // Bit k of the field is the binary digit of weight 2^(n-1-k).
  lemma {:induction false} ToBitsAt(v: nat, n: nat, k: nat)
    requires k < n
    ensures ToBits(v, n)[k] == ((v / Pow2(n - 1 - k)) % 2 == 1)
  {
    if k == n - 1 {
      assert Pow2(0) == 1;
    } else {
      ToBitsAt(v / 2, n - 1, k);
      var p := Pow2(n - 2 - k);
      assert Pow2(n - 1 - k) == 2 * p;
      DivDiv(v, p);
    }
  }

  lemma {:induction false} ToBitsZero(n: nat)
    ensures ToBits(0, n) == Zeros(n)
  {
    if n == 0 {
    } else {
      ToBitsZero(n - 1);
    }
  }
}
