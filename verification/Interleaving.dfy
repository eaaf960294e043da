// Splitting data codewords into blocks, adding error correction to each, and interleaving the blocks.
module Interleaving {
  import opened Arithmetic
  import opened Bytes
  import opened ReedSolomon
  import opened ErrorCorrection

  // raw codewords in `blocks` blocks, each ending in eccLen error correction codewords.
  datatype Layout = Layout(blocks: nat, eccLen: nat, raw: nat) {

    predicate Sound() {
      1 <= blocks && 1 <= eccLen <= MAX_DEGREE && eccLen <= raw / blocks
    }

    function NumShort(): nat
      requires Sound()
    {
      blocks - raw % blocks
    }

    // The number of data codewords in a short block; a long block has one more.
    function ShortLen(): nat
      requires Sound()
    {
      raw / blocks - eccLen
    }

    function DataLen(): nat
      requires Sound()
    {
      TimesMonotone(blocks, eccLen, raw / blocks);
      raw - eccLen * blocks
    }

    function BlockLen(i: nat): nat
      requires Sound()
    {
      ShortLen() + if i < NumShort() then 0 else 1
    }

    function BlockStart(i: nat): nat
      requires Sound()
    {
      i * ShortLen() + if i < NumShort() then 0 else i - NumShort()
    }
  }

  // The place of a codeword within its block.
  datatype Slot = Data(block: nat, offset: nat) | Ecc(block: nat, offset: nat)

  predicate ValidSlot(l: Layout, s: Slot)
    requires l.Sound()
  {
    s.block < l.blocks && s.offset < if s.Data? then l.BlockLen(s.block) else l.eccLen
  }

  // Where a slot goes in the interleaved sequence.
  function IndexOf(l: Layout, s: Slot): int
    requires l.Sound()
  {
    match s
    case Data(i, j) => i + j * l.blocks - if j < l.ShortLen() then 0 else l.NumShort()
    case Ecc(i, j) => l.DataLen() + i + j * l.blocks
  }

  // Which slot comes k-th in the interleaved sequence.
  function SlotOf(l: Layout, k: nat): Slot
    requires l.Sound() && k < l.raw
  {
    hide Layout.ShortLen, Layout.NumShort, Layout.DataLen;
    Arithmetic.Quotient(k, l.blocks);
    Arithmetic.Quotient(if k < l.DataLen() then 0 else k - l.DataLen(), l.blocks);
    if k < l.ShortLen() * l.blocks then Data(k % l.blocks, k / l.blocks)
    else if k < l.DataLen() then Data(k - l.ShortLen() * l.blocks + l.NumShort(), l.ShortLen())
    else Ecc((k - l.DataLen()) % l.blocks, (k - l.DataLen()) / l.blocks)
  }

  lemma LayoutSizes(l: Layout)
    requires l.Sound()
    ensures l.DataLen() == l.ShortLen() * l.blocks + (l.blocks - l.NumShort())
    ensures 1 <= l.NumShort() <= l.blocks
    ensures l.raw == l.DataLen() + l.eccLen * l.blocks
  {
    var q := l.raw / l.blocks;
    assert l.raw == q * l.blocks + l.raw % l.blocks;
    assert (l.ShortLen() + l.eccLen) * l.blocks == l.ShortLen() * l.blocks + l.eccLen * l.blocks;
  }

  lemma BlocksAreConsecutive(l: Layout, i: nat)
    requires l.Sound() && i < l.blocks
    ensures l.BlockStart(i) + l.BlockLen(i) == l.BlockStart(i + 1)
    ensures l.BlockStart(l.blocks) == l.DataLen()
  {
    LayoutSizes(l);
    assert (i + 1) * l.ShortLen() == i * l.ShortLen() + l.ShortLen();
    assert l.blocks * l.ShortLen() == l.ShortLen() * l.blocks;
  }

  lemma {:induction false} BlockWithinData(l: Layout, i: nat, n: nat)
    requires l.Sound() && i <= n <= l.blocks
    ensures l.BlockStart(i) <= l.BlockStart(n)
    decreases n - i
  {
    if i < n {
      BlocksAreConsecutive(l, i);
      BlockWithinData(l, i + 1, n);
    }
  }

  lemma RowColumn(n: nat, i: nat, j: nat, rows: nat)
    requires i < n && j < rows
    ensures i + j * n < rows * n
    ensures (i + j * n) / n == j && (i + j * n) % n == i
  {
    TimesMonotone(n, j + 1, rows);
    QuotientUnique(i + j * n, n, j, i);
  }

  ghost predicate Inverts(l: Layout, s: Slot)
    requires l.Sound()
  {
    var k := IndexOf(l, s);
    0 <= k < l.raw && (s.Data? <==> k < l.DataLen()) && SlotOf(l, k) == s
  }

  lemma EccSlotInverts(l: Layout, i: nat, j: nat)
    requires l.Sound() && i < l.blocks && j < l.eccLen
    ensures Inverts(l, Ecc(i, j))
  {
    LayoutSizes(l);
    RowColumn(l.blocks, i, j, l.eccLen);
    hide Layout.ShortLen, Layout.NumShort, Layout.DataLen;
  }

  lemma DataSlotInverts(l: Layout, i: nat, j: nat)
    requires l.Sound() && i < l.blocks && j < l.ShortLen()
    ensures Inverts(l, Data(i, j))
  {
    LayoutSizes(l);
    RowColumn(l.blocks, i, j, l.ShortLen());
    hide Layout.ShortLen, Layout.NumShort, Layout.DataLen;
  }

  lemma LastDataSlotInverts(l: Layout, i: nat)
    requires l.Sound() && l.NumShort() <= i < l.blocks
    ensures Inverts(l, Data(i, l.ShortLen()))
  {
    LayoutSizes(l);
    hide Layout.ShortLen, Layout.NumShort, Layout.DataLen;
  }

  lemma IndexOfValid(l: Layout, s: Slot)
    requires l.Sound() && ValidSlot(l, s)
    ensures 0 <= IndexOf(l, s) < l.raw
    ensures s.Data? <==> IndexOf(l, s) < l.DataLen()
    ensures SlotOf(l, IndexOf(l, s)) == s
  {
    hide IndexOf, SlotOf, Layout.ShortLen, Layout.NumShort, Layout.DataLen;
    match s
    case Ecc(i, j) => EccSlotInverts(l, i, j);
    case Data(i, j) =>
      if j < l.ShortLen() {
        DataSlotInverts(l, i, j);
      } else {
        LastDataSlotInverts(l, i);
      }
  }

  // The k-th place of `rows` rows of n lies in row k / n.
  lemma RowOf(n: nat, rows: nat, k: nat)
    requires n > 0 && k < rows * n
    ensures 0 <= k % n < n && 0 <= k / n < rows && k % n + k / n * n == k
  {
    Arithmetic.Quotient(k, n);
    if k / n >= rows {
      TimesMonotone(n, rows, k / n);
    }
  }

  lemma DataPlaceValid(l: Layout, k: nat)
    requires l.Sound() && k < l.ShortLen() * l.blocks
    ensures k < l.raw && SlotOf(l, k).Data? && SlotOf(l, k).offset < l.ShortLen()
    ensures ValidSlot(l, SlotOf(l, k)) && IndexOf(l, SlotOf(l, k)) == k
  {
    LayoutSizes(l);
    RowOf(l.blocks, l.ShortLen(), k);
    hide Layout.ShortLen, Layout.NumShort, Layout.DataLen;
  }

  lemma LastDataPlaceValid(l: Layout, k: nat)
    requires l.Sound() && l.ShortLen() * l.blocks <= k < l.DataLen()
    ensures k < l.raw && ValidSlot(l, SlotOf(l, k)) && IndexOf(l, SlotOf(l, k)) == k
  {
    LayoutSizes(l);
    hide Layout.ShortLen, Layout.NumShort, Layout.DataLen;
  }

  lemma EccPlaceValid(l: Layout, k: nat)
    requires l.Sound() && l.DataLen() <= k < l.raw
    ensures ValidSlot(l, SlotOf(l, k)) && IndexOf(l, SlotOf(l, k)) == k
  {
    LayoutSizes(l);
    RowOf(l.blocks, l.eccLen, k - l.DataLen());
    hide Layout.ShortLen, Layout.NumShort, Layout.DataLen;
  }

  lemma SlotOfValid(l: Layout, k: nat)
    requires l.Sound() && k < l.raw
    ensures ValidSlot(l, SlotOf(l, k))
    ensures IndexOf(l, SlotOf(l, k)) == k
  {
    hide IndexOf, SlotOf, ValidSlot, Layout.ShortLen, Layout.NumShort, Layout.DataLen;
    if k < l.ShortLen() * l.blocks {
      DataPlaceValid(l, k);
    } else if k < l.DataLen() {
      LastDataPlaceValid(l, k);
    } else {
      EccPlaceValid(l, k);
    }
  }

  // ----- the interleaved codewords and their inverse -----

  function BlockData(l: Layout, data: Poly, i: nat): (b: Poly)
    requires l.Sound() && |data| == l.DataLen() && i < l.blocks
    ensures |b| == l.BlockLen(i)
  {
    BlocksAreConsecutive(l, i);
    BlockWithinData(l, i + 1, l.blocks);
    data[l.BlockStart(i)..l.BlockStart(i) + l.BlockLen(i)]
  }

  function Content(l: Layout, data: Poly, s: Slot): Byte
    requires l.Sound() && |data| == l.DataLen() && ValidSlot(l, s)
  {
    match s
    case Data(i, j) => BlockData(l, data, i)[j]
    case Ecc(i, j) => Remainder(BlockData(l, data, i), Generator(l.eccLen))[j]
  }

  function Interleaved(l: Layout, data: Poly): (w: Poly)
    requires l.Sound() && |data| == l.DataLen()
    ensures |w| == l.raw
  {
    seq(l.raw, k requires 0 <= k < l.raw => SlotOfValid(l, k); Content(l, data, SlotOf(l, k)))
  }

  // Collecting block i from the interleaved sequence.
  function Collected(l: Layout, w: Poly, i: nat): (b: Poly)
    requires l.Sound() && |w| == l.raw && i < l.blocks
    ensures |b| == l.BlockLen(i) + l.eccLen
  {
    seq(l.BlockLen(i) + l.eccLen, j requires 0 <= j < l.BlockLen(i) + l.eccLen =>
      var s := if j < l.BlockLen(i) then Data(i, j) else Ecc(i, j - l.BlockLen(i));
      IndexOfValid(l, s);
      w[IndexOf(l, s)])
  }

  // The data parts of the first n blocks, in order.
  function CollectedData(l: Layout, w: Poly, n: nat): Poly
    requires l.Sound() && |w| == l.raw && n <= l.blocks
  {
    if n == 0 then []
    else CollectedData(l, w, n - 1) + Collected(l, w, n - 1)[..l.BlockLen(n - 1)]
  }

  // De-interleaving recovers each data block followed by its own remainder.
  lemma CollectInterleaved(l: Layout, data: Poly, i: nat)
    requires l.Sound() && |data| == l.DataLen() && i < l.blocks
    ensures Collected(l, Interleaved(l, data), i) == Codeword(BlockData(l, data, i), l.eccLen)
  {
    hide IndexOf, SlotOf, Remainder, Generator;
    var w := Interleaved(l, data);
    var n := l.BlockLen(i);
    forall j | 0 <= j < n + l.eccLen
      ensures Collected(l, w, i)[j] == Codeword(BlockData(l, data, i), l.eccLen)[j]
    {
      var s := if j < n then Data(i, j) else Ecc(i, j - n);
      IndexOfValid(l, s);
    }
  }

  lemma {:induction false} CollectDataPrefix(l: Layout, data: Poly, n: nat)
    requires l.Sound() && |data| == l.DataLen() && n <= l.blocks
    ensures 0 <= l.BlockStart(n) <= |data|
    ensures CollectedData(l, Interleaved(l, data), n) == data[..l.BlockStart(n)]
  {
    hide Interleaved, Collected, Remainder, Generator, Layout.DataLen;
    BlockWithinData(l, n, l.blocks);
    if n == 0 {
      LayoutSizes(l);
      BlocksAreConsecutive(l, 0);
    } else {
      hide Layout.ShortLen, Layout.NumShort, Layout.BlockStart, Layout.BlockLen;
      BlocksAreConsecutive(l, n - 1);
      CollectDataPrefix(l, data, n - 1);
      CollectInterleaved(l, data, n - 1);
    }
  }

  lemma CollectAllData(l: Layout, data: Poly)
    requires l.Sound() && |data| == l.DataLen()
    ensures CollectedData(l, Interleaved(l, data), l.blocks) == data
  {
    CollectDataPrefix(l, data, l.blocks);
    BlocksAreConsecutive(l, 0);
    hide Interleaved, CollectedData;
  }

  // ----- interleaving in place -----

  // The slots written before slot j of the data (or, once inEcc, error correction) part of block i.
  predicate Written(s: Slot, i: nat, inEcc: bool, j: nat) {
    s.block < i || (s.block == i && if inEcc then s.Data? || s.offset < j else s.Data? && s.offset < j)
  }

  ghost predicate FilledAt(l: Layout, data: Poly, result: seq<Byte>, s: Slot)
    requires l.Sound() && |data| == l.DataLen() && |result| >= l.raw && ValidSlot(l, s)
  {
    IndexOfValid(l, s);
    result[IndexOf(l, s)] == Content(l, data, s)
  }

  ghost predicate Filled(l: Layout, data: Poly, result: seq<Byte>, i: nat, inEcc: bool, j: nat)
    requires l.Sound() && |data| == l.DataLen() && |result| >= l.raw
  {
    forall s | ValidSlot(l, s) && Written(s, i, inEcc, j) :: FilledAt(l, data, result, s)
  }

  lemma FillOne(l: Layout, data: Poly, result: seq<Byte>, i: nat, inEcc: bool, j: nat, k: nat, b: Byte)
    requires l.Sound() && |data| == l.DataLen() && |result| >= l.raw
    requires Filled(l, data, result, i, inEcc, j)
    requires var s := if inEcc then Ecc(i, j) else Data(i, j);
             ValidSlot(l, s) && k == IndexOf(l, s) < |result| && b == Content(l, data, s)
    ensures Filled(l, data, result[k := b], i, inEcc, j + 1)
  {
    hide IndexOf, SlotOf, Content;
    var s := if inEcc then Ecc(i, j) else Data(i, j);
    IndexOfValid(l, s);
    forall t | ValidSlot(l, t) && Written(t, i, inEcc, j + 1)
      ensures FilledAt(l, data, result[k := b], t)
    {
      IndexOfValid(l, t);
      if t != s {
        assert FilledAt(l, data, result, t);
      }
    }
  }

  lemma FilledIsInterleaved(l: Layout, data: Poly, result: seq<Byte>)
    requires l.Sound() && |data| == l.DataLen() && |result| >= l.raw
    requires Filled(l, data, result, l.blocks, false, 0)
    ensures result[..l.raw] == Interleaved(l, data)
  {
    hide IndexOf, SlotOf, Content;
    forall k | 0 <= k < l.raw
      ensures result[k] == Interleaved(l, data)[k]
    {
      SlotOfValid(l, k);
      assert FilledAt(l, data, result, SlotOf(l, k));
    }
  }

  method CopyData(l: Layout, data: array<Byte>, dat: nat, i: nat, result: array<Byte>, ghost original: Poly)
    requires l.Sound() && i < l.blocks && dat == l.BlockStart(i)
    requires data != result && l.DataLen() <= data.Length && l.raw <= result.Length
    requires data[..l.DataLen()] == original
    requires Filled(l, original, result[..], i, false, 0)
    modifies result
    ensures Filled(l, original, result[..], i, false, l.BlockLen(i))
    ensures result[l.raw..] == old(result[l.raw..])
  {
    hide IndexOf, SlotOf, Content, Filled, Layout.ShortLen, Layout.NumShort, Layout.DataLen, Layout.BlockStart;
    LayoutSizes(l);
    var k: int := i;
    var j := 0;
    while j < l.BlockLen(i)
      invariant 0 <= j <= l.BlockLen(i)
      invariant j <= l.ShortLen() ==> k == i + j * l.blocks
      invariant Filled(l, original, result[..], i, false, j)
      invariant result[l.raw..] == old(result[l.raw..])
    {
      if j == l.ShortLen() {
        k := k - l.NumShort();
      }
      DataSlotHere(l, original, i, j, k);
      FillOne(l, original, result[..], i, false, j, k, data[dat + j]);
      ghost var before := result[..];
      result[k] := data[dat + j];
      assert result[..] == before[k := data[dat + j]];
      j, k := j + 1, k + l.blocks;
    }
  }

  lemma DataSlotHere(l: Layout, data: Poly, i: nat, j: nat, k: int)
    requires l.Sound() && |data| == l.DataLen() && i < l.blocks && j < l.BlockLen(i)
    requires k == i + j * l.blocks - if j == l.ShortLen() then l.NumShort() else 0
    ensures ValidSlot(l, Data(i, j)) && 0 <= k == IndexOf(l, Data(i, j)) < l.raw
    ensures 0 <= l.BlockStart(i) + j < |data| && data[l.BlockStart(i) + j] == Content(l, data, Data(i, j))
  {
    IndexOfValid(l, Data(i, j));
    BlocksAreConsecutive(l, i);
    BlockWithinData(l, i + 1, l.blocks);
  }

  method CopyEcc(l: Layout, data: array<Byte>, i: nat, result: array<Byte>, ghost original: Poly)
    requires l.Sound() && i < l.blocks && |original| == l.DataLen()
    requires data != result && l.DataLen() + l.eccLen <= data.Length && l.raw <= result.Length
    requires data[l.DataLen()..l.DataLen() + l.eccLen] == Remainder(BlockData(l, original, i), Generator(l.eccLen))
    requires Filled(l, original, result[..], i, false, l.BlockLen(i))
    modifies result
    ensures Filled(l, original, result[..], i + 1, false, 0)
    ensures result[l.raw..] == old(result[l.raw..])
  {
    hide IndexOf, SlotOf, Remainder, Generator, BlockData, Content, Filled, Layout.ShortLen, Layout.NumShort, Layout.DataLen;
    ghost var ecc := data[l.DataLen()..l.DataLen() + l.eccLen];
    var k: int := l.DataLen() + i;
    var j := 0;
    StartEcc(l, original, result[..], i);
    while j < l.eccLen
      invariant 0 <= j <= l.eccLen
      invariant k == l.DataLen() + i + j * l.blocks
      invariant Filled(l, original, result[..], i, true, j)
      invariant result[l.raw..] == old(result[l.raw..])
    {
      EccSlotHere(l, original, ecc, i, j, k);
      assert data[l.DataLen() + j] == ecc[j];
      FillOne(l, original, result[..], i, true, j, k, ecc[j]);
      ghost var before := result[..];
      result[k] := data[l.DataLen() + j];
      assert result[..] == before[k := ecc[j]];
      j, k := j + 1, k + l.blocks;
    }
    FinishBlock(l, original, result[..], i);
  }

  lemma StartEcc(l: Layout, data: Poly, result: seq<Byte>, i: nat)
    requires l.Sound() && |data| == l.DataLen() && |result| >= l.raw && i < l.blocks
    requires Filled(l, data, result, i, false, l.BlockLen(i))
    ensures Filled(l, data, result, i, true, 0)
  {
    hide FilledAt;
  }

  lemma FinishBlock(l: Layout, data: Poly, result: seq<Byte>, i: nat)
    requires l.Sound() && |data| == l.DataLen() && |result| >= l.raw && i < l.blocks
    requires Filled(l, data, result, i, true, l.eccLen)
    ensures Filled(l, data, result, i + 1, false, 0)
  {
    hide FilledAt;
  }

  lemma EccSlotHere(l: Layout, data: Poly, ecc: Poly, i: nat, j: nat, k: int)
    requires l.Sound() && |data| == l.DataLen() && i < l.blocks && j < l.eccLen
    requires ecc == Remainder(BlockData(l, data, i), Generator(l.eccLen))
    requires k == l.DataLen() + i + j * l.blocks
    ensures ValidSlot(l, Ecc(i, j)) && 0 <= k == IndexOf(l, Ecc(i, j)) < l.raw
    ensures ecc[j] == Content(l, data, Ecc(i, j))
  {
    IndexOfValid(l, Ecc(i, j));
    hide Remainder, Generator, BlockData;
  }

  // One block: its remainder goes to the scratch space, then both to the result.
  method AddBlock(l: Layout, data: array<Byte>, dat: nat, i: nat, rsdiv: array<Byte>, result: array<Byte>,
                  ghost original: Poly)
    requires l.Sound() && i < l.blocks && dat == l.BlockStart(i)
    requires data != result && data != rsdiv && result != rsdiv
    requires l.DataLen() + l.eccLen <= data.Length && l.raw <= result.Length && l.eccLen <= rsdiv.Length
    requires data[..l.DataLen()] == original && [1] + rsdiv[..l.eccLen] == Generator(l.eccLen)
    requires Filled(l, original, result[..], i, false, 0)
    modifies data, result
    ensures data[..l.DataLen()] == original
    ensures data[l.DataLen() + l.eccLen..] == old(data[l.DataLen() + l.eccLen..])
    ensures Filled(l, original, result[..], i + 1, false, 0)
    ensures result[l.raw..] == old(result[l.raw..])
  {
    hide IndexOf, SlotOf, Remainder, Generator, Content, Interleaved, Filled, Layout.BlockStart, Layout.DataLen,
      Layout.ShortLen, Layout.NumShort, Layout.BlockLen, Layout.Sound;
    var datLen := l.BlockLen(i);
    BlockIs(l, original, i);
    SameSlice(data[..], original, dat, dat + datLen);
    ComputeRemainder(data, dat, datLen, rsdiv, l.eccLen, data, l.DataLen());
    assert data[..l.DataLen()] == original;
    CopyData(l, data, dat, i, result, original);
    CopyEcc(l, data, i, result, original);
  }

  lemma SameSlice(all: Poly, prefix: Poly, from: nat, to: nat)
    requires |prefix| <= |all| && all[..|prefix|] == prefix && from <= to <= |prefix|
    ensures all[from..to] == prefix[from..to]
  {
    forall k | 0 <= k < to - from
      ensures all[from..to][k] == prefix[from..to][k]
    {
      assert all[from + k] == all[..|prefix|][from + k];
    }
  }

  lemma BlockIs(l: Layout, data: Poly, i: nat)
    requires l.Sound() && i < l.blocks && |data| == l.DataLen()
    ensures 1 <= l.eccLen <= MAX_DEGREE
    ensures l.BlockStart(i) + l.BlockLen(i) == l.BlockStart(i + 1) <= l.DataLen()
    ensures data[l.BlockStart(i)..l.BlockStart(i) + l.BlockLen(i)] == BlockData(l, data, i)
  {
    BlocksAreConsecutive(l, i);
    BlockWithinData(l, i + 1, l.blocks);
    hide Layout.BlockStart, Layout.BlockLen;
  }

  // data[..DataLen] holds the data; the eccLen bytes after it are scratch space.
  method AddEccAndInterleave(l: Layout, data: array<Byte>, result: array<Byte>)
    requires l.Sound()
    requires data != result && l.DataLen() + l.eccLen <= data.Length && l.raw <= result.Length
    modifies data, result
    ensures data[..l.DataLen()] == old(data[..l.DataLen()])
    ensures data[l.DataLen() + l.eccLen..] == old(data[l.DataLen() + l.eccLen..])
    ensures result[..l.raw] == Interleaved(l, old(data[..l.DataLen()]))
    ensures result[l.raw..] == old(result[l.raw..])
  {
    hide IndexOf, SlotOf, Remainder, Generator, Content, Interleaved, Filled, Layout.BlockStart, Layout.DataLen,
      Layout.ShortLen, Layout.NumShort, Layout.BlockLen;
    ghost var original := data[..l.DataLen()];
    var rsdiv := new Byte[MAX_DEGREE];
    ComputeDivisor(l.eccLen, rsdiv);
    var dat := 0;
    StartFilling(l, original, result[..]);
    for i := 0 to l.blocks
      invariant dat == l.BlockStart(i)
      invariant [1] + rsdiv[..l.eccLen] == Generator(l.eccLen)
      invariant data[..l.DataLen()] == original
      invariant data[l.DataLen() + l.eccLen..] == old(data[l.DataLen() + l.eccLen..])
      invariant Filled(l, original, result[..], i, false, 0)
      invariant result[l.raw..] == old(result[l.raw..])
    {
      BlockIs(l, original, i);
      AddBlock(l, data, dat, i, rsdiv, result, original);
      dat := dat + l.BlockLen(i);
    }
    FilledIsInterleaved(l, original, result[..]);
  }

  lemma StartFilling(l: Layout, data: Poly, result: seq<Byte>)
    requires l.Sound() && |data| == l.DataLen() && |result| >= l.raw
    ensures l.BlockStart(0) == 0 && Filled(l, data, result, 0, false, 0)
  {
    LayoutSizes(l);
  }
}
