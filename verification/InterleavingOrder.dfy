// The order in which the codewords of the blocks are interleaved.
module InterleavingOrder {
  import opened Arithmetic
  import opened Interleaving

  // All data comes before all error correction; within either, the first codewords of all blocks, then the second ones,
  // and so on, block by block.
  predicate Comes(s: Slot, t: Slot) {
    if s.Data? != t.Data? then s.Data?
    else s.offset < t.offset || (s.offset == t.offset && s.block < t.block)
  }

  lemma Rows(n: nat, i: nat, j: nat, j': nat)
    requires i < n && j < j'
    ensures i + j * n < j' * n
  {
    TimesMonotone(n, j + 1, j');
  }

  lemma DataInOrder(l: Layout, s: Slot, t: Slot)
    requires l.Sound() && ValidSlot(l, s) && ValidSlot(l, t) && s.Data? && t.Data? && Comes(s, t)
    ensures IndexOf(l, s) < IndexOf(l, t)
  {
    LayoutSizes(l);
    if s.offset < t.offset {
      Rows(l.blocks, s.block, s.offset, t.offset);
    }
    hide Layout.ShortLen, Layout.NumShort, Layout.DataLen;
  }

  lemma EccInOrder(l: Layout, s: Slot, t: Slot)
    requires l.Sound() && ValidSlot(l, s) && ValidSlot(l, t) && s.Ecc? && t.Ecc? && Comes(s, t)
    ensures IndexOf(l, s) < IndexOf(l, t)
  {
    if s.offset < t.offset {
      Rows(l.blocks, s.block, s.offset, t.offset);
    }
    hide Layout.DataLen, Layout.BlockLen;
  }

  // The places of the slots are in this order; there being a slot for each place, no other assignment of places is.
  lemma PlacesAreInOrder(l: Layout, s: Slot, t: Slot)
    requires l.Sound() && ValidSlot(l, s) && ValidSlot(l, t)
    ensures IndexOf(l, s) < IndexOf(l, t) <==> Comes(s, t)
  {
    IndexOfValid(l, s);
    IndexOfValid(l, t);
    hide IndexOf, SlotOf, ValidSlot;
    if Comes(s, t) {
      OneOrder(l, s, t);
    } else if Comes(t, s) {
      OneOrder(l, t, s);
    } else {
      assert s == t;
    }
  }

  lemma OneOrder(l: Layout, s: Slot, t: Slot)
    requires l.Sound() && ValidSlot(l, s) && ValidSlot(l, t) && Comes(s, t)
    ensures IndexOf(l, s) < IndexOf(l, t)
  {
    IndexOfValid(l, s);
    IndexOfValid(l, t);
    hide IndexOf, SlotOf, ValidSlot;
    if s.Data? && t.Data? {
      DataInOrder(l, s, t);
    } else if s.Ecc? && t.Ecc? {
      EccInOrder(l, s, t);
    }
  }

  // The blocks have almost the same length, the longer ones last; with error correction they fill all codewords.
  lemma BlockLengths(l: Layout, i: nat, k: nat)
    requires l.Sound() && i <= k < l.blocks
    ensures l.BlockLen(i) <= l.BlockLen(k) <= l.BlockLen(i) + 1
    ensures l.BlockStart(0) == 0 && l.BlockStart(i) + l.BlockLen(i) == l.BlockStart(i + 1)
    ensures l.BlockStart(l.blocks) + l.blocks * l.eccLen == l.raw
  {
    BlocksAreConsecutive(l, i);
    BlocksAreConsecutive(l, 0);
    LayoutSizes(l);
    hide Layout.NumShort, Layout.ShortLen, Layout.DataLen;
  }
}
