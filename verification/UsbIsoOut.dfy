// The ring of transfers that buffers isochronous packets on their way to the device.
module UsbIsoOut {
  import opened Arithmetic

  const SUBMITTED_IDX := -1

  // A transfer: how many of its packets have been filled, or that libusb has it; and the packets. A packet is
  // known by its place among those received on the stream.
  datatype Slot = Slot(packetIdx: int, cells: seq<nat>)

  // alive: the stream has been neither cancelled nor left without a device. overrun: a packet was written past
  // the end of a transfer. flight: the slots libusb has, oldest first. submitted: the packets of all transfers
  // submitted so far. received: how many packets have arrived.
  datatype Stream = Stream(pkts: nat, slot: seq<Slot>, outIdx: nat, dropPackets: nat, started: bool, alive: bool,
                           overrun: bool, flight: seq<nat>, submitted: seq<nat>, received: nat) {
    predicate Formed() {
      1 <= pkts && 1 <= |slot| && outIdx < |slot| && (forall i | 0 <= i < |slot| :: |slot[i].cells| == pkts) &&
      forall k | 0 <= k < |flight| :: flight[k] < |slot|
    }

    function Needed(): nat {
      pkts * |slot| / 2
    }

    predicate Sized(like: Stream) {
      pkts == like.pkts && |slot| == |like.slot|
    }
  }

  // ----- the steps -----

  function NewStream(pkts: nat, count: nat): (s: Stream)
    requires 1 <= pkts && 1 <= count
    ensures s.Formed()
  {
    Stream(pkts, seq(count, _ => Slot(0, seq(pkts, _ => 0))), 0, 0, false, true, false, [], [], 0)
  }

  function Write(c: Slot, p: nat): (r: Slot)
    ensures |r.cells| == |c.cells| && r.packetIdx == c.packetIdx + 1
  {
    Slot(c.packetIdx + 1, if 0 <= c.packetIdx < |c.cells| then c.cells[c.packetIdx := p] else c.cells)
  }

  // Submits slot i; a failure ends the stream, one way or the other.
  function SubmitSlot(s: Stream, i: nat, fails: bool): (r: Stream)
    requires s.Formed() && i < |s.slot|
    ensures r.Formed() && r.Sized(s)
  {
    if fails then s.(alive := false)
    else s.(slot := s.slot[i := s.slot[i].(packetIdx := SUBMITTED_IDX)], flight := s.flight + [i],
            submitted := s.submitted + s.slot[i].cells)
  }

  // Submits the first n slots, unless submission failAt fails.
  function SubmitFirst(s: Stream, n: nat, failAt: nat): (r: Stream)
    requires s.Formed() && n <= |s.slot|
    ensures r.Formed() && r.Sized(s)
  {
    if n == 0 then s
    else
      var r := SubmitFirst(s, n - 1, failAt);
      if r.alive then SubmitSlot(r, n - 1, failAt == n - 1) else r
  }

  function Start(s: Stream, failAt: nat): (r: Stream)
    requires s.Formed()
    ensures r.Formed() && r.Sized(s)
  {
    var r := SubmitFirst(s, |s.slot| / 2, failAt);
    if r.alive then r.(started := true) else r
  }

  // A packet is put in the current slot, which may complete it.
  function Store(s: Stream, p: nat): (r: Stream)
    requires s.Formed()
    ensures r.Formed() && r.Sized(s)
  {
    var c := s.slot[s.outIdx];
    s.(slot := s.slot[s.outIdx := Write(c, p)],
       overrun := s.overrun || !(0 <= c.packetIdx < s.pkts),
       outIdx := if c.packetIdx + 1 == s.pkts then (s.outIdx + 1) % |s.slot| else s.outIdx)
  }

  // A packet arrives; submission failAt that it causes, counting from 0, fails.
  function OnPacket(s: Stream, failAt: nat): (r: Stream)
    requires s.Formed()
    ensures r.Formed() && r.Sized(s)
  {
    if !s.alive then s
    else
      var t := s.(received := s.received + 1);
      var c := s.slot[s.outIdx];
      if s.dropPackets > 0 then t.(dropPackets := s.dropPackets - 1)
      else if c.packetIdx == SUBMITTED_IDX then t.(dropPackets := s.Needed())
      else
        var u := Store(t, s.received);
        var full := c.packetIdx + 1 == s.pkts;
        if s.started then if full then SubmitSlot(u, s.outIdx, failAt == 0) else u
        else if u.outIdx * s.pkts + (if full then 0 else c.packetIdx + 1) == s.Needed() then Start(u, failAt)
        else u
  }

  // How a transfer completes. Lost: with an error that leaves the stream as it is.
  datatype Completion = Fine | Lost | Ending

  function Restarted(s: Stream): (r: Stream)
    requires s.Formed()
    ensures r.Formed() && r.Sized(s)
  {
    s.(slot := seq(|s.slot|, i requires 0 <= i < |s.slot| => s.slot[i].(packetIdx := 0)),
       outIdx := 0, started := false, dropPackets := 0)
  }

  predicate Underflow(s: Stream) {
    forall i | 0 <= i < |s.slot| :: s.slot[i].packetIdx != SUBMITTED_IDX
  }

  // The oldest transfer completes.
  function OnCompletion(s: Stream, c: Completion): (r: Stream)
    requires s.Formed()
    ensures r.Formed() && r.Sized(s)
  {
    if !s.alive || s.flight == [] then s
    else
      var i := s.flight[0];
      var t := s.(slot := s.slot[i := s.slot[i].(packetIdx := 0)], flight := s.flight[1..]);
      match c
      case Fine => if Underflow(t) then Restarted(t) else t
      case Lost => t
      case Ending => t.(alive := false)
  }

  datatype Event = Packet(failAt: nat) | Complete(how: Completion)

  function Step(s: Stream, e: Event): (r: Stream)
    requires s.Formed()
    ensures r.Formed() && r.Sized(s)
  {
    match e
    case Packet(failAt) => OnPacket(s, failAt)
    case Complete(how) => OnCompletion(s, how)
  }

  function Run(s: Stream, events: seq<Event>): (r: Stream)
    requires s.Formed()
    ensures r.Formed() && r.Sized(s)
  {
    if events == [] then s else Step(Run(s, events[..|events| - 1]), events[|events| - 1])
  }

  // ----- the invariant -----

  // How far slot i lies behind the position outIdx: 0 for the slot just before it.
  function Distance(count: nat, outIdx: nat, i: nat): int {
    if i < outIdx then outIdx - 1 - i else outIdx + count - 1 - i
  }

  // The slots libusb has are a cyclic block that ends just before outIdx, oldest first.
  ghost predicate Block(s: Stream) {
    |s.flight| <= |s.slot| &&
    forall k | 0 <= k < |s.flight| ::
      s.flight[k] < |s.slot| && Distance(|s.slot|, s.outIdx, s.flight[k]) == |s.flight| - 1 - k
  }

  ghost predicate Increasing(a: seq<nat>) {
    forall i, j | 0 <= i < j < |a| :: a[i] < a[j]
  }

  function Filled(c: Slot): seq<nat> {
    if 0 <= c.packetIdx <= |c.cells| then c.cells[..c.packetIdx] else []
  }

  // The packets in the first n slots.
  function Flat(slot: seq<Slot>, n: nat): seq<nat>
    requires n <= |slot|
  {
    if n == 0 then [] else Flat(slot, n - 1) + slot[n - 1].cells
  }

  // The packets waiting to be submitted.
  function Pending(s: Stream): seq<nat>
    requires s.Formed()
  {
    (if s.started then [] else Flat(s.slot, s.outIdx)) + Filled(s.slot[s.outIdx])
  }

  // The packets submitted, then those waiting, are in the order received, without repeats.
  ghost predicate Ordered(s: Stream)
    requires s.Formed()
  {
    Increasing(s.submitted + Pending(s)) && forall p | p in s.submitted + Pending(s) :: p < s.received
  }

  // In a started stream libusb has exactly the slots of the block, and of the others only the current one may
  // be partly filled.
  ghost predicate Rolling(s: Stream)
    requires s.Formed()
  {
    Block(s) &&
    (forall i | 0 <= i < |s.slot| ::
       s.slot[i].packetIdx == SUBMITTED_IDX <==> Distance(|s.slot|, s.outIdx, i) < |s.flight|) &&
    (forall i | 0 <= i < |s.slot| && i != s.outIdx && Distance(|s.slot|, s.outIdx, i) >= |s.flight| ::
       s.slot[i].packetIdx == 0) &&
    (|s.flight| < |s.slot| ==> 0 <= s.slot[s.outIdx].packetIdx < s.pkts)
  }

  // Before the start slots are filled in order, and less than half of the ring is filled.
  ghost predicate Filling(s: Stream)
    requires s.Formed()
  {
    s.flight == [] &&
    (forall i | 0 <= i < |s.slot| && i < s.outIdx :: s.slot[i].packetIdx == s.pkts) &&
    (forall i | 0 <= i < |s.slot| && i > s.outIdx :: s.slot[i].packetIdx == 0) &&
    0 <= s.slot[s.outIdx].packetIdx < s.pkts &&
    s.outIdx * s.pkts + s.slot[s.outIdx].packetIdx < s.Needed()
  }

  ghost predicate Sound(s: Stream) {
    s.Formed() && !s.overrun && Increasing(s.submitted) && (forall p | p in s.submitted :: p < s.received) &&
    (s.alive ==> Ordered(s) && if s.started then Rolling(s) else Filling(s))
  }

  // ----- facts about the parts -----

  lemma NextSlot(count: nat, o: nat)
    requires o < count
    ensures (o + 1) % count == if o + 1 == count then 0 else o + 1
  {
  }

  // Half a ring of packets fills half of the slots, and at most part of the next.
  lemma HalfFilled(pkts: nat, count: nat, i: nat, j: nat)
    requires j < pkts && i * pkts + j == pkts * count / 2
    ensures i == count / 2
  {
    var h, b := count / 2, count % 2;
    assert pkts * count == 2 * (pkts * h) + pkts * b;
    assert pkts * count / 2 == pkts * h + pkts * b / 2;
    assert pkts * b / 2 < pkts;
    QuotientUnique(pkts * count / 2, pkts, h, pkts * b / 2);
    QuotientUnique(pkts * count / 2, pkts, i, j);
  }

  // Before the start the position does not wrap.
  lemma RoomForOneMore(pkts: nat, count: nat, i: nat)
    requires pkts >= 1 && i * pkts + pkts <= pkts * count / 2
    ensures i + 1 < count
  {
    if i + 1 >= count {
      assert (i + 1) * pkts == i * pkts + pkts;
      TimesMonotone(pkts, count, i + 1);
    }
  }

  lemma {:induction false} FlatSame(a: seq<Slot>, b: seq<Slot>, n: nat)
    requires n <= |a| && n <= |b| && forall i | 0 <= i < n :: a[i].cells == b[i].cells
    ensures Flat(a, n) == Flat(b, n)
  {
    if n > 0 {
      FlatSame(a, b, n - 1);
    }
  }

  lemma {:induction false} FlatPrefix(slot: seq<Slot>, m: nat, n: nat)
    requires m <= n <= |slot|
    ensures Flat(slot, m) <= Flat(slot, n)
    decreases n
  {
    if m < n {
      FlatPrefix(slot, m, n - 1);
    }
  }

  lemma IncreasingPrefix(a: seq<nat>, b: seq<nat>)
    requires a <= b && Increasing(b)
    ensures Increasing(a)
  {
    assert forall i | 0 <= i < |a| :: a[i] == b[i];
  }

  lemma IncreasingAppend(a: seq<nat>, p: nat)
    requires Increasing(a) && forall x | x in a :: x < p
    ensures Increasing(a + [p])
  {
    assert forall i | 0 <= i < |a| :: (a + [p])[i] == a[i] && a[i] in a;
  }

  // ----- storing a packet -----

  lemma WriteFills(c: Slot, p: nat)
    requires 0 <= c.packetIdx < |c.cells|
    ensures Filled(Write(c, p)) == Filled(c) + [p]
    ensures c.packetIdx + 1 == |c.cells| ==> Write(c, p).cells == Filled(c) + [p]
  {
  }

  // Whatever order the packets are kept in, one more at the end keeps it.
  lemma OrderedAppend(s: Stream, r: Stream)
    requires s.Formed() && r.Formed() && Ordered(s) && r.received == s.received + 1
    requires r.submitted + Pending(r) == s.submitted + Pending(s) + [s.received]
    ensures Ordered(r) && Increasing(r.submitted) && forall p | p in r.submitted :: p < r.received
  {
    hide Pending;
    var all := s.submitted + Pending(s);
    IncreasingAppend(all, s.received);
    IncreasingPrefix(r.submitted, r.submitted + Pending(r));
    assert forall p | p in r.submitted :: p in r.submitted + Pending(r);
  }

  lemma StoreIs(s: Stream, u: Stream)
    requires s.Formed() && u == Store(s.(received := s.received + 1), s.received)
    ensures u.slot == s.slot[s.outIdx := Write(s.slot[s.outIdx], s.received)]
    ensures u.outIdx == if s.slot[s.outIdx].packetIdx + 1 != s.pkts then s.outIdx
                        else if s.outIdx + 1 == |s.slot| then 0 else s.outIdx + 1
    ensures u.overrun == (s.overrun || !(0 <= s.slot[s.outIdx].packetIdx < s.pkts))
    ensures u.submitted == s.submitted && u.started == s.started && u.flight == s.flight && u.alive == s.alive
    ensures u.received == s.received + 1 && u.dropPackets == s.dropPackets
  {
    NextSlot(|s.slot|, s.outIdx);
    hide Write;
  }

  lemma CurrentIsFree(s: Stream)
    requires s.Formed() && Rolling(s) && s.slot[s.outIdx].packetIdx != SUBMITTED_IDX
    ensures |s.flight| < |s.slot| && 0 <= s.slot[s.outIdx].packetIdx < s.pkts
  {
    assert Distance(|s.slot|, s.outIdx, s.outIdx) == |s.slot| - 1;
  }

  lemma RollPartial(s: Stream, r: Stream, c: Slot)
    requires s.Formed() && r.Formed() && Rolling(s) && s.slot[s.outIdx].packetIdx != SUBMITTED_IDX
    requires 0 <= c.packetIdx < s.pkts && r.slot == s.slot[s.outIdx := c]
    requires r.flight == s.flight && r.outIdx == s.outIdx && r.pkts == s.pkts
    ensures Rolling(r)
  {
    CurrentIsFree(s);
    assert Distance(|s.slot|, s.outIdx, s.outIdx) == |s.slot| - 1;
    hide Distance;
  }

  lemma DistanceNext(count: nat, o: nat, i: nat)
    requires o < count && i < count
    ensures Distance(count, if o + 1 == count then 0 else o + 1, i) == if i == o then 0 else Distance(count, o, i) + 1
    ensures 0 <= Distance(count, o, i) < count && Distance(count, o, o) == count - 1
    ensures i != o ==> Distance(count, o, i) < count - 1
  {
  }

  // The slot at a full position is submitted and the position moves on.
  lemma RollSubmit(s: Stream, r: Stream, c: Slot)
    requires s.Formed() && r.Formed() && Rolling(s) && s.slot[s.outIdx].packetIdx != SUBMITTED_IDX
    requires c.packetIdx == SUBMITTED_IDX && r.slot == s.slot[s.outIdx := c] && r.pkts == s.pkts
    requires r.flight == s.flight + [s.outIdx]
    requires r.outIdx == if s.outIdx + 1 == |s.slot| then 0 else s.outIdx + 1
    ensures Rolling(r) && r.slot[r.outIdx].packetIdx <= 0
  {
    var o, n := s.outIdx, |s.slot|;
    CurrentIsFree(s);
    forall i | 0 <= i < n
      ensures Distance(n, r.outIdx, i) == if i == o then 0 else Distance(n, o, i) + 1
    {
      DistanceNext(n, o, i);
    }
    DistanceNext(n, o, r.outIdx);
    DistanceNext(n, r.outIdx, r.outIdx);
    hide Distance;
  }

  // The current slot of a started stream takes a packet unless libusb has it.
  lemma StorePartial(s: Stream, u: Stream)
    requires s.Formed() && Rolling(s) && s.slot[s.outIdx].packetIdx + 1 < s.pkts && s.started
    requires s.slot[s.outIdx].packetIdx != SUBMITTED_IDX && u == Store(s.(received := s.received + 1), s.received)
    ensures u.overrun == s.overrun && Rolling(u)
    ensures u.submitted + Pending(u) == s.submitted + Pending(s) + [s.received]
  {
    hide Store;
    StoreIs(s, u);
    CurrentIsFree(s);
    var c := s.slot[s.outIdx];
    WriteFills(c, s.received);
    RollPartial(s, u, Write(c, s.received));
    hide Rolling, Filled, Write;
  }

  lemma StoreFull(s: Stream, u: Stream, r: Stream)
    requires s.Formed() && Rolling(s) && s.slot[s.outIdx].packetIdx + 1 == s.pkts && s.started
    requires s.slot[s.outIdx].packetIdx != SUBMITTED_IDX && u == Store(s.(received := s.received + 1), s.received)
    requires r == SubmitSlot(u, s.outIdx, false)
    ensures u.overrun == s.overrun && Rolling(r) && r.slot[r.outIdx].packetIdx <= 0
    ensures r.submitted == s.submitted + (Filled(s.slot[s.outIdx]) + [s.received])
  {
    hide Store;
    StoreIs(s, u);
    CurrentIsFree(s);
    var c := s.slot[s.outIdx];
    WriteFills(c, s.received);
    hide Rolling, Filled, Write;
    assert r.slot == s.slot[s.outIdx := Write(c, s.received).(packetIdx := SUBMITTED_IDX)];
    RollSubmit(s, r, Write(c, s.received).(packetIdx := SUBMITTED_IDX));
  }

  lemma FullPending(s: Stream, r: Stream)
    requires s.Formed() && r.Formed() && s.started && r.started && r.slot[r.outIdx].packetIdx <= 0
    requires r.submitted == s.submitted + (Filled(s.slot[s.outIdx]) + [s.received])
    ensures r.submitted + Pending(r) == s.submitted + Pending(s) + [s.received]
  {
    assert Filled(r.slot[r.outIdx]) == [];
    hide Filled;
  }

  // ----- starting -----

  // The first n slots, all full, have been submitted.
  ghost predicate FirstSubmitted(s: Stream, r: Stream, n: nat)
    requires s.Formed() && n <= |s.slot|
  {
    && r.pkts == s.pkts && r.outIdx == s.outIdx && r.received == s.received && r.overrun == s.overrun
    && r.started == s.started && r.dropPackets == s.dropPackets
    && |r.slot| == |s.slot| && |r.flight| == n && (forall k | 0 <= k < n :: r.flight[k] == k)
    && (forall i | 0 <= i < |s.slot| ::
          r.slot[i] == if i < n then s.slot[i].(packetIdx := SUBMITTED_IDX) else s.slot[i])
    && r.submitted == s.submitted + Flat(s.slot, n)
  }

  lemma SubmitNext(s: Stream, t: Stream, n: nat)
    requires s.Formed() && t.Formed() && n < |s.slot| && FirstSubmitted(s, t, n)
    ensures FirstSubmitted(s, SubmitSlot(t, n, false), n + 1)
  {
    assert Flat(s.slot, n + 1) == Flat(s.slot, n) + s.slot[n].cells;
    hide Flat;
  }

  function Min(a: nat, b: nat): nat {
    if a < b then a else b
  }

  lemma {:induction false} SubmitFirstIs(s: Stream, n: nat, failAt: nat)
    requires s.Formed() && s.alive && s.flight == [] && n <= |s.slot|
    ensures var r := SubmitFirst(s, n, failAt);
            FirstSubmitted(s, r, Min(n, failAt)) && (r.alive <==> n <= failAt)
  {
    hide FirstSubmitted, SubmitSlot;
    if n == 0 {
      NoneSubmitted(s);
    } else {
      SubmitFirstIs(s, n - 1, failAt);
      var t := SubmitFirst(s, n - 1, failAt);
      if t.alive {
        SubmitNext(s, t, n - 1);
        SubmitSlotFails(s, t, n - 1);
      }
    }
  }

  lemma NoneSubmitted(s: Stream)
    requires s.Formed() && s.flight == []
    ensures FirstSubmitted(s, s, 0)
  {
  }

  lemma SubmitSlotFails(s: Stream, t: Stream, n: nat)
    requires s.Formed() && t.Formed() && n < |t.slot| == |s.slot| && FirstSubmitted(s, t, n)
    ensures FirstSubmitted(s, SubmitSlot(t, n, true), n) && !SubmitSlot(t, n, true).alive
    ensures SubmitSlot(t, n, false).alive == t.alive
  {
  }

  lemma StartRolls(s: Stream, r: Stream)
    requires s.Formed() && s.outIdx == |s.slot| / 2 && r.Formed() && FirstSubmitted(s, r.(started := s.started), s.outIdx)
    requires 0 <= s.slot[s.outIdx].packetIdx < s.pkts
    requires forall i | 0 <= i < |s.slot| && i > s.outIdx :: s.slot[i].packetIdx == 0
    ensures Rolling(r)
  {
    hide Flat;
  }

  // The slots before the position are full and those after it empty.
  ghost predicate FilledInOrder(s: Stream)
    requires s.Formed()
  {
    (forall i | 0 <= i < |s.slot| && i < s.outIdx :: s.slot[i].packetIdx == s.pkts) &&
    (forall i | 0 <= i < |s.slot| && i > s.outIdx :: s.slot[i].packetIdx == 0) &&
    0 <= s.slot[s.outIdx].packetIdx < s.pkts
  }

  lemma StorePartly(s: Stream, u: Stream)
    requires s.Formed() && FilledInOrder(s) && !s.started && u == Store(s.(received := s.received + 1), s.received)
    requires s.slot[s.outIdx].packetIdx + 1 < s.pkts
    ensures u.overrun == s.overrun && FilledInOrder(u)
    ensures u.outIdx == s.outIdx && u.slot[u.outIdx].packetIdx == s.slot[s.outIdx].packetIdx + 1
    ensures u.submitted + Pending(u) == s.submitted + Pending(s) + [s.received]
  {
    hide Store;
    StoreIs(s, u);
    WriteFills(s.slot[s.outIdx], s.received);
    FlatSame(s.slot, u.slot, s.outIdx);
    hide Filled, Flat;
  }

  lemma Regroup(a: seq<nat>, f: seq<nat>, x: seq<nat>, p: nat)
    ensures a + (f + (x + [p]) + []) == a + (f + x) + [p]
  {
  }

  lemma StoreLast(s: Stream, u: Stream)
    requires s.Formed() && FilledInOrder(s) && !s.started && u == Store(s.(received := s.received + 1), s.received)
    requires s.slot[s.outIdx].packetIdx + 1 == s.pkts && s.outIdx + 1 < |s.slot|
    ensures u.overrun == s.overrun && FilledInOrder(u)
    ensures u.outIdx == s.outIdx + 1 && u.slot[u.outIdx].packetIdx == 0
  {
    hide Store;
    StoreIs(s, u);
    WriteFills(s.slot[s.outIdx], s.received);
  }

  lemma FlatFull(s: Stream, u: Stream)
    requires s.Formed() && u.slot == s.slot[s.outIdx := Write(s.slot[s.outIdx], s.received)]
    requires 0 <= s.slot[s.outIdx].packetIdx && s.slot[s.outIdx].packetIdx + 1 == s.pkts
    ensures Flat(u.slot, s.outIdx + 1) == Flat(s.slot, s.outIdx) + (Filled(s.slot[s.outIdx]) + [s.received])
  {
    WriteFills(s.slot[s.outIdx], s.received);
    FlatSame(s.slot, u.slot, s.outIdx);
    hide Write, Filled;
  }

  lemma StoreLastPending(s: Stream, u: Stream)
    requires s.Formed() && FilledInOrder(s) && !s.started && u == Store(s.(received := s.received + 1), s.received)
    requires s.slot[s.outIdx].packetIdx + 1 == s.pkts && s.outIdx + 1 < |s.slot|
    requires u.outIdx == s.outIdx + 1 && u.slot[u.outIdx].packetIdx == 0
    ensures u.submitted + Pending(u) == s.submitted + Pending(s) + [s.received]
  {
    hide Write, Flat, Store;
    StoreIs(s, u);
    assert Filled(u.slot[u.outIdx]) == [];
    hide Filled;
    FlatFull(s, u);
    Regroup(s.submitted, Flat(s.slot, s.outIdx), Filled(s.slot[s.outIdx]), s.received);
  }

  lemma NextTimes(o: nat, pkts: nat)
    ensures (o + 1) * pkts == o * pkts + pkts
  {
  }

  // A packet stored before the start.
  lemma StoreFilling(s: Stream, u: Stream)
    requires s.Formed() && Filling(s) && !s.started && u == Store(s.(received := s.received + 1), s.received)
    ensures u.overrun == s.overrun && FilledInOrder(u)
    ensures u.outIdx == if s.slot[s.outIdx].packetIdx + 1 == s.pkts then s.outIdx + 1 else s.outIdx
    ensures u.slot[u.outIdx].packetIdx ==
            if s.slot[s.outIdx].packetIdx + 1 == s.pkts then 0 else s.slot[s.outIdx].packetIdx + 1
    ensures u.outIdx * u.pkts + u.slot[u.outIdx].packetIdx ==
            s.outIdx * s.pkts + s.slot[s.outIdx].packetIdx + 1 <= s.Needed()
    ensures u.submitted + Pending(u) == s.submitted + Pending(s) + [s.received]
  {
    if s.slot[s.outIdx].packetIdx + 1 == s.pkts {
      NextTimes(s.outIdx, s.pkts);
      RoomForOneMore(s.pkts, |s.slot|, s.outIdx);
      StoreLast(s, u);
      StoreLastPending(s, u);
    } else {
      StorePartly(s, u);
    }
    hide Store, Pending, FilledInOrder;
  }

  // ----- every step -----

  lemma StartKeeps(u: Stream, failAt: nat, all: seq<nat>)
    requires u.Formed() && u.alive && !u.started && u.flight == [] && FilledInOrder(u) && !u.overrun
    requires u.outIdx * u.pkts + u.slot[u.outIdx].packetIdx == u.Needed()
    requires all == u.submitted + Pending(u)
    ensures var r := Start(u, failAt);
            !r.overrun && r.received == u.received && r.submitted <= all &&
            (r.alive ==> r.started && Rolling(r) && r.submitted + Pending(r) == all)
  {
    hide SubmitFirst, Flat, Filled, Rolling, FirstSubmitted;
    HalfFilled(u.pkts, |u.slot|, u.outIdx, u.slot[u.outIdx].packetIdx);
    SubmitFirstIs(u, u.outIdx, failAt);
    FirstSubmittedMeans(u, SubmitFirst(u, u.outIdx, failAt), Min(u.outIdx, failAt));
  }

  lemma FirstSubmittedMeans(u: Stream, t: Stream, m: nat)
    requires u.Formed() && FilledInOrder(u) && !u.started && u.outIdx == |u.slot| / 2 && m <= u.outIdx
    requires t.Formed() && FirstSubmitted(u, t, m)
    ensures t.overrun == u.overrun && t.received == u.received && t.submitted <= u.submitted + Pending(u)
    ensures m == u.outIdx ==> Rolling(t.(started := true))
    ensures m == u.outIdx ==> t.submitted + Pending(t.(started := true)) == u.submitted + Pending(u)
  {
    hide Rolling, Flat, Filled;
    FlatPrefix(u.slot, m, u.outIdx);
    PrefixExtends(u.submitted, Flat(u.slot, m), Flat(u.slot, u.outIdx), Filled(u.slot[u.outIdx]));
    if m == u.outIdx {
      StartRolls(u, t.(started := true));
      assert t.slot[u.outIdx] == u.slot[u.outIdx];
    }
  }

  lemma PrefixExtends(a: seq<nat>, f: seq<nat>, g: seq<nat>, x: seq<nat>)
    requires f <= g
    ensures a + f <= a + (g + x)
    ensures (a + g) + ([] + x) == a + (g + x)
  {
  }

  lemma OrderedPrefix(s: Stream, a: seq<nat>)
    requires s.Formed() && Ordered(s) && a <= s.submitted + Pending(s) + [s.received]
    ensures Increasing(a) && forall p | p in a :: p < s.received + 1
  {
    hide Pending;
    var all := s.submitted + Pending(s);
    IncreasingAppend(all, s.received);
    IncreasingPrefix(a, all + [s.received]);
    assert forall p | p in a :: p in all + [s.received];
  }

  // A packet that is stored joins the end of what was submitted or is waiting; nothing else changes there.
  lemma PacketJoins(s: Stream, failAt: nat)
    requires Sound(s) && s.alive && s.dropPackets == 0 && s.slot[s.outIdx].packetIdx != SUBMITTED_IDX
    ensures var r := OnPacket(s, failAt);
            !r.overrun && r.received == s.received + 1 &&
            r.submitted <= s.submitted + Pending(s) + [s.received] &&
            (r.alive ==> r.submitted + Pending(r) == s.submitted + Pending(s) + [s.received] &&
                         if r.started then Rolling(r) else Filling(r))
  {
    hide Rolling, Pending, Start, Ordered, SubmitSlot, Filled;
    var c := s.slot[s.outIdx];
    var u := Store(s.(received := s.received + 1), s.received);
    if s.started {
      CurrentIsFree(s);
      if c.packetIdx + 1 < s.pkts {
        StorePartial(s, u);
      } else {
        StoreFull(s, u, SubmitSlot(u, s.outIdx, false));
        StoreIs(s, u);
        SubmitMeans(u, s.outIdx);
        FullPending(s, SubmitSlot(u, s.outIdx, false));
      }
    } else {
      StoreFilling(s, u);
      if u.outIdx * u.pkts + u.slot[u.outIdx].packetIdx == u.Needed() {
        StartKeeps(u, failAt, u.submitted + Pending(u));
      }
    }
    hide Store;
  }

  lemma SubmitMeans(u: Stream, i: nat)
    requires u.Formed() && i < |u.slot|
    ensures var r := SubmitSlot(u, i, true);
            !r.alive && r.submitted == u.submitted && r.overrun == u.overrun && r.received == u.received
    ensures var r := SubmitSlot(u, i, false);
            r.alive == u.alive && r.started == u.started && r.overrun == u.overrun && r.received == u.received &&
            u.submitted <= r.submitted
  {
  }

  lemma Dropped(s: Stream, r: Stream)
    requires Sound(s) && r.Formed()
    requires r == s.(received := s.received + 1, dropPackets := r.dropPackets)
    ensures Sound(r)
  {
    hide Flat, Filled;
    if s.alive {
      assert Pending(r) == Pending(s);
    }
  }

  lemma PacketKeeps(s: Stream, failAt: nat)
    requires Sound(s)
    ensures Sound(OnPacket(s, failAt))
  {
    var r := OnPacket(s, failAt);
    if s.alive {
      if s.dropPackets > 0 || s.slot[s.outIdx].packetIdx == SUBMITTED_IDX {
        Dropped(s, r);
      } else {
        PacketJoins(s, failAt);
        OrderedPrefix(s, r.submitted);
        if r.alive {
          OrderedAppend(s, r);
        }
      }
    }
    hide OnPacket, Ordered, Rolling, Filling;
  }

  // The oldest transfer is no longer submitted.
  function Returned(s: Stream): (t: Stream)
    requires s.Formed() && s.flight != []
    ensures t.Formed()
  {
    s.(slot := s.slot[s.flight[0] := s.slot[s.flight[0]].(packetIdx := 0)], flight := s.flight[1..])
  }

  lemma ReturnedRolls(s: Stream)
    requires s.Formed() && Rolling(s) && s.flight != []
    ensures Rolling(Returned(s)) && Filled(Returned(s).slot[s.outIdx]) == Filled(s.slot[s.outIdx])
  {
    var i, t := s.flight[0], Returned(s);
    assert Distance(|s.slot|, s.outIdx, i) == |s.flight| - 1;
    forall j | 0 <= j < |s.slot| && j != i
      ensures Distance(|s.slot|, s.outIdx, j) != |s.flight| - 1
    {
    }
    hide Distance;
  }

  lemma OldestIsSubmitted(s: Stream)
    requires s.Formed() && Rolling(s)
    ensures s.flight != [] ==> exists i | 0 <= i < |s.slot| :: s.slot[i].packetIdx == SUBMITTED_IDX
  {
    if s.flight != [] {
      assert s.slot[s.flight[0]].packetIdx == SUBMITTED_IDX;
    }
  }

  lemma UnderflowMeans(s: Stream)
    requires s.Formed() && Rolling(s) && Underflow(s)
    ensures s.flight == []
  {
    OldestIsSubmitted(s);
    hide Rolling;
  }

  lemma RestartedFills(s: Stream)
    requires s.Formed() && s.flight == [] && s.pkts * |s.slot| >= 2
    ensures Filling(Restarted(s)) && Pending(Restarted(s)) == []
    ensures var r := Restarted(s);
            r.submitted == s.submitted && r.received == s.received && r.overrun == s.overrun && r.alive == s.alive &&
            !r.started
  {
  }

  lemma CompletionKeeps(s: Stream, c: Completion)
    requires Sound(s) && s.pkts * |s.slot| >= 2
    ensures Sound(OnCompletion(s, c))
  {
    hide Rolling, Filling, Ordered, Restarted, Underflow, Filled, Flat;
    if s.alive && s.flight != [] {
      StartedHasFlight(s);
      var t := Returned(s);
      ReturnedRolls(s);
      OrderedSame(s, t);
      if c == Fine && Underflow(t) {
        UnderflowMeans(t);
        RestartedFills(t);
        OrderedNone(t, Restarted(t));
      }
    }
  }

  lemma StartedHasFlight(s: Stream)
    requires Sound(s) && s.alive && s.flight != []
    ensures s.started
  {
    hide Rolling, Ordered;
  }

  lemma OrderedSame(s: Stream, t: Stream)
    requires s.Formed() && t.Formed() && Ordered(s) && s.started && t.started && s.outIdx == t.outIdx
    requires t.submitted == s.submitted && t.received == s.received
    requires Filled(t.slot[s.outIdx]) == Filled(s.slot[s.outIdx])
    ensures Ordered(t)
  {
    hide Filled, Increasing;
  }

  lemma OrderedNone(t: Stream, r: Stream)
    requires t.Formed() && r.Formed() && Ordered(t) && Pending(r) == []
    requires r.submitted == t.submitted && r.received == t.received
    ensures Ordered(r)
  {
    hide Pending;
    assert r.submitted + Pending(r) == r.submitted;
    assert forall p | p in t.submitted :: p in t.submitted + Pending(t);
    IncreasingPrefix(t.submitted, t.submitted + Pending(t));
  }

  // ----- every run -----

  lemma {:induction false} RunKeeps(pkts: nat, count: nat, events: seq<Event>)
    requires 1 <= pkts && 1 <= count && pkts * count >= 2
    ensures var s := Run(NewStream(pkts, count), events); Sound(s) && s.pkts == pkts && |s.slot| == count
  {
    hide Step, NewStream, Sound;
    if events == [] {
      NewIsSound(pkts, count);
    } else {
      var n := |events| - 1;
      RunKeeps(pkts, count, events[..n]);
      var s := Run(NewStream(pkts, count), events[..n]);
      StepKeeps(s, events[n]);
    }
  }

  lemma StepKeeps(s: Stream, e: Event)
    requires Sound(s) && s.pkts * |s.slot| >= 2
    ensures Sound(Step(s, e))
  {
    match e
    case Packet(failAt) => PacketKeeps(s, failAt);
    case Complete(how) => CompletionKeeps(s, how);
  }

  lemma NewIsSound(pkts: nat, count: nat)
    requires 1 <= pkts && 1 <= count && pkts * count >= 2
    ensures Sound(NewStream(pkts, count)) && NewStream(pkts, count).pkts == pkts && |NewStream(pkts, count).slot| == count
  {
  }

  // With FIFO completions, in every reachable state of a started stream the slots libusb has are a cyclic block
  // that ends just before the position, oldest first; no packet was written past the end of a transfer; and the
  // packets submitted so far are in the order they came, without repeats.
  lemma RingIsSafe(pkts: nat, count: nat, events: seq<Event>)
    requires 1 <= pkts && 1 <= count && pkts * count >= 2
    ensures var s := Run(NewStream(pkts, count), events);
            !s.overrun && (s.alive && s.started ==> Block(s)) &&
            (forall i, j | 0 <= i < j < |s.submitted| :: s.submitted[i] < s.submitted[j]) &&
            (forall p | p in s.submitted :: p < s.received)
  {
    RunKeeps(pkts, count, events);
    hide Run, Ordered, Block;
  }

  // The stream once the next packet is in its slot.
  function Stored(s: Stream): (u: Stream)
    requires s.Formed()
    ensures u.Formed() && u.Sized(s)
  {
    Store(s.(received := s.received + 1), s.received)
  }

  // What a step adds to the flight are transfers that hold all of their packets.
  ghost predicate AddsOnlyFull(s: Stream, u: Stream, r: Stream) {
    s.flight <= r.flight &&
    forall k | |s.flight| <= k < |r.flight| :: r.flight[k] < |u.slot| && u.slot[r.flight[k]].packetIdx == u.pkts
  }

  lemma FirstAreFull(u: Stream, t: Stream, m: nat)
    requires u.Formed() && FilledInOrder(u) && m <= u.outIdx && u.flight == [] && FirstSubmitted(u, t, m)
    ensures AddsOnlyFull(u, u, t)
  {
    hide Flat;
  }

  // Whether the next packet is stored.
  predicate Stores(s: Stream)
    requires s.Formed()
  {
    s.alive && s.dropPackets == 0 && s.slot[s.outIdx].packetIdx != SUBMITTED_IDX
  }

  lemma PacketCases(s: Stream, failAt: nat)
    requires s.Formed()
    ensures var u, r, full := Stored(s), OnPacket(s, failAt), s.slot[s.outIdx].packetIdx + 1 == s.pkts;
            if !Stores(s) then r.flight == s.flight
            else if s.started then r == if full then SubmitSlot(u, s.outIdx, failAt == 0) else u
            else r == if u.outIdx * s.pkts + (if full then 0 else s.slot[s.outIdx].packetIdx + 1) == s.Needed()
                      then Start(u, failAt) else u
  {
    hide Store, SubmitSlot, Start;
  }

  lemma RollingAddsOnlyFull(s: Stream, failAt: nat)
    requires s.Formed() && Rolling(s) && s.slot[s.outIdx].packetIdx != SUBMITTED_IDX
    ensures AddsOnlyFull(s, Stored(s), Stored(s))
    ensures s.slot[s.outIdx].packetIdx + 1 == s.pkts ==>
              AddsOnlyFull(s, Stored(s), SubmitSlot(Stored(s), s.outIdx, failAt == 0))
  {
    StoreIs(s, Stored(s));
    hide Rolling, Stored;
  }

  lemma FillingAddsOnlyFull(s: Stream, failAt: nat)
    requires s.Formed() && Filling(s) && s.alive && !s.started
    ensures AddsOnlyFull(s, Stored(s), Stored(s))
    ensures var u := Stored(s);
            u.outIdx * u.pkts + u.slot[u.outIdx].packetIdx == u.Needed() ==> AddsOnlyFull(s, u, Start(u, failAt))
    ensures Stored(s).slot[Stored(s).outIdx].packetIdx ==
            if s.slot[s.outIdx].packetIdx + 1 == s.pkts then 0 else s.slot[s.outIdx].packetIdx + 1
  {
    hide Rolling, Ordered, Filling, SubmitFirst, FirstSubmitted, FilledInOrder, Pending, Flat;
    var u := Stored(s);
    StoreFilling(s, u);
    StoreIs(s, u);
    FillingHasNoFlight(s);
    hide Stored, Store;
    if u.outIdx * u.pkts + u.slot[u.outIdx].packetIdx == u.Needed() {
      NotFilled(u);
      HalfFilled(u.pkts, |u.slot|, u.outIdx, u.slot[u.outIdx].packetIdx);
      SubmitFirstIs(u, u.outIdx, failAt);
      FirstAreFull(u, SubmitFirst(u, u.outIdx, failAt), Min(u.outIdx, failAt));
    }
  }

  lemma PacketAddsOnlyFull(s: Stream, failAt: nat)
    requires Sound(s)
    ensures AddsOnlyFull(s, Stored(s), OnPacket(s, failAt))
  {
    hide Rolling, Filling, Ordered, OnPacket, Stored, SubmitSlot, Start;
    PacketCases(s, failAt);
    if Stores(s) {
      if s.started {
        RollingAddsOnlyFull(s, failAt);
      } else {
        FillingAddsOnlyFull(s, failAt);
      }
    }
  }

  lemma NotFilled(u: Stream)
    requires u.Formed() && FilledInOrder(u)
    ensures 0 <= u.slot[u.outIdx].packetIdx < u.pkts
  {
  }

  lemma FillingHasNoFlight(s: Stream)
    requires s.Formed() && Filling(s)
    ensures s.flight == []
  {
  }

  lemma CompletionAddsNothing(s: Stream, how: Completion)
    requires s.Formed()
    ensures OnCompletion(s, how).flight == s.flight || (s.flight != [] && OnCompletion(s, how).flight == s.flight[1..])
  {
    hide Underflow;
  }

  // In every run with room for two packets, what a packet makes the host submit, be it one transfer or the first half
  // of the ring, are transfers that hold all of their packets; and a completion submits nothing.
  lemma SubmitsOnlyFull(pkts: nat, count: nat, events: seq<Event>, failAt: nat, how: Completion)
    requires 1 <= pkts && 1 <= count && pkts * count >= 2
    ensures var s := Run(NewStream(pkts, count), events);
            AddsOnlyFull(s, Stored(s), OnPacket(s, failAt)) &&
            (OnCompletion(s, how).flight == s.flight ||
             (s.flight != [] && OnCompletion(s, how).flight == s.flight[1..]))
  {
    hide Run, NewStream, Sound, AddsOnlyFull, Stored, OnPacket, OnCompletion;
    RunKeeps(pkts, count, events);
    PacketAddsOnlyFull(Run(NewStream(pkts, count), events), failAt);
    CompletionAddsNothing(Run(NewStream(pkts, count), events), how);
  }

  // Packets go only to a slot that libusb does not have.
  lemma FlightIsNotWritten(pkts: nat, count: nat, events: seq<Event>, failAt: nat, k: nat)
    requires 1 <= pkts && 1 <= count && pkts * count >= 2
    requires k < |Run(NewStream(pkts, count), events).flight|
    ensures var s := Run(NewStream(pkts, count), events);
            var r := OnPacket(s, failAt);
            s.alive && s.flight[k] < |r.slot| ==> r.slot[s.flight[k]] == s.slot[s.flight[k]]
  {
    RunKeeps(pkts, count, events);
    hide Run, Ordered, NewStream;
    var s := Run(NewStream(pkts, count), events);
    if s.alive && s.dropPackets == 0 && s.slot[s.outIdx].packetIdx != SUBMITTED_IDX {
      StartedHasFlight(s);
      assert s.slot[s.flight[k]].packetIdx == SUBMITTED_IDX;
    }
  }

  // A stream of one transfer of one packet starts with nothing submitted, and the second packet overruns.
  lemma SingleOverruns()
    ensures Run(NewStream(1, 1), [Packet(0), Packet(0)]).overrun
  {
    var s := NewStream(1, 1);
    var a := Run(s, [Packet(0)]);
    assert [Packet(0)][..0] == [] && [Packet(0), Packet(0)][..1] == [Packet(0)];
    assert Run(s, []) == s;
    assert s.slot[0].cells == [0];
    assert s.slot == [Slot(0, [0])];
    var u := Store(s.(received := 1), 0);
    assert u.slot[0].cells == [0];
    assert u.outIdx == 0 && u.slot == [Slot(1, [0])];
    assert SubmitFirst(u, 0, 0) == u;
    assert a == u.(started := true);
    assert OnPacket(a, 0).overrun;
  }

  // No run overruns exactly when the stream has room for two packets or more.
  lemma OverrunFreeIff(pkts: nat, count: nat)
    requires 1 <= pkts && 1 <= count
    ensures (forall events :: !Run(NewStream(pkts, count), events).overrun) <==> pkts * count >= 2
  {
    hide Run;
    if pkts * count >= 2 {
      forall events
        ensures !Run(NewStream(pkts, count), events).overrun
      {
        RingIsSafe(pkts, count, events);
      }
    } else {
      SingleOverruns();
      OneByOne(pkts, count);
    }
  }

  lemma OneByOne(pkts: nat, count: nat)
    requires 1 <= pkts && 1 <= count && pkts * count < 2
    ensures pkts == 1 && count == 1
  {
    TimesMonotone(pkts, 1, count);
    TimesMonotone(count, 1, pkts);
  }

  // ----- the stream in place -----

  class IsoOutStream {
    const pkts: nat
    var slot: seq<Slot>
    var outIdx: nat
    var dropPackets: nat
    var started: bool
    var alive: bool
    var received: nat
    var flight: seq<nat>
    ghost var overrun: bool
    ghost var submitted: seq<nat>

    // The stream as a value.
    ghost function S(): Stream
      reads this
    {
      Stream(pkts, slot, outIdx, dropPackets, started, alive, overrun, flight, submitted, received)
    }

    constructor (pkts: nat, count: nat)
      requires 1 <= pkts && 1 <= count
      ensures S() == NewStream(pkts, count)
    {
      this.pkts := pkts;
      slot := seq(count, _ => Slot(0, seq(pkts, _ => 0)));
      outIdx, dropPackets, started, alive, received, flight := 0, 0, false, true, 0, [];
      overrun, submitted := false, [];
    }

    method SubmitTransfer(i: nat, fails: bool)
      requires S().Formed() && i < |slot|
      modifies this
      ensures S() == SubmitSlot(old(S()), i, fails)
    {
      if fails {
        alive := false;
        return;
      }
      submitted := submitted + slot[i].cells;
      slot := slot[i := slot[i].(packetIdx := SUBMITTED_IDX)];
      flight := flight + [i];
    }

    // Submits the first half of the transfers.
    method StartStream(failAt: nat)
      requires S().Formed() && alive
      modifies this
      ensures S() == Start(old(S()), failAt)
    {
      hide SubmitSlot;
      ghost var s := S();
      var count := |slot| / 2;
      for i := 0 to count
        invariant S() == SubmitFirst(s, i, failAt) && alive
      {
        SubmitTransfer(i, failAt == i);
        if !alive {
          StaysEnded(s, i + 1, count, failAt);
          return;
        }
      }
      started := true;
    }

    // A packet for the device arrives.
    method IsoPacket(failAt: nat)
      requires S().Formed()
      modifies this
      ensures S() == OnPacket(old(S()), failAt)
    {
      hide Start, SubmitSlot;
      if !alive {
        return;
      }
      ghost var s := S();
      var p := received;
      received := received + 1;
      if dropPackets > 0 {
        dropPackets := dropPackets - 1;
        return;
      }
      var i := outIdx;
      var j := slot[i].packetIdx;
      if j == SUBMITTED_IDX {
        dropPackets := pkts * |slot| / 2;
        return;
      }
      overrun := overrun || !(0 <= j < pkts);
      slot := slot[i := Write(slot[i], p)];
      j := j + 1;
      if j == pkts {
        outIdx := (i + 1) % |slot|;
        j := 0;
      }
      ghost var u := Store(s.(received := s.received + 1), s.received);
      assert S() == u;
      if started {
        if slot[i].packetIdx == pkts {
          SubmitTransfer(i, failAt == 0);
        }
      } else {
        var available := outIdx * pkts + j;
        var needed := pkts * |slot| / 2;
        if available == needed {
          StartStream(failAt);
        }
      }
    }

    // The oldest transfer completes.
    method Complete(how: Completion)
      requires S().Formed()
      modifies this
      ensures S() == OnCompletion(old(S()), how)
    {
      if !alive || flight == [] {
        return;
      }
      var i := flight[0];
      slot := slot[i := slot[i].(packetIdx := 0)];
      flight := flight[1..];
      if how == Ending {
        alive := false;
        return;
      }
      if how == Lost {
        return;
      }
      ghost var t := S();
      var k := 0;
      while k < |slot| && slot[k].packetIdx != SUBMITTED_IDX
        invariant k <= |slot| && S() == t
        invariant forall m | 0 <= m < k :: slot[m].packetIdx != SUBMITTED_IDX
      {
        k := k + 1;
      }
      if k == |slot| {
        for n := 0 to |slot|
          invariant S() == t.(slot := slot) && |slot| == |t.slot|
          invariant forall m | 0 <= m < |slot| ::
                      slot[m] == if m < n then t.slot[m].(packetIdx := 0) else t.slot[m]
        {
          slot := slot[n := slot[n].(packetIdx := 0)];
        }
        assert slot == Restarted(t).slot;
        outIdx := 0;
        started := false;
        dropPackets := 0;
      }
    }
  }

  // A stream that has ended submits no more.
  lemma {:induction false} StaysEnded(s: Stream, m: nat, n: nat, failAt: nat)
    requires s.Formed() && m <= n <= |s.slot| && !SubmitFirst(s, m, failAt).alive
    ensures SubmitFirst(s, n, failAt) == SubmitFirst(s, m, failAt)
    decreases n
  {
    hide SubmitSlot;
    if m < n {
      StaysEnded(s, m, n - 1, failAt);
    }
  }
}
