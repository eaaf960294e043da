// The stream transfers of an output endpoint are the ring of UsbIsoOut: what the host does on an endpoint is the step
// on a ring.
module UsbRing {
  import opened UsbBooks
  import IsoOut = UsbIsoOut

  // Slot i holds a transfer with this index.
  ghost predicate InSlot(e: Endpoint, heap: Heap, i: nat, idx: int) {
    i < |e.slot| && e.slot[i].Some? && e.slot[i].value in heap && heap[e.slot[i].value].packetIdx == idx
  }

  // The endpoint's stream is in the state s.
  ghost predicate Ring(e: Endpoint, heap: Heap, s: IsoOut.Stream) {
    && s.Formed() && s.alive && s.pkts == e.pktsPerTransfer && |s.slot| == e.transferCount <= MAX_TRANSFER_COUNT
    && s.outIdx == e.outIdx && s.dropPackets == e.dropPackets && s.started == e.streamStarted
    && forall i | 0 <= i < |s.slot| :: InSlot(e, heap, i, s.slot[i].packetIdx)
  }

  // No submission fails: a packet causes fewer than this.
  const ALL_GO: nat := MAX_TRANSFER_COUNT

  // The endpoint has taken a packet whose submissions, if any, went well.
  ghost predicate PacketTaken(e: Endpoint, heap: Heap, e': Endpoint, heap': Heap) {
    forall s | Ring(e, heap, s) :: Ring(e', heap', IsoOut.OnPacket(s, ALL_GO))
  }

  // The next packet causes a submission, and if that fails the stream ends.
  ghost predicate PacketMayEnd(e: Endpoint, heap: Heap) {
    forall s | Ring(e, heap, s) :: !IsoOut.OnPacket(s, 0).alive
  }

  // Transfer h is the oldest that libusb has.
  ghost predicate IsOldest(e: Endpoint, s: IsoOut.Stream, h: nat) {
    s.flight != [] && s.flight[0] < |e.slot| && e.slot[s.flight[0]] == Some(h)
  }

  // Transfer h, if it is the oldest, has completed and the stream goes on.
  ghost predicate OldestCompleted(e: Endpoint, heap: Heap, h: nat, how: IsoOut.Completion, e': Endpoint, heap': Heap) {
    forall s | Ring(e, heap, s) && IsOldest(e, s, h) :: Ring(e', heap', IsoOut.OnCompletion(s, how))
  }

  lemma RingMeans(e: Endpoint, heap: Heap, s: IsoOut.Stream)
    requires Ring(e, heap, s)
    ensures s.Formed() && s.pkts == e.pktsPerTransfer && |s.slot| == e.transferCount
  {
  }

  // The endpoint's ring is as before, or there still is none.
  ghost predicate RingKept(e: Endpoint, heap: Heap, e': Endpoint, heap': Heap) {
    (e.transferCount == 0 ==> e'.transferCount == 0) &&
    forall s | Ring(e, heap, s) :: Ring(e', heap', s)
  }

  function PacketIndex(e: Endpoint, heap: Heap, i: nat): int {
    if i < |e.slot| && e.slot[i].Some? && e.slot[i].value in heap then heap[e.slot[i].value].packetIdx else 0
  }

  // Every stream is a ring in some state.
  lemma HasRing(endpoints: seq<Endpoint>, heap: Heap, flight: set<nat>, pending: int, next: nat, e: nat)
    returns (s: IsoOut.Stream)
    requires AllShaped(endpoints) && Books(endpoints, heap, flight, pending, next)
    requires e < MAX_ENDPOINTS && endpoints[e].transferCount > 0
    ensures |endpoints| == MAX_ENDPOINTS && Ring(endpoints[e], heap, s)
  {
    assert Shaped(endpoints[e]);
    var ep := endpoints[e];
    var slots := seq(ep.transferCount, i requires 0 <= i < ep.transferCount =>
      IsoOut.Slot(PacketIndex(ep, heap, i), seq(ep.pktsPerTransfer, _ => 0)));
    s := IsoOut.NewStream(ep.pktsPerTransfer, ep.transferCount).(
      slot := slots, outIdx := ep.outIdx, dropPackets := ep.dropPackets, started := ep.streamStarted);
    forall i | 0 <= i < |s.slot|
      ensures InSlot(ep, heap, i, s.slot[i].packetIdx)
    {
      assert Holds(endpoints, e, i, ep.slot[i].value);
    }
  }

  lemma SameRings(endpoints: seq<Endpoint>, heap: Heap)
    ensures forall e: nat | e < |endpoints| :: RingKept(endpoints[e], heap, endpoints[e], heap)
  {
  }

  lemma RingKeptTwice(e: Endpoint, heap: Heap, e': Endpoint, heap': Heap, e'': Endpoint, heap'': Heap)
    requires RingKept(e, heap, e', heap') && RingKept(e', heap', e'', heap'')
    ensures RingKept(e, heap, e'', heap'')
  {
  }

  // A ring is left alone if the fields of the endpoint and its transfers are.
  lemma OtherRing(endpoints: seq<Endpoint>, heap: Heap, e': Endpoint, heap': Heap, e: nat, f: nat)
    requires f < |endpoints| && SlotsSound(endpoints, heap) && HeapKept(heap, heap', e) && f != e
    requires e' == endpoints[f]
    ensures RingKept(endpoints[f], heap, e', heap')
  {
    forall i: nat, idx | InSlot(endpoints[f], heap, i, idx)
      ensures InSlot(e', heap', i, idx)
    {
      assert Holds(endpoints, f, i, endpoints[f].slot[i].value);
    }
    hide InSlot;
  }

  // A cancelled transfer is in no ring.
  lemma CancelledIsOutside(endpoints: seq<Endpoint>, heap: Heap, h: nat, e: nat)
    requires e < |endpoints| && SlotsSound(endpoints, heap) && h in heap && heap[h].cancelled
    ensures RingKept(endpoints[e], heap, endpoints[e], heap - {h})
  {
    forall i: nat, idx | InSlot(endpoints[e], heap, i, idx)
      ensures InSlot(endpoints[e], heap - {h}, i, idx)
    {
      assert Holds(endpoints, e, i, endpoints[e].slot[i].value);
    }
    hide InSlot;
  }

  lemma OtherKind(e: Endpoint, heap: Heap, kind: EndpointType, maxPacketSize: nat)
    ensures RingKept(e, heap, e.(kind := kind, maxPacketSize := maxPacketSize), heap)
  {
  }

  ghost predicate NewlyRing(e: Endpoint, heap: Heap, pkts: nat, count: nat) {
    pkts >= 1 && count >= 1 && Ring(e, heap, IsoOut.NewStream(pkts, count))
  }

  // A stream for output that was just allocated is a new ring.
  lemma NewRing(endpoint: Endpoint, heap: Heap, e: nat, pkts: nat, count: nat, length: nat)
    requires HasStream(endpoint, heap, e, pkts, count, length, false)
    requires 1 <= pkts && 1 <= count <= MAX_TRANSFER_COUNT
    ensures NewlyRing(endpoint, heap, pkts, count)
  {
  }

  // ----- a packet -----

  lemma Drops(e: Endpoint, heap: Heap)
    requires e.dropPackets > 0
    ensures PacketTaken(e, heap, e.(dropPackets := e.dropPackets - 1), heap)
  {
    hide IsoOut.Store, IsoOut.Start, IsoOut.SubmitSlot;
  }

  lemma Overflows(e: Endpoint, heap: Heap)
    requires e.dropPackets == 0 && InSlot(e, heap, e.outIdx, SUBMITTED_IDX)
    ensures PacketTaken(e, heap, e.(dropPackets := e.pktsPerTransfer * e.transferCount / 2), heap)
  {
    hide IsoOut.Store, IsoOut.Start, IsoOut.SubmitSlot;
  }

  // The position once the packet is stored.
  function Advanced(e: Endpoint, full: bool): Endpoint
    requires e.transferCount > 0
  {
    if full then e.(outIdx := (e.outIdx + 1) % e.transferCount) else e
  }

  function Reindexed(heap: Heap, h: nat, idx: int): (r: Heap)
    requires h in heap
    ensures h in r
  {
    heap[h := heap[h].(packetIdx := idx)]
  }

  // Changing the index of one transfer changes one slot.
  lemma OneSlot(endpoints: seq<Endpoint>, heap: Heap, e: nat, k: nat, h: nat, idx: int)
    requires e < |endpoints| && SlotsSound(endpoints, heap) && Holds(endpoints, e, k, h)
    ensures h in heap && InSlot(endpoints[e], heap, k, heap[h].packetIdx)
    ensures InSlot(endpoints[e], Reindexed(heap, h, idx), k, idx)
    ensures forall i: nat, j | i != k && InSlot(endpoints[e], heap, i, j) ::
              InSlot(endpoints[e], Reindexed(heap, h, idx), i, j)
  {
    forall i: nat, j | i != k && InSlot(endpoints[e], heap, i, j)
      ensures InSlot(endpoints[e], Reindexed(heap, h, idx), i, j)
    {
      assert !Holds(endpoints, e, i, h);
    }
  }

  lemma Stores(endpoints: seq<Endpoint>, heap: Heap, e: nat, h: nat, s: IsoOut.Stream)
    requires e < |endpoints| && SlotsSound(endpoints, heap) && Holds(endpoints, e, endpoints[e].outIdx, h) && h in heap
    requires Ring(endpoints[e], heap, s) && IsoOut.Stores(s)
    ensures var idx := heap[h].packetIdx + 1;
            idx == s.slot[s.outIdx].packetIdx + 1 &&
            Ring(Advanced(endpoints[e], idx == s.pkts), Reindexed(heap, h, idx), IsoOut.Stored(s))
  {
    IsoOut.StoreIs(s, IsoOut.Stored(s));
    IsoOut.NextSlot(|s.slot|, s.outIdx);
    OneSlot(endpoints, heap, e, s.outIdx, h, heap[h].packetIdx + 1);
    assert InSlot(endpoints[e], heap, s.outIdx, s.slot[s.outIdx].packetIdx);
    var u, idx, r := IsoOut.Stored(s), heap[h].packetIdx + 1, Reindexed(heap, h, heap[h].packetIdx + 1);
    hide IsoOut.Stored, SlotsSound, Reindexed;
    forall i | 0 <= i < |u.slot|
      ensures InSlot(endpoints[e], r, i, u.slot[i].packetIdx)
    {
      assert InSlot(endpoints[e], heap, i, s.slot[i].packetIdx);
    }
    SameSlots(endpoints[e], Advanced(endpoints[e], idx == s.pkts), r);
  }

  lemma SameSlots(e: Endpoint, e': Endpoint, heap: Heap)
    requires e'.slot == e.slot
    ensures forall i: nat, j | InSlot(e, heap, i, j) :: InSlot(e', heap, i, j)
  {
  }

  // The host stores the packet in transfer h, the one at the position.
  ghost predicate StoresIn(endpoints: seq<Endpoint>, heap: Heap, e: nat, h: nat) {
    e < |endpoints| && SlotsSound(endpoints, heap) && Holds(endpoints, e, endpoints[e].outIdx, h) && h in heap &&
    endpoints[e].transferCount > 0 && endpoints[e].dropPackets == 0 && heap[h].packetIdx >= 0
  }

  lemma StoresHere(endpoints: seq<Endpoint>, heap: Heap, flight: set<nat>, pending: int, next: nat, e: nat)
    requires AllShaped(endpoints) && Books(endpoints, heap, flight, pending, next)
    requires e < MAX_ENDPOINTS && endpoints[e].transferCount > 0
    ensures |endpoints| == MAX_ENDPOINTS && endpoints[e].outIdx < |endpoints[e].slot|
    ensures endpoints[e].slot[endpoints[e].outIdx].Some?
    ensures var h := endpoints[e].slot[endpoints[e].outIdx].value;
            h in heap && InSlot(endpoints[e], heap, endpoints[e].outIdx, heap[h].packetIdx) &&
            (endpoints[e].dropPackets == 0 && heap[h].packetIdx != SUBMITTED_IDX ==> StoresIn(endpoints, heap, e, h))
  {
    CurrentTransfer(endpoints, heap, flight, pending, next, e);
  }

  lemma UsedEndpoint(endpoints: seq<Endpoint>, heap: Heap, e: nat, h: nat)
    requires StoresIn(endpoints, heap, e, h)
    ensures e < |endpoints| && endpoints[e].transferCount > 0 && h in heap && heap[h].packetIdx >= 0
  {
  }

  lemma IdleOfAdvanced(e: Endpoint)
    ensures e.transferCount > 0 ==> forall full :: Idle(Advanced(e, full)) == Idle(e)
  {
  }

  // The packet has filled transfer h of a started stream, which is submitted.
  lemma FullRing(endpoints: seq<Endpoint>, heap: Heap, e: nat, h: nat, s: IsoOut.Stream)
    requires StoresIn(endpoints, heap, e, h) && Ring(endpoints[e], heap, s) && IsoOut.Stores(s)
    requires heap[h].packetIdx + 1 == s.pkts && s.started
    ensures Ring(Advanced(endpoints[e], true), Reindexed(Reindexed(heap, h, s.pkts), h, SUBMITTED_IDX),
                 IsoOut.SubmitSlot(IsoOut.Stored(s), s.outIdx, false))
  {
    Stores(endpoints, heap, e, h, s);
    IsoOut.StoreIs(s, IsoOut.Stored(s));
    var u, full, e' := IsoOut.Stored(s), Reindexed(heap, h, s.pkts), Advanced(endpoints[e], true);
    OneSlot(endpoints, full, e, s.outIdx, h, SUBMITTED_IDX);
    SameSlots(endpoints[e], e', Reindexed(full, h, SUBMITTED_IDX));
    SameSlots(e', endpoints[e], full);
    hide IsoOut.Stored, SlotsSound, Reindexed, Holds, InSlot, IsoOut.Store, IsoOut.Write, IsoOut.Stores;
  }

  lemma RingStores(endpoints: seq<Endpoint>, heap: Heap, e: nat, h: nat, s: IsoOut.Stream)
    requires StoresIn(endpoints, heap, e, h) && Ring(endpoints[e], heap, s)
    ensures IsoOut.Stores(s) && s.slot[s.outIdx].packetIdx == heap[h].packetIdx && s.started == endpoints[e].streamStarted
    ensures s.pkts == endpoints[e].pktsPerTransfer && |s.slot| == endpoints[e].transferCount <= MAX_TRANSFER_COUNT
  {
    assert InSlot(endpoints[e], heap, s.outIdx, s.slot[s.outIdx].packetIdx);
  }

  lemma PacketOnStarted(endpoints: seq<Endpoint>, heap: Heap, e: nat, h: nat, s: IsoOut.Stream)
    requires StoresIn(endpoints, heap, e, h) && endpoints[e].streamStarted && Ring(endpoints[e], heap, s)
    ensures var idx := heap[h].packetIdx + 1;
            var full := idx == endpoints[e].pktsPerTransfer;
            var stored := Reindexed(heap, h, idx);
            Ring(Advanced(endpoints[e], full), if full then Reindexed(stored, h, SUBMITTED_IDX) else stored,
                 IsoOut.OnPacket(s, ALL_GO)) &&
            (full ==> !IsoOut.OnPacket(s, 0).alive)
  {
    hide InSlot, Holds, SlotsSound, Reindexed, IsoOut.Stores, IsoOut.Stored, IsoOut.OnPacket;
    RingStores(endpoints, heap, e, h, s);
    IsoOut.PacketCases(s, ALL_GO);
    IsoOut.PacketCases(s, 0);
    Stores(endpoints, heap, e, h, s);
    if heap[h].packetIdx + 1 == s.pkts {
      FullRing(endpoints, heap, e, h, s);
      IsoOut.SubmitMeans(IsoOut.Stored(s), s.outIdx);
    }
  }

  lemma TakenByStarted(endpoints: seq<Endpoint>, heap: Heap, e: nat, h: nat)
    requires StoresIn(endpoints, heap, e, h) && endpoints[e].streamStarted
    ensures var idx := heap[h].packetIdx + 1;
            var full := idx == endpoints[e].pktsPerTransfer;
            var stored := Reindexed(heap, h, idx);
            PacketTaken(endpoints[e], heap, Advanced(endpoints[e], full),
                        if full then Reindexed(stored, h, SUBMITTED_IDX) else stored) &&
            (full ==> PacketMayEnd(endpoints[e], heap))
  {
    forall s | Ring(endpoints[e], heap, s) {
      PacketOnStarted(endpoints, heap, e, h, s);
    }
    hide InSlot, Holds, SlotsSound, Reindexed, IsoOut.OnPacket;
  }

  // The first n slots are marked as submitted.
  lemma {:induction false} FirstMarked(s: IsoOut.Stream, n: nat)
    requires s.Formed() && s.alive && n <= |s.slot| && n <= ALL_GO
    ensures var r := IsoOut.SubmitFirst(s, n, ALL_GO);
            r.alive && r.started == s.started && r.outIdx == s.outIdx && r.dropPackets == s.dropPackets &&
            forall i | 0 <= i < |s.slot| ::
              r.slot[i].packetIdx == if i < n then IsoOut.SUBMITTED_IDX else s.slot[i].packetIdx
  {
    if n > 0 {
      FirstMarked(s, n - 1);
    }
  }

  lemma {:induction false} FirstFails(s: IsoOut.Stream, n: nat)
    requires s.Formed() && 0 < n <= |s.slot|
    ensures !IsoOut.SubmitFirst(s, n, 0).alive
  {
    if n > 1 {
      FirstFails(s, n - 1);
    }
  }

  // Half of the ring has been submitted, as the first slots of the endpoint.
  lemma StartedRing(endpoints: seq<Endpoint>, heap: Heap, heap': Heap, e: nat, u: IsoOut.Stream)
    requires e < |endpoints| && SlotsSound(endpoints, heap) && Ring(endpoints[e], heap, u)
    requires SubmittedUpTo(endpoints, heap, heap', e, endpoints[e].transferCount / 2)
    ensures Ring(Started(endpoints, e)[e], heap', IsoOut.Start(u, ALL_GO))
  {
    hide IsoOut.SubmitFirst;
    var n := |u.slot| / 2;
    FirstMarked(u, n);
    var r := IsoOut.Start(u, ALL_GO);
    forall i | 0 <= i < |u.slot|
      ensures InSlot(Started(endpoints, e)[e], heap', i, r.slot[i].packetIdx)
    {
      assert InSlot(endpoints[e], heap, i, u.slot[i].packetIdx);
      var h := endpoints[e].slot[i].value;
      assert Holds(endpoints, e, i, h);
      assert Taken(endpoints, e, n, h) <==> i < n;
    }
  }

  // How full the ring is, in packets, once the packet is stored.
  function Available(e: Endpoint, idx: nat): nat
    requires e.transferCount > 0
  {
    Advanced(e, idx == e.pktsPerTransfer).outIdx * e.pktsPerTransfer + (if idx == e.pktsPerTransfer then 0 else idx)
  }

  predicate Reached(e: Endpoint, idx: nat)
    requires e.transferCount > 0
  {
    Available(e, idx) == e.pktsPerTransfer * e.transferCount / 2
  }

  lemma PacketOnFilling(endpoints: seq<Endpoint>, heap: Heap, e: nat, h: nat, s: IsoOut.Stream)
    requires StoresIn(endpoints, heap, e, h) && !endpoints[e].streamStarted && Ring(endpoints[e], heap, s)
    ensures IsoOut.OnPacket(s, ALL_GO) ==
            if Reached(endpoints[e], heap[h].packetIdx + 1) then IsoOut.Start(IsoOut.Stored(s), ALL_GO)
            else IsoOut.Stored(s)
    ensures Reached(endpoints[e], heap[h].packetIdx + 1) && endpoints[e].transferCount >= 2 ==>
              !IsoOut.OnPacket(s, 0).alive
  {
    hide InSlot, Holds, SlotsSound, Reindexed, IsoOut.Stores, IsoOut.Stored, IsoOut.OnPacket, IsoOut.SubmitFirst;
    RingStores(endpoints, heap, e, h, s);
    IsoOut.PacketCases(s, ALL_GO);
    IsoOut.PacketCases(s, 0);
    Stores(endpoints, heap, e, h, s);
    if endpoints[e].transferCount >= 2 {
      FirstFails(IsoOut.Stored(s), |s.slot| / 2);
    }
  }

  lemma TakenByFilling(endpoints: seq<Endpoint>, heap: Heap, e: nat, h: nat)
    requires StoresIn(endpoints, heap, e, h) && !endpoints[e].streamStarted
    ensures var idx := heap[h].packetIdx + 1;
            if Reached(endpoints[e], idx) then endpoints[e].transferCount >= 2 ==> PacketMayEnd(endpoints[e], heap)
            else PacketTaken(endpoints[e], heap, Advanced(endpoints[e], idx == endpoints[e].pktsPerTransfer),
                             Reindexed(heap, h, idx))
  {
    hide InSlot, Holds, SlotsSound, Reindexed, IsoOut.OnPacket, IsoOut.Stored, IsoOut.Stores, IsoOut.Start, Reached;
    var idx := heap[h].packetIdx + 1;
    var e', stored := Advanced(endpoints[e], idx == endpoints[e].pktsPerTransfer), Reindexed(heap, h, idx);
    forall s | Ring(endpoints[e], heap, s)
      ensures if Reached(endpoints[e], idx) then endpoints[e].transferCount >= 2 ==> !IsoOut.OnPacket(s, 0).alive
              else Ring(e', stored, IsoOut.OnPacket(s, ALL_GO))
    {
      RingStores(endpoints, heap, e, h, s);
      PacketOnFilling(endpoints, heap, e, h, s);
      Stores(endpoints, heap, e, h, s);
    }
  }

  lemma TakenByStart(endpoints: seq<Endpoint>, heap: Heap, endpoints': seq<Endpoint>, heap': Heap, e: nat, h: nat)
    requires StoresIn(endpoints, heap, e, h) && !endpoints[e].streamStarted
    requires Reached(endpoints[e], heap[h].packetIdx + 1) && e < |endpoints'|
    requires endpoints'[e] == Advanced(endpoints[e], heap[h].packetIdx + 1 == endpoints[e].pktsPerTransfer)
    requires SlotsSound(endpoints', Reindexed(heap, h, heap[h].packetIdx + 1))
    requires SubmittedUpTo(endpoints', Reindexed(heap, h, heap[h].packetIdx + 1), heap', e, endpoints[e].transferCount / 2)
    ensures PacketTaken(endpoints[e], heap, Started(endpoints', e)[e], heap')
  {
    hide InSlot, Holds, SlotsSound, Reindexed, IsoOut.OnPacket, IsoOut.Stored, IsoOut.Stores, IsoOut.Start, Reached,
      SubmittedUpTo;
    forall s | Ring(endpoints[e], heap, s)
      ensures Ring(Started(endpoints', e)[e], heap', IsoOut.OnPacket(s, ALL_GO))
    {
      RingStores(endpoints, heap, e, h, s);
      PacketOnFilling(endpoints, heap, e, h, s);
      Stores(endpoints, heap, e, h, s);
      StartedRing(endpoints', Reindexed(heap, h, heap[h].packetIdx + 1), heap', e, IsoOut.Stored(s));
    }
  }

  // ----- a completion -----

  lemma ReturnedRing(endpoints: seq<Endpoint>, heap: Heap, e: nat, h: nat, s: IsoOut.Stream)
    requires e < |endpoints| && SlotsSound(endpoints, heap) && h in heap
    requires Ring(endpoints[e], heap, s) && IsOldest(endpoints[e], s, h)
    ensures Ring(endpoints[e], Reindexed(heap, h, 0), IsoOut.Returned(s))
  {
    OneSlot(endpoints, heap, e, s.flight[0], h, 0);
    hide InSlot, SlotsSound, Reindexed;
  }

  // The transfer is lost; the stream goes on.
  lemma CompletedLost(endpoints: seq<Endpoint>, heap: Heap, e: nat, h: nat)
    requires e < |endpoints| && SlotsSound(endpoints, heap) && h in heap
    ensures OldestCompleted(endpoints[e], heap, h, IsoOut.Lost, endpoints[e], Reindexed(heap, h, 0))
  {
    hide InSlot, SlotsSound, Reindexed;
    forall s | Ring(endpoints[e], heap, s) && IsOldest(endpoints[e], s, h) {
      ReturnedRing(endpoints, heap, e, h, s);
    }
  }

  lemma UnderflowIsQuiet(endpoints: seq<Endpoint>, heap: Heap, e: nat, s: IsoOut.Stream)
    requires e < |endpoints| && Shaped(endpoints[e]) && Ring(endpoints[e], heap, s)
    ensures IsoOut.Underflow(s) <==> Quiet(endpoints, heap, e)
  {
    forall i | 0 <= i < |s.slot|
      ensures Submitted(endpoints, heap, e, i) <==> s.slot[i].packetIdx == IsoOut.SUBMITTED_IDX
    {
      assert InSlot(endpoints[e], heap, i, s.slot[i].packetIdx);
    }
  }

  // Others are still submitted.
  lemma CompletedFine(endpoints: seq<Endpoint>, heap: Heap, e: nat, h: nat)
    requires e < |endpoints| && Shaped(endpoints[e]) && SlotsSound(endpoints, heap) && h in heap
    requires !Quiet(endpoints, Reindexed(heap, h, 0), e)
    ensures OldestCompleted(endpoints[e], heap, h, IsoOut.Fine, endpoints[e], Reindexed(heap, h, 0))
  {
    hide InSlot, SlotsSound, Reindexed, Quiet, IsoOut.Underflow;
    forall s | Ring(endpoints[e], heap, s) && IsOldest(endpoints[e], s, h)
      ensures Ring(endpoints[e], Reindexed(heap, h, 0), IsoOut.OnCompletion(s, IsoOut.Fine))
    {
      ReturnedRing(endpoints, heap, e, h, s);
      UnderflowIsQuiet(endpoints, Reindexed(heap, h, 0), e, IsoOut.Returned(s));
    }
  }

  function Rewound(e: Endpoint): Endpoint {
    e.(outIdx := 0, streamStarted := false, dropPackets := 0)
  }

  // All transfers of the endpoint are empty again.
  ghost predicate Refilled(endpoints: seq<Endpoint>, heap: Heap, heap': Heap, e: nat)
    requires e < |endpoints|
  {
    RefilledUpTo(endpoints, heap, heap', e, endpoints[e].transferCount)
  }

  lemma RefilledRing(endpoints: seq<Endpoint>, heap: Heap, heap': Heap, e: nat, t: IsoOut.Stream)
    requires e < |endpoints| && Ring(endpoints[e], heap, t) && Refilled(endpoints, heap, heap', e)
    ensures Ring(Rewound(endpoints[e]), heap', IsoOut.Restarted(t))
  {
    forall i | 0 <= i < |t.slot|
      ensures InSlot(Rewound(endpoints[e]), heap', i, 0)
    {
      assert InSlot(endpoints[e], heap, i, t.slot[i].packetIdx);
      assert Holds(endpoints, e, i, endpoints[e].slot[i].value);
    }
  }

  // It was the last one submitted.
  lemma CompletedUnderflow(endpoints: seq<Endpoint>, heap: Heap, heap': Heap, e: nat, h: nat)
    requires e < |endpoints| && Shaped(endpoints[e]) && SlotsSound(endpoints, heap) && h in heap
    requires Quiet(endpoints, Reindexed(heap, h, 0), e) && Refilled(endpoints, Reindexed(heap, h, 0), heap', e)
    ensures OldestCompleted(endpoints[e], heap, h, IsoOut.Fine, Rewound(endpoints[e]), heap')
  {
    hide InSlot, SlotsSound, Reindexed, Quiet, IsoOut.Underflow, Refilled;
    forall s | Ring(endpoints[e], heap, s) && IsOldest(endpoints[e], s, h)
      ensures Ring(Rewound(endpoints[e]), heap', IsoOut.OnCompletion(s, IsoOut.Fine))
    {
      ReturnedRing(endpoints, heap, e, h, s);
      UnderflowIsQuiet(endpoints, Reindexed(heap, h, 0), e, IsoOut.Returned(s));
      RefilledRing(endpoints, Reindexed(heap, h, 0), heap', e, IsoOut.Returned(s));
    }
  }

  // What completing transfer h comes to in the ring, in each case.
  lemma OldestReturns(endpoints: seq<Endpoint>, heap: Heap, flight: set<nat>, pending: int, next: nat, e: nat, h: nat)
    requires AllShaped(endpoints) && Books(endpoints, heap, flight, pending, next) && e < MAX_ENDPOINTS && h in heap
    ensures |endpoints| == MAX_ENDPOINTS
    ensures var returned := Reindexed(heap, h, 0);
            OldestCompleted(endpoints[e], heap, h, IsoOut.Lost, endpoints[e], returned) &&
            (!Quiet(endpoints, returned, e) ==>
               OldestCompleted(endpoints[e], heap, h, IsoOut.Fine, endpoints[e], returned)) &&
            (Quiet(endpoints, returned, e) ==> forall heap' | Refilled(endpoints, returned, heap', e) ::
               OldestCompleted(endpoints[e], heap, h, IsoOut.Fine, Rewound(endpoints[e]), heap'))
  {
    BooksSound(endpoints, heap, flight, pending, next);
    assert Shaped(endpoints[e]);
    hide Books, Shaped, SlotsSound, Reindexed, Quiet, Refilled, OldestCompleted;
    var returned := Reindexed(heap, h, 0);
    CompletedLost(endpoints, heap, e, h);
    if !Quiet(endpoints, returned, e) {
      CompletedFine(endpoints, heap, e, h);
    } else {
      forall heap' | Refilled(endpoints, returned, heap', e)
        ensures OldestCompleted(endpoints[e], heap, h, IsoOut.Fine, Rewound(endpoints[e]), heap')
      {
        CompletedUnderflow(endpoints, heap, heap', e, h);
      }
    }
  }

  // ----- rings that runs reach -----

  ghost predicate Reachable(s: IsoOut.Stream) {
    exists pkts: nat, count: nat, events: seq<IsoOut.Event> ::
      pkts >= 1 && count >= 1 && s == IsoOut.Run(IsoOut.NewStream(pkts, count), events)
  }

  lemma NewIsReachable(pkts: nat, count: nat)
    requires pkts >= 1 && count >= 1
    ensures Reachable(IsoOut.NewStream(pkts, count))
  {
    assert IsoOut.Run(IsoOut.NewStream(pkts, count), []) == IsoOut.NewStream(pkts, count);
  }

  lemma StepIsReachable(s: IsoOut.Stream, event: IsoOut.Event)
    requires Reachable(s)
    ensures s.Formed() && Reachable(IsoOut.Step(s, event))
  {
    hide IsoOut.Step, IsoOut.NewStream;
    var pkts: nat, count: nat, events :| pkts >= 1 && count >= 1 && s == IsoOut.Run(IsoOut.NewStream(pkts, count), events);
    assert (events + [event])[..|events|] == events;
    assert IsoOut.Run(IsoOut.NewStream(pkts, count), events + [event]) == IsoOut.Step(s, event);
  }

  lemma ReachableIsSound(s: IsoOut.Stream)
    requires Reachable(s) && s.pkts * |s.slot| >= 2
    ensures IsoOut.Sound(s)
  {
    hide IsoOut.Run, IsoOut.NewStream, IsoOut.Sound;
    var pkts: nat, count: nat, events :| pkts >= 1 && count >= 1 && s == IsoOut.Run(IsoOut.NewStream(pkts, count), events);
    SameSizes(pkts, count, events);
    IsoOut.RunKeeps(pkts, count, events);
  }

  lemma {:induction false} SameSizes(pkts: nat, count: nat, events: seq<IsoOut.Event>)
    requires pkts >= 1 && count >= 1
    ensures var s := IsoOut.Run(IsoOut.NewStream(pkts, count), events); s.pkts == pkts && |s.slot| == count
  {
    hide IsoOut.Step;
    if events != [] {
      SameSizes(pkts, count, events[..|events| - 1]);
    }
  }

  // libusb has the m transfers that lie, cyclically, just before the position.
  ghost predicate HasBlock(e: Endpoint, heap: Heap, m: nat) {
    forall i: nat | i < e.transferCount ::
      InSlot(e, heap, i, SUBMITTED_IDX) <==> IsoOut.Distance(e.transferCount, e.outIdx, i) < m
  }

  // Of a started stream libusb has such a block. No transfer holds more packets than it has room for, and the one at the
  // position has room for one more unless libusb has it.
  ghost predicate Safe(e: Endpoint, heap: Heap) {
    && e.outIdx < e.transferCount
    && (e.streamStarted ==> exists m: nat :: m <= e.transferCount && HasBlock(e, heap, m))
    && (forall i: nat | i < e.transferCount :: PacketIndex(e, heap, i) <= e.pktsPerTransfer)
    && PacketIndex(e, heap, e.outIdx) < e.pktsPerTransfer
  }

  lemma RingIsSafe(e: Endpoint, heap: Heap, s: IsoOut.Stream)
    requires Ring(e, heap, s) && IsoOut.Sound(s)
    ensures Safe(e, heap)
  {
    hide IsoOut.Ordered, IsoOut.Block;
    forall i: nat | i < |s.slot|
      ensures PacketIndex(e, heap, i) == s.slot[i].packetIdx <= s.pkts
      ensures InSlot(e, heap, i, SUBMITTED_IDX) <==> s.slot[i].packetIdx == SUBMITTED_IDX
    {
      assert InSlot(e, heap, i, s.slot[i].packetIdx);
    }
    if s.started {
      FlightFits(s);
      assert HasBlock(e, heap, |s.flight|);
    }
  }

  lemma FlightFits(s: IsoOut.Stream)
    requires IsoOut.Sound(s) && s.alive && s.started
    ensures |s.flight| <= |s.slot|
  {
  }
}
