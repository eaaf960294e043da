// Which stream transfers exist, where they are, and which of them libusb has.
module UsbBooks {

  datatype Option<T> = None | Some(value: T)

  const MAX_ENDPOINTS := 32
  const MAX_TRANSFER_COUNT := 16
  const MAX_PACKETS_PER_TRANSFER := 32
  const SUBMITTED_IDX := -1

  datatype EndpointType = TypeInvalid | TypeControl | TypeIso | TypeBulk | TypeInterrupt

  datatype Endpoint = Endpoint(kind: EndpointType, maxPacketSize: nat, streamStarted: bool, pktsPerTransfer: nat,
                               transferCount: nat, outIdx: nat, dropPackets: nat, slot: seq<Option<nat>>)

  // A stream transfer of endpoint `ep` with a buffer of `length` bytes; packetIdx is SUBMITTED_IDX while libusb
  // has it.
  datatype Transfer = Transfer(ep: nat, length: nat, packetIdx: int, cancelled: bool)

  type Heap = map<nat, Transfer>

  // Slots [from, to) hold transfers and the others are empty.
  ghost predicate Occupied(e: Endpoint, from: nat, to: nat) {
    |e.slot| == MAX_TRANSFER_COUNT && forall k | 0 <= k < MAX_TRANSFER_COUNT :: e.slot[k].Some? <==> from <= k < to
  }

  // An endpoint without a stream has its counters reset; one with a stream has sound parameters.
  ghost predicate Shaped(e: Endpoint) {
    && e.transferCount <= MAX_TRANSFER_COUNT && Occupied(e, 0, e.transferCount)
    && (e.transferCount > 0 ==> 1 <= e.pktsPerTransfer <= MAX_PACKETS_PER_TRANSFER && e.outIdx < e.transferCount)
    && (e.transferCount == 0 ==>
          e.pktsPerTransfer == 0 && e.outIdx == 0 && e.dropPackets == 0 && !e.streamStarted)
  }

  ghost predicate AllShaped(endpoints: seq<Endpoint>) {
    |endpoints| == MAX_ENDPOINTS && forall e | 0 <= e < MAX_ENDPOINTS :: Shaped(endpoints[e])
  }

  // Where a transfer is held.
  ghost predicate Holds(endpoints: seq<Endpoint>, e: nat, k: nat, h: nat) {
    e < |endpoints| && k < |endpoints[e].slot| && endpoints[e].slot[k] == Some(h)
  }

  // Each slot holds a transfer of its own endpoint that is not cancelled, and no two slots the same one.
  ghost predicate SlotsSound(endpoints: seq<Endpoint>, heap: Heap) {
    && (forall e: nat, k: nat, h: nat | Holds(endpoints, e, k, h) :: h in heap && heap[h].ep == e && !heap[h].cancelled)
    && (forall e: nat, j: nat, k: nat, h: nat | Holds(endpoints, e, j, h) && Holds(endpoints, e, k, h) :: j == k)
  }

  // Each transfer that is not cancelled is in a slot, so nothing is lost.
  ghost predicate NothingLost(endpoints: seq<Endpoint>, heap: Heap) {
    forall h | h in heap && !heap[h].cancelled :: exists k :: Holds(endpoints, heap[h].ep, k, h)
  }

  // libusb has exactly the cancelled transfers and those marked as submitted.
  ghost function InFlight(heap: Heap): set<nat> {
    set h | h in heap && (heap[h].cancelled || heap[h].packetIdx == SUBMITTED_IDX)
  }

  ghost function CancelledOnes(heap: Heap): set<nat> {
    set h | h in heap && heap[h].cancelled
  }

  ghost predicate Books(endpoints: seq<Endpoint>, heap: Heap, flight: set<nat>, cancelsPending: int, next: nat) {
    && |endpoints| == MAX_ENDPOINTS && (forall e | 0 <= e < MAX_ENDPOINTS :: |endpoints[e].slot| == MAX_TRANSFER_COUNT)
    && SlotsSound(endpoints, heap) && NothingLost(endpoints, heap)
    && flight == InFlight(heap)
    && cancelsPending == |CancelledOnes(heap)|
    && (forall h | h in heap :: h < next && heap[h].ep < MAX_ENDPOINTS && heap[h].packetIdx >= SUBMITTED_IDX)
  }

  // A transfer that is not cancelled belongs to a stream.
  lemma LiveHasStream(endpoints: seq<Endpoint>, heap: Heap, flight: set<nat>, cancelsPending: int, next: nat, h: nat)
    requires Books(endpoints, heap, flight, cancelsPending, next) && AllShaped(endpoints) && h in heap
    ensures heap[h].ep < |endpoints|
    ensures !heap[h].cancelled ==> endpoints[heap[h].ep].transferCount > 0
  {
    if !heap[h].cancelled {
      var k :| Holds(endpoints, heap[h].ep, k, h);
      assert Shaped(endpoints[heap[h].ep]);
    }
  }

  // When no endpoint has a stream, everything in flight is cancelled; when no cancel is pending either, nothing
  // is in flight and nothing is allocated.
  lemma NothingInFlight(endpoints: seq<Endpoint>, heap: Heap, flight: set<nat>, cancelsPending: int, next: nat)
    requires Books(endpoints, heap, flight, cancelsPending, next)
    requires AllShaped(endpoints) && forall e | 0 <= e < MAX_ENDPOINTS :: endpoints[e].transferCount == 0
    ensures flight == CancelledOnes(heap) == heap.Keys && cancelsPending == |flight|
  {
    forall h | h in heap
      ensures heap[h].cancelled
    {
      LiveHasStream(endpoints, heap, flight, cancelsPending, next, h);
    }
  }

  // ----- single steps -----

  lemma SlotIs(endpoints: seq<Endpoint>, heap: Heap, flight: set<nat>, cancelsPending: int, next: nat, e: nat, k: nat)
    requires Books(endpoints, heap, flight, cancelsPending, next)
    requires e < MAX_ENDPOINTS && k < MAX_TRANSFER_COUNT && endpoints[e].slot[k].Some?
    ensures var h := endpoints[e].slot[k].value;
            h in heap && heap[h].ep == e && !heap[h].cancelled && (h in flight <==> heap[h].packetIdx == SUBMITTED_IDX)
  {
    assert Holds(endpoints, e, k, endpoints[e].slot[k].value);
  }

  function Emptied(endpoints: seq<Endpoint>, e: nat, k: nat): (r: seq<Endpoint>)
    requires e < |endpoints| && k < |endpoints[e].slot|
    ensures |r| == |endpoints| && r[e] == endpoints[e].(slot := endpoints[e].slot[k := None])
    ensures forall f | 0 <= f < |r| && f != e :: r[f] == endpoints[f]
  {
    endpoints[e := endpoints[e].(slot := endpoints[e].slot[k := None])]
  }

  lemma EmptiedHolds(endpoints: seq<Endpoint>, e: nat, k: nat)
    requires e < |endpoints| && k < |endpoints[e].slot|
    ensures forall f, j, h :: Holds(Emptied(endpoints, e, k), f, j, h) <==>
                              Holds(endpoints, f, j, h) && !(f == e && j == k)
  {
  }

  // Taking the transfer h out of its slot, having freed or cancelled it.
  lemma TakeOut(endpoints: seq<Endpoint>, heap: Heap, heap': Heap, e: nat, k: nat, h: nat)
    requires SlotsSound(endpoints, heap) && NothingLost(endpoints, heap) && Holds(endpoints, e, k, h)
    requires forall g | g != h :: (g in heap' <==> g in heap) && (g in heap ==> heap'[g] == heap[g])
    requires h in heap' ==> heap'[h].cancelled
    ensures SlotsSound(Emptied(endpoints, e, k), heap') && NothingLost(Emptied(endpoints, e, k), heap')
  {
    EmptiedHolds(endpoints, e, k);
    hide Emptied;
    var endpoints' := Emptied(endpoints, e, k);
    forall g | g in heap' && !heap'[g].cancelled
      ensures exists j :: Holds(endpoints', heap'[g].ep, j, g)
    {
      var j :| Holds(endpoints, heap[g].ep, j, g);
      assert Holds(endpoints', heap[g].ep, j, g);
    }
  }

  lemma FreeIdle(endpoints: seq<Endpoint>, heap: Heap, flight: set<nat>, cancelsPending: int, next: nat, e: nat, k: nat)
    requires Books(endpoints, heap, flight, cancelsPending, next)
    requires e < MAX_ENDPOINTS && k < MAX_TRANSFER_COUNT && endpoints[e].slot[k].Some?
    requires var h := endpoints[e].slot[k].value; h in heap && heap[h].packetIdx != SUBMITTED_IDX
    ensures Books(Emptied(endpoints, e, k), heap - {endpoints[e].slot[k].value}, flight, cancelsPending, next)
  {
    hide SlotsSound, NothingLost;
    var h := endpoints[e].slot[k].value;
    assert Holds(endpoints, e, k, h);
    SlotIs(endpoints, heap, flight, cancelsPending, next, e, k);
    TakeOut(endpoints, heap, heap - {h}, e, k, h);
    assert InFlight(heap - {h}) == InFlight(heap);
    assert CancelledOnes(heap - {h}) == CancelledOnes(heap);
  }

  lemma CancelSubmitted(endpoints: seq<Endpoint>, heap: Heap, flight: set<nat>, cancelsPending: int, next: nat,
                        e: nat, k: nat)
    requires Books(endpoints, heap, flight, cancelsPending, next)
    requires e < MAX_ENDPOINTS && k < MAX_TRANSFER_COUNT && endpoints[e].slot[k].Some?
    requires var h := endpoints[e].slot[k].value; h in heap && heap[h].packetIdx == SUBMITTED_IDX
    ensures var h := endpoints[e].slot[k].value;
            Books(Emptied(endpoints, e, k), heap[h := heap[h].(cancelled := true)], flight, cancelsPending + 1, next)
  {
    hide SlotsSound, NothingLost;
    var h := endpoints[e].slot[k].value;
    assert Holds(endpoints, e, k, h);
    SlotIs(endpoints, heap, flight, cancelsPending, next, e, k);
    var heap' := heap[h := heap[h].(cancelled := true)];
    TakeOut(endpoints, heap, heap', e, k, h);
    assert InFlight(heap') == InFlight(heap);
    assert CancelledOnes(heap') == CancelledOnes(heap) + {h};
  }

  // A transfer in a slot changes its index only: it is submitted, completes, or takes a packet.
  lemma Reindex(endpoints: seq<Endpoint>, heap: Heap, flight: set<nat>, cancelsPending: int, next: nat,
                h: nat, idx: int)
    requires Books(endpoints, heap, flight, cancelsPending, next) && h in heap && !heap[h].cancelled
    requires idx >= SUBMITTED_IDX
    ensures Books(endpoints, heap[h := heap[h].(packetIdx := idx)],
                  if idx == SUBMITTED_IDX then flight + {h} else flight - {h}, cancelsPending, next)
  {
    var heap' := heap[h := heap[h].(packetIdx := idx)];
    assert InFlight(heap') == if idx == SUBMITTED_IDX then InFlight(heap) + {h} else InFlight(heap) - {h};
    assert CancelledOnes(heap') == CancelledOnes(heap);
    assert NothingLost(endpoints, heap') by {
      hide InFlight, CancelledOnes, SlotsSound;
      forall g | g in heap' && !heap'[g].cancelled
        ensures exists k :: Holds(endpoints, heap'[g].ep, k, g)
      {
        assert heap[g].ep == heap'[g].ep;
      }
    }
  }

  // libusb gives back a cancelled transfer.
  lemma CancelDone(endpoints: seq<Endpoint>, heap: Heap, flight: set<nat>, cancelsPending: int, next: nat, h: nat)
    requires Books(endpoints, heap, flight, cancelsPending, next) && h in heap && heap[h].cancelled
    ensures Books(endpoints, heap - {h}, flight - {h}, cancelsPending - 1, next) && cancelsPending >= 1
  {
    assert InFlight(heap - {h}) == InFlight(heap) - {h};
    assert CancelledOnes(heap - {h}) == CancelledOnes(heap) - {h};
    hide InFlight, CancelledOnes;
    forall g | g in heap - {h} && !heap[g].cancelled
      ensures exists k :: Holds(endpoints, heap[g].ep, k, g)
    {
    }
  }

  function Placed(endpoints: seq<Endpoint>, e: nat, k: nat, h: nat): (r: seq<Endpoint>)
    requires e < |endpoints| && k < |endpoints[e].slot|
    ensures |r| == |endpoints| && r[e] == endpoints[e].(slot := endpoints[e].slot[k := Some(h)])
    ensures forall f | 0 <= f < |r| && f != e :: r[f] == endpoints[f]
  {
    endpoints[e := endpoints[e].(slot := endpoints[e].slot[k := Some(h)])]
  }

  lemma PlacedHolds(endpoints: seq<Endpoint>, e: nat, k: nat, h: nat)
    requires e < |endpoints| && k < |endpoints[e].slot| && endpoints[e].slot[k].None?
    ensures forall f, j, g :: Holds(Placed(endpoints, e, k, h), f, j, g) <==>
                              Holds(endpoints, f, j, g) || (f == e && j == k && g == h)
  {
  }

  // A new transfer is put in an empty slot.
  lemma Allocate(endpoints: seq<Endpoint>, heap: Heap, flight: set<nat>, cancelsPending: int, next: nat, e: nat, k: nat,
                 length: nat)
    requires Books(endpoints, heap, flight, cancelsPending, next)
    requires e < MAX_ENDPOINTS && k < MAX_TRANSFER_COUNT && endpoints[e].slot[k].None?
    ensures Books(Placed(endpoints, e, k, next), heap[next := Transfer(e, length, 0, false)], flight, cancelsPending, next + 1)
  {
    PlacedHolds(endpoints, e, k, next);
    hide Placed;
    var endpoints' := Placed(endpoints, e, k, next);
    var heap' := heap[next := Transfer(e, length, 0, false)];
    assert InFlight(heap') == InFlight(heap);
    assert CancelledOnes(heap') == CancelledOnes(heap);
    forall g | g in heap' && !heap'[g].cancelled
      ensures exists j :: Holds(endpoints', heap'[g].ep, j, g)
    {
      if g == next {
        assert Holds(endpoints', e, k, g);
      } else {
        var j :| Holds(endpoints, heap[g].ep, j, g);
        assert Holds(endpoints', heap'[g].ep, j, g);
      }
    }
  }

  // Fields other than the slots do not matter to the books.
  lemma OtherFields(endpoints: seq<Endpoint>, endpoints': seq<Endpoint>, heap: Heap, flight: set<nat>,
                    cancelsPending: int, next: nat)
    requires Books(endpoints, heap, flight, cancelsPending, next) && |endpoints'| == |endpoints|
    requires forall e | 0 <= e < |endpoints| :: endpoints'[e].slot == endpoints[e].slot
    ensures Books(endpoints', heap, flight, cancelsPending, next)
  {
    assert forall e, k, h :: Holds(endpoints', e, k, h) <==> Holds(endpoints, e, k, h);
    hide InFlight, CancelledOnes;
  }

  // ----- cancelling the stream of an endpoint -----

  // The endpoint without its stream.
  function Idle(e: Endpoint): Endpoint {
    e.(streamStarted := false, pktsPerTransfer := 0, transferCount := 0, outIdx := 0, dropPackets := 0,
       slot := seq(MAX_TRANSFER_COUNT, _ => None))
  }

  // Of the transfers of the endpoint, the ones libusb has are cancelled and the others freed.
  function AfterCancel(heap: Heap, e: nat): Heap {
    map h | h in heap && (heap[h].ep == e && !heap[h].cancelled ==> heap[h].packetIdx == SUBMITTED_IDX) ::
      if heap[h].ep == e then heap[h].(cancelled := true) else heap[h]
  }

  // The slots before i have been taken out.
  ghost predicate CancelledUpTo(endpoints: seq<Endpoint>, heap: Heap, endpoints': seq<Endpoint>, heap': Heap, e: nat, i: nat)
    requires e < |endpoints|
  {
    && |endpoints'| == |endpoints| && i <= |endpoints[e].slot| && |endpoints'[e].slot| == |endpoints[e].slot|
    && (forall f | 0 <= f < |endpoints| && f != e :: endpoints'[f] == endpoints[f])
    && endpoints'[e] == endpoints[e].(slot := endpoints'[e].slot)
    && (forall k | 0 <= k < |endpoints[e].slot| :: endpoints'[e].slot[k] == if k < i then None else endpoints[e].slot[k])
    && (forall h :: h in heap' <==> h in heap && (Taken(endpoints, e, i, h) ==> heap[h].packetIdx == SUBMITTED_IDX))
    && (forall h | h in heap' :: heap'[h] == if Taken(endpoints, e, i, h) then heap[h].(cancelled := true) else heap[h])
  }

  ghost predicate Taken(endpoints: seq<Endpoint>, e: nat, i: nat, h: nat) {
    exists k | 0 <= k < i :: Holds(endpoints, e, k, h)
  }

  lemma CancelledNext(endpoints: seq<Endpoint>, heap: Heap, endpoints': seq<Endpoint>, heap': Heap, e: nat, i: nat)
    requires e < |endpoints| && i < |endpoints[e].slot| && SlotsSound(endpoints, heap)
    requires CancelledUpTo(endpoints, heap, endpoints', heap', e, i) && endpoints[e].slot[i].Some?
    ensures var h := endpoints[e].slot[i].value;
            h in heap' && heap'[h] == heap[h] && heap[h].ep == e &&
            CancelledUpTo(endpoints, heap, Emptied(endpoints', e, i),
                          if heap[h].packetIdx == SUBMITTED_IDX then heap'[h := heap[h].(cancelled := true)]
                          else heap' - {h}, e, i + 1)
  {
    var h := endpoints[e].slot[i].value;
    assert Holds(endpoints, e, i, h);
    assert !Taken(endpoints, e, i, h);
    forall g
      ensures Taken(endpoints, e, i + 1, g) <==> Taken(endpoints, e, i, g) || g == h
    {
      if Taken(endpoints, e, i + 1, g) {
        var k :| 0 <= k < i + 1 && Holds(endpoints, e, k, g);
      }
    }
    hide Taken, Holds, SlotsSound;
  }

  lemma CancelledAll(endpoints: seq<Endpoint>, heap: Heap, endpoints': seq<Endpoint>, heap': Heap, e: nat)
    requires e < |endpoints| && |endpoints[e].slot| == MAX_TRANSFER_COUNT && SlotsSound(endpoints, heap)
    requires NothingLost(endpoints, heap)
    requires CancelledUpTo(endpoints, heap, endpoints', heap', e, endpoints[e].transferCount)
    requires Occupied(endpoints[e], 0, endpoints[e].transferCount)
    ensures endpoints'[e].slot == Idle(endpoints[e]).slot
    ensures heap' == AfterCancel(heap, e)
  {
    forall h | h in heap
      ensures Taken(endpoints, e, endpoints[e].transferCount, h) <==> heap[h].ep == e && !heap[h].cancelled
    {
      if heap[h].ep == e && !heap[h].cancelled {
        var k :| Holds(endpoints, e, k, h);
      }
    }
    hide Taken, Holds, SlotsSound, NothingLost;
    assert heap'.Keys == AfterCancel(heap, e).Keys;
  }

  lemma StartCancel(endpoints: seq<Endpoint>, heap: Heap, e: nat)
    requires AllShaped(endpoints) && e < MAX_ENDPOINTS
    ensures |endpoints| == MAX_ENDPOINTS && |endpoints[e].slot| == MAX_TRANSFER_COUNT
    ensures endpoints[e].transferCount <= MAX_TRANSFER_COUNT
    ensures CancelledUpTo(endpoints, heap, endpoints, heap, e, 0)
  {
    assert Shaped(endpoints[e]);
  }

  // One round of the cancelling loop.
  lemma CancelStep(endpoints: seq<Endpoint>, heap: Heap, endpoints': seq<Endpoint>, heap': Heap,
                   flight: set<nat>, pending: int, pending': int, next: nat, e: nat, i: nat)
    requires Books(endpoints, heap, flight, pending, next) && AllShaped(endpoints)
    requires e < MAX_ENDPOINTS && i < endpoints[e].transferCount
    requires CancelledUpTo(endpoints, heap, endpoints', heap', e, i) && Books(endpoints', heap', flight, pending', next)
    ensures i < MAX_TRANSFER_COUNT == |endpoints'[e].slot| && endpoints'[e].slot[i].Some?
    ensures var h := endpoints'[e].slot[i].value;
            h in heap' &&
            var submitted := heap'[h].packetIdx == SUBMITTED_IDX;
            var heap'' := if submitted then heap'[h := heap'[h].(cancelled := true)] else heap' - {h};
            Books(Emptied(endpoints', e, i), heap'', flight, pending' + if submitted then 1 else 0, next) &&
            CancelledUpTo(endpoints, heap, Emptied(endpoints', e, i), heap'', e, i + 1)
  {
    hide SlotsSound, NothingLost, Emptied, InFlight, CancelledOnes;
    assert Shaped(endpoints[e]);
    var h := endpoints'[e].slot[i].value;
    CancelledNext(endpoints, heap, endpoints', heap', e, i);
    hide CancelledUpTo;
    if heap'[h].packetIdx == SUBMITTED_IDX {
      CancelSubmitted(endpoints', heap', flight, pending', next, e, i);
    } else {
      FreeIdle(endpoints', heap', flight, pending', next, e, i);
    }
  }

  lemma EndCancel(endpoints: seq<Endpoint>, heap: Heap, endpoints': seq<Endpoint>, heap': Heap,
                  flight: set<nat>, pending: int, pending': int, next: nat, e: nat)
    requires Books(endpoints, heap, flight, pending, next) && AllShaped(endpoints) && e < MAX_ENDPOINTS
    requires CancelledUpTo(endpoints, heap, endpoints', heap', e, endpoints[e].transferCount)
    requires Books(endpoints', heap', flight, pending', next)
    ensures heap' == AfterCancel(heap, e)
    ensures |endpoints'| == MAX_ENDPOINTS && endpoints'[e := Idle(endpoints'[e])] == endpoints[e := Idle(endpoints[e])]
    ensures AllShaped(endpoints[e := Idle(endpoints[e])])
    ensures Books(endpoints[e := Idle(endpoints[e])], heap', flight, pending', next)
  {
    hide SlotsSound, NothingLost, InFlight, CancelledOnes, AfterCancel;
    assert Shaped(endpoints[e]);
    CancelledAll(endpoints, heap, endpoints', heap', e);
    var idle := endpoints[e := Idle(endpoints[e])];
    assert endpoints'[e := Idle(endpoints'[e])] == idle;
    OtherFields(endpoints', idle, heap', flight, pending', next);
  }

  // ----- the start -----

  function NoEndpoint(): Endpoint {
    Endpoint(TypeInvalid, 0, false, 0, 0, 0, 0, seq(MAX_TRANSFER_COUNT, _ => None))
  }

  lemma EmptyBooks(endpoints: seq<Endpoint>)
    requires |endpoints| == MAX_ENDPOINTS && forall e | 0 <= e < MAX_ENDPOINTS :: endpoints[e] == NoEndpoint()
    ensures AllShaped(endpoints) && Books(endpoints, map[], {}, 0, 0)
  {
  }

  lemma KnownTransfer(endpoints: seq<Endpoint>, heap: Heap, flight: set<nat>, cancelsPending: int, next: nat, h: nat)
    requires Books(endpoints, heap, flight, cancelsPending, next) && h in heap
    ensures heap[h].ep < MAX_ENDPOINTS && heap[h].packetIdx >= SUBMITTED_IDX && h < next
    ensures h in flight <==> heap[h].cancelled || heap[h].packetIdx == SUBMITTED_IDX
  {
  }

  // ----- running streams -----

  ghost predicate Submitted(endpoints: seq<Endpoint>, heap: Heap, e: nat, k: nat) {
    e < |endpoints| && k < |endpoints[e].slot| && endpoints[e].slot[k].Some? &&
    endpoints[e].slot[k].value in heap && heap[endpoints[e].slot[k].value].packetIdx == SUBMITTED_IDX
  }

  // Only a started stream has submitted transfers.
  ghost predicate Running(endpoints: seq<Endpoint>, heap: Heap) {
    forall e: nat, k: nat | Submitted(endpoints, heap, e, k) :: endpoints[e].streamStarted
  }

  // As Running, leaving out one endpoint.
  ghost predicate RunningBut(endpoints: seq<Endpoint>, heap: Heap, ep: nat) {
    forall e: nat, k: nat | e != ep && Submitted(endpoints, heap, e, k) :: endpoints[e].streamStarted
  }

  ghost predicate Quiet(endpoints: seq<Endpoint>, heap: Heap, e: nat) {
    forall k: nat :: !Submitted(endpoints, heap, e, k)
  }

  lemma RunningAfterCancel(endpoints: seq<Endpoint>, heap: Heap, flight: set<nat>, pending: int, next: nat, e: nat)
    requires Books(endpoints, heap, flight, pending, next) && e < MAX_ENDPOINTS && RunningBut(endpoints, heap, e)
    ensures Running(endpoints[e := Idle(endpoints[e])], AfterCancel(heap, e))
  {
    var endpoints' := endpoints[e := Idle(endpoints[e])];
    forall f: nat, k: nat | Submitted(endpoints', AfterCancel(heap, e), f, k)
      ensures endpoints'[f].streamStarted
    {
      assert Holds(endpoints, f, k, endpoints[f].slot[k].value);
      assert Submitted(endpoints, heap, f, k);
    }
  }

  // A transfer that is not in the slots of a stopped stream may be submitted; any may be marked as not submitted.
  lemma RunningReindex(endpoints: seq<Endpoint>, heap: Heap, flight: set<nat>, pending: int, next: nat, h: nat, idx: int)
    requires Books(endpoints, heap, flight, pending, next) && Running(endpoints, heap) && h in heap
    requires idx == SUBMITTED_IDX ==> heap[h].ep < |endpoints| && endpoints[heap[h].ep].streamStarted
    ensures Running(endpoints, heap[h := heap[h].(packetIdx := idx)])
  {
    var heap' := heap[h := heap[h].(packetIdx := idx)];
    forall e: nat, k: nat | Submitted(endpoints, heap', e, k)
      ensures endpoints[e].streamStarted
    {
      assert Holds(endpoints, e, k, endpoints[e].slot[k].value);
      if endpoints[e].slot[k].value != h {
        assert Submitted(endpoints, heap, e, k);
      }
    }
  }

  // ----- starting a stream -----

  // The transfers in the slots before i have been submitted.
  ghost predicate SubmittedUpTo(endpoints: seq<Endpoint>, heap: Heap, heap': Heap, e: nat, i: nat) {
    heap'.Keys == heap.Keys &&
    forall h | h in heap :: heap'[h] == if Taken(endpoints, e, i, h) then heap[h].(packetIdx := SUBMITTED_IDX) else heap[h]
  }

  lemma SubmitStep(endpoints: seq<Endpoint>, heap: Heap, heap': Heap, flight: set<nat>, pending: int, next: nat,
                   e: nat, i: nat)
    requires AllShaped(endpoints) && e < MAX_ENDPOINTS && i < endpoints[e].transferCount
    requires Books(endpoints, heap', flight, pending, next) && Quiet(endpoints, heap, e)
    requires SubmittedUpTo(endpoints, heap, heap', e, i)
    ensures |endpoints| == MAX_ENDPOINTS && |endpoints[e].slot| == MAX_TRANSFER_COUNT > i && endpoints[e].slot[i].Some?
    ensures var h := endpoints[e].slot[i].value;
            h in heap' && heap'[h].ep == e && !heap'[h].cancelled && heap'[h].packetIdx != SUBMITTED_IDX &&
            SubmittedUpTo(endpoints, heap, heap'[h := heap'[h].(packetIdx := SUBMITTED_IDX)], e, i + 1)
  {
    assert Shaped(endpoints[e]);
    var h := endpoints[e].slot[i].value;
    assert Holds(endpoints, e, i, h);
    assert !Taken(endpoints, e, i, h);
    assert !Submitted(endpoints, heap, e, i);
    forall g
      ensures Taken(endpoints, e, i + 1, g) <==> Taken(endpoints, e, i, g) || g == h
    {
      if Taken(endpoints, e, i + 1, g) {
        var k :| 0 <= k < i + 1 && Holds(endpoints, e, k, g);
      }
    }
    hide Taken, Holds, SlotsSound, NothingLost, InFlight, CancelledOnes;
  }

  lemma SubmitOthers(endpoints: seq<Endpoint>, heap: Heap, heap': Heap, flight: set<nat>, pending: int, next: nat,
                     e: nat, i: nat)
    requires Books(endpoints, heap', flight, pending, next) && RunningBut(endpoints, heap, e)
    requires SubmittedUpTo(endpoints, heap, heap', e, i)
    ensures RunningBut(endpoints, heap', e)
  {
    forall f: nat, k: nat | f != e && Submitted(endpoints, heap', f, k)
      ensures endpoints[f].streamStarted
    {
      var h := endpoints[f].slot[k].value;
      assert Holds(endpoints, f, k, h);
      assert !Taken(endpoints, e, i, h);
      assert Submitted(endpoints, heap, f, k);
    }
  }

  function Started(endpoints: seq<Endpoint>, e: nat): (r: seq<Endpoint>)
    requires e < |endpoints|
    ensures |r| == |endpoints| && r[e] == endpoints[e].(streamStarted := true)
    ensures forall f | 0 <= f < |r| && f != e :: r[f] == endpoints[f]
  {
    endpoints[e := endpoints[e].(streamStarted := true)]
  }

  lemma SubmitEnd(endpoints: seq<Endpoint>, heap: Heap, flight: set<nat>, pending: int, next: nat, e: nat)
    requires AllShaped(endpoints) && e < MAX_ENDPOINTS && endpoints[e].transferCount > 0
    requires Books(endpoints, heap, flight, pending, next) && RunningBut(endpoints, heap, e)
    ensures AllShaped(Started(endpoints, e)) && Books(Started(endpoints, e), heap, flight, pending, next)
    ensures Running(Started(endpoints, e), heap)
  {
    var endpoints' := Started(endpoints, e);
    assert Shaped(endpoints[e]);
    OtherFields(endpoints, endpoints', heap, flight, pending, next);
    forall f: nat, k: nat | Submitted(endpoints', heap, f, k)
      ensures endpoints'[f].streamStarted
    {
      assert Submitted(endpoints, heap, f, k);
    }
  }

  // ----- allocating a stream -----

  // Slots before i hold new transfers.
  ghost predicate AllocatedUpTo(endpoints: seq<Endpoint>, heap: Heap, endpoints': seq<Endpoint>, heap': Heap,
                                e: nat, i: nat, length: nat)
    requires e < |endpoints|
  {
    && |endpoints'| == |endpoints| && (forall f | 0 <= f < |endpoints| && f != e :: endpoints'[f] == endpoints[f])
    && Occupied(endpoints'[e], 0, i) && endpoints'[e] == endpoints[e].(slot := endpoints'[e].slot)
    && (forall h | h in heap :: h in heap' && heap'[h] == heap[h])
    && (forall k | 0 <= k < i && k < MAX_TRANSFER_COUNT ::
          endpoints'[e].slot[k].value in heap' && heap'[endpoints'[e].slot[k].value] == Transfer(e, length, 0, false))
  }

  lemma AllocStep(endpoints: seq<Endpoint>, heap: Heap, endpoints': seq<Endpoint>, heap': Heap,
                  flight: set<nat>, pending: int, next: nat, e: nat, i: nat, length: nat)
    requires e < MAX_ENDPOINTS == |endpoints| && i < MAX_TRANSFER_COUNT
    requires Books(endpoints', heap', flight, pending, next)
    requires AllocatedUpTo(endpoints, heap, endpoints', heap', e, i, length)
    ensures |endpoints'| == MAX_ENDPOINTS && |endpoints'[e].slot| == MAX_TRANSFER_COUNT
    ensures Books(Placed(endpoints', e, i, next), heap'[next := Transfer(e, length, 0, false)], flight, pending, next + 1)
    ensures AllocatedUpTo(endpoints, heap, Placed(endpoints', e, i, next), heap'[next := Transfer(e, length, 0, false)],
                          e, i + 1, length)
  {
    Allocate(endpoints', heap', flight, pending, next, e, i, length);
    assert next !in heap';
    hide InFlight, CancelledOnes, SlotsSound, NothingLost;
  }

  // The endpoint has a stream of these dimensions, all of its transfers submitted or none.
  ghost predicate HasStream(endpoint: Endpoint, heap: Heap, e: nat, pkts: nat, count: nat, length: nat, started: bool) {
    && endpoint.pktsPerTransfer == pkts && endpoint.transferCount == count && endpoint.streamStarted == started
    && endpoint.outIdx == 0 && endpoint.dropPackets == 0 && Occupied(endpoint, 0, count)
    && (forall k | 0 <= k < count && k < MAX_TRANSFER_COUNT ::
          endpoint.slot[k].value in heap &&
          heap[endpoint.slot[k].value] == Transfer(e, length, if started then SUBMITTED_IDX else 0, false))
  }

  lemma StreamStarts(endpoints: seq<Endpoint>, heap: Heap, heap': Heap, e: nat, pkts: nat, count: nat, length: nat)
    requires e < |endpoints| && HasStream(endpoints[e], heap, e, pkts, count, length, false)
    requires count <= MAX_TRANSFER_COUNT && SubmittedUpTo(endpoints, heap, heap', e, count)
    ensures HasStream(Started(endpoints, e)[e], heap', e, pkts, count, length, true)
  {
    forall k | 0 <= k < count
      ensures var h := endpoints[e].slot[k].value;
              h in heap' && heap'[h] == Transfer(e, length, SUBMITTED_IDX, false)
    {
      assert Holds(endpoints, e, k, endpoints[e].slot[k].value);
    }
  }

  function WithStream(endpoints: seq<Endpoint>, e: nat, pkts: nat, count: nat): (r: seq<Endpoint>)
    requires e < |endpoints|
    ensures |r| == |endpoints|
    ensures r[e] == endpoints[e].(outIdx := 0, dropPackets := 0, pktsPerTransfer := pkts, transferCount := count)
    ensures forall f | 0 <= f < |r| && f != e :: r[f] == endpoints[f]
  {
    endpoints[e := endpoints[e].(outIdx := 0, dropPackets := 0, pktsPerTransfer := pkts, transferCount := count)]
  }

  lemma AllocEnd(endpoints: seq<Endpoint>, heap: Heap, endpoints': seq<Endpoint>, heap': Heap,
                 flight: set<nat>, pending: int, next: nat, e: nat, pkts: nat, count: nat, length: nat)
    requires AllShaped(endpoints) && e < MAX_ENDPOINTS && Books(endpoints', heap', flight, pending, next)
    requires endpoints[e].transferCount == 0 && AllocatedUpTo(endpoints, heap, endpoints', heap', e, count, length)
    requires 1 <= pkts <= MAX_PACKETS_PER_TRANSFER && 1 <= count <= MAX_TRANSFER_COUNT && Running(endpoints, heap)
    requires forall f: nat, k: nat, h: nat | f < |endpoints| && Holds(endpoints, f, k, h) :: h in heap
    ensures |endpoints'| == MAX_ENDPOINTS
    ensures var r := WithStream(endpoints', e, pkts, count);
            AllShaped(r) && Books(r, heap', flight, pending, next) && Quiet(r, heap', e) && RunningBut(r, heap', e) &&
            HasStream(r[e], heap', e, pkts, count, length, false) &&
            r[e].kind == endpoints[e].kind && r[e].maxPacketSize == endpoints[e].maxPacketSize &&
            r[e := Idle(r[e])] == endpoints[e := Idle(endpoints[e])] &&
            forall f | 0 <= f < MAX_ENDPOINTS && f != e :: r[f] == endpoints[f]
  {
    var r := WithStream(endpoints', e, pkts, count);
    OtherFields(endpoints', r, heap', flight, pending, next);
    assert Shaped(endpoints[e]);
    assert Shaped(r[e]);
    forall f: nat, k: nat | f != e && Submitted(r, heap', f, k)
      ensures r[f].streamStarted
    {
      assert Holds(endpoints, f, k, endpoints[f].slot[k].value);
      assert Submitted(endpoints, heap, f, k);
    }
  }

  lemma HeldInHeap(endpoints: seq<Endpoint>, heap: Heap, flight: set<nat>, pending: int, next: nat)
    requires Books(endpoints, heap, flight, pending, next)
    ensures forall f: nat, k: nat, h: nat | f < |endpoints| && Holds(endpoints, f, k, h) :: h in heap
  {
  }

  lemma BooksSound(endpoints: seq<Endpoint>, heap: Heap, flight: set<nat>, pending: int, next: nat)
    requires Books(endpoints, heap, flight, pending, next)
    ensures SlotsSound(endpoints, heap)
  {
  }

  lemma SizeOfEndpoints(endpoints: seq<Endpoint>)
    requires AllShaped(endpoints)
    ensures |endpoints| == MAX_ENDPOINTS
  {
  }

  lemma NothingSubmitted(endpoints: seq<Endpoint>, heap: Heap, e: nat)
    ensures SubmittedUpTo(endpoints, heap, heap, e, 0)
  {
  }

  lemma StartAlloc(endpoints: seq<Endpoint>, heap: Heap, e: nat, length: nat)
    requires AllShaped(endpoints) && e < MAX_ENDPOINTS && endpoints[e].transferCount == 0
    ensures AllocatedUpTo(endpoints, heap, endpoints, heap, e, 0, length)
  {
    assert Shaped(endpoints[e]);
  }

  lemma QuietRuns(endpoints: seq<Endpoint>, heap: Heap, e: nat)
    requires RunningBut(endpoints, heap, e) && Quiet(endpoints, heap, e)
    ensures Running(endpoints, heap)
  {
  }

  // The packet size of a stream, from the buffer of its first transfer.
  ghost function StreamPacketSize(endpoints: seq<Endpoint>, heap: Heap, e: nat): nat {
    if e < |endpoints| && |endpoints[e].slot| > 0 && endpoints[e].slot[0].Some? && endpoints[e].slot[0].value in heap &&
       endpoints[e].pktsPerTransfer > 0
    then heap[endpoints[e].slot[0].value].length / endpoints[e].pktsPerTransfer else 0
  }

  lemma FirstTransfer(endpoints: seq<Endpoint>, heap: Heap, flight: set<nat>, pending: int, next: nat, e: nat)
    requires AllShaped(endpoints) && Books(endpoints, heap, flight, pending, next)
    requires e < MAX_ENDPOINTS && endpoints[e].transferCount > 0
    ensures |endpoints| == MAX_ENDPOINTS && |endpoints[e].slot| == MAX_TRANSFER_COUNT && endpoints[e].slot[0].Some?
    ensures endpoints[e].slot[0].value in heap && endpoints[e].pktsPerTransfer > 0
  {
    assert Shaped(endpoints[e]);
    assert Holds(endpoints, e, 0, endpoints[e].slot[0].value);
  }

  lemma WeakerRunning(endpoints: seq<Endpoint>, heap: Heap, e: nat)
    ensures Running(endpoints, heap) ==> RunningBut(endpoints, heap, e)
  {
  }

  lemma RunningWithout(endpoints: seq<Endpoint>, heap: Heap, h: nat)
    ensures Running(endpoints, heap) ==> Running(endpoints, heap - {h})
  {
    if Running(endpoints, heap) {
      forall e: nat, k: nat | Submitted(endpoints, heap - {h}, e, k)
        ensures endpoints[e].streamStarted
      {
        assert Submitted(endpoints, heap, e, k);
      }
    }
  }

  // Completions come from running streams.
  lemma SubmittedRuns(endpoints: seq<Endpoint>, heap: Heap, flight: set<nat>, pending: int, next: nat, h: nat)
    requires AllShaped(endpoints) && Books(endpoints, heap, flight, pending, next) && h in flight
    ensures h in heap && heap[h].ep < |endpoints| == MAX_ENDPOINTS
    ensures !heap[h].cancelled ==> endpoints[heap[h].ep].transferCount > 0
    ensures !heap[h].cancelled && Running(endpoints, heap) ==> endpoints[heap[h].ep].streamStarted
  {
    LiveHasStream(endpoints, heap, flight, pending, next, h);
    if !heap[h].cancelled {
      var k :| Holds(endpoints, heap[h].ep, k, h);
      assert Submitted(endpoints, heap, heap[h].ep, k);
    }
  }

  // ----- refilling after an underflow -----

  ghost predicate RefilledUpTo(endpoints: seq<Endpoint>, heap: Heap, heap': Heap, e: nat, i: nat) {
    heap'.Keys == heap.Keys &&
    forall h | h in heap :: heap'[h] == if Taken(endpoints, e, i, h) then heap[h].(packetIdx := 0) else heap[h]
  }

  lemma RefillStep(endpoints: seq<Endpoint>, heap: Heap, heap': Heap, flight: set<nat>, pending: int, next: nat,
                   e: nat, i: nat)
    requires AllShaped(endpoints) && e < MAX_ENDPOINTS && i < endpoints[e].transferCount
    requires Books(endpoints, heap', flight, pending, next) && RefilledUpTo(endpoints, heap, heap', e, i)
    requires Quiet(endpoints, heap', e)
    ensures |endpoints| == MAX_ENDPOINTS && |endpoints[e].slot| == MAX_TRANSFER_COUNT > i && endpoints[e].slot[i].Some?
    ensures var h := endpoints[e].slot[i].value;
            h in heap' && !heap'[h].cancelled && h !in flight &&
            RefilledUpTo(endpoints, heap, heap'[h := heap'[h].(packetIdx := 0)], e, i + 1) &&
            Quiet(endpoints, heap'[h := heap'[h].(packetIdx := 0)], e)
  {
    assert Shaped(endpoints[e]);
    var h := endpoints[e].slot[i].value;
    assert Holds(endpoints, e, i, h);
    assert !Taken(endpoints, e, i, h);
    assert !Submitted(endpoints, heap', e, i);
    forall g
      ensures Taken(endpoints, e, i + 1, g) <==> Taken(endpoints, e, i, g) || g == h
    {
      if Taken(endpoints, e, i + 1, g) {
        var k :| 0 <= k < i + 1 && Holds(endpoints, e, k, g);
      }
    }
    var heap'' := heap'[h := heap'[h].(packetIdx := 0)];
    forall k: nat
      ensures !Submitted(endpoints, heap'', e, k)
    {
      assert !Submitted(endpoints, heap', e, k);
    }
    hide Taken, Holds, SlotsSound, NothingLost, CancelledOnes;
  }

  lemma RefillEnd(endpoints: seq<Endpoint>, heap: Heap, flight: set<nat>, pending: int, next: nat, e: nat)
    requires AllShaped(endpoints) && Books(endpoints, heap, flight, pending, next) && e < MAX_ENDPOINTS
    requires endpoints[e].transferCount > 0 && Quiet(endpoints, heap, e)
    ensures |endpoints| == MAX_ENDPOINTS
    ensures var r := endpoints[e := endpoints[e].(outIdx := 0, streamStarted := false, dropPackets := 0)];
            AllShaped(r) && Books(r, heap, flight, pending, next) &&
            (Running(endpoints, heap) ==> Running(r, heap)) &&
            forall i: nat, h: nat :: Taken(r, e, i, h) <==> Taken(endpoints, e, i, h)
  {
    var r := endpoints[e := endpoints[e].(outIdx := 0, streamStarted := false, dropPackets := 0)];
    assert Shaped(endpoints[e]);
    OtherFields(endpoints, r, heap, flight, pending, next);
    assert forall f, k, h :: Holds(r, f, k, h) <==> Holds(endpoints, f, k, h);
    assert forall f, k :: Submitted(r, heap, f, k) <==> Submitted(endpoints, heap, f, k);
  }

  // Where the next packet for an output endpoint goes.
  lemma CurrentTransfer(endpoints: seq<Endpoint>, heap: Heap, flight: set<nat>, pending: int, next: nat, e: nat)
    requires AllShaped(endpoints) && Books(endpoints, heap, flight, pending, next)
    requires e < MAX_ENDPOINTS && endpoints[e].transferCount > 0
    ensures |endpoints| == MAX_ENDPOINTS && endpoints[e].outIdx < endpoints[e].transferCount <= MAX_TRANSFER_COUNT
    ensures |endpoints[e].slot| == MAX_TRANSFER_COUNT && endpoints[e].slot[endpoints[e].outIdx].Some?
    ensures var h := endpoints[e].slot[endpoints[e].outIdx].value;
            h in heap && heap[h].ep == e && !heap[h].cancelled && heap[h].packetIdx >= SUBMITTED_IDX &&
            (heap[h].packetIdx != SUBMITTED_IDX ==> h !in flight)
  {
    assert Shaped(endpoints[e]);
    assert Holds(endpoints, e, endpoints[e].outIdx, endpoints[e].slot[endpoints[e].outIdx].value);
  }

  lemma NotStartedIsQuiet(endpoints: seq<Endpoint>, heap: Heap, e: nat)
    requires Running(endpoints, heap) && e < |endpoints| && !endpoints[e].streamStarted
    ensures Quiet(endpoints, heap, e)
  {
  }

  // Changing the ring position or the number of packets to drop.
  lemma Adjust(endpoints: seq<Endpoint>, heap: Heap, flight: set<nat>, pending: int, next: nat,
               e: nat, outIdx: nat, dropPackets: nat)
    requires AllShaped(endpoints) && Books(endpoints, heap, flight, pending, next)
    requires e < MAX_ENDPOINTS && outIdx < endpoints[e].transferCount
    ensures |endpoints| == MAX_ENDPOINTS
    ensures var r := endpoints[e := endpoints[e].(outIdx := outIdx, dropPackets := dropPackets)];
            AllShaped(r) && Books(r, heap, flight, pending, next) && (Running(endpoints, heap) ==> Running(r, heap))
  {
    var r := endpoints[e := endpoints[e].(outIdx := outIdx, dropPackets := dropPackets)];
    assert Shaped(endpoints[e]);
    OtherFields(endpoints, r, heap, flight, pending, next);
    assert forall f, k :: Submitted(r, heap, f, k) <==> Submitted(endpoints, heap, f, k);
  }

  lemma AfterCancelKeys(heap: Heap, e: nat)
    ensures AfterCancel(heap, e).Keys <= heap.Keys
  {
  }

  lemma EmptyHost(endpoints: seq<Endpoint>, heap: Heap, flight: set<nat>, pending: int, next: nat)
    requires AllShaped(endpoints) && Books(endpoints, heap, flight, pending, next) && heap == map[]
    ensures flight == {} && pending == 0 && |endpoints| == MAX_ENDPOINTS
    ensures forall e | 0 <= e < MAX_ENDPOINTS :: endpoints[e].transferCount == 0
  {
    forall e | 0 <= e < MAX_ENDPOINTS
      ensures endpoints[e].transferCount == 0
    {
      assert Shaped(endpoints[e]);
      assert endpoints[e].slot[0].Some? ==> Holds(endpoints, e, 0, endpoints[e].slot[0].value);
    }
  }

  lemma SameStreams(endpoints: seq<Endpoint>, heap: Heap, flight: set<nat>, pending: int, next: nat,
                    e: nat, kind: EndpointType, maxPacketSize: nat)
    requires AllShaped(endpoints) && Books(endpoints, heap, flight, pending, next) && e < MAX_ENDPOINTS
    ensures |endpoints| == MAX_ENDPOINTS
    ensures var r := endpoints[e := endpoints[e].(kind := kind, maxPacketSize := maxPacketSize)];
            AllShaped(r) && Books(r, heap, flight, pending, next) && (Running(endpoints, heap) ==> Running(r, heap))
  {
    var r := endpoints[e := endpoints[e].(kind := kind, maxPacketSize := maxPacketSize)];
    assert Shaped(endpoints[e]);
    OtherFields(endpoints, r, heap, flight, pending, next);
    assert forall f, k :: Submitted(r, heap, f, k) <==> Submitted(endpoints, heap, f, k);
  }

  lemma IdleRuns(endpoints: seq<Endpoint>, heap: Heap)
    requires AllShaped(endpoints) && forall e | 0 <= e < MAX_ENDPOINTS :: endpoints[e].transferCount == 0
    ensures Running(endpoints, heap)
  {
    forall e: nat, k: nat
      ensures !Submitted(endpoints, heap, e, k)
    {
      assert e < |endpoints| ==> Shaped(endpoints[e]);
    }
  }

  // What the books say about the transfers libusb has.
  lemma BooksMean(endpoints: seq<Endpoint>, heap: Heap, flight: set<nat>, pending: int, next: nat)
    requires AllShaped(endpoints) && Books(endpoints, heap, flight, pending, next)
    ensures |endpoints| == MAX_ENDPOINTS
    ensures forall e | 0 <= e < MAX_ENDPOINTS :: Occupied(endpoints[e], 0, endpoints[e].transferCount)
    ensures forall h | h in flight ::
              h in heap && (heap[h].cancelled || exists k :: Holds(endpoints, heap[h].ep, k, h))
    ensures pending == |set h | h in flight && h in heap && heap[h].cancelled|
  {
    forall e | 0 <= e < MAX_ENDPOINTS
      ensures Occupied(endpoints[e], 0, endpoints[e].transferCount)
    {
      assert Shaped(endpoints[e]);
    }
    assert CancelledOnes(heap) == set h | h in flight && h in heap && heap[h].cancelled;
  }

  lemma SamePacketSize(endpoints: seq<Endpoint>, heap: Heap, e: nat, h: nat, idx: int)
    requires h in heap
    ensures StreamPacketSize(endpoints, heap[h := heap[h].(packetIdx := idx)], e) == StreamPacketSize(endpoints, heap, e)
  {
  }

  // The dimensions of a stream are sound.
  lemma DimensionsOf(endpoints: seq<Endpoint>, e: nat)
    requires AllShaped(endpoints) && e < MAX_ENDPOINTS && endpoints[e].transferCount > 0
    ensures 1 <= endpoints[e].pktsPerTransfer <= MAX_PACKETS_PER_TRANSFER
    ensures 1 <= endpoints[e].transferCount <= MAX_TRANSFER_COUNT
  {
    assert Shaped(endpoints[e]);
  }

  lemma IdleIsEmpty(e: Endpoint)
    ensures Idle(e).transferCount == 0
  {
  }

  lemma IdleTwice(endpoints: seq<Endpoint>, e: nat)
    requires e < |endpoints|
    ensures var r := endpoints[e := Idle(endpoints[e])];
            r[e := Idle(r[e])] == r && r[e].transferCount == 0 &&
            r[e].kind == endpoints[e].kind && r[e].maxPacketSize == endpoints[e].maxPacketSize
  {
  }

  // ----- transfers of other endpoints -----

  // The transfers of all endpoints but e are as before.
  ghost predicate HeapKept(heap: Heap, heap': Heap, e: nat) {
    forall h | h in heap && heap[h].ep != e :: h in heap' && heap'[h] == heap[h]
  }

  lemma KeptTwice(heap: Heap, heap': Heap, heap'': Heap, e: nat)
    requires HeapKept(heap, heap', e) && HeapKept(heap', heap'', e)
    ensures HeapKept(heap, heap'', e)
  {
  }

  lemma KeptSame(heap: Heap, e: nat)
    ensures HeapKept(heap, heap, e)
  {
  }

  lemma KeptReindexed(heap: Heap, h: nat, idx: int)
    requires h in heap
    ensures HeapKept(heap, heap[h := heap[h].(packetIdx := idx)], heap[h].ep)
  {
  }

  lemma KeptWithout(heap: Heap, h: nat)
    requires h in heap
    ensures HeapKept(heap, heap - {h}, heap[h].ep)
  {
  }

  lemma KeptAfterCancel(heap: Heap, e: nat)
    ensures HeapKept(heap, AfterCancel(heap, e), e)
  {
  }

  lemma KeptSubmitted(endpoints: seq<Endpoint>, heap: Heap, heap': Heap, e: nat, i: nat)
    requires SlotsSound(endpoints, heap') && SubmittedUpTo(endpoints, heap, heap', e, i)
    ensures HeapKept(heap, heap', e)
  {
  }

  lemma KeptAllocated(endpoints: seq<Endpoint>, heap: Heap, endpoints': seq<Endpoint>, heap': Heap, e: nat, i: nat,
                      length: nat)
    requires e < |endpoints| && AllocatedUpTo(endpoints, heap, endpoints', heap', e, i, length)
    ensures HeapKept(heap, heap', e)
  {
  }

  lemma KeptRefilled(endpoints: seq<Endpoint>, heap: Heap, heap': Heap, e: nat, i: nat)
    requires SlotsSound(endpoints, heap') && RefilledUpTo(endpoints, heap, heap', e, i)
    ensures HeapKept(heap, heap', e)
  {
  }
}
