// Runs of the host in which no stream for input falls silent.
module UsbInFlow {
  import opened UsbStatus
  import opened UsbBooks
  import opened UsbRing
  import opened UsbHost

  // All transfers of the endpoint are with libusb.
  ghost predicate Flows(endpoints: seq<Endpoint>, heap: Heap, e: nat)
    requires e < |endpoints|
  {
    forall k: nat | k < endpoints[e].transferCount :: Submitted(endpoints, heap, e, k)
  }

  lemma NewFlows(endpoints: seq<Endpoint>, heap: Heap, e: nat, pkts: nat, count: nat, length: nat)
    requires e < |endpoints| && count <= MAX_TRANSFER_COUNT
    requires HasStream(endpoints[e], heap, e, pkts, count, length, true)
    ensures Flows(endpoints, heap, e)
  {
  }

  lemma IdleFlows(endpoints: seq<Endpoint>, heap: Heap, e: nat)
    requires e < |endpoints| && endpoints[e].transferCount == 0
    ensures Flows(endpoints, heap, e)
  {
  }

  lemma KeptFlows(endpoints: seq<Endpoint>, heap: Heap, flight: set<nat>, pending: int, next: nat,
                  endpoints': seq<Endpoint>, heap': Heap, e: nat)
    requires AllShaped(endpoints) && Books(endpoints, heap, flight, pending, next) && e < MAX_ENDPOINTS
    requires |endpoints| == |endpoints'| == MAX_ENDPOINTS && RingKept(endpoints[e], heap, endpoints'[e], heap')
    requires Flows(endpoints, heap, e)
    ensures Flows(endpoints', heap', e)
  {
    hide Books, AllShaped;
    if endpoints[e].transferCount > 0 {
      var s := HasRing(endpoints, heap, flight, pending, next, e);
      forall k: nat | k < endpoints'[e].transferCount
        ensures Submitted(endpoints', heap', e, k)
      {
        assert Submitted(endpoints, heap, e, k);
        assert InSlot(endpoints[e], heap, k, s.slot[k].packetIdx);
        assert InSlot(endpoints'[e], heap', k, s.slot[k].packetIdx);
      }
    }
  }

  lemma {:induction false} InputVerdicts(each: seq<TransferStatus>, i: nat, pkts: nat)
    requires i <= pkts
    ensures FirstBad(each, true, i, pkts) in {Completed, Cancelled, Stalled, NoDevice}
    decreases pkts - i
  {
    if i < pkts {
      InputVerdicts(each, i + 1, pkts);
    }
  }

  // A host, and for each endpoint whether something has happened since its stream began that a stream for input does
  // not recover from: there was no device, a transfer that the host has not cancelled was reported as cancelled, or a
  // packet came from the guest.
  class WatchedInput {
    const host: Host
    ghost var disturbed: seq<bool>

    constructor ()
      ensures Sound() && fresh(host) && fresh(host.link) && fresh(host.packets)
      ensures forall e | 0 <= e < MAX_ENDPOINTS :: !disturbed[e]
    {
      host := new Host();
      disturbed := seq(MAX_ENDPOINTS, _ => false);
    }

    ghost predicate Flowing(e: nat)
      reads host
    {
      e < |host.endpoint| && (IsIn(e) ==> Flows(host.endpoint, host.heap, e))
    }

    ghost predicate Sound()
      reads this, host, host.link, host.packets
    {
      host.Valid() && |disturbed| == |host.endpoint| == MAX_ENDPOINTS &&
      forall e: nat | e < MAX_ENDPOINTS && !disturbed[e] :: Flowing(e)
    }

    // Whether the event disturbs the endpoint, or its stream begins anew.
    twostate function NextDisturbed(e: nat, event: Event): bool
      requires e < |old(disturbed)| && e < |old(host.endpoint)|
      reads host, host.link
    {
      host.link.disconnected ||
      match event
      case GuestIsoPacket(f, dataLen, answers) =>
        old(disturbed[e]) || (f % MAX_ENDPOINTS == e && old(host.IsoObjection(e, dataLen)) == Silent)
      case GuestStartStream(f, kind, pkts, pktSize, count, answers) =>
        old(disturbed[e]) &&
        !(f % MAX_ENDPOINTS == e && old(host.Objection(e, kind, pkts, pktSize, count)) == Silent)
      case StreamTransferCompletes(h, isochronous, overall, each, answers) =>
        old(disturbed[e]) ||
        (isochronous && old(host.Live(e, h)) &&
         Verdict(overall, each, true, old(host.endpoint)[e].pktsPerTransfer) == Cancelled)
      case _ => old(disturbed[e])
    }

    twostate lemma AllocatedFlows(new e: nat, new pkts: nat, new pktSize: nat, new count: nat, new answers: Answers)
      requires e < |old(host.endpoint)| && IsIn(e) && count <= MAX_TRANSFER_COUNT && !host.link.disconnected
      requires host.Allocated(e, pkts, pktSize, count, answers)
      ensures e < |host.endpoint| && Flows(host.endpoint, host.heap, e)
    {
      hide HasStream, Flows, Idle;
      match host.AllocAnswer(e, count, answers)
      case Done => NewFlows(host.endpoint, host.heap, e, pkts, count, pktSize * pkts);
      case Failed =>
        IdleIsEmpty(old(host.endpoint[e]));
        IdleFlows(host.endpoint, host.heap, e);
    }

    twostate lemma StallFlows(new e: nat, new answers: Answers)
      requires e < |old(host.endpoint)| && IsIn(e) && !host.link.disconnected
      requires old(host.endpoint[e].transferCount) <= MAX_TRANSFER_COUNT && host.StallHandled(e, answers)
      ensures e < |host.endpoint| && Flows(host.endpoint, host.heap, e)
    {
      hide HasStream, Flows, Idle;
      var pktSize := StreamPacketSize(old(host.endpoint), old(host.heap), e);
      var max := old(host.endpoint[e]).maxPacketSize;
      if !answers.cleared || old(host.link.disconnected) || max == 0 || pktSize % max != 0 {
        IdleIsEmpty(old(host.endpoint[e]));
        IdleFlows(host.endpoint, host.heap, e);
      } else {
        AllocatedFlows(e, old(host.endpoint[e]).pktsPerTransfer, pktSize, old(host.endpoint[e]).transferCount, answers);
      }
    }

    twostate lemma AgainFlows(new e: nat, new h: nat, new answer: Answer)
      requires e < |old(host.endpoint)| && h in old(host.heap) && !host.link.disconnected
      requires host.SubmittedAgain(e, h, answer) && old(Flows(host.endpoint, host.heap, e))
      ensures e < |host.endpoint| && Flows(host.endpoint, host.heap, e)
    {
      hide Flows, Idle;
      if answer == Failed {
        IdleIsEmpty(old(host.endpoint[e]));
        IdleFlows(host.endpoint, host.heap, e);
      }
    }

    twostate lemma CompletionFlows(new e: nat, new event: Event)
      requires old(host.Valid()) && event.StreamTransferCompletes? && e < MAX_ENDPOINTS == |host.endpoint| && IsIn(e)
      requires |old(host.endpoint)| == MAX_ENDPOINTS && old(host.endpoint[e].transferCount) <= MAX_TRANSFER_COUNT
      requires |old(disturbed)| == MAX_ENDPOINTS && !NextDisturbed(e, event) && old(host.Live(e, event.h))
      requires host.Stepped(e, event) && !host.link.disconnected && old(Flows(host.endpoint, host.heap, e))
      ensures Flows(host.endpoint, host.heap, e)
    {
      hide Flows, Idle, FirstBad, host.Valid, host.StallHandled, host.SubmittedAgain;
      var pkts := old(host.endpoint)[e].pktsPerTransfer;
      var verdict := Verdict(event.overall, event.each, true, pkts);
      InputVerdicts(event.each, 0, pkts);
      if (event.isochronous && verdict == Stalled) || (!event.isochronous && event.overall == Stalled) {
        StallFlows(e, event.answers);
      } else {
        AgainFlows(e, event.h, event.answers.At(0));
      }
    }

    twostate lemma KeepsFlowing(new e: nat)
      requires old(host.Valid()) && e < MAX_ENDPOINTS == |host.endpoint| == |old(host.endpoint)| && host.Kept(e)
      requires old(Flows(host.endpoint, host.heap, e))
      ensures Flows(host.endpoint, host.heap, e)
    {
      hide Flows, Books, AllShaped, Running, RingKept;
      KeptFlows(old(host.endpoint), old(host.heap), old(host.flight), old(host.cancelsPending), old(host.next),
                host.endpoint, host.heap, e);
    }

    // An endpoint that is not disturbed goes on, or is without a stream.
    twostate lemma StepFlows(new e: nat, new event: Event)
      requires old(Sound()) && host.AllStepped(event) && e < MAX_ENDPOINTS && !NextDisturbed(e, event)
      ensures Flowing(e)
    {
      hide Flows, Books, AllShaped, Running, RingKept, Verdict, host.Allocated, host.IsoCompleted,
        host.BufferedCompleted;
      if IsIn(e) {
        assert host.Stepped(e, event);
        CountInRange(old(host.endpoint), e);
        if event.GuestStartStream? && event.e % MAX_ENDPOINTS == e &&
           old(host.Objection(e, event.kind, event.pkts, event.pktSize, event.count)) == Silent {
          AllocatedFlows(e, event.pkts, event.pktSize, event.count, event.answers);
        } else {
          assert old(Flowing(e));
          if event.StreamTransferCompletes? && old(host.Live(e, event.h)) {
            CompletionFlows(e, event);
          } else if host.endpoint[e].transferCount == 0 {
            IdleFlows(host.endpoint, host.heap, e);
          } else {
            KeepsFlowing(e);
          }
        }
      }
    }

    static lemma CountInRange(endpoints: seq<Endpoint>, e: nat)
      requires AllShaped(endpoints) && e < MAX_ENDPOINTS
      ensures |endpoints| == MAX_ENDPOINTS && endpoints[e].transferCount <= MAX_TRANSFER_COUNT
    {
      assert Shaped(endpoints[e]);
    }

    twostate lemma StepsFlow(new event: Event) returns (next: seq<bool>)
      requires old(Sound()) && host.AllStepped(event)
      ensures |next| == MAX_ENDPOINTS && forall e: nat | e < MAX_ENDPOINTS :: next[e] == NextDisturbed(e, event)
      ensures forall e: nat | e < MAX_ENDPOINTS && !next[e] :: Flowing(e)
    {
      hide Flowing, NextDisturbed, host.Stepped, host.Valid;
      next := [];
      for e := 0 to MAX_ENDPOINTS
        invariant |next| == e && forall f: nat | f < e :: next[f] == NextDisturbed(f, event)
        invariant forall f: nat | f < e && !next[f] :: Flowing(f)
      {
        if !NextDisturbed(e, event) {
          StepFlows(e, event);
        }
        next := next + [NextDisturbed(e, event)];
      }
    }

    method Handle(event: Event)
      requires Sound()
      modifies this, host, host.packets, host.link
      ensures Sound()
      ensures |old(disturbed)| == |old(host.endpoint)| == MAX_ENDPOINTS
      ensures forall e: nat | e < MAX_ENDPOINTS :: disturbed[e] == NextDisturbed(e, event)
    {
      hide Flowing, NextDisturbed, host.Stepped, host.Valid;
      host.Handle(event);
      disturbed := StepsFlow(event);
    }
  }

  // After any run, libusb has all transfers of each undisturbed stream for input.
  method Run(events: seq<Event>) returns (watched: WatchedInput)
    ensures fresh(watched) && fresh(watched.host) && watched.Sound()
    ensures forall e: nat | e < MAX_ENDPOINTS && IsIn(e) && !watched.disturbed[e] ::
              forall k: nat | k < watched.host.endpoint[e].transferCount ::
                Submitted(watched.host.endpoint, watched.host.heap, e, k)
  {
    watched := new WatchedInput();
    for i := 0 to |events|
      invariant fresh(watched) && fresh(watched.host) && fresh(watched.host.link) && fresh(watched.host.packets)
      invariant watched.Sound()
    {
      watched.Handle(events[i]);
    }
    forall e: nat | e < MAX_ENDPOINTS && IsIn(e) && !watched.disturbed[e]
      ensures forall k: nat | k < watched.host.endpoint[e].transferCount ::
                Submitted(watched.host.endpoint, watched.host.heap, e, k)
    {
      assert watched.Flowing(e);
    }
  }
}
