// Runs of the host in which the ring of each output stream is known.
module UsbRuns {
  import opened UsbStatus
  import opened UsbBooks
  import opened UsbRing
  import opened UsbHost
  import IsoOut = UsbIsoOut

  // A host, and for each output endpoint the ring that its packets and completions have led to. The ring of a stream is
  // known as long as its transfers complete in the order in which they were submitted.
  class WatchedHost {
    const host: Host
    ghost var ring: seq<Option<IsoOut.Stream>>

    constructor ()
      ensures Sound() && fresh(host) && fresh(host.link) && fresh(host.packets)
      ensures forall e | 0 <= e < MAX_ENDPOINTS :: ring[e].None?
    {
      host := new Host();
      ring := seq(MAX_ENDPOINTS, _ => None);
    }

    // The endpoint is in this state, which a run of the ring reaches.
    ghost predicate Matches(e: nat, s: IsoOut.Stream)
      reads host, host.link
    {
      !IsIn(e) && !host.link.disconnected && e < |host.endpoint| && Ring(host.endpoint[e], host.heap, s) && Reachable(s)
    }

    ghost predicate Sound()
      reads this, host, host.link, host.packets
    {
      host.Valid() && |ring| == |host.endpoint| == MAX_ENDPOINTS &&
      forall e: nat | e < MAX_ENDPOINTS && ring[e].Some? :: Matches(e, ring[e].value)
    }

    // How a completion with this status moves a ring on.
    ghost function Completed(s: IsoOut.Stream, status: TransferStatus): IsoOut.Stream
      requires s.Formed()
    {
      if status == Stalled then IsoOut.NewStream(s.pkts, |s.slot|)
      else IsoOut.OnCompletion(s, if status == TransferStatus.Completed then IsoOut.Fine else IsoOut.Lost)
    }

    // How an event moves the ring of an endpoint on that keeps its stream.
    twostate function Moved(e: nat, event: Event): Option<IsoOut.Stream>
      requires e < |old(ring)| && e < |old(host.endpoint)|
      requires old(ring[e]).Some? ==> old(ring[e]).value.Formed()
      reads host, host.link
    {
      match event
      case GuestIsoPacket(f, dataLen, answers) =>
        if old(ring[e]).Some? && f % MAX_ENDPOINTS == e && old(host.IsoObjection(e, dataLen)) == Silent
        then Some(IsoOut.OnPacket(old(ring[e]).value, ALL_GO)) else old(ring[e])
      case GuestStartStream(f, kind, pkts, pktSize, count, answers) =>
        if f % MAX_ENDPOINTS == e && old(host.Objection(e, kind, pkts, pktSize, count)) == Silent
        then Some(IsoOut.NewStream(pkts, count)) else old(ring[e])
      case StreamTransferCompletes(h, isochronous, overall, each, answers) =>
        if !old(host.Live(e, h)) then old(ring[e])
        else if old(ring[e]).Some? && isochronous && IsOldest(old(host.endpoint[e]), old(ring[e]).value, h)
        then Some(Completed(old(ring[e]).value, Verdict(overall, each, false, old(host.endpoint[e]).pktsPerTransfer)))
        else None
      case _ => old(ring[e])
    }

    twostate function NextRing(e: nat, event: Event): Option<IsoOut.Stream>
      requires e < |old(ring)| && e < |old(host.endpoint)| && e < |host.endpoint|
      requires old(ring[e]).Some? ==> old(ring[e]).value.Formed()
      reads host, host.link
    {
      if IsIn(e) || host.link.disconnected || host.endpoint[e].transferCount == 0 then None else Moved(e, event)
    }

    lemma RingsAreFormed()
      requires Sound()
      ensures |ring| == |host.endpoint| == MAX_ENDPOINTS
      ensures forall e | 0 <= e < MAX_ENDPOINTS && ring[e].Some? :: ring[e].value.Formed()
    {
      forall e: nat | e < MAX_ENDPOINTS && ring[e].Some?
        ensures ring[e].value.Formed()
      {
        RingMeans(host.endpoint[e], host.heap, ring[e].value);
      }
    }

    twostate lemma StartMatches(new e: nat, new event: Event)
      requires old(Sound()) && event.GuestStartStream? && e < MAX_ENDPOINTS == |host.endpoint| && host.Stepped(e, event)
      requires !IsIn(e) && !host.link.disconnected && event.e % MAX_ENDPOINTS == e
      requires old(host.Objection(e, event.kind, event.pkts, event.pktSize, event.count)) == Silent
      ensures Matches(e, IsoOut.NewStream(event.pkts, event.count))
    {
      hide IsoOut.NewStream, Reachable, Ring, host.Valid, host.AllocatedFrom;
      NewIsReachable(event.pkts, event.count);
      host.AllocatedIsNew(e, event.pkts, event.pktSize, event.count, event.answers);
    }

    twostate lemma CompletionMatches(new e: nat, new event: Event)
      requires old(Sound()) && event.StreamTransferCompletes? && e < MAX_ENDPOINTS == |host.endpoint|
      requires host.Stepped(e, event) && old(host.Live(e, event.h)) && event.isochronous
      requires old(ring[e]).Some? && IsOldest(old(host.endpoint[e]), old(ring[e]).value, event.h)
      requires !IsIn(e) && !host.link.disconnected && host.endpoint[e].transferCount > 0
      ensures var s := old(ring[e]).value;
              s.Formed() && Matches(e, Completed(s, Verdict(event.overall, event.each, false,
                                                            old(host.endpoint[e]).pktsPerTransfer)))
    {
      hide IsoOut.OnCompletion, IsoOut.NewStream, Reachable, Ring, host.Valid, IsOldest, host.StalledFrom, Verdict;
      var s := old(ring[e]).value;
      RingMeans(old(host.endpoint[e]), old(host.heap), s);
      StepsAreReachable(s);
      host.StallIsNew(e, event.answers);
    }

    // What the event does to the endpoint is what it does to its ring.
    twostate lemma NextMatches(new e: nat, new event: Event)
      requires old(Sound()) && host.AllStepped(event) && e < MAX_ENDPOINTS
      requires old(ring[e]).Some? ==> old(ring[e]).value.Formed()
      ensures var next := NextRing(e, event); next.Some? ==> Matches(e, next.value)
    {
      hide IsoOut.OnPacket, IsoOut.OnCompletion, IsoOut.NewStream, Reachable, Ring, host.Valid, IsOldest, Idle,
        host.AllocatedFrom, host.IsoCompleted, host.BufferedCompleted, Completed;
      if NextRing(e, event).Some? {
        assert host.Stepped(e, event);
        if old(ring[e]).Some? {
          StepsAreReachable(old(ring[e]).value);
        }
        IdleIsEmpty(old(host.endpoint[e]));
        if event.GuestStartStream? && event.e % MAX_ENDPOINTS == e &&
           old(host.Objection(e, event.kind, event.pkts, event.pktSize, event.count)) == Silent {
          StartMatches(e, event);
        } else if event.StreamTransferCompletes? && old(host.Live(e, event.h)) {
          CompletionMatches(e, event);
        }
      }
    }

    twostate lemma NextRings(new event: Event) returns (next: seq<Option<IsoOut.Stream>>)
      requires old(Sound()) && host.AllStepped(event)
      requires forall e | 0 <= e < MAX_ENDPOINTS && old(ring[e]).Some? :: old(ring[e]).value.Formed()
      ensures |next| == MAX_ENDPOINTS && forall e: nat | e < MAX_ENDPOINTS :: next[e] == NextRing(e, event)
      ensures forall e: nat | e < MAX_ENDPOINTS && next[e].Some? :: Matches(e, next[e].value)
    {
      hide Matches, NextRing, host.Valid, host.Stepped;
      next := [];
      for e := 0 to MAX_ENDPOINTS
        invariant |next| == e && forall f: nat | f < e :: next[f] == NextRing(f, event)
        invariant forall f: nat | f < e && next[f].Some? :: Matches(f, next[f].value)
      {
        NextMatches(e, event);
        next := next + [NextRing(e, event)];
      }
    }

    static lemma StepsAreReachable(s: IsoOut.Stream)
      requires Reachable(s)
      ensures s.Formed() && Reachable(IsoOut.NewStream(s.pkts, |s.slot|)) && Reachable(IsoOut.OnPacket(s, ALL_GO))
      ensures forall how :: Reachable(IsoOut.OnCompletion(s, how))
    {
      hide Reachable, IsoOut.OnPacket, IsoOut.OnCompletion, IsoOut.NewStream;
      StepIsReachable(s, IsoOut.Packet(ALL_GO));
      NewIsReachable(s.pkts, |s.slot|);
      forall how
        ensures Reachable(IsoOut.OnCompletion(s, how))
      {
        StepIsReachable(s, IsoOut.Complete(how));
      }
    }

    method Handle(event: Event)
      requires Sound()
      modifies this, host, host.packets, host.link
      ensures Sound()
      ensures |old(ring)| == |old(host.endpoint)| == |host.endpoint| == MAX_ENDPOINTS
      ensures forall e: nat | e < MAX_ENDPOINTS && old(ring[e]).Some? :: old(ring[e]).value.Formed()
      ensures forall e: nat | e < MAX_ENDPOINTS :: ring[e] == NextRing(e, event)
    {
      hide Matches, NextRing, host.Valid, host.Stepped;
      RingsAreFormed();
      host.Handle(event);
      ring := NextRings(event);
    }

    // A known ring with room for two packets is safe, and a packet makes the host submit only transfers that hold all of
    // their packets.
    lemma KnownIsSafe(e: nat)
      requires Sound() && e < MAX_ENDPOINTS && ring[e].Some?
      requires host.endpoint[e].pktsPerTransfer * host.endpoint[e].transferCount >= 2
      ensures Safe(host.endpoint[e], host.heap)
      ensures var s := ring[e].value;
              s.Formed() && forall failAt :: IsoOut.AddsOnlyFull(s, IsoOut.Stored(s), IsoOut.OnPacket(s, failAt))
    {
      hide Ring, Reachable, Safe, IsoOut.Sound, IsoOut.AddsOnlyFull, IsoOut.Stored, IsoOut.OnPacket;
      var s := ring[e].value;
      RingMeans(host.endpoint[e], host.heap, s);
      ReachableIsSound(s);
      RingIsSafe(host.endpoint[e], host.heap, s);
      forall failAt
        ensures IsoOut.AddsOnlyFull(s, IsoOut.Stored(s), IsoOut.OnPacket(s, failAt))
      {
        IsoOut.PacketAddsOnlyFull(s, failAt);
      }
    }
  }

  // After any run, each known ring with room for two packets is safe.
  method Run(events: seq<Event>) returns (watched: WatchedHost)
    ensures fresh(watched) && fresh(watched.host) && watched.Sound()
    ensures forall e: nat | e < MAX_ENDPOINTS && watched.ring[e].Some? ::
              var endpoint := watched.host.endpoint[e];
              endpoint.pktsPerTransfer * endpoint.transferCount >= 2 ==> Safe(endpoint, watched.host.heap)
  {
    watched := new WatchedHost();
    for i := 0 to |events|
      invariant fresh(watched) && fresh(watched.host) && fresh(watched.host.link) && fresh(watched.host.packets)
      invariant watched.Sound()
    {
      watched.Handle(events[i]);
    }
    hide Safe, Ring;
    forall e: nat | e < MAX_ENDPOINTS && watched.ring[e].Some?
      ensures var endpoint := watched.host.endpoint[e];
              endpoint.pktsPerTransfer * endpoint.transferCount >= 2 ==> Safe(endpoint, watched.host.heap)
    {
      if watched.host.endpoint[e].pktsPerTransfer * watched.host.endpoint[e].transferCount >= 2 {
        watched.KnownIsSafe(e);
      }
    }
  }
}
