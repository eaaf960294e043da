// The redirection host: streams on all endpoints, outstanding packets, and the device's coming and going.
// What libusb answers, and what completes when, is left open.
module UsbHost {
  import opened UsbLink
  import opened UsbStatus
  import UsbPackets
  import opened UsbBooks
  import opened UsbRing
  import IsoOut = UsbIsoOut

  // Indices with this bit are endpoints towards the host.
  predicate IsIn(e: nat) {
    e >= 0x10
  }

  // What a stream handler tells the guest, if anything.
  datatype Report = Silent | Told(status: RedirStatus)

  // The status of packet i of a transfer.
  function StatusAt(each: seq<TransferStatus>, i: nat): TransferStatus {
    if i < |each| then each[i] else Completed
  }

  // Whether a status ends the handling of a transfer. For input the other errors only lose a packet.
  predicate Decides(status: TransferStatus, input: bool) {
    if input then status in {Cancelled, Stalled, NoDevice} else status != Completed
  }

  // The first status from packet i on that decides, if any.
  function FirstBad(each: seq<TransferStatus>, input: bool, i: nat, pkts: nat): TransferStatus
    requires i <= pkts
    decreases pkts - i
  {
    if i == pkts then Completed
    else if Decides(StatusAt(each, i), input) then StatusAt(each, i)
    else FirstBad(each, input, i + 1, pkts)
  }

  // The status that decides how a transfer has ended, if any. The packets are not looked at unless the transfer as a
  // whole has completed.
  function Verdict(overall: TransferStatus, each: seq<TransferStatus>, input: bool, pkts: nat): TransferStatus {
    if Decides(overall, input) then overall
    else if overall != Completed then Completed
    else FirstBad(each, input, 0, pkts)
  }

  // Nothing has happened that keeps an input transfer from being submitted again.
  predicate GoesOn(overall: TransferStatus, each: seq<TransferStatus>, pkts: nat) {
    overall !in {Cancelled, Stalled, NoDevice} &&
    forall i: nat | i < pkts :: StatusAt(each, i) !in {Cancelled, Stalled, NoDevice}
  }

  lemma {:induction false} NoneIsBad(each: seq<TransferStatus>, i: nat, pkts: nat)
    requires i <= pkts && forall k: nat | i <= k < pkts :: StatusAt(each, k) !in {Cancelled, Stalled, NoDevice}
    ensures FirstBad(each, true, i, pkts) == Completed
    decreases pkts - i
  {
    if i < pkts {
      NoneIsBad(each, i + 1, pkts);
    }
  }

  class Host {
    const link: Link
    const packets: UsbPackets.PacketList
    var endpoint: seq<Endpoint>
    // The stream transfers by address.
    var heap: Heap
    var next: nat
    var cancelsPending: int
    // Nothing was submitted since the device was last reset.
    var reset: bool
    // The stream transfers that libusb has.
    ghost var flight: set<nat>

    ghost predicate Balanced()
      reads this
    {
      Books(endpoint, heap, flight, cancelsPending, next)
    }

    // What every step on a stream keeps.
    ghost predicate Core()
      reads this, link
    {
      && AllShaped(endpoint) && Balanced() && link.Valid()
      && (link.disconnected || Running(endpoint, heap))
    }

    // Without a device there are no transfers; a pending connect finds no streams.
    ghost predicate Valid()
      reads this, link, packets
    {
      && Core() && packets.Valid()
      && (!link.hasDevice ==> heap == map[] && packets.transfers == [])
      && (link.connectPending ==> NoStreams())
    }

    // No endpoint has a stream.
    ghost predicate NoStreams()
      reads this
    {
      |endpoint| == MAX_ENDPOINTS && forall e | 0 <= e < MAX_ENDPOINTS :: endpoint[e].transferCount == 0
    }

    constructor ()
      ensures Valid() && NoStreams() && fresh(link) && fresh(packets) && link.history == [] && packets.requests == []
    {
      link := new Link();
      packets := new UsbPackets.PacketList();
      endpoint := seq(MAX_ENDPOINTS, _ => NoEndpoint());
      heap, next, cancelsPending, flight, reset := map[], 0, 0, {}, false;
      new;
      EmptyBooks(endpoint);
    }

    // ----- cancelling -----

    method CancelStream(e: nat)
      requires AllShaped(endpoint) && Balanced() && e < MAX_ENDPOINTS
      modifies this`endpoint, this`heap, this`cancelsPending
      ensures AllShaped(endpoint) && Balanced()
      ensures old(RunningBut(endpoint, heap, e)) ==> Running(endpoint, heap)
      ensures endpoint == old(endpoint)[e := Idle(old(endpoint)[e])]
      ensures heap == AfterCancel(old(heap), e)
    {
      hide Books, Idle, AfterCancel, CancelledUpTo, Emptied, AllShaped, Shaped, RunningBut, Running;
      ghost var endpoints, transfers, pending := endpoint, heap, cancelsPending;
      StartCancel(endpoints, transfers, e);
      var count := endpoint[e].transferCount;
      for i := 0 to count
        invariant Balanced() && |endpoint| == MAX_ENDPOINTS
        invariant CancelledUpTo(endpoints, transfers, endpoint, heap, e, i)
      {
        CancelStep(endpoints, transfers, endpoint, heap, flight, pending, cancelsPending, next, e, i);
        var h := endpoint[e].slot[i].value;
        if heap[h].packetIdx == SUBMITTED_IDX {
          heap := heap[h := heap[h].(cancelled := true)];
          cancelsPending := cancelsPending + 1;
        } else {
          heap := heap - {h};
        }
        endpoint := Emptied(endpoint, e, i);
      }
      EndCancel(endpoints, transfers, endpoint, heap, flight, pending, cancelsPending, next, e);
      if RunningBut(endpoints, transfers, e) {
        RunningAfterCancel(endpoints, transfers, flight, pending, next, e);
      }
      endpoint := endpoint[e := Idle(endpoint[e])];
    }

    // ----- submitting and starting -----

    // What every stream step keeps of the connection.
    twostate predicate LinkKept()
      reads link
    {
      link.Valid() && link.hasDevice == old(link.hasDevice) && link.havePeerCaps == old(link.havePeerCaps) &&
      link.connectPending == old(link.connectPending) &&
      (old(link.disconnected) ==> link.disconnected && link.history == old(link.history))
    }

    // The other endpoints and their transfers are as before.
    twostate predicate OthersKept(e: nat)
      reads this
    {
      |endpoint| == |old(endpoint)| && HeapKept(old(heap), heap, e) &&
      forall f | 0 <= f < |endpoint| && f != e :: endpoint[f] == old(endpoint)[f]
    }

    // The stream of the endpoint is gone and the others are as before.
    twostate predicate StreamCancelled(e: nat)
      requires e < |old(endpoint)|
      reads this, link
    {
      CancelledFrom(old(endpoint), old(link.history), e)
    }

    ghost predicate CancelledFrom(endpoints: seq<Endpoint>, history: History, e: nat)
      requires e < |endpoints|
      reads this, link
    {
      endpoint == endpoints[e := Idle(endpoints[e])] && link.history == history
    }

    // Submits a stream transfer that is in its slot. If the device is gone the stream is left as it is; any other
    // failure cancels the stream.
    method SubmitStreamTransfer(h: nat, answer: Answer) returns (ok: bool)
      requires AllShaped(endpoint) && Balanced() && link.Valid()
      requires h in heap && (link.disconnected || RunningBut(endpoint, heap, heap[h].ep))
      requires !heap[h].cancelled && heap[h].packetIdx != SUBMITTED_IDX
      modifies this`endpoint, this`heap, this`cancelsPending, this`flight, this`reset, link
      ensures AllShaped(endpoint) && Balanced() && LinkKept() && !reset
      ensures ok <==> answer == Done
      ensures ok ==> endpoint == old(endpoint) && heap == old(heap[h := heap[h].(packetIdx := SUBMITTED_IDX)])
      ensures ok ==> flight == old(flight) + {h} && link.disconnected == old(link.disconnected)
      ensures ok ==> link.history == old(link.history)
      ensures !ok ==> flight == old(flight) && (link.disconnected || Running(endpoint, heap))
      ensures HeapKept(old(heap), heap, old(heap[h].ep))
      ensures answer == NoSuchDevice ==> link.disconnected && endpoint == old(endpoint) && heap == old(heap)
      ensures answer == Failed ==> StreamCancelled(old(heap[h].ep)) && heap == old(AfterCancel(heap, heap[h].ep)) &&
                                     link.disconnected == old(link.disconnected)
    {
      hide Books, Idle, AfterCancel, AllShaped, Shaped, Running, RunningBut, HeapKept;
      KnownTransfer(endpoint, heap, flight, cancelsPending, next, h);
      KeptSame(heap, heap[h].ep);
      KeptReindexed(heap, h, SUBMITTED_IDX);
      KeptAfterCancel(heap, heap[h].ep);
      reset := false;
      if answer != Done {
        if answer == NoSuchDevice {
          link.HandleDisconnect();
        } else {
          CancelStream(heap[h].ep);
        }
        return false;
      }
      Reindex(endpoint, heap, flight, cancelsPending, next, h, SUBMITTED_IDX);
      heap := heap[h := heap[h].(packetIdx := SUBMITTED_IDX)];
      flight := flight + {h};
      return true;
    }

    // How many transfers are submitted when the stream starts.
    function StartCount(e: nat, count: nat): nat {
      if IsIn(e) then count else count / 2
    }

    method StartStream(e: nat, answers: Answers) returns (ok: bool)
      requires AllShaped(endpoint) && Balanced() && link.Valid() && !link.disconnected
      requires e < MAX_ENDPOINTS && endpoint[e].transferCount > 0
      requires RunningBut(endpoint, heap, e) && Quiet(endpoint, heap, e)
      modifies this`endpoint, this`heap, this`cancelsPending, this`flight, this`reset, link
      ensures Core() && LinkKept()
      ensures var first := answers.First(0, StartCount(e, old(endpoint)[e].transferCount));
              (ok <==> first == Done) && (first == NoSuchDevice ==> link.disconnected) &&
              (first == Failed ==> StreamCancelled(e) && !link.disconnected)
      ensures ok ==> endpoint == Started(old(endpoint), e) && link.history == old(link.history) && !link.disconnected
      ensures ok ==> SubmittedUpTo(old(endpoint), old(heap), heap, e, StartCount(e, old(endpoint)[e].transferCount))
      ensures OthersKept(e)
    {
      hide Books, Idle, AfterCancel, AllShaped, Shaped, Running, RunningBut, Quiet, SubmittedUpTo, HeapKept, SlotsSound;
      ghost var endpoints, transfers := endpoint, heap;
      SizeOfEndpoints(endpoint);
      var count := StartCount(e, endpoint[e].transferCount);
      NothingSubmitted(endpoints, transfers, e);
      for i := 0 to count
        invariant Balanced() && LinkKept() && !link.disconnected && link.history == old(link.history)
        invariant endpoint == endpoints && SubmittedUpTo(endpoints, transfers, heap, e, i)
        invariant answers.First(i, count) == answers.First(0, count)
      {
        SubmitStep(endpoints, transfers, heap, flight, cancelsPending, next, e, i);
        SubmitOthers(endpoints, transfers, heap, flight, cancelsPending, next, e, i);
        BooksSound(endpoint, heap, flight, cancelsPending, next);
        KeptSubmitted(endpoints, transfers, heap, e, i);
        ghost var before := heap;
        ok := SubmitStreamTransfer(endpoint[e].slot[i].value, answers.At(i));
        if !ok {
          KeptTwice(transfers, before, heap, e);
          return;
        }
      }
      BooksSound(endpoint, heap, flight, cancelsPending, next);
      KeptSubmitted(endpoints, transfers, heap, e, count);
      SubmitOthers(endpoints, transfers, heap, flight, cancelsPending, next, e, count);
      SubmitEnd(endpoint, heap, flight, cancelsPending, next, e);
      endpoint := Started(endpoint, e);
      return true;
    }

    method StopStream(e: nat) returns (report: Report)
      requires Core() && e < MAX_ENDPOINTS
      modifies this`endpoint, this`heap, this`cancelsPending
      ensures Core()
      ensures if link.disconnected then report == Silent && endpoint == old(endpoint) && heap == old(heap)
              else report == Told(RedirSuccess) && endpoint == old(endpoint)[e := Idle(old(endpoint)[e])] &&
                   heap == AfterCancel(old(heap), e)
    {
      hide Books, Idle, AfterCancel, AllShaped, Shaped;
      if link.disconnected {
        return Silent;
      }
      CancelStream(e);
      return Told(RedirSuccess);
    }

    // What is wrong with a request to start a stream, if anything.
    function Objection(e: nat, kind: EndpointType, pkts: nat, pktSize: nat, count: nat): Report
      requires e < |endpoint|
      reads this, link
    {
      if link.disconnected || endpoint[e].kind != kind ||
         pkts < 1 || pkts > MAX_PACKETS_PER_TRANSFER || count < 1 || count > MAX_TRANSFER_COUNT ||
         endpoint[e].maxPacketSize == 0 || pktSize % endpoint[e].maxPacketSize != 0 then Told(RedirStall)
      else if endpoint[e].transferCount > 0 then Told(RedirInval)
      else Silent
    }

    method AllocStream(e: nat, kind: EndpointType, pkts: nat, pktSize: nat, count: nat, sendSuccess: bool, answers: Answers)
      returns (report: Report)
      requires Core() && e < MAX_ENDPOINTS
      modifies this`endpoint, this`heap, this`cancelsPending, this`flight, this`next, this`reset, link
      ensures Core() && LinkKept() && OthersKept(e)
      ensures var objection := old(Objection(e, kind, pkts, pktSize, count));
              if objection != Silent
              then report == objection && endpoint == old(endpoint) && heap == old(heap) && link.history == old(link.history)
              else Allocated(e, pkts, pktSize, count, answers) &&
                   report == if sendSuccess && AllocAnswer(e, count, answers) == Done then Told(RedirSuccess) else Silent
    {
      hide Books, Idle, AfterCancel, Shaped, AllShaped, Running, RunningBut, Quiet, AllocatedUpTo, Placed, WithStream, HasStream,
        SubmittedUpTo, HeapKept;
      SizeOfEndpoints(endpoint);
      KeptSame(heap, e);
      if link.disconnected {
        return Told(RedirStall);
      }
      if endpoint[e].kind != kind {
        return Told(RedirStall);
      }
      if pkts < 1 || pkts > MAX_PACKETS_PER_TRANSFER || count < 1 || count > MAX_TRANSFER_COUNT ||
         endpoint[e].maxPacketSize == 0 || pktSize % endpoint[e].maxPacketSize != 0 {
        return Told(RedirStall);
      }
      if endpoint[e].transferCount > 0 {
        return Told(RedirInval);
      }
      ghost var endpoints, transfers := endpoint, heap;
      StartAlloc(endpoint, heap, e, pktSize * pkts);
      HeldInHeap(endpoint, heap, flight, cancelsPending, next);
      for i := 0 to count
        invariant Balanced() && AllocatedUpTo(endpoints, transfers, endpoint, heap, e, i, pktSize * pkts)
        invariant LinkKept() && !link.disconnected && link.history == old(link.history)
      {
        AllocStep(endpoints, transfers, endpoint, heap, flight, cancelsPending, next, e, i, pktSize * pkts);
        heap := heap[next := Transfer(e, pktSize * pkts, 0, false)];
        endpoint := Placed(endpoint, e, i, next);
        next := next + 1;
      }
      AllocEnd(endpoints, transfers, endpoint, heap, flight, cancelsPending, next, e, pkts, count, pktSize * pkts);
      KeptAllocated(endpoints, transfers, endpoint, heap, e, count, pktSize * pkts);
      endpoint := WithStream(endpoint, e, pkts, count);
      ghost var placed, unsubmitted := endpoint, heap;
      var ok := true;
      if IsIn(e) {
        ok := StartStream(e, answers);
        KeptTwice(transfers, unsubmitted, heap, e);
        if ok {
          StreamStarts(placed, unsubmitted, heap, e, pkts, count, pktSize * pkts);
        }
      } else {
        QuietRuns(endpoint, heap, e);
      }
      report := if sendSuccess && ok then Told(RedirSuccess) else Silent;
    }

    // How submitting the transfers of a new stream ends; those of an output stream are not submitted yet.
    function AllocAnswer(e: nat, count: nat, answers: Answers): Answer {
      if IsIn(e) then answers.First(0, count) else Done
    }

    // The stream is there, unless submitting its transfers failed: then the device is gone, or the stream is.
    twostate predicate Allocated(e: nat, pkts: nat, pktSize: nat, count: nat, answers: Answers)
      requires e < |old(endpoint)|
      reads this, link
    {
      AllocatedFrom(old(endpoint), old(link.history), old(link.disconnected), e, pkts, pktSize, count, answers)
    }

    ghost predicate AllocatedFrom(endpoints: seq<Endpoint>, history: History, gone: bool,
                                  e: nat, pkts: nat, pktSize: nat, count: nat, answers: Answers)
      requires e < |endpoints|
      reads this, link
    {
      match AllocAnswer(e, count, answers)
      case Done => StreamFrom(endpoints, history, e, pkts, pktSize, count) && link.disconnected == gone
      case NoSuchDevice => link.disconnected
      case Failed => CancelledFrom(endpoints, history, e) && link.disconnected == gone
    }

    // The endpoint has a stream of these dimensions, submitted at once if it goes to the host, and the other
    // endpoints are as before.
    ghost predicate StreamFrom(endpoints: seq<Endpoint>, history: History, e: nat, pkts: nat, pktSize: nat, count: nat)
      requires e < |endpoints|
      reads this, link
    {
      && |endpoint| == |endpoints| && link.history == history
      && (forall f | 0 <= f < |endpoint| && f != e :: endpoint[f] == endpoints[f])
      && endpoint[e].kind == endpoints[e].kind && endpoint[e].maxPacketSize == endpoints[e].maxPacketSize
      && HasStream(endpoint[e], heap, e, pkts, count, pktSize * pkts, IsIn(e))
    }

    // ----- completions of stream transfers -----

    // Cancels a stalled stream and starts it again with the same dimensions.
    method ClearStreamStall(e: nat, answers: Answers) returns (report: Report)
      requires Core() && e < MAX_ENDPOINTS && endpoint[e].transferCount > 0
      modifies this`endpoint, this`heap, this`cancelsPending, this`flight, this`next, this`reset, link
      ensures Core() && LinkKept() && OthersKept(e)
      ensures StallHandled(e, answers)
    {
      hide Books, AfterCancel, Shaped, AllShaped, Running, RunningBut, HasStream, Idle, HeapKept;
      DimensionsOf(endpoint, e);
      KeptAfterCancel(heap, e);
      FirstTransfer(endpoint, heap, flight, cancelsPending, next, e);
      IdleTwice(endpoint, e);
      WeakerRunning(endpoint, heap, e);
      var pktsPerTransfer := endpoint[e].pktsPerTransfer;
      var transferCount := endpoint[e].transferCount;
      var pktSize := heap[endpoint[e].slot[0].value].length / pktsPerTransfer;
      CancelStream(e);
      if !answers.cleared {
        return Told(RedirStall);
      }
      ghost var cancelled := heap;
      report := AllocStream(e, endpoint[e].kind, pktsPerTransfer, pktSize, transferCount, false, answers);
      KeptTwice(old(heap), cancelled, heap, e);
    }

    // What a stall leads to: the stream is gone if the halt is not cleared or there is no starting it again, and else
    // there is a new one of the same dimensions, if its submissions are accepted.
    twostate predicate StallHandled(e: nat, answers: Answers)
      requires e < |old(endpoint)|
      reads this, link
    {
      StalledFrom(old(endpoint), StreamPacketSize(old(endpoint), old(heap), e), old(link.history), old(link.disconnected),
                  e, answers)
    }

    ghost predicate StalledFrom(endpoints: seq<Endpoint>, pktSize: nat, history: History, gone: bool,
                                e: nat, answers: Answers)
      requires e < |endpoints|
      reads this, link
    {
      var max := endpoints[e].maxPacketSize;
      if !answers.cleared || gone || max == 0 || pktSize % max != 0
      then CancelledFrom(endpoints, history, e) && link.disconnected == gone
      else AllocatedFrom(endpoints, history, gone, e, endpoints[e].pktsPerTransfer, pktSize, endpoints[e].transferCount,
                         answers)
    }

    // 0: all well; 1: the packet is lost, the stream goes on; 2: the stream is at an end or was restarted.
    method HandleIsoStatus(e: nat, r: TransferStatus, answers: Answers) returns (code: nat)
      requires Core() && e < MAX_ENDPOINTS && endpoint[e].transferCount > 0
      modifies this`endpoint, this`heap, this`cancelsPending, this`flight, this`next, this`reset, link
      ensures Core() && LinkKept() && OthersKept(e) && code <= 2
      ensures r == Completed <==> code == 0
      ensures r in {Cancelled, Stalled, NoDevice} <==> code == 2
      ensures code < 2 ==> endpoint == old(endpoint) && heap == old(heap) && flight == old(flight)
      ensures code < 2 ==> link.history == old(link.history) && link.disconnected == old(link.disconnected)
      ensures r != Stalled ==> endpoint == old(endpoint) && heap == old(heap) && flight == old(flight)
      ensures r == NoDevice ==> link.disconnected
      ensures r == Stalled ==> StallHandled(e, answers)
    {
      hide Books, AfterCancel, Shaped, AllShaped, Running, HasStream, StalledFrom;
      SizeOfEndpoints(endpoint);
      match r
      case Completed => return 0;
      case Cancelled => return 2;
      case Stalled =>
        var report := ClearStreamStall(e, answers);
        return 2;
      case NoDevice =>
        link.HandleDisconnect();
        return 2;
      case _ => return 1;
    }

    // libusb has given back a cancelled transfer, whose slot may be in use again.
    method CancelCompletes(h: nat)
      requires Core() && h in heap && heap[h].cancelled
      modifies this`heap, this`cancelsPending, this`flight
      ensures Core() && heap == old(heap) - {h} && flight == old(flight) - {h}
      ensures cancelsPending == old(cancelsPending) - 1 >= 0
    {
      hide Books, AllShaped, Running;
      CancelDone(endpoint, heap, flight, cancelsPending, next, h);
      RunningWithout(endpoint, heap, h);
      cancelsPending := cancelsPending - 1;
      heap := heap - {h};
      flight := flight - {h};
    }

    // Marks a transfer as not submitted: it has completed or is being filled.
    method MarkIdle(h: nat, idx: nat)
      requires Core() && h in heap && !heap[h].cancelled
      modifies this`heap, this`flight
      ensures Core() && heap == old(heap[h := heap[h].(packetIdx := idx)]) && flight == old(flight) - {h}
    {
      hide Books, AllShaped, Running;
      Reindex(endpoint, heap, flight, cancelsPending, next, h, idx);
      if !link.disconnected {
        RunningReindex(endpoint, heap, flight, cancelsPending, next, h, idx);
      }
      heap := heap[h := heap[h].(packetIdx := idx)];
      flight := flight - {h};
    }

    // The transfer is with libusb again; or the device is gone, or the stream.
    twostate predicate Resubmitted(e: nat, h: nat, answer: Answer)
      requires e < |old(endpoint)| && h in old(heap)
      reads this, link
    {
      match answer
      case Done =>
        endpoint == old(endpoint) && heap == Reindexed(old(heap), h, SUBMITTED_IDX) && flight == old(flight) + {h} &&
        link.history == old(link.history) && link.disconnected == old(link.disconnected)
      case NoSuchDevice => link.disconnected && endpoint == old(endpoint) && heap == old(heap)
      case Failed => StreamCancelled(e) && link.disconnected == old(link.disconnected)
    }

    // Submits a completed transfer of a running stream again.
    method Resubmit(h: nat, answer: Answer)
      requires Core() && h in heap && !heap[h].cancelled && heap[h].packetIdx != SUBMITTED_IDX
      requires heap[h].ep < |endpoint| && (link.disconnected || endpoint[heap[h].ep].streamStarted)
      modifies this`endpoint, this`heap, this`cancelsPending, this`flight, this`reset, link
      ensures Core() && LinkKept() && OthersKept(old(heap[h].ep))
      ensures Resubmitted(old(heap[h].ep), h, answer)
    {
      hide Books, AllShaped, Running, RunningBut, AfterCancel, Idle;
      if !link.disconnected {
        WeakerRunning(endpoint, heap, heap[h].ep);
        RunningReindex(endpoint, heap, flight, cancelsPending, next, h, SUBMITTED_IDX);
      }
      var ok := SubmitStreamTransfer(h, answer);
    }

    // No transfer of the endpoint is submitted.
    method Underflowed(e: nat) returns (none: bool)
      requires Core() && e < MAX_ENDPOINTS
      ensures none <==> Quiet(endpoint, heap, e)
    {
      hide Books, Running;
      HeldInHeap(endpoint, heap, flight, cancelsPending, next);
      var count := endpoint[e].transferCount;
      for i := 0 to count
        invariant forall k: nat | k < i :: !Submitted(endpoint, heap, e, k)
      {
        assert Shaped(endpoint[e]);
        assert Holds(endpoint, e, i, endpoint[e].slot[i].value);
        if heap[endpoint[e].slot[i].value].packetIdx == SUBMITTED_IDX {
          assert Submitted(endpoint, heap, e, i);
          return false;
        }
      }
      return true;
    }

    // All transfers of the endpoint are to be filled again before the stream restarts.
    method Refill(e: nat)
      requires Core() && e < MAX_ENDPOINTS && endpoint[e].transferCount > 0 && Quiet(endpoint, heap, e)
      modifies this`endpoint, this`heap, this`flight
      ensures Core() && flight == old(flight)
      ensures endpoint == old(endpoint)[e := old(endpoint)[e].(outIdx := 0, streamStarted := false, dropPackets := 0)]
      ensures heap.Keys == old(heap).Keys
      ensures forall h | h in heap :: heap[h] == if Taken(endpoint, e, endpoint[e].transferCount, h)
                                                 then old(heap)[h].(packetIdx := 0) else old(heap)[h]
      ensures Refilled(old(endpoint), old(heap), heap, e) && HeapKept(old(heap), heap, e)
    {
      hide Books, Running, AllShaped, HeapKept, SlotsSound;
      ghost var transfers := heap;
      SizeOfEndpoints(endpoint);
      var count := endpoint[e].transferCount;
      for i := 0 to count
        invariant Core() && endpoint == old(endpoint) && flight == old(flight) && Quiet(endpoint, heap, e)
        invariant RefilledUpTo(endpoint, transfers, heap, e, i)
      {
        RefillStep(endpoint, transfers, heap, flight, cancelsPending, next, e, i);
        MarkIdle(endpoint[e].slot[i].value, 0);
      }
      BooksSound(endpoint, heap, flight, cancelsPending, next);
      KeptRefilled(endpoint, transfers, heap, e, count);
      RefillEnd(endpoint, heap, flight, cancelsPending, next, e);
      endpoint := endpoint[e := endpoint[e].(outIdx := 0, streamStarted := false, dropPackets := 0)];
    }

    // What the statuses of a completed transfer lead to. A transfer for input is submitted again unless the device or
    // the stream is gone; one for output waits to be filled, as the ring says.
    twostate predicate IsoCompleted(e: nat, h: nat, verdict: TransferStatus, answers: Answers)
      requires e < |old(endpoint)| && e < |endpoint| && h in old(heap)
      reads this, link
    {
      if verdict == Stalled then StallHandled(e, answers)
      else if IsIn(e) && verdict == Completed then SubmittedAgain(e, h, answers.At(0))
      else
        (verdict == NoDevice ==> link.disconnected) &&
        if IsIn(e) then endpoint == old(endpoint) && heap == Reindexed(old(heap), h, 0)
        else OldestCompleted(old(endpoint)[e], old(heap), h, if verdict == Completed then IsoOut.Fine else IsoOut.Lost,
                             endpoint[e], heap)
    }

    // A completed transfer is with libusb as before, if the submission is accepted.
    twostate predicate SubmittedAgain(e: nat, h: nat, answer: Answer)
      requires e < |old(endpoint)| && h in old(heap)
      reads this, link
    {
      match answer
      case Done => endpoint == old(endpoint) && heap == old(heap) && flight == old(flight) &&
                       link.disconnected == old(link.disconnected) && link.history == old(link.history)
      case NoSuchDevice => link.disconnected && endpoint == old(endpoint) && heap == Reindexed(old(heap), h, 0)
      case Failed => StreamCancelled(e) && link.disconnected == old(link.disconnected)
    }

    // The statuses of the packets of a transfer; ended: there is no more to do for it.
    method CheckPackets(e: nat, each: seq<TransferStatus>, answers: Answers) returns (ended: bool)
      requires Core() && e < MAX_ENDPOINTS && endpoint[e].transferCount > 0
      modifies this`endpoint, this`heap, this`cancelsPending, this`flight, this`next, this`reset, link
      ensures Core() && LinkKept() && OthersKept(e) && |endpoint| == MAX_ENDPOINTS
      ensures var bad := FirstBad(each, IsIn(e), 0, old(endpoint[e].pktsPerTransfer));
              (ended <==> bad != Completed) && (bad == NoDevice ==> link.disconnected) &&
              if bad == Stalled then StallHandled(e, answers)
              else endpoint == old(endpoint) && heap == old(heap) && flight == old(flight)
      ensures !ended ==> link.history == old(link.history) && link.disconnected == old(link.disconnected)
    {
      hide Books, AllShaped, Running, HeapKept, StalledFrom;
      SizeOfEndpoints(endpoint);
      KeptSame(heap, e);
      var pkts := endpoint[e].pktsPerTransfer;
      for i := 0 to pkts
        invariant Core() && LinkKept() && endpoint == old(endpoint) && heap == old(heap) && flight == old(flight)
        invariant link.history == old(link.history) && link.disconnected == old(link.disconnected)
        invariant FirstBad(each, IsIn(e), i, pkts) == FirstBad(each, IsIn(e), 0, pkts)
      {
        var status := StatusAt(each, i);
        var redirStatus := ToRedirStatus(Transferred(status), link);
        assert status != NoDevice ==> link.history == old(link.history);
        var code := HandleIsoStatus(e, status, answers);
        if code == 2 || (code == 1 && !IsIn(e)) {
          return true;
        }
      }
      return false;
    }

    // An isochronous transfer completes, with a status for the whole and one for each packet.
    method IsoPacketComplete(h: nat, overall: TransferStatus, each: seq<TransferStatus>, answers: Answers)
      requires Core() && h in flight
      modifies this`endpoint, this`heap, this`cancelsPending, this`flight, this`next, this`reset, link
      ensures Core() && LinkKept() && old(h in heap) && OthersKept(old(heap[h].ep))
      ensures old(h in heap && heap[h].cancelled) ==>
                endpoint == old(endpoint) && heap == old(heap) - {h} && flight == old(flight) - {h} &&
                cancelsPending == old(cancelsPending) - 1 && link.history == old(link.history)
      ensures |old(endpoint)| == |endpoint| == MAX_ENDPOINTS && old(heap[h].ep) < MAX_ENDPOINTS
      ensures !old(heap[h].cancelled) ==>
                IsoCompleted(old(heap[h].ep), h,
                             Verdict(overall, each, IsIn(old(heap[h].ep)), old(endpoint[heap[h].ep].pktsPerTransfer)), answers)
      ensures !old(heap[h].cancelled) && IsIn(old(heap[h].ep)) && answers.At(0) == Done &&
              GoesOn(overall, each, old(endpoint[heap[h].ep].pktsPerTransfer)) ==>
                endpoint == old(endpoint) && heap == old(heap) && flight == old(flight)
    {
      hide Books, AllShaped, Running, Quiet, Idle, AfterCancel, OldestCompleted, StalledFrom, HeapKept, StreamPacketSize,
        Refilled, FirstBad;
      SubmittedRuns(endpoint, heap, flight, cancelsPending, next, h);
      KnownTransfer(endpoint, heap, flight, cancelsPending, next, h);
      KeptReindexed(heap, h, 0);
      KeptWithout(heap, h);
      if heap[h].cancelled {
        CancelCompletes(h);
        return;
      }
      var ep := heap[h].ep;
      if GoesOn(overall, each, endpoint[ep].pktsPerTransfer) {
        NoneIsBad(each, 0, endpoint[ep].pktsPerTransfer);
      }
      OldestReturns(endpoint, heap, flight, cancelsPending, next, ep, h);
      SamePacketSize(endpoint, heap, ep, h, 0);
      MarkIdle(h, 0);
      ghost var returned := heap;
      CheckTransfer(ep, h, overall, each, answers);
      KeptTwice(old(heap), returned, heap, ep);
    }

    // What the statuses lead to once the transfer is marked as not submitted.
    twostate predicate Checked(e: nat, h: nat, verdict: TransferStatus, answers: Answers)
      requires e < |old(endpoint)| && e < |endpoint| && h in old(heap)
      reads this, link
    {
      if verdict == Stalled then StallHandled(e, answers)
      else if verdict == Completed then Finished(e, h, answers.At(0))
      else endpoint == old(endpoint) && heap == old(heap) && (verdict == NoDevice ==> link.disconnected)
    }

    twostate predicate Finished(e: nat, h: nat, answer: Answer)
      requires e < |old(endpoint)| && e < |endpoint| && h in old(heap)
      reads this, link
    {
      if IsIn(e) then Resubmitted(e, h, answer)
      else if Quiet(old(endpoint), old(heap), e)
      then Refilled(old(endpoint), old(heap), heap, e) && endpoint == old(endpoint)[e := Rewound(old(endpoint)[e])]
      else endpoint == old(endpoint) && heap == old(heap)
    }

    // Looks at the status of the whole, then at those of the packets.
    method CheckTransfer(e: nat, h: nat, overall: TransferStatus, each: seq<TransferStatus>, answers: Answers)
      requires Core() && e < MAX_ENDPOINTS && endpoint[e].transferCount > 0
      requires h in heap && heap[h].ep == e && !heap[h].cancelled && heap[h].packetIdx != SUBMITTED_IDX
      requires link.disconnected || endpoint[e].streamStarted
      modifies this`endpoint, this`heap, this`cancelsPending, this`flight, this`next, this`reset, link
      ensures Core() && LinkKept() && OthersKept(e) && |endpoint| == |old(endpoint)| == MAX_ENDPOINTS
      ensures Checked(e, h, Verdict(overall, each, IsIn(e), old(endpoint[e].pktsPerTransfer)), answers)
    {
      hide Books, AllShaped, Running, Quiet, Idle, AfterCancel, StalledFrom, HeapKept, StreamPacketSize, Refilled, FirstBad;
      SizeOfEndpoints(endpoint);
      KeptSame(heap, e);
      var code := HandleIsoStatus(e, overall, answers);
      if code == 2 || (code == 1 && !IsIn(e)) {
        return;
      }
      if code == 0 {
        var ended := CheckPackets(e, each, answers);
        if ended {
          return;
        }
      }
      FinishTransfer(e, h, answers.At(0));
    }

    // An input transfer is submitted again; after the last submitted output transfer all are to be filled again.
    method FinishTransfer(e: nat, h: nat, answer: Answer)
      requires Core() && e < MAX_ENDPOINTS && endpoint[e].transferCount > 0
      requires h in heap && heap[h].ep == e && !heap[h].cancelled && heap[h].packetIdx != SUBMITTED_IDX
      requires link.disconnected || endpoint[e].streamStarted
      modifies this`endpoint, this`heap, this`cancelsPending, this`flight, this`reset, link
      ensures Core() && LinkKept() && OthersKept(e) && |endpoint| == |old(endpoint)| == MAX_ENDPOINTS
      ensures Finished(e, h, answer)
    {
      hide Books, AllShaped, Running, Quiet, HeapKept, Refilled;
      SizeOfEndpoints(endpoint);
      KeptSame(heap, e);
      if IsIn(e) {
        Resubmit(h, answer);
      } else {
        var none := Underflowed(e);
        if none {
          Refill(e);
        }
      }
    }

    // A bulk or interrupt stream transfer completes.
    method BufferedPacketComplete(h: nat, status: TransferStatus, answers: Answers)
      requires Core() && h in flight
      modifies this`endpoint, this`heap, this`cancelsPending, this`flight, this`next, this`reset, link
      ensures Core() && LinkKept() && old(h in heap) && OthersKept(old(heap[h].ep))
      ensures old(h in heap && heap[h].cancelled) ==>
                endpoint == old(endpoint) && heap == old(heap) - {h} && flight == old(flight) - {h} &&
                cancelsPending == old(cancelsPending) - 1 && link.history == old(link.history)
      ensures old(heap[h].ep) < |old(endpoint)|
      ensures !old(heap[h].cancelled) ==> BufferedCompleted(old(heap[h].ep), h, status, answers)
      ensures !old(heap[h].cancelled) && status !in {Stalled, NoDevice} && answers.At(0) == Done ==>
                endpoint == old(endpoint) && heap == old(heap) && flight == old(flight)
    {
      hide Books, AllShaped, Running, Quiet, Idle, AfterCancel, StalledFrom, HeapKept, StreamPacketSize;
      SubmittedRuns(endpoint, heap, flight, cancelsPending, next, h);
      KnownTransfer(endpoint, heap, flight, cancelsPending, next, h);
      KeptReindexed(heap, h, 0);
      KeptWithout(heap, h);
      if heap[h].cancelled {
        CancelCompletes(h);
        return;
      }
      var ep := heap[h].ep;
      SamePacketSize(endpoint, heap, ep, h, 0);
      MarkIdle(h, 0);
      ghost var returned := heap;
      if status == Stalled {
        var report := ClearStreamStall(ep, answers);
        KeptTwice(old(heap), returned, heap, ep);
        return;
      }
      if status == NoDevice {
        link.HandleDisconnect();
        return;
      }
      assert old(heap) == Reindexed(heap, h, SUBMITTED_IDX);
      Resubmit(h, answers.At(0));
      KeptTwice(old(heap), returned, heap, ep);
    }

    // What the status of a completed transfer leads to.
    twostate predicate BufferedCompleted(e: nat, h: nat, status: TransferStatus, answers: Answers)
      requires e < |old(endpoint)| && h in old(heap)
      reads this, link
    {
      if status == Stalled then StallHandled(e, answers)
      else if status == NoDevice then link.disconnected && endpoint == old(endpoint) && heap == Reindexed(old(heap), h, 0)
      else SubmittedAgain(e, h, answers.At(0))
    }

    // ----- packets for isochronous output -----

    // What is wrong with a packet, if anything.
    function IsoObjection(e: nat, dataLen: nat): Report
      requires e < |endpoint|
      reads this, link
    {
      if link.disconnected then Told(RedirIoError)
      else if endpoint[e].kind != TypeIso || endpoint[e].transferCount == 0 || dataLen > endpoint[e].maxPacketSize
      then Told(RedirInval)
      else Silent
    }

    // The endpoint has taken a packet as its ring does; or the packet caused something to be submitted and that was
    // refused, so that the device or the stream is gone.
    twostate predicate TakesPacket(e: nat, answers: Answers)
      requires e < |old(endpoint)| && e < |endpoint|
      reads this, link
    {
      PacketTaken(old(endpoint)[e], old(heap), endpoint[e], heap) ||
      (PacketMayEnd(old(endpoint)[e], old(heap)) && EndedBy(e, answers.First(0, ALL_GO)))
    }

    // How a refused submission ends a stream.
    twostate predicate EndedBy(e: nat, answer: Answer)
      requires e < |old(endpoint)|
      reads this, link
    {
      match answer
      case Done => false
      case NoSuchDevice => link.disconnected
      case Failed => StreamCancelled(e)
    }

    // A packet is put in transfer h, at the position, which may move on.
    method StorePacket(e: nat, h: nat)
      requires Core() && e < MAX_ENDPOINTS && StoresIn(endpoint, heap, e, h) && !heap[h].cancelled
      modifies this`endpoint, this`heap, this`flight
      ensures Core() && heap == old(Reindexed(heap, h, heap[h].packetIdx + 1))
      ensures endpoint == old(endpoint[e := Advanced(endpoint[e], heap[h].packetIdx + 1 == endpoint[e].pktsPerTransfer)])
    {
      hide Books, AllShaped, Running, SlotsSound;
      var i, j := endpoint[e].outIdx, heap[h].packetIdx + 1;
      MarkIdle(h, j);
      if j == endpoint[e].pktsPerTransfer {
        i := (i + 1) % endpoint[e].transferCount;
        Adjust(endpoint, heap, flight, cancelsPending, next, e, i, endpoint[e].dropPackets);
        endpoint := endpoint[e := endpoint[e].(outIdx := i)];
      }
    }

    lemma RefusalIsFirst(answers: Answers, n: nat)
      requires n <= ALL_GO
      ensures answers.First(0, n) != Done ==> answers.First(0, ALL_GO) == answers.First(0, n)
      ensures n == 1 ==> answers.First(0, 1) == answers.At(0)
    {
      if answers.First(0, n) != Done {
        FirstOfMore(answers, 0, n, ALL_GO);
      }
    }

    // After a packet was put in transfer h: the transfer is submitted if it is full, or the stream is started if half
    // of its buffers are.
    method SubmitOrStart(e: nat, h: nat, answers: Answers, ghost endpoints: seq<Endpoint>, ghost transfers: Heap)
      requires Core() && e < MAX_ENDPOINTS == |endpoint| && !link.disconnected && endpoint[e].transferCount > 0
      requires StoresIn(endpoints, transfers, e, h) && heap == Reindexed(transfers, h, transfers[h].packetIdx + 1)
      requires endpoint[e] == Advanced(endpoints[e], transfers[h].packetIdx + 1 == endpoints[e].pktsPerTransfer)
      requires !heap[h].cancelled && heap[h].ep == e
      modifies this`endpoint, this`heap, this`cancelsPending, this`flight, this`reset, link
      ensures Core() && LinkKept() && OthersKept(e) && e < |endpoints|
      ensures !IsIn(e) ==> PacketTaken(endpoints[e], transfers, endpoint[e], heap) ||
                           (PacketMayEnd(endpoints[e], transfers) && EndedBy(e, answers.First(0, ALL_GO)))
    {
      hide Books, AllShaped, Running, Quiet, Idle, AfterCancel, SubmittedUpTo, RunningBut, StoresIn, SlotsSound, InSlot,
        PacketTaken, PacketMayEnd, HeapKept;
      RefusalIsFirst(answers, 1);
      DimensionsOf(endpoint, e);
      RefusalIsFirst(answers, endpoint[e].transferCount / 2);
      KeptSame(heap, e);
      UsedEndpoint(endpoints, transfers, e, h);
      var pkts, count := endpoint[e].pktsPerTransfer, endpoint[e].transferCount;
      var j := heap[h].packetIdx;
      if endpoint[e].streamStarted {
        TakenByStarted(endpoints, transfers, e, h);
        if j == pkts {
          Resubmit(h, answers.At(0));
        }
      } else {
        TakenByFilling(endpoints, transfers, e, h);
        var available := endpoint[e].outIdx * pkts + if j == pkts then 0 else j;
        var needed := pkts * count / 2;
        if available == needed {
          NotStartedIsQuiet(endpoint, heap, e);
          WeakerRunning(endpoint, heap, e);
          BooksSound(endpoint, heap, flight, cancelsPending, next);
          var ok := StartStream(e, answers);
          if ok && !IsIn(e) {
            TakenByStart(endpoints, transfers, old(endpoint), heap, e, h);
          }
        }
      }
    }

    method IsoPacket(e: nat, dataLen: nat, answers: Answers) returns (report: Report)
      requires Core() && e < MAX_ENDPOINTS
      modifies this`endpoint, this`heap, this`cancelsPending, this`flight, this`reset, link
      ensures Core() && LinkKept() && OthersKept(e) && report == old(IsoObjection(e, dataLen))
      ensures report != Silent ==> endpoint == old(endpoint) && heap == old(heap)
      ensures report == Silent && old(endpoint[e].dropPackets) > 0 ==>
                heap == old(heap) && endpoint == old(endpoint[e := endpoint[e].(dropPackets := endpoint[e].dropPackets - 1)])
      ensures |endpoint| == |old(endpoint)| == MAX_ENDPOINTS && (report == Silent && !IsIn(e) ==> TakesPacket(e, answers))
    {
      hide Books, AllShaped, Running, Idle, StoresIn, InSlot, PacketTaken, PacketMayEnd;
      SizeOfEndpoints(endpoint);
      if link.disconnected {
        return Told(RedirIoError);
      }
      if endpoint[e].kind != TypeIso || endpoint[e].transferCount == 0 || dataLen > endpoint[e].maxPacketSize {
        return Told(RedirInval);
      }
      report := Silent;
      CurrentTransfer(endpoint, heap, flight, cancelsPending, next, e);
      StoresHere(endpoint, heap, flight, cancelsPending, next, e);
      var i, dropPackets := endpoint[e].outIdx, endpoint[e].dropPackets;
      if dropPackets > 0 {
        Drops(endpoint[e], heap);
        Adjust(endpoint, heap, flight, cancelsPending, next, e, i, dropPackets - 1);
        endpoint := endpoint[e := endpoint[e].(dropPackets := dropPackets - 1)];
        return;
      }
      var h := endpoint[e].slot[i].value;
      if heap[h].packetIdx == SUBMITTED_IDX {
        Overflows(endpoint[e], heap);
        dropPackets := endpoint[e].pktsPerTransfer * endpoint[e].transferCount / 2;
        Adjust(endpoint, heap, flight, cancelsPending, next, e, i, dropPackets);
        endpoint := endpoint[e := endpoint[e].(dropPackets := dropPackets)];
        return;
      }
      StorePacket(e, h);
      IdleOfAdvanced(old(endpoint)[e]);
      SubmitOrStart(e, h, answers, old(endpoint), old(heap));
    }

    // ----- giving up everything -----

    // Cancels every stream and asks for all outstanding packets back; wait: something is still to complete.
    method CancelPendingUrbs() returns (wait: bool)
      requires Core()
      modifies this`endpoint, this`heap, this`cancelsPending
      ensures Core() && NoStreams()
      ensures wait <==> flight != {} || packets.transfers != []
      ensures flight == heap.Keys && heap.Keys <= old(heap).Keys
    {
      hide Books, Running, AfterCancel;
      for i := 0 to MAX_ENDPOINTS
        invariant Core() && forall e | 0 <= e < i :: endpoint[e].transferCount == 0
        invariant heap.Keys <= old(heap).Keys
      {
        if !link.disconnected {
          WeakerRunning(endpoint, heap, i);
        }
        AfterCancelKeys(heap, i);
        CancelStream(i);
      }
      NothingInFlight(endpoint, heap, flight, cancelsPending, next);
      wait := cancelsPending != 0;
      if packets.transfers != [] {
        wait := true;
      }
    }

    // Handles events until nothing is pending. libusb completes at least one transfer at a time.
    method WaitForCancelCompletion()
      requires Core() && NoStreams() && packets.Valid()
      modifies this`heap, this`cancelsPending, this`flight, packets, link
      ensures Core() && NoStreams() && packets.Valid() && LinkKept()
      ensures flight == {} && heap == map[] && packets.transfers == [] && cancelsPending == 0
      ensures packets.requests == old(packets.requests)
    {
      hide Books, Running, AllShaped;
      NothingInFlight(endpoint, heap, flight, cancelsPending, next);
      while cancelsPending != 0 || packets.transfers != []
        invariant Core() && NoStreams() && packets.Valid() && LinkKept()
        invariant flight == heap.Keys && cancelsPending == |flight|
        invariant forall h | h in heap :: heap[h].cancelled
        invariant packets.requests == old(packets.requests)
        decreases |flight| + |packets.transfers|
      {
        var packetFirst := *;
        if packets.transfers != [] && (packetFirst || cancelsPending == 0) {
          var i :| 0 <= i < |packets.transfers|;
          var outcome: TransferStatus := *;
          var length :| 0 <= length;
          packets.Complete(i, Transferred(outcome), length, link);
        } else {
          var h :| h in heap;
          CancelCompletes(h);
        }
        NothingInFlight(endpoint, heap, flight, cancelsPending, next);
      }
    }

    // Lets go of the device: cancels everything, waits for it, and tells the guest.
    method ClearDevice()
      requires Valid()
      modifies this, packets, link
      ensures Valid() && !link.hasDevice && link.disconnected && !link.connectPending && NoStreams()
      ensures flight == {} && heap == map[] && packets.transfers == [] && packets.requests == old(packets.requests)
      ensures link.havePeerCaps == old(link.havePeerCaps) && reset == old(reset)
    {
      hide Books, Running, AllShaped;
      if !link.hasDevice {
        EmptyHost(endpoint, heap, flight, cancelsPending, next);
        return;
      }
      var wait := CancelPendingUrbs();
      if wait {
        WaitForCancelCompletion();
      }
      link.DropDevice();
      EmptyHost(endpoint, heap, flight, cancelsPending, next);
    }

    // ----- the device comes and goes -----

    // Resets the device, unless it is one that must not be; if that fails it is let go.
    method ResetDevice(exempt: bool, works: bool) returns (ok: bool)
      requires Valid() && NoStreams() && flight == {}
      modifies this, packets, link
      ensures Valid() && packets.requests == old(packets.requests) && link.havePeerCaps == old(link.havePeerCaps)
      ensures NoStreams() && flight == {}
      ensures ok ==> link.hasDevice == old(link.hasDevice) && link.history == old(link.history)
      ensures ok ==> link.disconnected == old(link.disconnected) && link.connectPending == old(link.connectPending)
      ensures ok ==> endpoint == old(endpoint) && heap == old(heap) && packets.transfers == old(packets.transfers)
      ensures !ok ==> !link.hasDevice && link.disconnected && heap == map[] && packets.transfers == []
      ensures !ok ==> !link.connectPending && reset == old(reset)
      ensures ok <==> exempt || works
      ensures ok ==> reset == (old(reset) || !exempt)
    {
      if exempt {
        return true;
      }
      ok := works;
      if !ok {
        ClearDevice();
        return;
      }
      reset := true;
    }

    // The types and packet sizes that descriptors give.
    ghost predicate HasKinds(kinds: seq<(EndpointType, nat)>)
      reads this
    {
      |endpoint| == |kinds| == MAX_ENDPOINTS && forall e | 0 <= e < MAX_ENDPOINTS ::
        endpoint[e].kind == kinds[e].0 && endpoint[e].maxPacketSize == kinds[e].1
    }

    // Descriptors are read: an endpoint's type and size change, its stream does not.
    method ParseEndpoint(e: nat, kind: EndpointType, maxPacketSize: nat)
      requires Core() && e < MAX_ENDPOINTS
      modifies this`endpoint
      ensures Core() && (old(NoStreams()) ==> NoStreams())
      ensures endpoint == old(endpoint[e := endpoint[e].(kind := kind, maxPacketSize := maxPacketSize)])
    {
      SameStreams(endpoint, heap, flight, cancelsPending, next, e, kind, maxPacketSize);
      hide Books, Running, AllShaped;
      endpoint := endpoint[e := endpoint[e].(kind := kind, maxPacketSize := maxPacketSize)];
    }

    method ParseConfig(kinds: seq<(EndpointType, nat)>)
      requires Core() && |kinds| == MAX_ENDPOINTS
      modifies this`endpoint
      ensures Core() && HasKinds(kinds) && (old(NoStreams()) ==> NoStreams())
      ensures |endpoint| == |old(endpoint)|
      ensures forall e | 0 <= e < MAX_ENDPOINTS ::
                endpoint[e] == old(endpoint)[e].(kind := kinds[e].0, maxPacketSize := kinds[e].1)
    {
      hide Books, Running, AllShaped;
      SizeOfEndpoints(endpoint);
      for e := 0 to MAX_ENDPOINTS
        invariant Core() && |endpoint| == MAX_ENDPOINTS && (old(NoStreams()) ==> NoStreams())
        invariant forall f | 0 <= f < MAX_ENDPOINTS ::
                    endpoint[f] == if f < e then old(endpoint)[f].(kind := kinds[f].0, maxPacketSize := kinds[f].1)
                                   else old(endpoint)[f]
      {
        ParseEndpoint(e, kinds[e].0, kinds[e].1);
      }
    }

    // Takes and claims a device, and resets it, as guests do first of all.
    method PrepareDevice(kinds: seq<(EndpointType, nat)>, claimed: bool, exempt: bool, works: bool) returns (ok: bool)
      requires Valid() && !link.hasDevice && NoStreams() && flight == {} && |kinds| == MAX_ENDPOINTS
      modifies this, packets, link
      ensures Valid() && NoStreams() && heap == map[] && packets.requests == old(packets.requests)
      ensures link.havePeerCaps == old(link.havePeerCaps) && link.disconnected && !link.connectPending
      ensures link.hasDevice == ok && (ok ==> HasKinds(kinds)) && (ok <==> claimed && (exempt || works))
    {
      hide Books, Running, AllShaped;
      link.TakeDevice();
      if !claimed {
        ClearDevice();
        return false;
      }
      ParseConfig(kinds);
      ok := ResetDevice(exempt, works);
    }

    // Takes a new device, if there is one, in place of the old; kinds is what its descriptors say.
    method SetDevice(hasHandle: bool, kinds: seq<(EndpointType, nat)>, claimed: bool, exempt: bool, works: bool)
      returns (ok: bool)
      requires Valid() && |kinds| == MAX_ENDPOINTS
      modifies this, packets, link
      ensures Valid() && NoStreams() && packets.requests == old(packets.requests)
      ensures link.hasDevice ==> hasHandle && HasKinds(kinds)
      ensures !link.hasDevice ==> link.disconnected
      ensures link.hasDevice && link.havePeerCaps && !link.waitDisconnect ==> !link.disconnected
      ensures link.hasDevice <==> hasHandle && ok
      ensures ok <==> !hasHandle || (claimed && (exempt || works))
    {
      hide Books, Running, AllShaped;
      ClearDevice();
      if !hasHandle {
        return true;
      }
      ok := PrepareDevice(kinds, claimed, exempt, works);
      if !ok {
        return;
      }
      IdleRuns(endpoint, heap);
      link.SendDeviceConnect();
    }

    // The guest asks for a reset. Its streams end, and what it has outstanding is completed first. If nothing was
    // submitted since the last reset there is nothing to do.
    method Reset(exempt: bool, works: bool) returns (done: bool)
      requires Valid()
      modifies this, packets, link
      ensures Valid() && packets.requests == old(packets.requests)
      ensures done <==> !old(link.disconnected) && !old(reset)
      ensures done ==> NoStreams() && flight == {} && heap == map[] && packets.transfers == []
      ensures done ==> link.hasDevice == (exempt || works) && reset == (works && !exempt)
      ensures !done ==> endpoint == old(endpoint) && heap == old(heap) && link.history == old(link.history)
      ensures !done ==> reset == old(reset) && packets.transfers == old(packets.transfers)
    {
      hide Books, Running, AllShaped;
      if link.disconnected || reset {
        return false;
      }
      var wait := CancelPendingUrbs();
      if wait {
        WaitForCancelCompletion();
      }
      assert heap.Keys == {};
      var ok := ResetDevice(exempt, works);
      return true;
    }

    // Streams end; if the device cannot be claimed again it is let go. The guest is told the status.
    method SetConfiguration(kinds: seq<(EndpointType, nat)>, sameAsNow: bool, answers: Reconfiguring)
      returns (status: RedirStatus)
      requires Valid() && |kinds| == MAX_ENDPOINTS
      modifies this, packets, link
      ensures Valid() && packets.requests == old(packets.requests)
      ensures var nothing := old(link.disconnected) || sameAsNow;
              if nothing
              then status == (if old(link.disconnected) then RedirIoError else RedirSuccess) &&
                   endpoint == old(endpoint) && heap == old(heap) && link.history == old(link.history)
              else NoStreams() && !reset && link.hasDevice == answers.claimed && (answers.claimed ==> HasKinds(kinds)) &&
                   status == if answers.configured && answers.claimed then RedirSuccess else RedirIoError
    {
      hide Books, Running, AllShaped;
      status := RedirSuccess;
      if link.disconnected {
        return RedirIoError;
      }
      if sameAsNow {
        return;
      }
      reset := false;
      var wait := CancelPendingUrbs();
      if !answers.configured {
        status := RedirIoError;
      }
      if !answers.claimed {
        if answers.gone {
          link.HandleDisconnect();
        }
        ClearDevice();
        return RedirIoError;
      }
      ParseConfig(kinds);
    }

    // The endpoints of an interface lose their streams.
    method CancelUrbsOnInterface(eps: seq<nat>)
      requires Valid() && !link.disconnected && forall i | 0 <= i < |eps| :: eps[i] < MAX_ENDPOINTS
      modifies this`endpoint, this`heap, this`cancelsPending
      ensures Valid() && |endpoint| == |old(endpoint)| == MAX_ENDPOINTS
      ensures forall e | e in eps :: endpoint[e].transferCount == 0
      ensures forall e: nat | e < MAX_ENDPOINTS && e !in eps ::
                endpoint[e] == old(endpoint)[e] && RingKept(old(endpoint)[e], old(heap), endpoint[e], heap)
    {
      hide Books, Running, AllShaped, AfterCancel, RingKept, HeapKept, SlotsSound;
      SizeOfEndpoints(endpoint);
      SameRings(endpoint, heap);
      for i := 0 to |eps|
        invariant Valid() && |endpoint| == MAX_ENDPOINTS
        invariant forall k | 0 <= k < i :: endpoint[eps[k]].transferCount == 0
        invariant forall e: nat | e < MAX_ENDPOINTS && e !in eps ::
                    endpoint[e] == old(endpoint)[e] && RingKept(old(endpoint)[e], old(heap), endpoint[e], heap)
      {
        ghost var endpoints, transfers := endpoint, heap;
        BooksSound(endpoint, heap, flight, cancelsPending, next);
        WeakerRunning(endpoint, heap, eps[i]);
        KeptAfterCancel(heap, eps[i]);
        CancelStream(eps[i]);
        forall e: nat | e < MAX_ENDPOINTS && e !in eps
          ensures RingKept(old(endpoint)[e], old(heap), endpoint[e], heap)
        {
          OtherRing(endpoints, transfers, endpoint[e], heap, eps[i], e);
          RingKeptTwice(old(endpoint)[e], old(heap), endpoints[e], transfers, endpoint[e], heap);
        }
      }
    }

    // The streams of the interface's endpoints end before its setting changes; other streams go on. A refusal by
    // libusb may show that the device is gone.
    method SetAltSetting(known: bool, eps: seq<nat>, kinds: seq<(EndpointType, nat)>, refused: Option<UsbError>)
      returns (status: RedirStatus)
      requires Valid() && |kinds| == MAX_ENDPOINTS && forall i | 0 <= i < |eps| :: eps[i] < MAX_ENDPOINTS
      modifies this, packets, link
      ensures Valid() && packets.requests == old(packets.requests) && |endpoint| == |old(endpoint)| == MAX_ENDPOINTS
      ensures status == if old(link.disconnected) then RedirIoError else if !known then RedirInval
                        else if refused.Some? then RedirStatusOf(Refused(refused.value)) else RedirSuccess
      ensures var asked := !old(link.disconnected) && known;
              link.history == old(link.history) + (if asked && refused == Some(Gone) then [Disconnect] else []) &&
              (asked && refused.None? ==> HasKinds(kinds)) &&
              forall e | 0 <= e < MAX_ENDPOINTS ::
                if asked && e in eps then endpoint[e].transferCount == 0
                else endpoint[e].slot == old(endpoint)[e].slot && endpoint[e].transferCount == old(endpoint)[e].transferCount &&
                     RingKept(old(endpoint)[e], old(heap), endpoint[e], heap)
    {
      hide Books, Running, AllShaped, AfterCancel, RingKept;
      SizeOfEndpoints(endpoint);
      SameRings(endpoint, heap);
      if link.disconnected {
        return RedirIoError;
      }
      if !known {
        return RedirInval;
      }
      reset := false;
      CancelUrbsOnInterface(eps);
      if refused.Some? {
        status := ToRedirStatus(Refused(refused.value), link);
        return;
      }
      ghost var endpoints := endpoint;
      ParseConfig(kinds);
      forall e: nat | e < MAX_ENDPOINTS && e !in eps
        ensures RingKept(old(endpoint)[e], old(heap), endpoint[e], heap)
      {
        OtherKind(endpoints[e], heap, kinds[e].0, kinds[e].1);
        RingKeptTwice(old(endpoint)[e], old(heap), endpoints[e], heap, endpoint[e], heap);
      }
      return RedirSuccess;
    }

    // Allocating bulk streams; libusb grants some number of them or refuses.
    method AllocBulkStreams(requested: nat, granted: nat, refused: Option<UsbError>) returns (status: RedirStatus)
      requires Valid()
      modifies link
      ensures Valid()
      ensures status == if refused.Some? then RedirStatusOf(Refused(refused.value))
                        else if granted < requested then RedirIoError else RedirSuccess
      ensures link.history == old(link.history) +
                              if refused == Some(Gone) && !old(link.disconnected) then [Disconnect] else []
    {
      hide Books, Running, AllShaped;
      if refused.Some? {
        status := ToRedirStatus(Refused(refused.value), link);
        return;
      }
      return if granted < requested then RedirIoError else RedirSuccess;
    }

    method FreeBulkStreams(refused: Option<UsbError>) returns (status: RedirStatus)
      requires Valid()
      modifies link
      ensures Valid()
      ensures status == if refused.Some? then RedirStatusOf(Refused(refused.value)) else RedirSuccess
      ensures link.history == old(link.history) +
                              if refused == Some(Gone) && !old(link.disconnected) then [Disconnect] else []
    {
      status := AllocBulkStreams(0, 0, refused);
    }

    // A control, bulk or interrupt packet from the guest.
    method OnPacket(p: UsbPackets.Packet, rightType: bool, fits: bool, clearStall: bool, cleared: Outcome,
                    submitted: bool, error: UsbError)
      requires Valid() && (p.kind != UsbPackets.Interrupt ==> fits) && (clearStall ==> p.kind == UsbPackets.Control)
      modifies this`reset, packets, link
      ensures Valid() && packets.requests == old(packets.requests) + [p]
      ensures var accepted := packets.Objection(old(link.disconnected), rightType, fits) == RedirSuccess;
              reset == (old(reset) && !accepted)
    {
      hide Books, Running, AllShaped;
      if !link.disconnected && rightType && fits {
        reset := false;
      }
      packets.OnPacket(p, rightType, fits, clearStall, cleared, submitted, error, link);
    }

    // ----- every run -----

    method OnHello(ackCap: bool)
      requires Valid() && !link.havePeerCaps
      modifies link
      ensures Valid() && link.havePeerCaps
      ensures link.history == old(link.history) + [Hello(ackCap)] + if old(link.connectPending) then [Connect] else []
    {
      hide Books, Running, AllShaped;
      if link.connectPending {
        IdleRuns(endpoint, heap);
      }
      link.OnHello(ackCap);
    }

    method OnDisconnectAck()
      requires Valid()
      modifies link
      ensures Valid() && !link.waitDisconnect
      ensures link.history == old(link.history) + [Ack] +
                              if old(link.waitDisconnect && link.connectPending) then [Connect] else []
    {
      hide Books, Running, AllShaped;
      if link.connectPending {
        IdleRuns(endpoint, heap);
      }
      link.OnDisconnectAck();
    }

    // ----- what events do to rings -----

    // A transfer of the endpoint that libusb has and that is not cancelled.
    ghost predicate Live(e: nat, h: nat)
      reads this
    {
      h in heap && heap[h].ep == e && !heap[h].cancelled && heap[h].packetIdx == SUBMITTED_IDX
    }

    // The stream of the endpoint is as before.
    twostate predicate Kept(e: nat)
      requires e < |old(endpoint)| && e < |endpoint|
      reads this
    {
      RingKept(old(endpoint)[e], old(heap), endpoint[e], heap)
    }

    // What the event does to the stream of an endpoint.
    twostate predicate Stepped(e: nat, event: Event)
      requires e < |old(endpoint)| && e < |endpoint|
      reads this, link
    {
      match event
      case GuestIsoPacket(f, dataLen, answers) =>
        if f % MAX_ENDPOINTS == e && old(IsoObjection(e, dataLen)) == Silent
        then !IsIn(e) ==> TakesPacket(e, answers) else Kept(e)
      case GuestStartStream(f, kind, pkts, pktSize, count, answers) =>
        if f % MAX_ENDPOINTS == e && old(Objection(e, kind, pkts, pktSize, count)) == Silent
        then Allocated(e, pkts, pktSize, count, answers) else Kept(e)
      case GuestStopStream(f) =>
        if f % MAX_ENDPOINTS == e && !old(link.disconnected) then endpoint[e].transferCount == 0 else Kept(e)
      case StreamTransferCompletes(h, isochronous, overall, each, answers) =>
        if !old(Live(e, h)) then Kept(e)
        else if isochronous
        then IsoCompleted(e, h, Verdict(overall, each, IsIn(e), old(endpoint)[e].pktsPerTransfer), answers)
        else BufferedCompleted(e, h, overall, answers)
      case _ => endpoint[e].transferCount == 0 || Kept(e)
    }

    twostate predicate AllStepped(event: Event)
      reads this, link
    {
      |old(endpoint)| == |endpoint| == MAX_ENDPOINTS && forall e: nat | e < MAX_ENDPOINTS :: Stepped(e, event)
    }

    // The event does nothing to streams.
    twostate lemma NothingStepped(new event: Event)
      requires |endpoint| == MAX_ENDPOINTS && endpoint == old(endpoint) && heap == old(heap)
      requires event.GuestIsoPacket? ==> old(IsoObjection(event.e % MAX_ENDPOINTS, event.dataLen)) != Silent
      requires event.GuestStartStream? ==>
                 old(Objection(event.e % MAX_ENDPOINTS, event.kind, event.pkts, event.pktSize, event.count)) != Silent
      requires event.GuestStopStream? ==> old(link.disconnected)
      requires event.StreamTransferCompletes? ==> forall e :: !old(Live(e, event.h))
      ensures AllStepped(event)
    {
      SameRings(endpoint, heap);
      hide RingKept, TakesPacket, Allocated, IsoCompleted, BufferedCompleted, Live;
    }

    // The event is about this endpoint only.
    twostate lemma OneStepped(new f: nat, new event: Event)
      requires old(Balanced()) && |endpoint| == |old(endpoint)| == MAX_ENDPOINTS && OthersKept(f) && f < MAX_ENDPOINTS
      requires event.GuestIsoPacket? ==> event.e % MAX_ENDPOINTS == f
      requires event.GuestStartStream? ==> event.e % MAX_ENDPOINTS == f
      requires event.GuestStopStream? ==> event.e % MAX_ENDPOINTS == f
      requires event.StreamTransferCompletes? ==> old(event.h in heap && heap[event.h].ep == f)
      requires Stepped(f, event)
      ensures AllStepped(event)
    {
      BooksSound(old(endpoint), old(heap), old(flight), old(cancelsPending), old(next));
      hide Books, RingKept, TakesPacket, Allocated, IsoCompleted, BufferedCompleted, HeapKept, SlotsSound;
      forall e: nat | e < MAX_ENDPOINTS && e != f
        ensures Stepped(e, event)
      {
        OtherRing(old(endpoint), old(heap), endpoint[e], heap, f, e);
      }
    }

    // A new stream for output is a new ring.
    twostate lemma AllocatedIsNew(new e: nat, new pkts: nat, new pktSize: nat, new count: nat, new answers: Answers)
      requires e < |old(endpoint)| && 1 <= pkts && 1 <= count <= MAX_TRANSFER_COUNT
      ensures !IsIn(e) && Allocated(e, pkts, pktSize, count, answers) ==>
                e < |endpoint| && NewlyRing(endpoint[e], heap, pkts, count)
    {
      hide HasStream, NewlyRing;
      if !IsIn(e) && Allocated(e, pkts, pktSize, count, answers) {
        NewRing(endpoint[e], heap, e, pkts, count, pktSize * pkts);
      }
    }

    // A stalled stream for output that still is there is a new ring.
    twostate lemma StallIsNew(new e: nat, new answers: Answers)
      requires e < |old(endpoint)| && old(Valid()) && old(endpoint[e].transferCount > 0)
      ensures !IsIn(e) && StallHandled(e, answers) ==>
                e < |endpoint| &&
                (endpoint[e].transferCount == 0 ||
                 NewlyRing(endpoint[e], heap, old(endpoint[e]).pktsPerTransfer, old(endpoint[e]).transferCount))
    {
      SizeOfEndpoints(old(endpoint));
      DimensionsOf(old(endpoint), e);
      IdleIsEmpty(old(endpoint)[e]);
      hide Books, Running, AllShaped, HasStream, NewlyRing, Idle;
      if !IsIn(e) && StallHandled(e, answers) && endpoint[e].transferCount > 0 {
        var pkts, count := old(endpoint[e]).pktsPerTransfer, old(endpoint[e]).transferCount;
        AllocatedIsNew(e, pkts, StreamPacketSize(old(endpoint), old(heap), e), count, answers);
      }
    }

    method OnStartStream(f: nat, kind: EndpointType, pkts: nat, pktSize: nat, count: nat, answers: Answers)
      requires Valid()
      modifies this, link
      ensures Valid() && AllStepped(GuestStartStream(f, kind, pkts, pktSize, count, answers))
    {
      hide Books, Running, AllShaped, HeapKept, Allocated, RingKept;
      var e := f % MAX_ENDPOINTS;
      SizeOfEndpoints(endpoint);
      var report := AllocStream(e, kind, pkts, pktSize, count, true, answers);
      SizeOfEndpoints(endpoint);
      StartStepped(f, kind, pkts, pktSize, count, answers);
    }

    twostate lemma StartStepped(new f: nat, new kind: EndpointType, new pkts: nat, new pktSize: nat, new count: nat,
                                new answers: Answers)
      requires old(Balanced()) && |endpoint| == |old(endpoint)| == MAX_ENDPOINTS && OthersKept(f % MAX_ENDPOINTS)
      requires var e := f % MAX_ENDPOINTS;
               if old(Objection(e, kind, pkts, pktSize, count)) != Silent then endpoint == old(endpoint) && heap == old(heap)
               else Allocated(e, pkts, pktSize, count, answers)
      ensures AllStepped(GuestStartStream(f, kind, pkts, pktSize, count, answers))
    {
      hide Books, HeapKept, Allocated, RingKept;
      var e, event := f % MAX_ENDPOINTS, GuestStartStream(f, kind, pkts, pktSize, count, answers);
      if old(Objection(e, kind, pkts, pktSize, count)) != Silent {
        NothingStepped(event);
      } else {
        OneStepped(e, event);
      }
    }

    method OnStopStream(f: nat)
      requires Valid()
      modifies this`endpoint, this`heap, this`cancelsPending
      ensures Valid() && AllStepped(GuestStopStream(f))
    {
      hide Books, Running, AllShaped, HeapKept, RingKept, Idle, AfterCancel;
      var e := f % MAX_ENDPOINTS;
      SizeOfEndpoints(endpoint);
      KeptAfterCancel(heap, e);
      IdleIsEmpty(endpoint[e]);
      var report := StopStream(e);
      if report == Silent {
        NothingStepped(GuestStopStream(f));
      } else {
        OneStepped(e, GuestStopStream(f));
      }
    }

    method OnIsoPacket(f: nat, dataLen: nat, answers: Answers)
      requires Valid()
      modifies this, link
      ensures Valid() && AllStepped(GuestIsoPacket(f, dataLen, answers))
    {
      hide Books, Running, AllShaped, HeapKept, RingKept, TakesPacket;
      var e := f % MAX_ENDPOINTS;
      SizeOfEndpoints(endpoint);
      var report := IsoPacket(e, dataLen, answers);
      if report == Silent {
        OneStepped(e, GuestIsoPacket(f, dataLen, answers));
      } else {
        NothingStepped(GuestIsoPacket(f, dataLen, answers));
      }
    }

    // libusb completes a stream transfer, if it has it.
    method StreamCompletion(h: nat, isochronous: bool, overall: TransferStatus, each: seq<TransferStatus>, answers: Answers)
      requires Valid()
      modifies this, link
      ensures Valid() && AllStepped(StreamTransferCompletes(h, isochronous, overall, each, answers))
    {
      hide Books, Running, AllShaped, HeapKept, RingKept, IsoCompleted, BufferedCompleted, SlotsSound;
      ghost var event := StreamTransferCompletes(h, isochronous, overall, each, answers);
      SizeOfEndpoints(endpoint);
      if h !in heap || !(heap[h].cancelled || heap[h].packetIdx == SUBMITTED_IDX) {
        NothingStepped(event);
        return;
      }
      KnownTransfer(endpoint, heap, flight, cancelsPending, next, h);
      LiveHasStream(endpoint, heap, flight, cancelsPending, next, h);
      BooksSound(endpoint, heap, flight, cancelsPending, next);
      if heap[h].cancelled {
        CancelledIsOutside(endpoint, heap, h, heap[h].ep);
      }
      if isochronous {
        IsoPacketComplete(h, overall, each, answers);
      } else {
        BufferedPacketComplete(h, overall, answers);
      }
      SizeOfEndpoints(endpoint);
      OneStepped(old(heap[h].ep), event);
    }

    method Handle(event: Event)
      requires Valid()
      modifies this, packets, link
      ensures Valid() && AllStepped(event)
    {
      hide Books, Running, AllShaped, AfterCancel, RingKept;
      SizeOfEndpoints(endpoint);
      match event
      case GuestStartStream(e, kind, pkts, pktSize, count, answers) => OnStartStream(e, kind, pkts, pktSize, count, answers);
      case GuestStopStream(e) => OnStopStream(e);
      case GuestIsoPacket(e, dataLen, answers) => OnIsoPacket(e, dataLen, answers);
      case StreamTransferCompletes(h, isochronous, overall, each, answers) =>
        StreamCompletion(h, isochronous, overall, each, answers);
      case GuestReset(exempt, works) =>
        var done := Reset(exempt, works);
        if !done {
          NothingStepped(event);
        }
      case GuestSetConfiguration(kinds, sameAsNow, answers) => OnSetConfiguration(kinds, sameAsNow, answers);
      case GuestSetAltSetting(known, eps, kinds, refused) => OnSetAltSetting(known, eps, kinds, refused);
      case NewDevice(hasHandle, kinds, claimed, exempt, works) =>
        if |kinds| == MAX_ENDPOINTS {
          var ok := SetDevice(hasHandle, kinds, claimed, exempt, works);
        } else {
          NothingStepped(event);
        }
      case Closed => ClearDevice();
      case _ =>
        HandleOther(event);
        NothingStepped(event);
    }

    method OnSetConfiguration(kinds: seq<(EndpointType, nat)>, sameAsNow: bool, answers: Reconfiguring)
      requires Valid()
      modifies this, packets, link
      ensures Valid() && AllStepped(GuestSetConfiguration(kinds, sameAsNow, answers))
    {
      hide Books, Running, AllShaped, AfterCancel, RingKept;
      SizeOfEndpoints(endpoint);
      ghost var nothing := |kinds| != MAX_ENDPOINTS || link.disconnected || sameAsNow;
      if |kinds| == MAX_ENDPOINTS {
        var status := SetConfiguration(kinds, sameAsNow, answers);
      }
      if nothing {
        NothingStepped(GuestSetConfiguration(kinds, sameAsNow, answers));
      }
    }

    method OnSetAltSetting(known: bool, eps: seq<nat>, kinds: seq<(EndpointType, nat)>, refused: Option<UsbError>)
      requires Valid()
      modifies this, packets, link
      ensures Valid() && AllStepped(GuestSetAltSetting(known, eps, kinds, refused))
    {
      hide Books, Running, AllShaped, AfterCancel, Ring, RingKept;
      SizeOfEndpoints(endpoint);
      if |kinds| == MAX_ENDPOINTS && forall i | 0 <= i < |eps| :: eps[i] < MAX_ENDPOINTS {
        var status := SetAltSetting(known, eps, kinds, refused);
      } else {
        NothingStepped(GuestSetAltSetting(known, eps, kinds, refused));
      }
    }

    // Events that do nothing to streams.
    method HandleOther(event: Event)
      requires Valid()
      modifies this`reset, packets, link
      ensures Valid()
    {
      hide Books, Running, AllShaped, AfterCancel;
      match event
      case GuestHello(ackCap) =>
        if !link.havePeerCaps {
          OnHello(ackCap);
        }
      case GuestDisconnectAck => OnDisconnectAck();
      case GuestPacket(p, rightType, fits, clearStall, cleared, submitted, error) =>
        OnPacket(p, rightType, fits || p.kind != UsbPackets.Interrupt, clearStall && p.kind == UsbPackets.Control,
                 cleared, submitted, error);
      case GuestCancel(id) =>
        ghost var i := packets.CancelDataPacket(id);
      case GuestAllocBulkStreams(requested, granted, refused) =>
        var status := AllocBulkStreams(requested, granted, refused);
      case GuestFreeBulkStreams(refused) =>
        var status := FreeBulkStreams(refused);
      case PacketCompletes(index, outcome, length) =>
        if index < |packets.transfers| {
          packets.Complete(index, Transferred(outcome), length, link);
        }
      case _ =>
    }
  }

  // After any run: connects and disconnects alternate, starting with a connect; every packet received has been
  // answered once unless it is still waiting; the transfers of a stream fill the first slots of its endpoint;
  // every stream transfer that libusb has is cancelled or in a slot, and the cancels pending are the former.
  method Run(events: seq<Event>) returns (host: Host)
    ensures fresh(host) && fresh(host.link) && fresh(host.packets) && host.Valid()
    ensures forall i | 0 <= i < |Messages(host.link.history)| :: Messages(host.link.history)[i] == (i % 2 == 0)
    ensures UsbPackets.AnsweredOnce(host.packets.requests, host.packets.transfers, host.packets.replies)
    ensures |host.endpoint| == MAX_ENDPOINTS
    ensures forall e | 0 <= e < MAX_ENDPOINTS :: Occupied(host.endpoint[e], 0, host.endpoint[e].transferCount)
    ensures forall h | h in host.flight ::
              h in host.heap && (host.heap[h].cancelled || exists k :: Holds(host.endpoint, host.heap[h].ep, k, h))
    ensures host.cancelsPending == |set h | h in host.flight && h in host.heap && host.heap[h].cancelled|
  {
    host := new Host();
    for i := 0 to |events|
      invariant fresh(host) && fresh(host.link) && fresh(host.packets) && host.Valid()
    {
      host.Handle(events[i]);
    }
    Alternate(host.link.history);
    BooksMean(host.endpoint, host.heap, host.flight, host.cancelsPending, host.next);
  }

  // Whether the new configuration is set, the device is claimed again, and if not whether it is because it is gone.
  datatype Reconfiguring = Reconfiguring(configured: bool, claimed: bool, gone: bool)

  // What can happen to a host: messages from the guest, completions, and devices being given and taken.
  datatype Event =
    | GuestHello(ackCap: bool)
    | GuestDisconnectAck
    | GuestPacket(packet: UsbPackets.Packet, rightType: bool, fits: bool, clearStall: bool, cleared: Outcome,
                  submitted: bool, error: UsbError)
    | GuestCancel(id: nat)
    | GuestStartStream(e: nat, kind: EndpointType, pkts: nat, pktSize: nat, count: nat, answers: Answers)
    | GuestStopStream(e: nat)
    | GuestIsoPacket(e: nat, dataLen: nat, answers: Answers)
    | GuestReset(exempt: bool, works: bool)
    | GuestSetConfiguration(kinds: seq<(EndpointType, nat)>, sameAsNow: bool, reconfiguring: Reconfiguring)
    | GuestSetAltSetting(known: bool, eps: seq<nat>, kinds: seq<(EndpointType, nat)>, refused: Option<UsbError>)
    | GuestAllocBulkStreams(requested: nat, granted: nat, refused: Option<UsbError>)
    | GuestFreeBulkStreams(refused: Option<UsbError>)
    | PacketCompletes(index: nat, outcome: TransferStatus, length: nat)
    | StreamTransferCompletes(h: nat, isochronous: bool, overall: TransferStatus, each: seq<TransferStatus>,
                              answers: Answers)
    | NewDevice(hasHandle: bool, kinds: seq<(EndpointType, nat)>, claimed: bool, exempt: bool, works: bool)
    | Closed
}
