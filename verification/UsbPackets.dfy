// Control, bulk and interrupt packets: every packet from the guest is answered exactly once.
module UsbPackets {
  import opened UsbLink
  import opened UsbStatus

  datatype Kind = Control | Bulk | Interrupt

  // A packet received from the guest, with the id the guest gave it.
  datatype Packet = Packet(kind: Kind, id: nat)

  // An outstanding transfer, for the request-th packet received.
  datatype Transfer = Transfer(request: nat, packet: Packet, cancelled: bool)

  datatype Reply = Reply(request: nat, packet: Packet, status: RedirStatus, length: nat)

  // ----- counting replies -----

  function Count(replies: seq<Reply>, request: nat): nat {
    if replies == [] then 0
    else Count(replies[..|replies| - 1], request) + if replies[|replies| - 1].request == request then 1 else 0
  }

  // The transfer of the request has not been cancelled or completed.
  ghost predicate Waiting(transfers: seq<Transfer>, request: nat) {
    exists i | 0 <= i < |transfers| :: transfers[i].request == request && !transfers[i].cancelled
  }

  ghost predicate InOrder(transfers: seq<Transfer>) {
    forall i, j | 0 <= i < j < |transfers| :: transfers[i].request < transfers[j].request
  }

  ghost predicate Known(requests: seq<Packet>, transfers: seq<Transfer>, replies: seq<Reply>) {
    (forall i | 0 <= i < |transfers| ::
       transfers[i].request < |requests| && requests[transfers[i].request] == transfers[i].packet) &&
    forall k | 0 <= k < |replies| ::
      replies[k].request < |requests| && requests[replies[k].request] == replies[k].packet
  }

  // A request is unanswered exactly while its transfer is outstanding and not cancelled, and answered once after.
  ghost predicate AnsweredOnce(requests: seq<Packet>, transfers: seq<Transfer>, replies: seq<Reply>) {
    forall q: nat | q < |requests| :: Count(replies, q) == if Waiting(transfers, q) then 0 else 1
  }

  lemma CountAppend(replies: seq<Reply>, r: Reply, request: nat)
    ensures Count(replies + [r], request) == Count(replies, request) + if r.request == request then 1 else 0
  {
    assert (replies + [r])[..|replies|] == replies;
  }

  lemma {:induction false} CountNone(replies: seq<Reply>, request: nat)
    requires forall k | 0 <= k < |replies| :: replies[k].request != request
    ensures Count(replies, request) == 0
  {
    if replies != [] {
      CountNone(replies[..|replies| - 1], request);
    }
  }

  // Counting one reply means that there is one and only one.
  lemma {:induction false} CountOne(replies: seq<Reply>, request: nat)
    requires Count(replies, request) == 1
    ensures exists k | 0 <= k < |replies| ::
              replies[k].request == request &&
              forall m | 0 <= m < |replies| :: replies[m].request == request ==> m == k
  {
    var n := |replies| - 1;
    if replies[n].request == request {
      forall m | 0 <= m < n
        ensures replies[m].request != request
      {
        if replies[m].request == request {
          CountSome(replies[..n], request, m);
        }
      }
      assert replies[n].request == request;
    } else {
      CountOne(replies[..n], request);
      var k :| 0 <= k < n && replies[..n][k].request == request &&
               forall m | 0 <= m < n :: replies[..n][m].request == request ==> m == k;
      assert replies[k].request == request;
      forall m | 0 <= m < |replies| && replies[m].request == request
        ensures m == k
      {
        assert m < n ==> replies[..n][m] == replies[m];
      }
    }
  }

  lemma {:induction false} CountSome(replies: seq<Reply>, request: nat, k: nat)
    requires k < |replies| && replies[k].request == request
    ensures Count(replies, request) > 0
  {
    if k < |replies| - 1 {
      CountSome(replies[..|replies| - 1], request, k);
    }
  }

  // Once nothing is outstanding, every request has exactly one reply, which carries its id.
  lemma AllAnswered(requests: seq<Packet>, replies: seq<Reply>, request: nat)
    requires Known(requests, [], replies) && AnsweredOnce(requests, [], replies) && request < |requests|
    ensures exists k | 0 <= k < |replies| ::
              replies[k].request == request && replies[k].packet == requests[request] &&
              forall m | 0 <= m < |replies| :: replies[m].request == request ==> m == k
  {
    CountOne(replies, request);
    hide AnsweredOnce, Count;
    var k :| 0 <= k < |replies| && replies[k].request == request &&
             forall m | 0 <= m < |replies| :: replies[m].request == request ==> m == k;
    assert replies[k].packet == requests[request];
  }

  // ----- the steps on values -----

  // Everything the list keeps true.
  ghost predicate Kept(requests: seq<Packet>, transfers: seq<Transfer>, replies: seq<Reply>) {
    InOrder(transfers) && Known(requests, transfers, replies) && AnsweredOnce(requests, transfers, replies)
  }

  lemma Rejected(requests: seq<Packet>, transfers: seq<Transfer>, replies: seq<Reply>, r: Reply)
    requires Kept(requests, transfers, replies) && r.request == |requests|
    ensures Kept(requests + [r.packet], transfers, replies + [r])
  {
    hide Count;
    forall q: nat | q < |requests| + 1
      ensures Count(replies + [r], q) == if Waiting(transfers, q) then 0 else 1
    {
      CountAppend(replies, r, q);
      if q == |requests| {
        CountNone(replies, q);
      }
    }
  }

  lemma Accepted(requests: seq<Packet>, transfers: seq<Transfer>, replies: seq<Reply>, p: Packet)
    requires Kept(requests, transfers, replies)
    ensures Kept(requests + [p], transfers + [Transfer(|requests|, p, false)], replies)
  {
    hide Count;
    var transfers' := transfers + [Transfer(|requests|, p, false)];
    forall q: nat | q < |requests| + 1
      ensures Count(replies, q) == if Waiting(transfers', q) then 0 else 1
    {
      if q == |requests| {
        CountNone(replies, q);
        assert transfers'[|transfers|].request == q;
      } else if Waiting(transfers, q) {
        var i :| 0 <= i < |transfers| && transfers[i].request == q && !transfers[i].cancelled;
        assert transfers'[i].request == q;
      }
    }
  }

  function Without(transfers: seq<Transfer>, i: nat): (r: seq<Transfer>)
    requires i < |transfers|
    ensures |r| == |transfers| - 1
    ensures forall k | 0 <= k < |r| :: r[k] == transfers[if k < i then k else k + 1]
  {
    transfers[..i] + transfers[i + 1..]
  }

  lemma WithoutWaiting(transfers: seq<Transfer>, i: nat, q: nat)
    requires InOrder(transfers) && i < |transfers|
    ensures Waiting(Without(transfers, i), q) <==> Waiting(transfers, q) && q != transfers[i].request
  {
    var r := Without(transfers, i);
    if Waiting(transfers, q) && q != transfers[i].request {
      var k :| 0 <= k < |transfers| && transfers[k].request == q && !transfers[k].cancelled;
      assert r[if k < i then k else k - 1].request == q;
    }
  }

  // A transfer leaves the list; it is answered now unless it was cancelled, and so answered, before.
  lemma Left(requests: seq<Packet>, transfers: seq<Transfer>, replies: seq<Reply>, i: nat, r: Reply)
    requires Kept(requests, transfers, replies) && i < |transfers|
    requires r.request == transfers[i].request && r.packet == transfers[i].packet
    ensures Kept(requests, Without(transfers, i), if transfers[i].cancelled then replies else replies + [r])
  {
    hide Count, Waiting;
    forall q: nat | q < |requests|
      ensures Count(if transfers[i].cancelled then replies else replies + [r], q) ==
              if Waiting(Without(transfers, i), q) then 0 else 1
    {
      CountAppend(replies, r, q);
      WithoutWaiting(transfers, i, q);
      WaitingIs(transfers, i);
    }
  }

  lemma WaitingIs(transfers: seq<Transfer>, i: nat)
    requires InOrder(transfers) && i < |transfers|
    ensures Waiting(transfers, transfers[i].request) <==> !transfers[i].cancelled
  {
  }

  lemma CancelWaiting(transfers: seq<Transfer>, i: nat, q: nat)
    requires InOrder(transfers) && i < |transfers|
    ensures Waiting(transfers[i := transfers[i].(cancelled := true)], q) <==>
            Waiting(transfers, q) && q != transfers[i].request
  {
    var r := transfers[i := transfers[i].(cancelled := true)];
    if Waiting(transfers, q) && q != transfers[i].request {
      var k :| 0 <= k < |transfers| && transfers[k].request == q && !transfers[k].cancelled;
      assert r[k].request == q;
    }
  }

  // A waiting transfer is cancelled and answered, and stays in the list.
  lemma CancelledOne(requests: seq<Packet>, transfers: seq<Transfer>, replies: seq<Reply>, i: nat, r: Reply)
    requires Kept(requests, transfers, replies) && i < |transfers| && !transfers[i].cancelled
    requires r.request == transfers[i].request && r.packet == transfers[i].packet
    ensures Kept(requests, transfers[i := transfers[i].(cancelled := true)], replies + [r])
  {
    hide Count, Waiting;
    forall q: nat | q < |requests|
      ensures Count(replies + [r], q) ==
              if Waiting(transfers[i := transfers[i].(cancelled := true)], q) then 0 else 1
    {
      CountAppend(replies, r, q);
      CancelWaiting(transfers, i, q);
      WaitingIs(transfers, i);
    }
  }

  // ----- the list of outstanding transfers -----

  class PacketList {
    // Oldest first.
    var transfers: seq<Transfer>
    // Tells transfers apart, as their addresses do.
    var received: nat
    ghost var requests: seq<Packet>
    ghost var replies: seq<Reply>

    ghost predicate Valid()
      reads this
    {
      Kept(requests, transfers, replies) && received == |requests|
    }

    constructor ()
      ensures Valid() && transfers == [] && requests == [] && replies == []
    {
      transfers, received, requests, replies := [], 0, [], [];
    }

    // Answers a packet without submitting a transfer for it.
    method Answer(p: Packet, status: RedirStatus)
      requires Valid()
      modifies this
      ensures Valid() && transfers == old(transfers) && requests == old(requests) + [p]
      ensures replies == old(replies) + [Reply(old(|requests|), p, status, 0)]
    {
      ghost var r := Reply(|requests|, p, status, 0);
      Rejected(requests, transfers, replies, r);
      requests, replies := requests + [p], replies + [r];
      received := received + 1;
    }

    // A transfer completes, or is treated as completed because it could not be submitted.
    method Complete(i: nat, outcome: Outcome, actualLength: nat, link: Link)
      requires Valid() && i < |transfers| && link.Valid()
      modifies this, link
      ensures Valid() && transfers == Without(old(transfers), i) && requests == old(requests)
      ensures var t := old(transfers)[i];
              replies == old(replies) +
                         if t.cancelled then [] else [Reply(t.request, t.packet, RedirStatusOf(outcome), actualLength)]
      ensures link.Valid() && link.hasDevice == old(link.hasDevice) && link.havePeerCaps == old(link.havePeerCaps)
      ensures link.connectPending == old(link.connectPending) && (old(link.disconnected) ==> link.history == old(link.history))
      ensures link.disconnected == (old(link.disconnected) || DeviceLost(outcome))
    {
      var status := ToRedirStatus(outcome, link);
      var t := transfers[i];
      ghost var r := Reply(t.request, t.packet, status, actualLength);
      Left(requests, transfers, replies, i, r);
      if !t.cancelled {
        replies := replies + [r];
      }
      transfers := Without(transfers, i);
    }

    // Puts a packet in the list and submits it; `submitted` is what libusb made of it.
    method Submit(p: Packet, submitted: bool, error: UsbError, link: Link)
      requires Valid() && link.Valid()
      modifies this, link
      ensures Valid() && requests == old(requests) + [p]
      ensures submitted ==> transfers == old(transfers) + [Transfer(old(|requests|), p, false)] && replies == old(replies)
      ensures !submitted ==> transfers == old(transfers)
      ensures !submitted ==> replies == old(replies) + [Reply(old(|requests|), p, RedirStatusOf(Refused(error)), 0)]
      ensures link.Valid() && link.hasDevice == old(link.hasDevice) && link.havePeerCaps == old(link.havePeerCaps)
      ensures link.connectPending == old(link.connectPending) && (old(link.disconnected) ==> link.history == old(link.history))
      ensures link.disconnected == (old(link.disconnected) || (!submitted && error == Gone))
    {
      Accepted(requests, transfers, replies, p);
      transfers := transfers + [Transfer(received, p, false)];
      requests := requests + [p];
      received := received + 1;
      if !submitted {
        Complete(|transfers| - 1, Refused(error), 0, link);
      }
    }

    // What is wrong with a packet, if anything.
    function Objection(disconnected: bool, rightType: bool, fits: bool): RedirStatus {
      if disconnected then RedirIoError else if !rightType || !fits then RedirInval else RedirSuccess
    }

    // A packet from the guest. rightType: its endpoint has the packet's type; fits: an interrupt packet is no
    // larger than the endpoint allows; clearStall: a control packet that only clears a stall, which is done and
    // answered at once with the outcome of doing so.
    method OnPacket(p: Packet, rightType: bool, fits: bool, clearStall: bool, cleared: Outcome,
                    submitted: bool, error: UsbError, link: Link)
      requires Valid() && link.Valid() && (p.kind != Interrupt ==> fits) && (clearStall ==> p.kind == Control)
      modifies this, link
      ensures Valid() && link.Valid() && requests == old(requests) + [p]
      ensures link.hasDevice == old(link.hasDevice) && link.havePeerCaps == old(link.havePeerCaps)
      ensures link.connectPending == old(link.connectPending) && (old(link.disconnected) ==> link.history == old(link.history))
      ensures var objection := Objection(old(link.disconnected), rightType, fits);
              if objection == RedirSuccess && !clearStall && submitted
              then transfers == old(transfers) + [Transfer(old(|requests|), p, false)] && replies == old(replies)
              else transfers == old(transfers) &&
                   replies == old(replies) +
                              [Reply(old(|requests|), p,
                                     if objection != RedirSuccess then objection
                                     else RedirStatusOf(if clearStall then cleared else Refused(error)), 0)]
    {
      if link.disconnected {
        Answer(p, RedirIoError);
        return;
      }
      if !rightType {
        Answer(p, RedirInval);
        return;
      }
      if p.kind == Interrupt && !fits {
        Answer(p, RedirInval);
        return;
      }
      if p.kind == Control && clearStall {
        var status := ToRedirStatus(cleared, link);
        Answer(p, status);
        return;
      }
      Submit(p, submitted, error, link);
    }

    // The oldest transfer with the id that the guest has not cancelled yet.
    method Find(id: nat) returns (i: nat)
      ensures i <= |transfers|
      ensures i < |transfers| ==> transfers[i].packet.id == id && !transfers[i].cancelled
      ensures forall k | 0 <= k < i :: transfers[k].cancelled || transfers[k].packet.id != id
    {
      i := 0;
      while i < |transfers| && (transfers[i].cancelled || transfers[i].packet.id != id)
        invariant i <= |transfers|
        invariant forall k | 0 <= k < i :: transfers[k].cancelled || transfers[k].packet.id != id
      {
        i := i + 1;
      }
    }

    // The guest cancels a packet. It may use the id again at once.
    method CancelDataPacket(id: nat) returns (ghost i: nat)
      requires Valid()
      modifies this
      ensures Valid() && requests == old(requests) && i <= |old(transfers)|
      ensures forall k | 0 <= k < i :: old(transfers)[k].cancelled || old(transfers)[k].packet.id != id
      ensures i == |old(transfers)| ==> transfers == old(transfers) && replies == old(replies)
      ensures i < |old(transfers)| ==>
                var t := old(transfers)[i];
                t.packet.id == id && !t.cancelled &&
                transfers == old(transfers)[i := t.(cancelled := true)] &&
                replies == old(replies) + [Reply(t.request, t.packet, RedirCancelled, 0)]
    {
      var k := Find(id);
      i := k;
      if k < |transfers| {
        var t := transfers[k];
        ghost var r := Reply(t.request, t.packet, RedirCancelled, 0);
        CancelledOne(requests, transfers, replies, k, r);
        transfers := transfers[k := t.(cancelled := true)];
        replies := replies + [r];
      }
    }
  }
}
