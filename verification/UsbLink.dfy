// The connection between the redirected device and the guest: connect, disconnect and acknowledgement.
module UsbLink {

  // What passed between host and guest, as far as connecting goes.
  datatype Note = Connect | Disconnect | Hello(ackCap: bool) | Ack

  type History = seq<Note>

  function Before(h: History): History
    requires h != []
  {
    h[..|h| - 1]
  }

  // The guest has sent its capabilities; it said that it acknowledges disconnects.
  ghost predicate Greeted(h: History) {
    exists i | 0 <= i < |h| :: h[i].Hello?
  }

  ghost predicate Acknowledges(h: History) {
    exists i | 0 <= i < |h| :: h[i] == Hello(true)
  }

  // The last message sent was a connect.
  function Connected(h: History): bool {
    if h == [] then false
    else match h[|h| - 1]
      case Connect => true
      case Disconnect => false
      case _ => Connected(Before(h))
  }

  // A disconnect has been sent to a guest that acknowledges them, and no acknowledgement has come since.
  ghost predicate Outstanding(h: History) {
    exists i | 0 <= i < |h| :: h[i] == Disconnect && Acknowledges(h[..i]) && Ack !in h[i..]
  }

  // A connect is sent only when not connected, to a guest that has said hello and owes no acknowledgement; a
  // disconnect only when connected.
  ghost predicate Orderly(h: History) {
    forall i | 0 <= i < |h| ::
      match h[i]
      case Connect => !Connected(h[..i]) && Greeted(h[..i]) && !Outstanding(h[..i])
      case Disconnect => Connected(h[..i])
      case _ => true
  }

  // The connect (true) and disconnect (false) messages, in order.
  function Messages(h: History): (m: seq<bool>) {
    if h == [] then []
    else Messages(Before(h)) + match h[|h| - 1]
      case Connect => [true]
      case Disconnect => [false]
      case _ => []
  }

  // In an orderly history connects and disconnects strictly alternate, starting with a connect.
  lemma {:induction false} Alternate(h: History)
    requires Orderly(h)
    ensures forall i | 0 <= i < |Messages(h)| :: Messages(h)[i] == (i % 2 == 0)
    ensures Connected(h) <==> |Messages(h)| % 2 == 1
  {
    hide Greeted, Outstanding;
    if h != [] {
      OrderlyPrefix(h, |h| - 1);
      Alternate(Before(h));
    }
  }

  lemma OrderlyPrefix(h: History, n: nat)
    requires Orderly(h) && n <= |h|
    ensures Orderly(h[..n])
  {
    hide Greeted, Outstanding, Connected;
    forall i | 0 <= i < n
      ensures h[..n][..i] == h[..i]
    {
    }
  }

  // Between a disconnect sent to a guest that acknowledges them and a later connect, the guest acknowledged.
  lemma AcknowledgedBetween(h: History, i: nat, j: nat)
    requires Orderly(h) && i < j < |h|
    requires h[i] == Disconnect && h[j] == Connect && Acknowledges(h[..i])
    ensures exists k | i < k < j :: h[k] == Ack
  {
    hide Greeted, Connected, Acknowledges;
    var p := h[..j];
    assert p[i] == Disconnect && p[..i] == h[..i];
    assert Ack in p[i..];
    var k :| 0 <= k < |p[i..]| && p[i..][k] == Ack;
    assert h[i + k] == Ack;
  }

  // No connect before the guest's hello.
  lemma GreetedBefore(h: History, j: nat)
    requires Orderly(h) && j < |h| && h[j] == Connect
    ensures exists k | 0 <= k < j :: h[k].Hello?
  {
    hide Outstanding, Connected;
    var k :| 0 <= k < |h[..j]| && h[..j][k].Hello?;
    assert h[k].Hello?;
  }

  // ----- growing a history -----

  lemma Grow(h: History, n: Note)
    ensures Before(h + [n]) == h
    ensures Connected(h + [n]) == if n == Connect then true else if n == Disconnect then false else Connected(h)
    ensures Greeted(h + [n]) <==> Greeted(h) || n.Hello?
    ensures Acknowledges(h + [n]) <==> Acknowledges(h) || n == Hello(true)
  {
    assert (h + [n])[|h|] == n;
    assert forall i | 0 <= i < |h| :: (h + [n])[i] == h[i];
  }

  lemma GrowOutstanding(h: History, n: Note)
    ensures Outstanding(h + [n]) <==> n != Ack && (Outstanding(h) || (n == Disconnect && Acknowledges(h)))
  {
    hide Acknowledges;
    var g := h + [n];
    assert forall i | 0 <= i < |h| :: g[i] == h[i] && g[..i] == h[..i] && g[i..] == h[i..] + [n];
    assert g[|h|] == n && g[..|h|] == h && g[|h|..] == [n];
  }

  lemma GrowOrderly(h: History, n: Note)
    requires Orderly(h)
    requires n == Connect ==> !Connected(h) && Greeted(h) && !Outstanding(h)
    requires n == Disconnect ==> Connected(h)
    ensures Orderly(h + [n])
  {
    hide Greeted, Outstanding, Connected;
    var g := h + [n];
    assert forall i | 0 <= i < |h| :: g[i] == h[i] && g[..i] == h[..i];
    assert g[|h|] == n && g[..|h|] == h;
  }

  // ----- the connection state -----

  class Link {
    var hasDevice: bool
    var disconnected: bool
    var waitDisconnect: bool
    var connectPending: bool
    var havePeerCaps: bool
    var peerAcknowledges: bool
    ghost var history: History

    ghost predicate Sound()
      reads this
    {
      && Orderly(history)
      && disconnected == !Connected(history)
      && havePeerCaps == Greeted(history)
      && (havePeerCaps && peerAcknowledges) == Acknowledges(history)
      && waitDisconnect == Outstanding(history)
      && (connectPending ==> hasDevice && disconnected)
      && (hasDevice || disconnected)
    }

    // A pending connect belongs to a device and waits for the guest's hello or acknowledgement.
    ghost predicate Valid()
      reads this
    {
      Sound() && (connectPending ==> !havePeerCaps || waitDisconnect)
    }

    constructor ()
      ensures Valid() && history == [] && !hasDevice
    {
      hasDevice, disconnected, waitDisconnect, connectPending := false, true, false, false;
      havePeerCaps, peerAcknowledges := false, false;
      history := [];
    }

    method HandleDisconnect()
      requires Valid()
      modifies this
      ensures Valid() && disconnected
      ensures history == old(history) + if old(disconnected) then [] else [Disconnect]
      ensures hasDevice == old(hasDevice) && havePeerCaps == old(havePeerCaps) && connectPending == old(connectPending)
    {
      hide Orderly, Connected, Greeted, Acknowledges, Outstanding;
      if !disconnected {
        GrowOrderly(history, Disconnect);
        Grow(history, Disconnect);
        GrowOutstanding(history, Disconnect);
        history := history + [Disconnect];
        if havePeerCaps && peerAcknowledges {
          waitDisconnect := true;
        }
        disconnected := true;
      }
    }

    // Sends the connect, or leaves it pending until the guest is ready for it.
    method SendDeviceConnect()
      requires Sound() && hasDevice && (!disconnected ==> !connectPending)
      modifies this
      ensures Valid() && hasDevice && havePeerCaps == old(havePeerCaps) && waitDisconnect == old(waitDisconnect)
      ensures disconnected <==> connectPending
      ensures history == old(history) + if old(disconnected) && !disconnected then [Connect] else []
      ensures connectPending <==> old(disconnected) && (!havePeerCaps || waitDisconnect)
    {
      hide Orderly, Connected, Greeted, Acknowledges, Outstanding;
      if !disconnected {
        return;
      }
      if !havePeerCaps || waitDisconnect {
        connectPending := true;
        return;
      }
      GrowOrderly(history, Connect);
      Grow(history, Connect);
      GrowOutstanding(history, Connect);
      history := history + [Connect];
      connectPending := false;
      disconnected := false;
    }

    // The guest's capabilities arrive; a second hello is ignored by the parser.
    method OnHello(ackCap: bool)
      requires Valid() && !havePeerCaps
      modifies this
      ensures Valid() && havePeerCaps && hasDevice == old(hasDevice) && !connectPending
      ensures disconnected == (old(disconnected) && !old(connectPending))
      ensures history == old(history) + [Hello(ackCap)] + if old(connectPending) then [Connect] else []
    {
      hide Orderly, Connected, Greeted, Acknowledges, Outstanding;
      GrowOrderly(history, Hello(ackCap));
      Grow(history, Hello(ackCap));
      GrowOutstanding(history, Hello(ackCap));
      NotOutstanding(history);
      history := history + [Hello(ackCap)];
      havePeerCaps, peerAcknowledges := true, ackCap;
      if connectPending {
        SendDeviceConnect();
      }
    }

    method OnDisconnectAck()
      requires Valid()
      modifies this
      ensures Valid() && !waitDisconnect && hasDevice == old(hasDevice) && havePeerCaps == old(havePeerCaps)
      ensures connectPending == (old(connectPending) && !old(waitDisconnect))
      ensures disconnected == (old(disconnected) && !old(waitDisconnect && connectPending))
      ensures history == old(history) + [Ack] + if old(waitDisconnect && connectPending) then [Connect] else []
    {
      hide Orderly, Connected, Greeted, Acknowledges, Outstanding;
      GrowOrderly(history, Ack);
      Grow(history, Ack);
      GrowOutstanding(history, Ack);
      OutstandingGreeted(history);
      history := history + [Ack];
      if !waitDisconnect {
        return;
      }
      waitDisconnect := false;
      if connectPending {
        SendDeviceConnect();
      }
    }

    // The last part of clearing the device.
    method DropDevice()
      requires Valid() && hasDevice
      modifies this
      ensures Valid() && !hasDevice && disconnected && !connectPending && havePeerCaps == old(havePeerCaps)
      ensures history == old(history) + if old(disconnected) then [] else [Disconnect]
    {
      connectPending := false;
      HandleDisconnect();
      hasDevice := false;
    }

    // A new device, after the old one was cleared.
    method TakeDevice()
      requires Valid() && !hasDevice
      modifies this
      ensures Valid() && hasDevice && disconnected && !connectPending
      ensures history == old(history) && havePeerCaps == old(havePeerCaps)
    {
      hasDevice := true;
    }
  }

  lemma OutstandingGreeted(h: History)
    ensures Outstanding(h) ==> Greeted(h)
  {
    if Outstanding(h) {
      var i :| 0 <= i < |h| && h[i] == Disconnect && Acknowledges(h[..i]) && Ack !in h[i..];
      var j :| 0 <= j < i && h[..i][j] == Hello(true);
      assert h[j].Hello?;
    }
  }

  lemma NotOutstanding(h: History)
    ensures !Greeted(h) ==> !Outstanding(h)
  {
    OutstandingGreeted(h);
  }
}
