// The packet ids of a stream that delivers data from the device.
module UsbInStream {
  import opened Arithmetic

  // id: what the next packet of each transfer is sent as. flight: the slots libusb has, oldest first. log: the
  // ids sent to the guest so far.
  datatype Stream = Stream(pkts: nat, id: seq<nat>, flight: seq<nat>, alive: bool, log: seq<nat>) {
    predicate Formed() {
      1 <= pkts && 1 <= |id| && forall k | 0 <= k < |flight| :: flight[k] < |id|
    }

    function Cycle(): nat {
      |id| * pkts
    }
  }

  // Resubmitting a transfer works, finds the device gone, or fails and ends the stream.
  datatype Resubmission = Accepted | DeviceGone | Refused

  // How a transfer completes. Data: all of its packets, each sent or dropped because the connection is slow.
  // Failed: as a whole, which is told under the id of its first packet. Cut: a packet ends it after some others,
  // and the stream may end with it.
  datatype Completion =
    | Data(sent: seq<bool>, resubmission: Resubmission)
    | Failed(resubmission: Resubmission)
    | Cut(sent: seq<bool>, ends: bool)

  predicate Fitting(c: Completion, pkts: nat) {
    match c
    case Data(sent, _) => |sent| == pkts
    case Failed(_) => true
    case Cut(sent, _) => |sent| <= pkts
  }

  // The ids of the packets sent, from the first one's id on.
  function Forwarded(first: nat, sent: seq<bool>): (ids: seq<nat>) {
    if sent == [] then []
    else
      var n := |sent| - 1;
      Forwarded(first, sent[..n]) + if sent[n] then [first + n] else []
  }

  function Initial(pkts: nat, count: nat): seq<nat> {
    if count == 0 then [] else Initial(pkts, count - 1) + [(count - 1) * pkts]
  }

  function FirstSlots(n: nat): (f: seq<nat>)
    ensures |f| == n && forall k | 0 <= k < n :: f[k] == k
  {
    seq(n, k requires 0 <= k < n => k)
  }

  // Just started; the device may have gone after the first n transfers were submitted.
  function NewStream(pkts: nat, count: nat, n: nat): (s: Stream)
    requires 1 <= pkts && 1 <= count && n <= count
    ensures s.Formed() && |s.id| == count && s.pkts == pkts
  {
    InitialIs(pkts, count);
    Stream(pkts, Initial(pkts, count), FirstSlots(n), true, [])
  }

  lemma {:induction false} InitialIs(pkts: nat, count: nat)
    ensures |Initial(pkts, count)| == count && forall k | 0 <= k < count :: Initial(pkts, count)[k] == k * pkts
  {
    if count > 0 {
      InitialIs(pkts, count - 1);
    }
  }

  function Without(flight: seq<nat>, k: nat): (r: seq<nat>)
    requires k < |flight|
    ensures |r| == |flight| - 1
    ensures forall j | 0 <= j < |r| :: r[j] == flight[if j < k then j else j + 1]
  {
    flight[..k] + flight[k + 1..]
  }

  function Resubmitted(s: Stream, slot: nat, r: Resubmission): (t: Stream)
    requires s.Formed() && slot < |s.id|
    ensures t.Formed() && t.pkts == s.pkts && |t.id| == |s.id|
  {
    match r
    case Accepted => s.(flight := s.flight + [slot])
    case DeviceGone => s
    case Refused => s.(alive := false)
  }

  // The ids of the other transfers in a cycle.
  function Others(count: nat, pkts: nat): nat
    requires count >= 1
  {
    (count - 1) * pkts
  }

  // The k-th oldest transfer completes.
  function OnCompletion(s: Stream, k: nat, c: Completion): (t: Stream)
    requires s.Formed()
    ensures t.Formed() && t.pkts == s.pkts && |t.id| == |s.id|
  {
    if !s.alive || k >= |s.flight| then s
    else
      var slot := s.flight[k];
      var first := s.id[slot];
      var u := s.(flight := Without(s.flight, k));
      match c
      case Data(sent, resubmission) =>
        Resubmitted(u.(id := s.id[slot := first + |sent| + Others(|s.id|, s.pkts)], log := s.log + Forwarded(first, sent)),
                    slot, resubmission)
      case Failed(resubmission) =>
        Resubmitted(u.(id := s.id[slot := first + s.pkts + Others(|s.id|, s.pkts)], log := s.log + [first]),
                    slot, resubmission)
      case Cut(sent, ends) =>
        u.(id := s.id[slot := first + |sent|], log := s.log + Forwarded(first, sent), alive := !ends)
  }

  datatype Event = Event(k: nat, completion: Completion)

  function Run(s: Stream, events: seq<Event>): (t: Stream)
    requires s.Formed()
    ensures t.Formed() && t.pkts == s.pkts && |t.id| == |s.id|
  {
    if events == [] then s
    else
      var n := |events| - 1;
      OnCompletion(Run(s, events[..n]), events[n].k, events[n].completion)
  }

  ghost predicate AllFitting(events: seq<Event>, pkts: nat) {
    forall i | 0 <= i < |events| :: Fitting(events[i].completion, pkts)
  }

  // ----- whose turn an id belongs to -----

  function Owner(x: nat, pkts: nat, count: nat): nat
    requires 1 <= pkts && 1 <= count
  {
    x / pkts % count
  }

  ghost predicate Increasing(a: seq<nat>) {
    forall i, j | 0 <= i < j < |a| :: a[i] < a[j]
  }

  ghost predicate NoRepeats(a: seq<nat>) {
    forall i, j | 0 <= i < j < |a| :: a[i] != a[j]
  }

  // All of these lie in [from, to).
  ghost predicate Between(a: seq<nat>, from: nat, to: nat) {
    forall x | x in a :: from <= x < to
  }

  lemma {:induction false} ForwardedAre(first: nat, sent: seq<bool>)
    ensures Increasing(Forwarded(first, sent)) && Between(Forwarded(first, sent), first, first + |sent|)
  {
    if sent != [] {
      var n := |sent| - 1;
      ForwardedAre(first, sent[..n]);
      var f := Forwarded(first, sent[..n]);
      assert forall i | 0 <= i < |f| :: f[i] in f;
    }
  }

  // Slot k sends under ids of its own turn in each cycle.
  lemma OwnerIs(round: nat, k: nat, t: nat, pkts: nat, count: nat)
    requires 1 <= pkts && t < pkts && k < count
    ensures Owner((round * count + k) * pkts + t, pkts, count) == k
  {
    QuotientUnique((round * count + k) * pkts + t, pkts, round * count + k, t);
    QuotientUnique(round * count + k, count, round, k);
  }

  lemma NextRound(round: nat, k: nat, pkts: nat, count: nat)
    requires 1 <= count
    ensures (round * count + k) * pkts + pkts + (count - 1) * pkts == ((round + 1) * count + k) * pkts
  {
    assert (round + 1) * count + k == (round * count + k) + count;
    assert ((round * count + k) + count) * pkts == (round * count + k) * pkts + count * pkts;
    assert count * pkts == pkts + (count - 1) * pkts;
  }

  // The id is the first of slot k's turn in some cycle.
  ghost predicate OnTurn(id: nat, k: nat, pkts: nat, count: nat) {
    exists round: nat :: id == (round * count + k) * pkts
  }

  lemma StaysOnTurn(id: nat, k: nat, pkts: nat, count: nat)
    requires 1 <= count && OnTurn(id, k, pkts, count)
    ensures OnTurn(id + pkts + (count - 1) * pkts, k, pkts, count)
  {
    var round: nat :| id == (round * count + k) * pkts;
    NextRound(round, k, pkts, count);
  }

  lemma OnTurnOwner(id: nat, k: nat, t: nat, pkts: nat, count: nat)
    requires 1 <= pkts && t < pkts && k < count && OnTurn(id, k, pkts, count)
    ensures Owner(id + t, pkts, count) == k
  {
    var round: nat :| id == (round * count + k) * pkts;
    OwnerIs(round, k, t, pkts, count);
  }

  // ----- no id is sent twice, in whatever order transfers complete -----

  ghost predicate TurnsKept(s: Stream)
    requires s.Formed()
  {
    NoRepeats(s.flight) &&
    forall k | 0 <= k < |s.flight| :: OnTurn(s.id[s.flight[k]], s.flight[k], s.pkts, |s.id|)
  }

  // What slot k has sent lies before what it sends next.
  ghost predicate Past(s: Stream)
    requires s.Formed()
  {
    forall x | x in s.log && Owner(x, s.pkts, |s.id|) in s.flight :: x < s.id[Owner(x, s.pkts, |s.id|)]
  }

  ghost predicate Unrepeated(s: Stream) {
    s.Formed() && TurnsKept(s) && Past(s) && NoRepeats(s.log)
  }

  // What a completing transfer sends, and the id it goes on with.
  function Sent(c: Completion, first: nat): seq<nat> {
    match c
    case Data(sent, _) => Forwarded(first, sent)
    case Failed(_) => [first]
    case Cut(sent, _) => Forwarded(first, sent)
  }

  lemma SentAre(c: Completion, first: nat, pkts: nat)
    requires Fitting(c, pkts) && 1 <= pkts
    ensures Increasing(Sent(c, first)) && Between(Sent(c, first), first, first + pkts)
  {
    match c
    case Data(sent, _) => ForwardedAre(first, sent);
    case Failed(_) =>
    case Cut(sent, _) => ForwardedAre(first, sent);
  }

  // The effect of a completion: the slot leaves the flight or rejoins it one cycle later.
  lemma CompletionIs(s: Stream, k: nat, c: Completion)
    requires s.Formed() && s.alive && k < |s.flight| && Fitting(c, s.pkts)
    ensures var t := OnCompletion(s, k, c);
            var slot := s.flight[k];
            t.log == s.log + Sent(c, s.id[slot]) && (forall j | 0 <= j < |s.id| && j != slot :: t.id[j] == s.id[j]) &&
            (t.flight == Without(s.flight, k) ||
             (t.flight == Without(s.flight, k) + [slot] && t.id[slot] == s.id[slot] + s.pkts + (|s.id| - 1) * s.pkts))
  {
  }

  lemma AddedUnrepeated(log: seq<nat>, more: seq<nat>)
    requires NoRepeats(log) && Increasing(more) && forall x | x in more :: x !in log
    ensures NoRepeats(log + more)
  {
    var all := log + more;
    assert forall i | 0 <= i < |log| :: log[i] in log;
    assert forall i | 0 <= i < |more| :: more[i] in more;
  }

  lemma WithoutMembers(flight: seq<nat>, k: nat)
    requires NoRepeats(flight) && k < |flight|
    ensures NoRepeats(Without(flight, k)) && flight[k] !in Without(flight, k)
    ensures forall x | x in Without(flight, k) :: x in flight
  {
  }

  lemma NotYetSent(s: Stream, k: nat, more: seq<nat>)
    requires Unrepeated(s) && k < |s.flight| && Between(more, s.id[s.flight[k]], s.id[s.flight[k]] + s.pkts)
    ensures forall x | x in more :: Owner(x, s.pkts, |s.id|) == s.flight[k] && x !in s.log
  {
    hide Owner, OnTurn;
    var slot, first := s.flight[k], s.id[s.flight[k]];
    forall x | x in more
      ensures Owner(x, s.pkts, |s.id|) == slot && x !in s.log
    {
      OnTurnOwner(first, slot, x - first, s.pkts, |s.id|);
      assert slot in s.flight;
    }
  }

  lemma CompletionUnrepeated(s: Stream, k: nat, c: Completion)
    requires Unrepeated(s) && Fitting(c, s.pkts)
    ensures Unrepeated(OnCompletion(s, k, c))
  {
    hide OnCompletion, Sent, Owner, OnTurn, TurnsKept, Past, NoRepeats, Increasing;
    var t := OnCompletion(s, k, c);
    if s.alive && k < |s.flight| {
      var more := Sent(c, s.id[s.flight[k]]);
      CompletionIs(s, k, c);
      SentAre(c, s.id[s.flight[k]], s.pkts);
      TurnsAfter(s, t, k);
      NotYetSent(s, k, more);
      AddedUnrepeated(s.log, more);
      PastAfter(s, t, k, more);
    } else {
      NothingCompletes(s, k, c);
    }
  }

  lemma NothingCompletes(s: Stream, k: nat, c: Completion)
    requires s.Formed() && (!s.alive || k >= |s.flight|)
    ensures OnCompletion(s, k, c) == s
  {
  }

  lemma TurnsAfter(s: Stream, t: Stream, k: nat)
    requires s.Formed() && t.Formed() && TurnsKept(s) && k < |s.flight| && t.pkts == s.pkts && |t.id| == |s.id|
    requires forall j | 0 <= j < |s.id| && j != s.flight[k] :: t.id[j] == s.id[j]
    requires t.flight == Without(s.flight, k) ||
             (t.flight == Without(s.flight, k) + [s.flight[k]] &&
              t.id[s.flight[k]] == s.id[s.flight[k]] + s.pkts + (|s.id| - 1) * s.pkts)
    ensures TurnsKept(t)
  {
    hide OnTurn;
    StaysOnTurn(s.id[s.flight[k]], s.flight[k], s.pkts, |s.id|);
    WithoutMembers(s.flight, k);
    var rest := Without(s.flight, k);
    assert forall j | 0 <= j < |rest| :: rest[j] in rest;
    forall j | 0 <= j < |t.flight|
      ensures OnTurn(t.id[t.flight[j]], t.flight[j], t.pkts, |t.id|)
    {
      if j < |rest| {
        assert t.flight[j] == s.flight[if j < k then j else j + 1];
      }
    }
  }

  lemma PastAfter(s: Stream, t: Stream, k: nat, more: seq<nat>)
    requires s.Formed() && t.Formed() && TurnsKept(s) && Past(s) && k < |s.flight| && t.pkts == s.pkts
    requires |t.id| == |s.id| && t.log == s.log + more
    requires forall j | 0 <= j < |s.id| && j != s.flight[k] :: t.id[j] == s.id[j]
    requires forall x | x in more :: Owner(x, s.pkts, |s.id|) == s.flight[k] && x < s.id[s.flight[k]] + s.pkts
    requires t.flight == Without(s.flight, k) ||
             (t.flight == Without(s.flight, k) + [s.flight[k]] &&
              t.id[s.flight[k]] == s.id[s.flight[k]] + s.pkts + (|s.id| - 1) * s.pkts)
    ensures Past(t)
  {
    hide Owner, OnTurn;
    WithoutMembers(s.flight, k);
    TimesMonotone(s.pkts, 0, |s.id| - 1);
    forall x | x in t.log && Owner(x, t.pkts, |t.id|) in t.flight
      ensures x < t.id[Owner(x, t.pkts, |t.id|)]
    {
      var o := Owner(x, t.pkts, |t.id|);
      assert o in s.flight;
      if x in s.log {
        assert x < s.id[o];
      }
    }
  }

  lemma NewUnrepeated(pkts: nat, count: nat, n: nat)
    requires 1 <= pkts && 1 <= count && n <= count
    ensures Unrepeated(NewStream(pkts, count, n))
  {
    InitialIs(pkts, count);
    var s := NewStream(pkts, count, n);
    forall k | 0 <= k < n
      ensures OnTurn(s.id[k], k, pkts, count)
    {
      assert s.id[k] == (0 * count + k) * pkts;
    }
  }

  // In every run from one start, whatever the order of completions and whatever fails, each transfer libusb has
  // is on its slot's turn, and no id is sent twice.
  lemma {:induction false} RunUnrepeated(pkts: nat, count: nat, n: nat, events: seq<Event>)
    requires 1 <= pkts && 1 <= count && n <= count && AllFitting(events, pkts)
    ensures Unrepeated(Run(NewStream(pkts, count, n), events))
  {
    hide Unrepeated, NewStream, OnCompletion;
    if events == [] {
      NewUnrepeated(pkts, count, n);
    } else {
      var m := |events| - 1;
      RunUnrepeated(pkts, count, n, events[..m]);
      assert Fitting(events[m].completion, pkts);
      CompletionUnrepeated(Run(NewStream(pkts, count, n), events[..m]), events[m].k, events[m].completion);
    }
  }

  // The congruence: the transfer submitted in slot k has an id congruent to k * pkts modulo one cycle.
  lemma TurnIsCongruent(id: nat, k: nat, pkts: nat, count: nat)
    requires 1 <= pkts && k < count
    ensures OnTurn(id, k, pkts, count) <==> id % (count * pkts) == k * pkts
  {
    TimesMonotone(pkts, k + 1, count);
    assert (k + 1) * pkts == k * pkts + pkts;
    assert count * pkts > k * pkts;
    if OnTurn(id, k, pkts, count) {
      var round: nat :| id == (round * count + k) * pkts;
      assert (round * count + k) * pkts == (count * pkts) * round + k * pkts by { Spread(round, count, k, pkts); }
      QuotientUnique(id, count * pkts, round, k * pkts);
    }
    if id % (count * pkts) == k * pkts {
      var round := id / (count * pkts);
      Quotient(id, count * pkts);
      Spread(round, count, k, pkts);
      assert id == (round * count + k) * pkts;
    }
  }

  lemma Spread(r: nat, c: nat, k: nat, p: nat)
    ensures (r * c + k) * p == (c * p) * r + k * p
  {
    assert (r * c + k) * p == (r * c) * p + k * p;
    assert (r * c) * p == r * (c * p);
  }

  // ----- with completions in order of submission, ids go up -----

  ghost predicate Fifo(events: seq<Event>) {
    forall i | 0 <= i < |events| :: events[i].k == 0
  }

  // The ids of what libusb has, oldest first.
  function Ids(s: Stream): (r: seq<nat>)
    requires s.Formed()
    ensures |r| == |s.flight| && forall a | 0 <= a < |r| :: r[a] == s.id[s.flight[a]]
  {
    seq(|s.flight|, a requires 0 <= a < |s.flight| => s.id[s.flight[a]])
  }

  // Ids that go up by at least a transfer each and span at most one cycle.
  ghost predicate Spaced(ids: seq<nat>, pkts: nat, cycle: nat) {
    forall a, b | 0 <= a < b < |ids| :: ids[a] + pkts <= ids[b] && ids[b] + pkts <= ids[a] + cycle
  }

  ghost predicate AllBefore(log: seq<nat>, ids: seq<nat>) {
    forall x, y | x in log && y in ids :: x < y
  }

  ghost predicate Queued(s: Stream) {
    s.Formed() && NoRepeats(s.flight) && Increasing(s.log) && Spaced(Ids(s), s.pkts, s.Cycle()) && AllBefore(s.log, Ids(s))
  }

  lemma CycleIs(s: Stream)
    requires s.Formed()
    ensures s.pkts + (|s.id| - 1) * s.pkts == s.Cycle() >= s.pkts
  {
    TimesMonotone(s.pkts, 0, |s.id| - 1);
  }

  lemma AppendIncreasing(log: seq<nat>, more: seq<nat>, from: nat, to: nat)
    requires Increasing(log) && Increasing(more) && Between(more, from, to) && forall x | x in log :: x < from
    ensures Increasing(log + more)
  {
    assert forall i | 0 <= i < |log| :: log[i] in log;
    assert forall i | 0 <= i < |more| :: more[i] in more;
  }

  lemma IdsAfter(s: Stream, t: Stream)
    requires s.Formed() && t.Formed() && NoRepeats(s.flight) && s.flight != [] && |t.id| == |s.id|
    requires forall j | 0 <= j < |s.id| && j != s.flight[0] :: t.id[j] == s.id[j]
    requires t.flight == Without(s.flight, 0) || t.flight == Without(s.flight, 0) + [s.flight[0]]
    ensures t.flight == Without(s.flight, 0) ==> Ids(t) == Ids(s)[1..]
    ensures t.flight == Without(s.flight, 0) + [s.flight[0]] ==> Ids(t) == Ids(s)[1..] + [t.id[s.flight[0]]]
    ensures NoRepeats(t.flight)
  {
    WithoutMembers(s.flight, 0);
  }

  lemma SpacedAfter(ids: seq<nat>, pkts: nat, cycle: nat)
    requires Spaced(ids, pkts, cycle) && ids != [] && cycle >= pkts
    ensures Spaced(ids[1..], pkts, cycle) && Spaced(ids[1..] + [ids[0] + cycle], pkts, cycle)
  {
  }

  lemma SentBefore(log: seq<nat>, more: seq<nat>, ids: seq<nat>, pkts: nat, cycle: nat)
    requires Spaced(ids, pkts, cycle) && ids != [] && cycle >= pkts >= 1
    requires AllBefore(log, ids) && Between(more, ids[0], ids[0] + pkts)
    ensures AllBefore(log + more, ids[1..]) && AllBefore(log + more, ids[1..] + [ids[0] + cycle])
  {
    assert ids[0] in ids;
    var all, rest := log + more, ids[1..] + [ids[0] + cycle];
    forall x, y | x in all && y in rest
      ensures x < y
    {
      if y in ids[1..] {
        var b :| 0 <= b < |ids| - 1 && ids[1..][b] == y;
        assert ids[0] + pkts <= ids[b + 1];
      }
    }
  }

  lemma CompletionQueued(s: Stream, c: Completion)
    requires Queued(s) && Fitting(c, s.pkts)
    ensures Queued(OnCompletion(s, 0, c))
  {
    hide OnCompletion, Sent, Stream.Cycle, Spaced, Between, Increasing, NoRepeats;
    if s.alive && s.flight != [] {
      var t, first := OnCompletion(s, 0, c), s.id[s.flight[0]];
      CompletionIs(s, 0, c);
      CycleIs(s);
      CycleKept(s, t);
      SentAre(c, first, s.pkts);
      IdsAfter(s, t);
      assert first in Ids(s) by {
        assert Ids(s)[0] == first;
      }
      AppendIncreasing(s.log, Sent(c, first), first, first + s.pkts);
      SentBefore(s.log, Sent(c, first), Ids(s), s.pkts, s.Cycle());
      SpacedAfter(Ids(s), s.pkts, s.Cycle());
    } else {
      NothingCompletes(s, 0, c);
    }
  }

  lemma CycleKept(s: Stream, t: Stream)
    requires t.pkts == s.pkts && |t.id| == |s.id|
    ensures t.Cycle() == s.Cycle()
  {
  }

  lemma NewQueued(pkts: nat, count: nat, n: nat)
    requires 1 <= pkts && 1 <= count && n <= count
    ensures Queued(NewStream(pkts, count, n))
  {
    InitialIs(pkts, count);
    var s := NewStream(pkts, count, n);
    forall a, b | 0 <= a < b < n
      ensures Ids(s)[a] + pkts <= Ids(s)[b] && Ids(s)[b] + pkts <= Ids(s)[a] + s.Cycle()
    {
      InitialSpacing(pkts, count, a, b);
    }
  }

  lemma InitialSpacing(pkts: nat, count: nat, a: nat, b: nat)
    requires a < b < count
    ensures a * pkts + pkts <= b * pkts && b * pkts + pkts <= a * pkts + count * pkts
  {
    TimesMonotone(pkts, a + 1, b);
    TimesMonotone(pkts, b + 1, count);
    TimesSum(a, 1, pkts);
    TimesSum(b, 1, pkts);
  }

  // When transfers complete in the order they were submitted, the ids sent strictly increase.
  lemma {:induction false} RunIncreases(pkts: nat, count: nat, n: nat, events: seq<Event>)
    requires 1 <= pkts && 1 <= count && n <= count && AllFitting(events, pkts) && Fifo(events)
    ensures Queued(Run(NewStream(pkts, count, n), events))
  {
    hide Queued, NewStream, OnCompletion;
    if events == [] {
      NewQueued(pkts, count, n);
    } else {
      var m := |events| - 1;
      RunIncreases(pkts, count, n, events[..m]);
      assert Fitting(events[m].completion, pkts);
      CompletionQueued(Run(NewStream(pkts, count, n), events[..m]), events[m].completion);
    }
  }

  // ----- when nothing fails and nothing is dropped -----

  ghost predicate Flawless(c: Completion, pkts: nat) {
    c.Data? && c.resubmission == Accepted && |c.sent| == pkts && forall i | 0 <= i < pkts :: c.sent[i]
  }

  // After m completions the ids sent are exactly those of m transfers, from 0 on.
  ghost predicate Exact(s: Stream, m: nat) {
    s.Formed() && s.alive && NoRepeats(s.flight) && |s.flight| == |s.id| &&
    (forall a | 0 <= a < |s.flight| :: s.id[s.flight[a]] == (m + a) * s.pkts) &&
    |s.log| == m * s.pkts && forall i | 0 <= i < |s.log| :: s.log[i] == i
  }

  lemma {:induction false} ForwardedAll(first: nat, sent: seq<bool>)
    requires forall i | 0 <= i < |sent| :: sent[i]
    ensures |Forwarded(first, sent)| == |sent|
    ensures forall i | 0 <= i < |sent| :: Forwarded(first, sent)[i] == first + i
  {
    if sent != [] {
      ForwardedAll(first, sent[..|sent| - 1]);
    }
  }

  lemma TimesSum(a: nat, b: nat, p: nat)
    ensures (a + b) * p == a * p + b * p
  {
  }

  lemma CompletionExact(s: Stream, c: Completion, m: nat)
    requires Exact(s, m) && Flawless(c, s.pkts)
    ensures Exact(OnCompletion(s, 0, c), m + 1)
  {
    var t, first := OnCompletion(s, 0, c), s.id[s.flight[0]];
    ForwardedAll(first, c.sent);
    WithoutMembers(s.flight, 0);
    CycleIs(s);
    TimesSum(m, |s.id|, s.pkts);
    TimesSum(m, 1, s.pkts);
    forall a | 0 <= a < |t.flight|
      ensures t.id[t.flight[a]] == (m + 1 + a) * s.pkts
    {
      if a == |t.flight| - 1 {
        assert m + 1 + a == m + |s.id|;
      } else {
        assert t.flight[a] == s.flight[a + 1] != s.flight[0];
      }
    }
  }

  // Then the ids are exactly 0, 1, 2, and so on.
  lemma {:induction false} RunExact(pkts: nat, count: nat, events: seq<Event>)
    requires 1 <= pkts && 1 <= count && Fifo(events)
    requires forall i | 0 <= i < |events| :: Flawless(events[i].completion, pkts)
    ensures Exact(Run(NewStream(pkts, count, count), events), |events|)
  {
    if events == [] {
      InitialIs(pkts, count);
    } else {
      hide Exact, NewStream, OnCompletion, Flawless;
      var m := |events| - 1;
      RunExact(pkts, count, events[..m]);
      CompletionExact(Run(NewStream(pkts, count, count), events[..m]), events[m].completion, m);
    }
  }

  // ----- the stream in place -----

  class InStream {
    const pkts: nat
    const count: nat
    var id: seq<nat>
    var alive: bool
    var flight: seq<nat>
    ghost var log: seq<nat>

    ghost function S(): Stream
      reads this
    {
      Stream(pkts, id, flight, alive, log)
    }

    ghost predicate Valid()
      reads this
    {
      S().Formed() && |id| == count
    }

    // Numbers and submits the transfers in turn; the device may go before transfer n is submitted.
    constructor (pkts: nat, count: nat, n: nat)
      requires 1 <= pkts && 1 <= count && n <= count
      ensures Valid() && S().pkts == pkts && |S().id| == count
      ensures n == count ==> S() == NewStream(pkts, count, count)
      ensures S().flight == NewStream(pkts, count, n).flight && S().log == [] && S().alive
      ensures forall k | 0 <= k < n :: S().id[k] == NewStream(pkts, count, n).id[k]
    {
      InitialIs(pkts, count);
      this.pkts, this.count := pkts, count;
      id := seq(count, _ => 0);
      alive, flight, log := true, [], [];
      new;
      for i := 0 to n
        invariant |id| == count && alive && log == [] && flight == FirstSlots(i)
        invariant forall k | 0 <= k < i :: id[k] == k * pkts
      {
        id := id[i := i * pkts];
        flight := flight + [i];
      }
      assert n == count ==> id == Initial(pkts, count);
    }

    // Sends or drops the packets one by one, each under the next id.
    method SendPackets(slot: nat, sent: seq<bool>)
      requires Valid() && slot < |id|
      modifies this`id, this`log
      ensures Valid() && id == old(id)[slot := old(id)[slot] + |sent|] && log == old(log) + Forwarded(old(id)[slot], sent)
    {
      ghost var first := id[slot];
      for i := 0 to |sent|
        invariant Valid() && id == old(id)[slot := first + i] && log == old(log) + Forwarded(first, sent[..i])
      {
        assert sent[..i + 1][..i] == sent[..i];
        if sent[i] {
          log := log + [id[slot]];
        }
        id := id[slot := id[slot] + 1];
      }
      assert sent[..|sent|] == sent;
    }

    method Resubmit(slot: nat, r: Resubmission)
      requires Valid() && slot < |id|
      modifies this
      ensures Valid()
      ensures var s := old(S()); S() == Resubmitted(s.(id := s.id[slot := s.id[slot] + Others(count, pkts)]), slot, r)
    {
      id := id[slot := id[slot] + Others(count, pkts)];
      match r
      case Accepted => flight := flight + [slot];
      case DeviceGone =>
      case Refused => alive := false;
    }

    // The k-th oldest transfer completes.
    method Complete(k: nat, c: Completion)
      requires Valid() && Fitting(c, pkts)
      modifies this
      ensures Valid() && S() == OnCompletion(old(S()), k, c)
    {
      if !alive || k >= |flight| {
        return;
      }
      hide Forwarded, Without, Others;
      var slot := flight[k];
      flight := Without(flight, k);
      match c
      case Data(sent, resubmission) =>
        SendPackets(slot, sent);
        Resubmit(slot, resubmission);
      case Failed(resubmission) =>
        log := log + [id[slot]];
        id := id[slot := id[slot] + pkts];
        Resubmit(slot, resubmission);
      case Cut(sent, ends) =>
        SendPackets(slot, sent);
        alive := !ends;
    }
  }
}
