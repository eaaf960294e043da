// How transfers end, and what the guest is told about it.
module UsbStatus {
  import opened UsbLink

  // How a submitted transfer completes.
  datatype TransferStatus = Completed | Errored | TimedOut | Cancelled | Stalled | NoDevice | Overflow

  // Why submitting a transfer failed.
  datatype UsbError = InvalidParam | Gone | Timeout | OtherError

  // A transfer that was not submitted is reported like one that completed.
  datatype Outcome = Transferred(status: TransferStatus) | Refused(error: UsbError)

  // libusb's answer when a stream transfer is submitted.
  datatype Answer = Done | NoSuchDevice | Failed

  // What libusb answers while one event is handled: whether a halt is cleared, and each submission in turn.
  datatype Answers = Answers(cleared: bool, submissions: seq<Answer>) {
    function At(i: nat): Answer {
      if i < |submissions| then submissions[i] else Done
    }

    // The first answer from the i-th to the n-th that does not accept, if any.
    function First(i: nat, n: nat): Answer
      requires i <= n
      decreases n - i
    {
      if i == n then Done else if At(i) != Done then At(i) else First(i + 1, n)
    }
  }

  // The first refusal among some answers is the first among more.
  lemma {:induction false} FirstOfMore(answers: Answers, i: nat, m: nat, n: nat)
    requires i <= m <= n && answers.First(i, m) != Done
    ensures answers.First(i, n) == answers.First(i, m)
    decreases m - i
  {
    if i < m && answers.At(i) == Done {
      FirstOfMore(answers, i + 1, m, n);
    }
  }

  datatype RedirStatus = RedirSuccess | RedirCancelled | RedirInval | RedirIoError | RedirStall | RedirTimeout | RedirBabble

  predicate DeviceLost(outcome: Outcome) {
    outcome == Transferred(NoDevice) || outcome == Refused(Gone)
  }

  function RedirStatusOf(outcome: Outcome): RedirStatus {
    match outcome
    case Transferred(Completed) => RedirSuccess
    case Transferred(Errored) => RedirIoError
    case Transferred(TimedOut) => RedirTimeout
    case Transferred(Cancelled) => RedirCancelled
    case Transferred(Stalled) => RedirStall
    case Transferred(NoDevice) => RedirIoError
    case Transferred(Overflow) => RedirBabble
    case Refused(InvalidParam) => RedirInval
    case Refused(Gone) => RedirIoError
    case Refused(Timeout) => RedirTimeout
    case Refused(OtherError) => RedirIoError
  }

  // What each status tells the guest; it sees a lost device as an i/o error.
  lemma StatusMeans(outcome: Outcome)
    ensures RedirStatusOf(outcome) == RedirSuccess <==> outcome == Transferred(Completed)
    ensures RedirStatusOf(outcome) == RedirCancelled <==> outcome == Transferred(Cancelled)
    ensures RedirStatusOf(outcome) == RedirStall <==> outcome == Transferred(Stalled)
    ensures RedirStatusOf(outcome) == RedirBabble <==> outcome == Transferred(Overflow)
    ensures RedirStatusOf(outcome) == RedirInval <==> outcome == Refused(InvalidParam)
    ensures RedirStatusOf(outcome) == RedirTimeout <==> outcome in {Transferred(TimedOut), Refused(Timeout)}
    ensures RedirStatusOf(outcome) == RedirIoError <==>
            DeviceLost(outcome) || outcome in {Transferred(Errored), Refused(OtherError)}
  {
  }

  // Converts the outcome, noticing on the way that the device is gone.
  method ToRedirStatus(outcome: Outcome, link: Link) returns (status: RedirStatus)
    requires link.Valid()
    modifies link
    ensures link.Valid() && link.hasDevice == old(link.hasDevice) && link.havePeerCaps == old(link.havePeerCaps)
    ensures link.connectPending == old(link.connectPending) && (old(link.disconnected) ==> link.history == old(link.history))
    ensures status == RedirStatusOf(outcome)
    ensures link.disconnected == (old(link.disconnected) || DeviceLost(outcome))
    ensures link.history == old(link.history) +
                            if DeviceLost(outcome) && !old(link.disconnected) then [Disconnect] else []
  {
    if DeviceLost(outcome) {
      link.HandleDisconnect();
    }
    status := RedirStatusOf(outcome);
  }
}
