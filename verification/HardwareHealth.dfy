/** ACK window and feedback freshness (hardware_health.hpp). Times are nanoseconds of one steady clock. */
module HardwareHealth {
  import opened Basics
  import opened CanProtocol

  datatype AckStatus = NoAck | Accepted | Rejected | Unexpected | Ignored

  datatype PendingAck = PendingAck(sequence: byte, sentAt: int)

  predicate PastDeadline(since: int, now: int, timeout: int) {
    now - since > timeout
  }

  /** The value of a health tracker; each function is one member function of the source. */
  datatype Health = Health(
    pending: Pair<seq<PendingAck>>,
    ignored: Pair<Option<byte>>,
    lastStatus: Pair<AckStatus>,
    lastFeedback: Pair<int>,
    ackFault: bool,
    stopSent: bool)
  {
    static function Reset(now: int): Health {
      Health(Pair([], []), Pair(None, None), Pair(NoAck, NoAck), Pair(now, now), false, false)
    }

    function CommandSent(index: nat, sequence: byte, now: int): Health {
      if index < 2
      then this.(pending := pending.With(index, pending.At(index) + [PendingAck(sequence, now)]))
      else this
    }

    function SafeStopSent(index: nat, sequence: byte): Health {
      if index < 2 then this.(ignored := ignored.With(index, Some(sequence))) else this
    }

    function AckReceived(index: nat, sequence: byte, result: byte): (Health, AckStatus) {
      if index >= 2 then
        (this.(ackFault := true), Unexpected)
      else if pending.At(index) != [] && pending.At(index)[0].sequence == sequence then
        var popped := this.(pending := pending.With(index, pending.At(index)[1..]));
        if result == 0 then
          (popped.(lastStatus := lastStatus.With(index, Accepted)), Accepted)
        else
          (popped.(ackFault := true, lastStatus := lastStatus.With(index, Rejected)), Rejected)
      else if ignored.At(index) == Some(sequence) then
        (this.(ignored := ignored.With(index, None), lastStatus := lastStatus.With(index, Ignored)), Ignored)
      else
        (this.(ackFault := true, lastStatus := lastStatus.With(index, Unexpected)), Unexpected)
    }

    /** Only the front of the FIFO is compared with the clock. */
    predicate AckTimedOut(index: nat, now: int, timeout: int) {
      index < 2 && pending.At(index) != [] && PastDeadline(pending.At(index)[0].sentAt, now, timeout)
    }

    function FeedbackReceived(index: nat, now: int): Health {
      if index < 2 then this.(lastFeedback := lastFeedback.With(index, now)) else this
    }

    predicate FeedbackTimedOut(index: nat, now: int, timeout: int) {
      index < 2 && PastDeadline(lastFeedback.At(index), now, timeout)
    }

    function MarkStopSent(): Health {
      this.(stopSent := true)
    }
  }

  /** The oldest pending command of motor `i` carries this sequence. */
  predicate AnswersOldest(h: Health, i: nat, sequence: byte)
    requires i < 2
  {
    h.pending.At(i) != [] && h.pending.At(i)[0].sequence == sequence
  }

  /**
    What every ACK does, in terms of the windows, slots and the fault flag: one for the oldest pending
    command pops exactly that command and is accepted if its result is 0, else rejected with a fault;
    otherwise one for the awaited stop uses up the slot; anything else is unexpected, a fault that
    leaves windows and slots alone. The other motor is never touched.
  */
  lemma AckOutcomes(h: Health, i: nat, sequence: byte, result: byte)
    requires i < 2
    ensures var (n, status) := h.AckReceived(i, sequence, result);
      var fault := if AnswersOldest(h, i, sequence) then result != 0 else h.ignored.At(i) != Some(sequence);
      && n.pending == h.pending.With(i, if AnswersOldest(h, i, sequence) then h.pending.At(i)[1..] else h.pending.At(i))
      && n.ignored == h.ignored.With(i,
           if !AnswersOldest(h, i, sequence) && h.ignored.At(i) == Some(sequence) then None else h.ignored.At(i))
      && n.ackFault == (h.ackFault || fault)
      && n.lastFeedback == h.lastFeedback && n.stopSent == h.stopSent
      && n.lastStatus == h.lastStatus.With(i, status)
      && (status == Accepted <==> AnswersOldest(h, i, sequence) && result == 0)
      && (status == Rejected <==> AnswersOldest(h, i, sequence) && result != 0)
      && (status == Ignored <==> !AnswersOldest(h, i, sequence) && h.ignored.At(i) == Some(sequence))
      && (status == Unexpected <==> !AnswersOldest(h, i, sequence) && h.ignored.At(i) != Some(sequence))
  {
  }

  /** A motor that does not exist: its ACK is an unexpected one, and nothing else about it is recorded. */
  lemma UnknownMotor(h: Health, index: nat, sequence: byte, result: byte, now: int, timeout: int)
    requires index >= 2
    ensures h.AckReceived(index, sequence, result) == (h.(ackFault := true), Unexpected)
    ensures h.CommandSent(index, sequence, now) == h.SafeStopSent(index, sequence) == h.FeedbackReceived(index, now) == h
    ensures !h.AckTimedOut(index, now, timeout) && !h.FeedbackTimedOut(index, now, timeout)
  {
  }

  /** Send times never decrease along a FIFO filled under a monotone clock. */
  predicate Chronological(pending: seq<PendingAck>, now: int) {
    && (forall j, k :: 0 <= j < k < |pending| ==> pending[j].sentAt <= pending[k].sentAt)
    && (forall j :: 0 <= j < |pending| ==> pending[j].sentAt <= now)
  }

  predicate SomeOverdue(pending: seq<PendingAck>, now: int, timeout: int) {
    exists j :: 0 <= j < |pending| && PastDeadline(pending[j].sentAt, now, timeout)
  }

  /** Pushes and pops keep the FIFO chronological, at every later time. */
  lemma ChronologicalKept(h: Health, i: nat, at: int, sequence: byte, result: byte, later: int)
    requires i < 2 && Chronological(h.pending.At(i), at) && at <= later
    ensures Chronological(h.CommandSent(i, sequence, later).pending.At(i), later)
    ensures Chronological(h.AckReceived(i, sequence, result).0.pending.At(i), later)
  {
  }

  /** Looking at the front entry alone finds a missed deadline exactly when some entry has missed it. */
  lemma FrontDeadlineIsFullScan(h: Health, i: nat, now: int, timeout: int)
    requires i < 2 && Chronological(h.pending.At(i), now)
    ensures h.AckTimedOut(i, now, timeout) <==> SomeOverdue(h.pending.At(i), now, timeout)
  {
    var p := h.pending.At(i);
    if j :| 0 <= j < |p| && PastDeadline(p[j].sentAt, now, timeout) {
      assert p[0].sentAt <= p[j].sentAt;
    }
  }

  /** A reset starts every deadline anew: nothing is pending, and no feedback is late before its timeout has passed. */
  lemma ResetRestartsDeadlines(at: int, i: nat, now: int, feedbackTimeout: int, ackTimeout: int)
    requires i < 2
    ensures Health.Reset(at).FeedbackTimedOut(i, now, feedbackTimeout) <==> now > at + feedbackTimeout
    ensures !Health.Reset(at).AckTimedOut(i, now, ackTimeout)
    ensures !Health.Reset(at).ackFault && Health.Reset(at).ignored.At(i) == None && Health.Reset(at).pending.At(i) == []
    ensures Health.Reset(at).lastStatus.At(i) == NoAck && !Health.Reset(at).stopSent
  {
  }

  /**
    Feedback restarts the deadline of its own motor and of no other; no ACK or command touches a
    deadline, and one that is missed stays missed until that motor reports again.
  */
  lemma FeedbackDeadline(h: Health, i: nat, j: nat, at: int, sequence: byte, result: byte, now: int, later: int, timeout: int)
    requires i < 2 && j < 2 && now <= later
    ensures h.FeedbackReceived(i, at).FeedbackTimedOut(j, now, timeout)
       <==> if i == j then now - at > timeout else h.FeedbackTimedOut(j, now, timeout)
    ensures h.AckReceived(i, sequence, result).0.FeedbackTimedOut(j, now, timeout) == h.FeedbackTimedOut(j, now, timeout)
    ensures h.CommandSent(i, sequence, at).FeedbackTimedOut(j, now, timeout) == h.FeedbackTimedOut(j, now, timeout)
    ensures h.FeedbackTimedOut(j, now, timeout) ==> h.FeedbackTimedOut(j, later, timeout)
  {
  }

  class HardwareHealth {
    var pendingAcks: Pair<seq<PendingAck>>
    var ignoredAckSequences: Pair<Option<byte>>
    var lastAckStatus: Pair<AckStatus>
    var lastFeedback: Pair<int>
    var ackFault: bool
    var stopSent: bool

    ghost function View(): Health
      reads this
    {
      Health(pendingAcks, ignoredAckSequences, lastAckStatus, lastFeedback, ackFault, stopSent)
    }

    constructor ()
      ensures View() == Health.Reset(0)
    {
      pendingAcks := Pair([], []);
      ignoredAckSequences := Pair(None, None);
      lastAckStatus := Pair(NoAck, NoAck);
      lastFeedback := Pair(0, 0);
      ackFault := false;
      stopSent := false;
    }

    method Reset(now: int)
      modifies this
      ensures View() == Health.Reset(now)
    {
      lastFeedback := Pair(now, now);
      for index := 0 to 2
        invariant index >= 1 ==> pendingAcks.left == []
        invariant index == 2 ==> pendingAcks.right == []
        invariant lastFeedback == Pair(now, now)
      {
        pendingAcks := pendingAcks.With(index, []);
      }
      ignoredAckSequences := Pair(None, None);
      lastAckStatus := Pair(NoAck, NoAck);
      ackFault := false;
      stopSent := false;
    }

    method CommandSent(index: nat, sequence: byte, now: int)
      modifies this
      ensures View() == old(View()).CommandSent(index, sequence, now)
    {
      if index < 2 {
        pendingAcks := pendingAcks.With(index, pendingAcks.At(index) + [PendingAck(sequence, now)]);
      }
    }

    method SafeStopSent(index: nat, sequence: byte)
      modifies this
      ensures View() == old(View()).SafeStopSent(index, sequence)
    {
      if index < 2 {
        ignoredAckSequences := ignoredAckSequences.With(index, Some(sequence));
      }
    }

    method AckReceived(index: nat, sequence: byte, result: byte) returns (status: AckStatus)
      modifies this
      ensures (View(), status) == old(View()).AckReceived(index, sequence, result)
    {
      if index >= 2 {
        ackFault := true;
        return Unexpected;
      }
      var pending := pendingAcks.At(index);
      if |pending| != 0 && pending[0].sequence == sequence {
        pendingAcks := pendingAcks.With(index, pending[1..]);
        if result == 0 {
          lastAckStatus := lastAckStatus.With(index, Accepted);
          return Accepted;
        }
        ackFault := true;
        lastAckStatus := lastAckStatus.With(index, Rejected);
        return Rejected;
      }
      if ignoredAckSequences.At(index) == Some(sequence) {
        ignoredAckSequences := ignoredAckSequences.With(index, None);
        lastAckStatus := lastAckStatus.With(index, Ignored);
        return Ignored;
      }
      ackFault := true;
      lastAckStatus := lastAckStatus.With(index, Unexpected);
      return Unexpected;
    }

    method FeedbackReceived(index: nat, now: int)
      modifies this
      ensures View() == old(View()).FeedbackReceived(index, now)
    {
      if index < 2 {
        lastFeedback := lastFeedback.With(index, now);
      }
    }

    method MarkStopSent()
      modifies this
      ensures View() == old(View()).MarkStopSent()
    {
      stopSent := true;
    }

    predicate AckTimedOut(index: nat, now: int, timeout: int)
      reads this
      ensures AckTimedOut(index, now, timeout) <==> View().AckTimedOut(index, now, timeout)
      ensures index < 2 && Chronological(pendingAcks.At(index), now) ==>
        (AckTimedOut(index, now, timeout) <==> SomeOverdue(pendingAcks.At(index), now, timeout))
    {
      index < 2 && |pendingAcks.At(index)| != 0 && PastDeadline(pendingAcks.At(index)[0].sentAt, now, timeout)
    }

    predicate FeedbackTimedOut(index: nat, now: int, timeout: int)
      reads this
      ensures FeedbackTimedOut(index, now, timeout) <==> View().FeedbackTimedOut(index, now, timeout)
    {
      index < 2 && PastDeadline(lastFeedback.At(index), now, timeout)
    }

    /** The scan over both motors: with chronological FIFOs it reports any overdue entry at all. */
    method AnyAckTimedOut(now: int, timeout: int) returns (late: bool)
      requires Chronological(pendingAcks.left, now) && Chronological(pendingAcks.right, now)
      ensures late <==> SomeOverdue(pendingAcks.left, now, timeout) || SomeOverdue(pendingAcks.right, now, timeout)
    {
      for index := 0 to 2
        invariant forall i :: 0 <= i < index ==> !View().AckTimedOut(i, now, timeout)
      {
        FrontDeadlineIsFullScan(View(), index, now, timeout);
        if AckTimedOut(index, now, timeout) {
          return true;
        }
      }
      FrontDeadlineIsFullScan(View(), 0, now, timeout);
      FrontDeadlineIsFullScan(View(), 1, now, timeout);
      return false;
    }

    method AnyFeedbackTimedOut(now: int, timeout: int) returns (late: bool)
      ensures late <==> exists i :: 0 <= i < 2 && PastDeadline(lastFeedback.At(i), now, timeout)
    {
      for index := 0 to 2
        invariant forall i :: 0 <= i < index ==> !PastDeadline(lastFeedback.At(i), now, timeout)
      {
        if FeedbackTimedOut(index, now, timeout) {
          return true;
        }
      }
      return false;
    }
  }
}
