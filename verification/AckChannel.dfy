/**
  One motor's share of an activation session, by attempt number: the driver's ACK window, the
  in-order queues that may lose frames, and what the motor has applied. Numbers never wrap; the
  window is matched by the 8-bit sequences the frames really carry.
*/
module AckChannel {
  import opened Basics
  import opened CanProtocol
  import opened HardwareHealth
  import opened DriverModel
  import opened DriverInvariants

  /** One ACK the driver took from its receiver: its attempt number, how it was classified, and when. */
  datatype Verdict = Verdict(number: nat, status: AckStatus, oldest: nat, window: nat, applied: bool)

  datatype Channel = Channel(
    sent: nat,                    // attempts so far
    stop: nat,                    // the attempt that was this session's activation stop
    pending: seq<PendingAck>,
    slot: Option<byte>,           // the sequence whose ACK is to be ignored
    commands: seq<nat>,           // attempts on their way to the motor
    acks: seq<nat>,               // attempts whose ACKs are on their way back
    applied: set<nat>,            // attempts the motor has applied
    verdicts: seq<Verdict>)       // this session's ACKs so far
  {
    /** The number of the oldest pending command, or of the next attempt when none is pending. */
    function Oldest(): int { sent - |pending| + 1 }

    function InFlight(): seq<nat> { acks + commands }

    predicate Outstanding(n: nat) { Oldest() <= n <= sent }
  }

  /** How the health tracker classifies a result-0 ACK; the tracker's other motor plays no part. */
  function Match(pending: seq<PendingAck>, slot: Option<byte>, sequence: byte): AckStatus {
    if pending != [] && pending[0].sequence == sequence then Accepted
    else if slot == Some(sequence) then Ignored
    else Unexpected
  }

  lemma MatchIsTheTracker(h: Health, i: nat, sequence: byte)
    requires i < 2
    ensures var (n, status) := h.AckReceived(i, sequence, 0);
      && status == Match(h.pending.At(i), h.ignored.At(i), sequence)
      && n.pending == (if status == Accepted then h.pending.With(i, h.pending.At(i)[1..]) else h.pending)
      && n.ignored == (if status == Ignored then h.ignored.With(i, None) else h.ignored)
      && n.ackFault == (h.ackFault || status == Unexpected)
      && n.lastFeedback == h.lastFeedback
  {
  }

  datatype Action =
    | Send(at: int)          // a tracked command goes out
    | Deliver                // the motor applies the command at the front and acknowledges it
    | LoseCommand(j: nat)
    | LoseAck(j: nat)
    | Drain                  // the driver takes the ACK at the front

  function Without<T>(s: seq<T>, j: nat): seq<T>
    requires j < |s|
  {
    s[..j] + s[j + 1..]
  }

  predicate Can(c: Channel, a: Action) {
    match a
    case Send(_) => true
    case Deliver => c.commands != []
    case LoseCommand(j) => j < |c.commands|
    case LoseAck(j) => j < |c.acks|
    case Drain => c.acks != []
  }

  function Do(c: Channel, a: Action): Channel
    requires Can(c, a)
  {
    match a
    case Send(at) =>
      c.(sent := c.sent + 1, pending := c.pending + [PendingAck(WireSequence(c.sent + 1), at)],
         commands := c.commands + [c.sent + 1])
    case Deliver =>
      c.(commands := c.commands[1..], acks := c.acks + [c.commands[0]], applied := c.applied + {c.commands[0]})
    case LoseCommand(j) => c.(commands := Without(c.commands, j))
    case LoseAck(j) => c.(acks := Without(c.acks, j))
    case Drain =>
      var n := c.acks[0];
      var status := Match(c.pending, c.slot, WireSequence(n));
      c.(acks := c.acks[1..],
         pending := if status == Accepted then c.pending[1..] else c.pending,
         slot := if status == Ignored then None else c.slot,
         verdicts := c.verdicts + [Verdict(n, status, Max0(c.Oldest()), |c.pending|, n in c.applied)])
  }

  function Max0(x: int): nat { if x < 0 then 0 else x }

  /** A session just after its activation stop, behind the commands of earlier sessions that are still in flight. */
  function OpenedOver(stale: seq<nat>, sent: nat, applied: set<nat>): Channel {
    Channel(sent, sent, [], Some(WireSequence(sent)), stale + [sent], [], applied, [])
  }

  /** The same on a quiet bus. */
  function Opened(sent: nat, applied: set<nat>): Channel {
    OpenedOver([], sent, applied)
  }

  // ---- Matching by eight bits -----------------------------------------------------------------------

  /** Within 256 consecutive numbers, equal sequences are equal numbers. */
  lemma NoAliasWithin256(m: nat, n: nat)
    requires m <= n < m + 0x100 && WireSequence(m) == WireSequence(n)
    ensures m == n
  {
  }

  /**
    Exactly when matching by sequence is matching by number: in a contiguous window, no outstanding
    number but the oldest can be accepted if and only if at most 256 commands are pending.
  */
  lemma AcceptsOldestOnlyExactly(pending: seq<PendingAck>, slot: Option<byte>, sent: nat)
    requires Contiguous(pending, sent) && pending != []
    ensures (forall n: nat :: sent - |pending| + 1 <= n <= sent && Match(pending, slot, WireSequence(n)) == Accepted ==>
              n == sent - |pending| + 1)
       <==> |pending| <= 0x100
  {
    var oldest := sent - |pending| + 1;
    assert pending[0].sequence == WireSequence(oldest);
    if |pending| <= 0x100 {
      forall n: nat | oldest <= n <= sent && Match(pending, slot, WireSequence(n)) == Accepted ensures n == oldest {
        NoAliasWithin256(oldest, n);
      }
    } else {
      assert Match(pending, slot, WireSequence(oldest + 0x100)) == Accepted;
    }
  }

  // ---- What holds whatever was in flight at the activation ----------------------------------------------

  /** The window is the contiguous run ending at the latest attempt and begins after the stop, whose sequence the slot may hold. */
  predicate Session(c: Channel) {
    && Contiguous(c.pending, c.sent)
    && 1 <= c.stop && c.stop + |c.pending| <= c.sent
    && (c.slot.Some? ==> c.slot.value == WireSequence(c.stop))
  }

  lemma OpenedSession(stale: seq<nat>, sent: nat, applied: set<nat>)
    requires sent >= 1
    ensures Session(OpenedOver(stale, sent, applied))
  {
  }

  lemma SessionKept(c: Channel, a: Action)
    requires Session(c) && Can(c, a)
    ensures Session(Do(c, a)) && Do(c, a).stop == c.stop && c.verdicts <= Do(c, a).verdicts
  {
    hide Contiguous, WireSequence;
    match a
    case Send(at) => WindowPush(c.pending, c.sent, at);
    case Drain =>
      if c.pending != [] {
        WindowPop(c.pending, c.sent);
      }
    case _ =>
  }

  /**
    Why activation needs a quiet bus. In every state of a session the ACK of an attempt before the
    session raises the alarm exactly when its number agrees modulo 256 neither with the oldest pending
    command nor with a stop whose ACK is still awaited; so always within 255 of the latest attempt, and
    no further: the stale ACK is even accepted for the oldest pending command 256 attempts later.
  */
  lemma StaleAckAlarmsExactly(c: Channel, n: nat)
    requires Session(c) && n < c.stop
    ensures Match(c.pending, c.slot, WireSequence(n)) == Unexpected <==>
      !(c.pending != [] && n % 0x100 == c.Oldest() % 0x100) && !(c.slot.Some? && n % 0x100 == c.stop % 0x100)
    ensures c.sent - n < 0x100 ==> Match(c.pending, c.slot, WireSequence(n)) == Unexpected
    ensures c.pending != [] && c.Oldest() == n + 0x100 ==> Match(c.pending, c.slot, WireSequence(n)) == Accepted
  {
    if c.pending != [] {
      assert c.pending[0].sequence == WireSequence(c.Oldest());
      if c.sent - n < 0x100 && WireSequence(n) == WireSequence(c.Oldest()) {
        NoAliasWithin256(n, c.Oldest());
      }
    }
    if c.sent - n < 0x100 && WireSequence(n) == WireSequence(c.stop) {
      NoAliasWithin256(n, c.stop);
    }
  }

  // ---- The invariant ----------------------------------------------------------------------------------

  predicate Ascending(s: seq<nat>) {
    forall j, k :: 0 <= j < k < |s| ==> s[j] < s[k]
  }

  /** Numbers in flight: in order, each the session's stop or an outstanding command. */
  ghost predicate FlightOk(c: Channel) {
    && Ascending(c.InFlight())
    && (forall n :: n in c.InFlight() ==> n <= c.sent && (n == c.stop || c.Oldest() <= n))
    && (c.stop in c.InFlight() ==> c.slot.Some? && c.verdicts == [] && |c.pending| == c.sent - c.stop)
    && (forall n :: n in c.acks ==> n in c.applied)
  }

  /** What every classification meant. */
  predicate Sound(c: Channel, v: Verdict) {
    && v.applied && v.number in c.applied && v.status != Rejected && v.status != NoAck
    && (v.status == Accepted <==> v.window > 0 && v.number == v.oldest)
    && (v.status == Accepted ==> v.number < c.Oldest())
    && (v.status == Ignored ==> v.number == c.stop || (v.number > v.oldest && WireSequence(v.number) == WireSequence(c.stop)))
    && (v.number == c.stop ==> v.status == Ignored)
    && c.stop <= v.number <= c.sent
  }

  ghost predicate VerdictsOk(c: Channel) {
    && (forall j :: 0 <= j < |c.verdicts| ==> Sound(c, c.verdicts[j]))
    && (forall j, k :: 0 <= j < k < |c.verdicts| ==> c.verdicts[j].number < c.verdicts[k].number)
    && (forall j, n :: 0 <= j < |c.verdicts| && n in c.InFlight() ==> c.verdicts[j].number < n)
    && (forall j, k :: 0 <= j < k < |c.verdicts| ==> !(c.verdicts[j].status == Ignored && c.verdicts[k].status == Ignored))
    && (c.slot.Some? ==> forall j :: 0 <= j < |c.verdicts| ==> c.verdicts[j].status != Ignored)
  }

  ghost predicate ChannelInv(c: Channel) {
    Session(c) && FlightOk(c) && VerdictsOk(c)
  }

  lemma OpenedInv(sent: nat, applied: set<nat>)
    requires sent >= 1
    ensures ChannelInv(Opened(sent, applied))
  {
    var c := Opened(sent, applied);
    assert c.InFlight() == [sent];
    assert FlightOk(c) && VerdictsOk(c);
  }

  lemma AscendingPush(s: seq<nat>, x: nat)
    requires Ascending(s) && forall n :: n in s ==> n < x
    ensures Ascending(s + [x])
  {
    forall a, b | 0 <= a < b < |s + [x]| ensures (s + [x])[a] < (s + [x])[b] {
      assert s[a] in s;
    }
  }

  lemma SendKeeps(c: Channel, at: int)
    requires ChannelInv(c)
    ensures ChannelInv(Do(c, Send(at)))
  {
    hide Contiguous, WireSequence;
    var n := Do(c, Send(at));
    WindowPush(c.pending, c.sent, at);
    assert n.InFlight() == c.InFlight() + [c.sent + 1];
    AscendingPush(c.InFlight(), c.sent + 1);
    forall j | 0 <= j < |c.verdicts| ensures Sound(n, n.verdicts[j]) {
      SoundKept(c, n, c.verdicts[j]);
    }
  }

  lemma DeliverKeeps(c: Channel)
    requires ChannelInv(c) && c.commands != []
    ensures ChannelInv(Do(c, Deliver))
  {
    assert Do(c, Deliver).InFlight() == c.InFlight();
  }

  lemma WithoutIsLess<T>(s: seq<T>, j: nat)
    requires j < |s|
    ensures |Without(s, j)| == |s| - 1
    ensures forall k :: 0 <= k < |s| - 1 ==> Without(s, j)[k] == (if k < j then s[k] else s[k + 1])
  {
    forall k | 0 <= k < |s| - 1 ensures Without(s, j)[k] == (if k < j then s[k] else s[k + 1]) {
      if k >= j {
        assert Without(s, j)[k] == s[j + 1..][k - j];
      }
    }
  }

  lemma WithoutKeepsOrder(s: seq<nat>, j: nat)
    requires j < |s|
    ensures forall n :: n in Without(s, j) ==> n in s
    ensures Ascending(s) ==> Ascending(Without(s, j))
  {
    var w := Without(s, j);
    WithoutIsLess(s, j);
    forall n | n in w ensures n in s {
      var k :| 0 <= k < |w| && w[k] == n;
      assert n == if k < j then s[k] else s[k + 1];
    }
    if Ascending(s) {
      forall a, b | 0 <= a < b < |w| ensures w[a] < w[b] {
        assert w[a] == s[if a < j then a else a + 1] && w[b] == s[if b < j then b else b + 1];
      }
    }
  }

  /** Fewer frames in flight, in the same order. */
  lemma FewerKeeps(c: Channel, d: Channel)
    requires ChannelInv(c) && d == c.(commands := d.commands, acks := d.acks)
    requires Ascending(d.InFlight())
    requires forall n :: n in d.InFlight() ==> n in c.InFlight()
    requires forall n :: n in d.acks ==> n in c.acks
    ensures ChannelInv(d)
  {
    hide Contiguous, Sound, WireSequence, Channel.InFlight, Ascending;
    assert VerdictsOk(d) by {
      forall j | 0 <= j < |d.verdicts| ensures Sound(d, d.verdicts[j]) {
        assert Sound(c, c.verdicts[j]);
        SoundKept(c, d, c.verdicts[j]);
      }
    }
  }

  lemma SoundKept(c: Channel, d: Channel, v: Verdict)
    requires Sound(c, v) && d.stop == c.stop && c.Oldest() <= d.Oldest() && c.sent <= d.sent && c.applied <= d.applied
    ensures Sound(d, v)
  {
  }

  /** Losing any frame keeps the order of the others. */
  lemma LossKeeps(c: Channel, a: Action)
    requires ChannelInv(c) && (a.LoseCommand? || a.LoseAck?) && Can(c, a)
    ensures ChannelInv(Do(c, a))
  {
    hide ChannelInv, Ascending;
    var d := Do(c, a);
    var j := if a.LoseAck? then a.j else |c.acks| + a.j;
    assert d.InFlight() == Without(c.InFlight(), j);
    assert Ascending(c.InFlight()) by { InvParts(c); }
    WithoutKeepsOrder(c.InFlight(), j);
    if a.LoseAck? {
      WithoutKeepsOrder(c.acks, a.j);
    }
    FewerKeeps(c, d);
  }

  lemma InvParts(c: Channel)
    requires ChannelInv(c)
    ensures Ascending(c.InFlight())
  {
  }

  /** The ACK at the front, against a window of at most 256: accepted exactly if it is the oldest command's. */
  lemma FrontAck(c: Channel)
    requires ChannelInv(c) && c.acks != [] && |c.pending| <= 0x100
    ensures var n := c.acks[0]; var status := Match(c.pending, c.slot, WireSequence(n));
      && (n == c.stop || c.Outstanding(n))
      && n in c.applied
      && (status == Accepted <==> c.pending != [] && n == c.Oldest())
      && (n == c.stop ==> status == Ignored)
      && (forall m :: m in c.InFlight()[1..] ==> n < m)
  {
    var n := c.acks[0];
    assert c.InFlight()[0] == n;
    assert n in c.InFlight();
    if c.pending != [] {
      assert c.pending[0].sequence == WireSequence(c.Oldest());
      if c.Outstanding(n) && WireSequence(n) == WireSequence(c.Oldest()) {
        NoAliasWithin256(c.Oldest(), n);
      }
    }
  }

  lemma DrainKeeps(c: Channel)
    requires ChannelInv(c) && c.acks != [] && |c.pending| <= 0x100
    ensures ChannelInv(Do(c, Drain))
  {
    FrontAck(c);
    var d := Do(c, Drain);
    var n := c.acks[0];
    assert d.InFlight() == c.InFlight()[1..] && c.InFlight()[0] == n;
    assert forall m :: m in d.InFlight() ==> m in c.InFlight();
    DrainVerdicts(c);
    DrainFlight(c);
    if d.pending != c.pending {
      WindowPop(c.pending, c.sent);
    }
  }

  lemma DrainFlight(c: Channel)
    requires ChannelInv(c) && c.acks != [] && |c.pending| <= 0x100
    ensures FlightOk(Do(c, Drain))
  {
    hide Contiguous, Sound, WireSequence, VerdictsOk;
    FrontAck(c);
    var d := Do(c, Drain);
    assert d.InFlight() == c.InFlight()[1..] && c.InFlight()[0] == c.acks[0];
    assert forall m :: m in d.InFlight() ==> m in c.InFlight();
    assert forall j :: 0 <= j < |d.InFlight()| ==> d.InFlight()[j] == c.InFlight()[j + 1];
  }

  lemma DrainVerdicts(c: Channel)
    requires ChannelInv(c) && c.acks != [] && |c.pending| <= 0x100
    ensures VerdictsOk(Do(c, Drain))
  {
    hide Contiguous, WireSequence, Channel.InFlight;
    FrontAck(c);
    var d := Do(c, Drain);
    var n := c.acks[0];
    FrontOfFlight(c);
    assert Sound(d, d.verdicts[|c.verdicts|]) by { FrontIsSound(c); }
    forall j | 0 <= j < |c.verdicts| ensures Sound(d, d.verdicts[j]) {
      SoundKept(c, d, c.verdicts[j]);
    }
  }

  lemma FrontOfFlight(c: Channel)
    requires c.acks != []
    ensures c.acks[0] in c.InFlight() && Do(c, Drain).InFlight() == c.InFlight()[1..]
    ensures forall m :: m in Do(c, Drain).InFlight() ==> m in c.InFlight()
  {
    assert c.InFlight()[0] == c.acks[0];
  }

  lemma FrontIsSound(c: Channel)
    requires ChannelInv(c) && c.acks != [] && |c.pending| <= 0x100
    ensures var d := Do(c, Drain); Sound(d, d.verdicts[|c.verdicts|])
  {
    hide Contiguous, WireSequence, VerdictsOk;
    FrontAck(c);
  }

  /** Every action keeps the invariant; only taking an ACK needs the window bound. */
  lemma ActionKeeps(c: Channel, a: Action)
    requires ChannelInv(c) && Can(c, a)
    requires a == Drain ==> |c.pending| <= 0x100
    ensures ChannelInv(Do(c, a))
  {
    hide ChannelInv;
    match a
    case Send(at) => SendKeeps(c, at);
    case Deliver => DeliverKeeps(c);
    case LoseCommand(_) => LossKeeps(c, a);
    case LoseAck(_) => LossKeeps(c, a);
    case Drain => DrainKeeps(c);
  }

  // ---- Loss ---------------------------------------------------------------------------------------------

  /** A command that is outstanding although neither it nor its ACK is on the bus. */
  ghost predicate Lost(c: Channel, n: nat) {
    c.Outstanding(n) && n !in c.InFlight()
  }

  /** Losing a command or its ACK leaves it outstanding and off the bus, unless it is the session's stop. */
  lemma LossMakesLost(c: Channel, a: Action)
    requires ChannelInv(c) && (a.LoseCommand? || a.LoseAck?) && Can(c, a)
    ensures var n := if a.LoseAck? then c.acks[a.j] else c.commands[a.j];
      n != c.stop ==> Lost(Do(c, a), n)
  {
    hide Session, VerdictsOk;
    var j := if a.LoseAck? then a.j else |c.acks| + a.j;
    var flight := c.InFlight();
    assert Do(c, a).InFlight() == Without(flight, j);
    assert flight[j] in flight;
    forall k | 0 <= k < |Without(flight, j)| ensures Without(flight, j)[k] != flight[j] {
      assert Without(flight, j)[k] == if k < j then flight[k] else flight[k + 1];
    }
  }

  /** A lost command stays outstanding: no later ACK pops it. */
  lemma LostStaysLost(c: Channel, a: Action, n: nat)
    requires ChannelInv(c) && Can(c, a) && Lost(c, n)
    requires a == Drain ==> |c.pending| <= 0x100
    ensures Lost(Do(c, a), n)
  {
    hide Session, VerdictsOk, Channel.InFlight, WireSequence, Match;
    ActionAddsOnlySends(c, a);
    if a == Drain {
      FrontAck(c);
      FrontOfFlight(c);
    }
  }

  /** Only a send puts a number in flight, and that number is new. */
  lemma ActionAddsOnlySends(c: Channel, a: Action)
    requires Can(c, a)
    ensures forall m :: m in Do(c, a).InFlight() ==> m in c.InFlight() || (a.Send? && m == c.sent + 1)
  {
    var d := Do(c, a);
    match a
    case Send(_) => assert d.InFlight() == c.InFlight() + [c.sent + 1];
    case Deliver => assert d.InFlight() == c.InFlight();
    case LoseCommand(j) => WithoutKeepsOrder(c.commands, j);
    case LoseAck(j) => WithoutKeepsOrder(c.acks, j);
    case Drain => assert d.InFlight() == c.InFlight()[1..];
  }

  /**
    Behind an outstanding command at most one later ACK is absorbed, as an ignored one, and then the
    activation stop's own ACK was never taken; every other later ACK was classified unexpected.
  */
  lemma LaterAcksAreCaught(c: Channel, n: nat, j: nat, k: nat)
    requires ChannelInv(c) && c.Outstanding(n)
    requires j < |c.verdicts| && c.verdicts[j].number > n && c.verdicts[j].status != Unexpected
    ensures c.verdicts[j].status == Ignored && c.slot == None
    ensures k < |c.verdicts| ==> c.verdicts[k].number != c.stop
    ensures k < |c.verdicts| && k != j && c.verdicts[k].number > n ==> c.verdicts[k].status == Unexpected
  {
    assert Sound(c, c.verdicts[j]);
    if k < |c.verdicts| {
      assert Sound(c, c.verdicts[k]);
    }
  }

  // ---- No loss, no alarm ---------------------------------------------------------------------------------

  /** The ignored number, if the slot is set, followed by the pending numbers. */
  function Expected(c: Channel): seq<nat>
    requires |c.pending| <= c.sent
  {
    (if c.slot.Some? then [c.stop] else []) + seq(|c.pending|, j requires 0 <= j => c.sent - |c.pending| + 1 + j)
  }

  /** On a link that has lost nothing, what the driver waits for is exactly what is on the bus, in order. */
  ghost predicate Lossless(c: Channel) {
    && Contiguous(c.pending, c.sent)
    && 1 <= c.stop && c.stop + |c.pending| <= c.sent
    && (c.slot.Some? ==> c.slot.value == WireSequence(c.stop) && |c.pending| == c.sent - c.stop)
    && c.InFlight() == Expected(c)
    && forall j :: 0 <= j < |c.verdicts| ==>
         c.verdicts[j].status == Accepted || c.verdicts[j].status == Ignored
  }

  lemma OpenedLossless(sent: nat, applied: set<nat>)
    requires sent >= 1
    ensures Lossless(Opened(sent, applied))
  {
  }

  lemma LosslessSend(c: Channel, at: int)
    requires Lossless(c)
    ensures Lossless(Do(c, Send(at)))
  {
    hide Contiguous, WireSequence;
    var d := Do(c, Send(at));
    WindowPush(c.pending, c.sent, at);
    assert d.InFlight() == c.InFlight() + [c.sent + 1];
    assert Expected(d) == Expected(c) + [c.sent + 1];
  }

  lemma LosslessDeliver(c: Channel)
    requires Lossless(c) && c.commands != []
    ensures Lossless(Do(c, Deliver))
  {
    hide Contiguous, WireSequence;
    assert Do(c, Deliver).InFlight() == c.InFlight();
    assert Expected(Do(c, Deliver)) == Expected(c);
  }

  /** The ACK at the front is the stop's while the slot is set, and then the oldest command's. */
  lemma LosslessFront(c: Channel)
    requires Lossless(c) && c.acks != []
    ensures c.slot.Some? || c.pending != []
    ensures c.acks[0] == if c.slot.Some? then c.stop else c.Oldest()
    ensures Match(c.pending, c.slot, WireSequence(c.acks[0])) == if c.slot.Some? then Ignored else Accepted
  {
    assert c.InFlight()[0] == c.acks[0] == Expected(c)[0];
    assert c.pending != [] ==> c.pending[0].sequence == WireSequence(c.Oldest());
  }

  lemma LosslessDrain(c: Channel)
    requires Lossless(c) && c.acks != []
    ensures Lossless(Do(c, Drain))
  {
    hide Contiguous, WireSequence, Match;
    var d := Do(c, Drain);
    LosslessFront(c);
    assert d.InFlight() == c.InFlight()[1..];
    if c.slot == None {
      WindowPop(c.pending, c.sent);
    }
    assert Expected(d) == Expected(c)[1..];
  }

  /** Nothing lost keeps the link lossless, for any queue length and any number of pending commands. */
  lemma LosslessKept(c: Channel, a: Action)
    requires Lossless(c) && Can(c, a) && !a.LoseCommand? && !a.LoseAck?
    ensures Lossless(Do(c, a))
  {
    hide Lossless, Do;
    match a
    case Send(at) => LosslessSend(c, at);
    case Deliver => LosslessDeliver(c);
    case Drain => LosslessDrain(c);
  }
}
