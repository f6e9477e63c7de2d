/** What reaches the driver from the feedback timer: conservation, order, drop pattern, quantisation. */
module FeedbackPath {
  import opened Basics
  import opened CanProtocol
  import opened MotorState
  import opened VirtualMotor

  datatype NodeOp =
    | OnFrame(frame: CanFrame, now: int)
    | OnUpdate(now: int)
    | OnPublish(at: Pair<int>)

  /** A node together with the feedback handed to the sender and the feedback produced so far. */
  datatype Trail = Trail(node: Node, sent: seq<CanFrame>, produced: seq<CanFrame>, clock: int)

  /** Feedback among the frames a timer sends: the injected bus-error frames are not. */
  function Feedbacks(frames: seq<CanFrame>): seq<CanFrame>
    decreases |frames|
  {
    if frames == [] then []
    else Feedbacks(frames[..|frames| - 1]) + (if frames[|frames| - 1].Data? then [frames[|frames| - 1]] else [])
  }

  /**
    One motor's turn in a publication: nothing if its report is dropped; otherwise an injected bus error if
    the interval divides the shared counter, then the report, at once or due exactly the delay later.
  */
  lemma PublishOneOutcome(cfg: NodeConfig, n: Node, i: nat, f: Feedback, at: int)
    requires i < 2
    ensures var (m, out) := n.PublishOne(cfg, i, f, at);
      var count := n.feedbackCount + 1;
      var report := FeedbackFrame(cfg.nodes, i, f,
                      if cfg.malformedFeedbackEveryN > 0 && count % cfg.malformedFeedbackEveryN == 0 then 7 else 8);
      && m.feedbackCount == count
      && (cfg.DropsFeedback(i, count) <==>
            cfg.dropFeedbackNode == cfg.nodes.At(i) || (cfg.dropFeedbackEveryN > 0 && count % cfg.dropFeedbackEveryN == 0))
      && (cfg.DropsFeedback(i, count) ==> out == [] && m.delayed == n.delayed)
      && (!cfg.DropsFeedback(i, count) ==>
            var error := cfg.errorFrameEveryN > 0 && count % cfg.errorFrameEveryN == 0;
            && (if cfg.feedbackDelayMs == 0 then m.delayed == n.delayed
                else m.delayed == n.delayed + [Delayed(report, at + cfg.feedbackDelayMs * 1_000_000)])
            && out == (if error then [Error(0x04)] else []) + (if cfg.feedbackDelayMs == 0 then [report] else []))
  {
    hide EncodeFeedback;
  }

  /** What one motor contributes to a publication that is not dropped, delayed or not. */
  function ReportOf(cfg: NodeConfig, feedbackCount: nat, i: nat, f: Feedback): seq<CanFrame>
    requires i < 2
  {
    var count := feedbackCount + 1 + i;
    if cfg.DropsFeedback(i, count) then []
    else [FeedbackFrame(cfg.nodes, i, f, if EveryN(cfg.malformedFeedbackEveryN, count) then 7 else 8)]
  }

  function Report(cfg: NodeConfig, n: Node, i: nat): seq<CanFrame>
    requires i < 2
  {
    ReportOf(cfg, n.feedbackCount, i, SampleOf(n.motors.At(i), cfg.countsPerRev))
  }

  predicate Timely(t: Trail, op: NodeOp) {
    match op
    case OnFrame(_, now) => t.clock <= now
    case OnUpdate(now) => t.clock <= now
    case OnPublish(at) => t.clock <= at.left <= at.right
  }

  function After(cfg: NodeConfig, t: Trail, op: NodeOp): Trail {
    match op
    case OnFrame(frame, now) => t.(node := t.node.Receive(cfg, frame, now).0, clock := now)
    case OnUpdate(now) =>
      var (n, out) := t.node.Update(cfg, now);
      t.(node := n, sent := t.sent + Feedbacks(out), clock := now)
    case OnPublish(at) =>
      var (n, out) := t.node.Publish(cfg, at);
      Trail(n, t.sent + Feedbacks(out), t.produced + Report(cfg, t.node, 0) + Report(cfg, t.node, 1), at.right)
  }

  /** A run of the node from a fresh start. */
  ghost predicate IsTrail(cfg: NodeConfig, ts: seq<Trail>, ops: seq<NodeOp>) {
    && |ts| == |ops| + 1
    && ts[0].sent == ts[0].produced == [] && ts[0].node.delayed == [] && ts[0].node.feedbackCount == 0
    && forall k :: 0 <= k < |ops| ==> Timely(ts[k], ops[k]) && ts[k + 1] == After(cfg, ts[k], ops[k])
  }

  ghost predicate DueInOrder(queue: seq<Delayed>, latest: int) {
    && (forall j, k :: 0 <= j < k < |queue| ==> queue[j].due <= queue[k].due)
    && (forall j :: 0 <= j < |queue| ==> queue[j].due <= latest && queue[j].frame.Data?)
  }

  ghost predicate Conserved(cfg: NodeConfig, t: Trail) {
    && t.sent + FramesOf(t.node.delayed) == t.produced
    && DueInOrder(t.node.delayed, t.clock + cfg.feedbackDelayMs * NS_PER_MS)
    && (cfg.feedbackDelayMs == 0 ==> t.node.delayed == [])
  }

  lemma {:induction false} FeedbacksOfData(frames: seq<CanFrame>)
    requires forall k :: 0 <= k < |frames| ==> frames[k].Data?
    ensures Feedbacks(frames) == frames
    decreases |frames|
  {
    if frames != [] {
      FeedbacksOfData(frames[..|frames| - 1]);
    }
  }

  lemma {:induction false} FeedbacksAppend(a: seq<CanFrame>, b: seq<CanFrame>)
    ensures Feedbacks(a + b) == Feedbacks(a) + Feedbacks(b)
    decreases |b|
  {
    if b == [] {
      assert a + b == a;
    } else {
      assert (a + b)[..|a + b| - 1] == a + b[..|b| - 1];
      FeedbacksAppend(a, b[..|b| - 1]);
    }
  }

  /** On a queue in due order, popping from the front sends exactly the frames that are due. */
  lemma {:induction false} FlushIsExact(queue: seq<Delayed>, latest: int, now: int)
    requires DueInOrder(queue, latest)
    ensures forall k :: 0 <= k < |queue| ==> (k < DueCount(queue, now) <==> queue[k].due <= now)
    decreases |queue|
  {
    if queue != [] && queue[0].due <= now {
      FlushIsExact(queue[1..], latest, now);
      forall k | 0 <= k < |queue| ensures k < DueCount(queue, now) <==> queue[k].due <= now {
        if k > 0 { assert queue[1..][k - 1] == queue[k]; }
      }
    }
  }

  lemma PublishOneConserves(cfg: NodeConfig, n: Node, i: nat, f: Feedback, at: int, latest: int)
    requires i < 2 && i <= n.feedbackCount && DueInOrder(n.delayed, latest) && latest <= at + cfg.feedbackDelayMs * NS_PER_MS
    ensures var (n', out) := n.PublishOne(cfg, i, f, at);
      var report := ReportOf(cfg, n.feedbackCount - i, i, f);
      && DueInOrder(n'.delayed, at + cfg.feedbackDelayMs * NS_PER_MS)
      && n'.feedbackCount == n.feedbackCount + 1 && n'.motors == n.motors
      && if cfg.feedbackDelayMs == 0 then n'.delayed == n.delayed && Feedbacks(out) == report
         else Feedbacks(out) == [] && FramesOf(n'.delayed) == FramesOf(n.delayed) + report
  {
    hide EncodeFeedback, Feedbacks, FramesOf;
    var (n', out) := n.PublishOne(cfg, i, f, at);
    if cfg.DropsFeedback(i, n.feedbackCount + 1) {
      FeedbacksOfOne(Remote(0));
      FramesAppend(n.delayed, []);
    } else {
      var frame := FeedbackFrame(cfg.nodes, i, f, if EveryN(cfg.malformedFeedbackEveryN, n.feedbackCount + 1) then 7 else 8);
      FeedbacksOfOne(frame);
      FramesAppend(n.delayed, [Delayed(frame, at + cfg.feedbackDelayMs * NS_PER_MS)]);
    }
  }

  lemma FeedbacksOfOne(frame: CanFrame)
    ensures Feedbacks([]) == [] && Feedbacks([Error(0x04)]) == []
    ensures [Error(0x04)] + [] == [Error(0x04)] && [] + [frame] == [frame]
    ensures frame.Data? ==> Feedbacks([frame]) == [frame] && Feedbacks([Error(0x04)] + [frame]) == [frame]
  {
    FeedbacksAppend([Error(0x04)], [frame]);
  }

  lemma FramesAppend(queue: seq<Delayed>, more: seq<Delayed>)
    ensures FramesOf(queue + more) == FramesOf(queue) + FramesOf(more)
    ensures |more| == 1 ==> FramesOf(more) == [more[0].frame]
    ensures FramesOf([]) == [] && FramesOf(queue) + [] == FramesOf(queue)
  {
  }

  /** Popping `c` frames off the queue and sending them changes nothing about sent-then-queued. */
  lemma PopsConserve(sent: seq<CanFrame>, queue: seq<Delayed>, c: nat, latest: int)
    requires c <= |queue| && DueInOrder(queue, latest)
    ensures sent + Feedbacks(FramesOf(queue[..c])) + FramesOf(queue[c..]) == sent + FramesOf(queue)
  {
    hide Feedbacks, FramesOf;
    var gone, left := FramesOf(queue[..c]), FramesOf(queue[c..]);
    assert forall k :: 0 <= k < |gone| ==> gone[k].Data? by { DataOnly(queue, c, latest); }
    FeedbacksOfData(gone);
    FramesAppend(queue[..c], queue[c..]);
    assert queue == queue[..c] + queue[c..];
    assert sent + gone + left == sent + (gone + left);
  }

  lemma DataOnly(queue: seq<Delayed>, c: nat, latest: int)
    requires c <= |queue| && DueInOrder(queue, latest)
    ensures forall k :: 0 <= k < |FramesOf(queue[..c])| ==> FramesOf(queue[..c])[k].Data?
  {
  }

  lemma UpdateConserves(cfg: NodeConfig, t: Trail, now: int)
    requires Conserved(cfg, t) && t.clock <= now
    ensures Conserved(cfg, After(cfg, t, OnUpdate(now)))
  {
    hide Node.MoveMotor;
    PopsConserve(t.sent, t.node.delayed, DueCount(t.node.delayed, now), t.clock + cfg.feedbackDelayMs * NS_PER_MS);
  }

  lemma PublishConserves(cfg: NodeConfig, t: Trail, at: Pair<int>)
    requires Conserved(cfg, t) && t.clock <= at.left <= at.right
    ensures Conserved(cfg, After(cfg, t, OnPublish(at)))
  {
    TwoReportsConserve(cfg, t.node, SampleOf(t.node.motors.left, cfg.countsPerRev),
                       SampleOf(t.node.motors.right, cfg.countsPerRev), at, t.sent,
                       t.clock + cfg.feedbackDelayMs * NS_PER_MS);
  }

  lemma TwoReportsConserve(cfg: NodeConfig, n: Node, f0: Feedback, f1: Feedback, at: Pair<int>,
                           sent: seq<CanFrame>, latest: int)
    requires DueInOrder(n.delayed, latest) && (cfg.feedbackDelayMs == 0 ==> n.delayed == [])
    requires latest <= at.left + cfg.feedbackDelayMs * NS_PER_MS && at.left <= at.right
    ensures var (n1, out1) := n.PublishOne(cfg, 0, f0, at.left);
      var (n2, out2) := n1.PublishOne(cfg, 1, f1, at.right);
      && DueInOrder(n2.delayed, at.right + cfg.feedbackDelayMs * NS_PER_MS)
      && (cfg.feedbackDelayMs == 0 ==> n2.delayed == [])
      && sent + Feedbacks(out1 + out2) + FramesOf(n2.delayed)
         == sent + FramesOf(n.delayed) + ReportOf(cfg, n.feedbackCount, 0, f0) + ReportOf(cfg, n.feedbackCount, 1, f1)
  {
    hide EncodeFeedback, Feedbacks, FramesOf, ReportOf;
    var (n1, out1) := n.PublishOne(cfg, 0, f0, at.left);
    var (n2, out2) := n1.PublishOne(cfg, 1, f1, at.right);
    FramesAppend([], []);
    PublishOneConserves(cfg, n, 0, f0, at.left, latest);
    PublishOneConserves(cfg, n1, 1, f1, at.right, at.left + cfg.feedbackDelayMs * NS_PER_MS);
    FeedbacksAppend(out1, out2);
    var r0, r1 := ReportOf(cfg, n.feedbackCount, 0, f0), ReportOf(cfg, n.feedbackCount, 1, f1);
    if cfg.feedbackDelayMs == 0 {
      AppendFour(sent, [], r0, r1);
    } else {
      AppendFour(sent, FramesOf(n.delayed), r0, r1);
    }
  }

  lemma AppendFour<T>(a: seq<T>, b: seq<T>, c: seq<T>, d: seq<T>)
    ensures a + (c + d) + [] == a + [] + c + d
    ensures a + ([] + []) + (b + c + d) == a + b + c + d
  {
  }

  lemma StepConserves(cfg: NodeConfig, t: Trail, op: NodeOp)
    requires Conserved(cfg, t) && Timely(t, op)
    ensures Conserved(cfg, After(cfg, t, op))
  {
    match op
    case OnFrame(_, _) =>
    case OnUpdate(now) => UpdateConserves(cfg, t, now);
    case OnPublish(at) => PublishConserves(cfg, t, at);
  }

  /** `after` is what is left of `before` once everything due has gone, and nothing else has. */
  ghost predicate FlushedExactly(before: seq<Delayed>, after: seq<Delayed>, now: int) {
    && |after| <= |before|
    && after == before[|before| - |after|..]
    && forall j :: 0 <= j < |before| ==> (j < |before| - |after| <==> before[j].due <= now)
  }

  lemma UpdateFlushes(cfg: NodeConfig, t: Trail, now: int)
    requires Conserved(cfg, t)
    ensures FlushedExactly(t.node.delayed, After(cfg, t, OnUpdate(now)).node.delayed, now)
  {
    FlushIsExact(t.node.delayed, t.clock + cfg.feedbackDelayMs * NS_PER_MS, now);
  }

  /**
    Delayed feedback is conserved and ordered: at every point of every run, the feedback sent so
    far followed by the queue is exactly the feedback produced and not dropped, in order; due times
    never decrease along the queue; and every update leaves exactly the frames that are not yet due.
  */
  lemma {:induction false} DelayedFeedbackConserved(cfg: NodeConfig, ts: seq<Trail>, ops: seq<NodeOp>, k: nat)
    requires IsTrail(cfg, ts, ops) && k <= |ops|
    ensures Conserved(cfg, ts[k])
    ensures k > 0 && ops[k - 1].OnUpdate? ==>
      FlushedExactly(ts[k - 1].node.delayed, ts[k].node.delayed, ops[k - 1].now)
  {
    if k > 0 {
      DelayedFeedbackConserved(cfg, ts, ops, k - 1);
      StepConserves(cfg, ts[k - 1], ops[k - 1]);
      if ops[k - 1].OnUpdate? {
        UpdateFlushes(cfg, ts[k - 1], ops[k - 1].now);
      }
    } else {
      assert FramesOf(ts[0].node.delayed) == [];
    }
  }

  // ---- The shared drop counter ---------------------------------------------------------------

  function Publications(ops: seq<NodeOp>): nat
    decreases |ops|
  {
    if ops == [] then 0 else Publications(ops[..|ops| - 1]) + (if ops[|ops| - 1].OnPublish? then 1 else 0)
  }

  lemma CounterStep(cfg: NodeConfig, t: Trail, op: NodeOp)
    ensures After(cfg, t, op).node.feedbackCount == t.node.feedbackCount + (if op.OnPublish? then 2 else 0)
  {
    hide SampleOf, Feedbacks, Node.MoveMotor, EncodeFeedback, Obey, Report;
  }

  lemma {:induction false} CounterCountsPairs(cfg: NodeConfig, ts: seq<Trail>, ops: seq<NodeOp>, k: nat)
    requires IsTrail(cfg, ts, ops) && k <= |ops|
    ensures ts[k].node.feedbackCount == 2 * Publications(ops[..k])
  {
    hide After, Timely;
    if k > 0 {
      CounterCountsPairs(cfg, ts, ops, k - 1);
      CounterStep(cfg, ts[k - 1], ops[k - 1]);
      assert ops[..k][..k - 1] == ops[..k - 1];
    }
  }

  /** The counter drops motor `i` in publication `t`. */
  predicate DropsAt(n: nat, t: nat, i: nat) {
    EveryN(n, 2 * t + i + 1)
  }

  lemma DropArithmetic(n: nat, t: nat, i: nat)
    requires i < 2
    ensures n % 2 == 0 ==> !DropsAt(n, t, 0)
    ensures 1 <= n <= 2 ==> DropsAt(n, t, 1)
    ensures n >= 3 && DropsAt(n, t, i) ==> !DropsAt(n, t + 1, i)
  {
    if n > 0 && n % 2 == 0 {
      EvenSparesOdd(t, n);
    }
    if n >= 3 && DropsAt(n, t, i) {
      NextTwoNotDivisible(2 * t + i + 1, n);
      assert 2 * (t + 1) + i + 1 == (2 * t + i + 1) + 2;
    }
  }

  /** In every run, publication number `t` (from 0) leaves out motor `i` exactly when the interval divides 2t + i + 1. */
  lemma DropsCountPairs(cfg: NodeConfig, ts: seq<Trail>, ops: seq<NodeOp>, k: nat, i: nat)
    requires cfg.Valid() && cfg.dropFeedbackNode == 0 && i < 2
    requires IsTrail(cfg, ts, ops) && k < |ops| && ops[k].OnPublish?
    ensures Report(cfg, ts[k].node, i) == [] <==> DropsAt(cfg.dropFeedbackEveryN, Publications(ops[..k]), i)
  {
    CounterCountsPairs(cfg, ts, ops, k);
  }

  /** So over every run an even interval never hits the left motor, and 1 or 2 silences the right one for ever. */
  lemma DropSide(cfg: NodeConfig, ts: seq<Trail>, ops: seq<NodeOp>, k: nat)
    requires cfg.Valid() && cfg.dropFeedbackNode == 0
    requires IsTrail(cfg, ts, ops) && k < |ops| && ops[k].OnPublish?
    ensures cfg.dropFeedbackEveryN % 2 == 0 ==> Report(cfg, ts[k].node, 0) != []
    ensures 1 <= cfg.dropFeedbackEveryN <= 2 ==> Report(cfg, ts[k].node, 1) == []
  {
    DropsCountPairs(cfg, ts, ops, k, 0);
    DropsCountPairs(cfg, ts, ops, k, 1);
    DropArithmetic(cfg.dropFeedbackEveryN, Publications(ops[..k]), 0);
  }

  /** And from an interval of 3 on nobody loses two publications in a row. */
  lemma NoTwoDropsInARow(cfg: NodeConfig, ts: seq<Trail>, ops: seq<NodeOp>, k: nat, l: nat, i: nat)
    requires cfg.Valid() && cfg.dropFeedbackNode == 0 && cfg.dropFeedbackEveryN >= 3 && i < 2
    requires IsTrail(cfg, ts, ops) && k < l < |ops| && ops[k].OnPublish? && ops[l].OnPublish?
    requires Publications(ops[..l]) == Publications(ops[..k]) + 1
    ensures Report(cfg, ts[k].node, i) != [] || Report(cfg, ts[l].node, i) != []
  {
    DropsCountPairs(cfg, ts, ops, k, i);
    DropsCountPairs(cfg, ts, ops, l, i);
    DropArithmetic(cfg.dropFeedbackEveryN, Publications(ops[..k]), i);
  }

  lemma EvenSparesOdd(t: nat, n: nat)
    requires n > 0 && n % 2 == 0
    ensures (2 * t + 1) % n != 0
  {
    var q, r, h := (2 * t + 1) / n, (2 * t + 1) % n, n / 2;
    assert 2 * t + 1 == n * q + r;
    assert n * q == 2 * (h * q);
  }

  lemma NextTwoNotDivisible(x: nat, n: nat)
    requires n >= 3 && x % n == 0
    ensures (x + 2) % n != 0
  {
    var q := x / n;
    assert x + 2 == n * q + 2;
    DivisionIsUnique(x + 2, n, q, 2);
  }

  lemma DivisionIsUnique(x: nat, n: nat, q: nat, r: nat)
    requires n > 0 && x == n * q + r && r < n
    ensures x % n == r && x / n == q
  {
    var q', r' := x / n, x % n;
    assert x == n * q' + r';
    assert n * (q' - q) == r - r';
    FactorBound(n, q' - q);
  }

  lemma FactorBound(n: int, m: int)
    requires n > 0
    ensures m >= 1 ==> n * m >= n
    ensures m <= -1 ==> n * m <= -n
  {
    assert m >= 1 ==> n * (m - 1) >= 0;
    assert m <= -1 ==> n * (-m - 1) >= 0;
  }

  // ---- Quantisation --------------------------------------------------------------------------

  const WIRE_MIN := INT16_MIN as real / 1000.0
  const WIRE_MAX := INT16_MAX as real / 1000.0

  /** A velocity inside the wire range is reported to the nearest milliradian: the clamp never bites. */
  lemma VelocityFitsWire(m: Motor, countsPerRev: int)
    requires Within(m, WIRE_MIN, WIRE_MAX)
    ensures SampleOf(m, countsPerRev).velocity == Round(m.velocity * 1000.0)
  {
    RoundIsNearest(m.velocity * 1000.0, INT16_MIN, INT16_MAX);
  }

  /** A whole number of milliradians per second is reported exactly. */
  lemma WholeVelocityIsExact(m: Motor, countsPerRev: int, k: int16)
    requires m.velocity == k as real / 1000.0
    ensures SampleOf(m, countsPerRev).velocity == k
  {
    assert m.velocity * 1000.0 == k as real;
    RoundIsNearest(m.velocity * 1000.0, INT16_MIN, INT16_MAX);
  }

  /** One revolution, to the digits of the source, is the configured number of counts, in both directions. */
  lemma OneRevolution(m: Motor, countsPerRev: Positive)
    requires m.position == 6.28318530717958647692 && countsPerRev <= INT32_MAX
    ensures m.EncoderCount(countsPerRev) == countsPerRev && Radians(countsPerRev, countsPerRev) == m.position
  {
    hide Round;
    DivideBack(m.position * countsPerRev as real, TWO_PI);
    DivideBack(countsPerRev as real * TWO_PI, countsPerRev as real);
    RoundIsNearest(Counts(m.position, countsPerRev), 0, 0);
    CancelFactor(Counts(m.position, countsPerRev), countsPerRev as real, TWO_PI);
    CancelFactor(Radians(countsPerRev, countsPerRev), TWO_PI, countsPerRev as real);
  }

  lemma CancelFactor(x: real, y: real, f: real)
    requires f > 0.0 && x * f == y * f
    ensures x == y
  {
    assert (x - y) * f == 0.0;
  }

  /** Beyond 32 bits the count stays at the end of its range. */
  lemma CountSaturates(m: Motor, countsPerRev: Positive)
    ensures Round(Counts(m.position, countsPerRev)) > 0x7fff_ffff ==> m.EncoderCount(countsPerRev) == 0x7fff_ffff
    ensures Round(Counts(m.position, countsPerRev)) < -0x8000_0000 ==> m.EncoderCount(countsPerRev) == -0x8000_0000
  {
  }

  /** An angle in encoder counts, before rounding. */
  function Counts(position: real, countsPerRev: Positive): real {
    position * countsPerRev as real / TWO_PI
  }

  /** The position the driver recovers is at most half an encoder count away, unless the count saturates. */
  lemma PositionWithinHalfCount(m: Motor, countsPerRev: Positive)
    requires INT32_MIN <= Round(Counts(m.position, countsPerRev)) <= INT32_MAX
    ensures Abs(Radians(m.EncoderCount(countsPerRev), countsPerRev) - m.position) * countsPerRev as real <= TWO_PI / 2.0
  {
    CountIsRounded(m, countsPerRev);
    RoundedCountIsClose(m.position, countsPerRev);
  }

  lemma CountIsRounded(m: Motor, countsPerRev: Positive)
    requires INT32_MIN <= Round(Counts(m.position, countsPerRev)) <= INT32_MAX
    ensures m.EncoderCount(countsPerRev) == Round(Counts(m.position, countsPerRev))
  {
  }

  lemma DivideBack(a: real, b: real)
    requires b != 0.0
    ensures a / b * b == a
  {
  }

  lemma RoundedCountIsClose(position: real, countsPerRev: Positive)
    ensures Abs(Radians(Round(Counts(position, countsPerRev)), countsPerRev) - position) * countsPerRev as real <= TWO_PI / 2.0
  {
    hide Round, Radians, Counts;
    var c, x := countsPerRev as real, Counts(position, countsPerRev);
    var n := Round(x);
    RoundIsNearest(x, 0, 0);
    RadiansScaled(n, countsPerRev);
    CountsScaled(position, countsPerRev);
    ScaledError(Radians(n, countsPerRev), position, n as real, x, c);
  }

  lemma RadiansScaled(n: int, countsPerRev: Positive)
    ensures Radians(n, countsPerRev) * countsPerRev as real == n as real * TWO_PI
  {
    DivideBack(n as real * TWO_PI, countsPerRev as real);
  }

  lemma CountsScaled(position: real, countsPerRev: Positive)
    ensures position * countsPerRev as real == Counts(position, countsPerRev) * TWO_PI
  {
    DivideBack(position * countsPerRev as real, TWO_PI);
  }

  lemma ScaledError(r: real, p: real, n: real, x: real, c: real)
    requires c > 0.0 && r * c == n * TWO_PI && p * c == x * TWO_PI && Abs(n - x) <= 0.5
    ensures Abs(r - p) * c <= TWO_PI / 2.0
  {
    var e := r - p;
    assert e * c == r * c - p * c;
    assert e * c == (n - x) * TWO_PI;
    if e < 0.0 {
      assert Abs(e) * c == -(e * c);
    }
  }
}
