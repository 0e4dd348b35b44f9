/**
 * The ring-buffer event queue that carries confirmed button presses from the
 * interrupt handlers to the main loop (ButtonEventQueue), with its
 * diagnostic counters (DebugInfo).
 *
 * The queue is a class over a 20-slot array with `head` (next slot to write)
 * and `tail` (next slot to read). One slot always stays empty, so at most 19
 * events are held. Its abstract value is a `QueueView`: the live events,
 * oldest first, together with the counters. `PushSpec` and `PopSpec` say
 * what one push and one pop do to that value; the methods of the class are
 * proved against them, and the lemmas below prove what the queue promises
 * (bounds, FIFO order, counter bookkeeping) about the two functions.
 */
module EventQueue {
  import opened FixedWidth

  /** Number of slots in the array; one of them is never used. */
  const SIZE: int := 20
  /** Number of events the queue can hold at once. */
  const CAPACITY: int := SIZE - 1

  datatype Option<T> = None | Some(value: T)

  /** One button event: button id (RED = 1 … EFFECT = 4), press or release, time in ms. */
  datatype ButtonEvent = ButtonEvent(button: u8, pressed: bool, timestamp: u32)

  /** The diagnostic counters; every one of them is a uint32_t. */
  datatype DebugInfo = DebugInfo(
    pushAttempts: u32,
    pushSuccess: u32,
    popAttempts: u32,
    popSuccess: u32,
    lastPushedButton: u32,
    lastProcessedButton: u32,
    interruptCalls: u32,
    debounceChecks: u32)

  /** The counters as the DebugInfo constructor sets them. */
  const INITIAL_DEBUG: DebugInfo := DebugInfo(0, 0, 0, 0, 0, 0, 0, 0)

  /** Abstract value of a queue: live events, oldest first, and the counters. */
  datatype QueueView = QueueView(events: seq<ButtonEvent>, debug: DebugInfo)

  const EMPTY_VIEW: QueueView := QueueView([], INITIAL_DEBUG)

  /** What `push(button, pressed, timestamp)` does to the queue, and what it returns. */
  function PushSpec(v: QueueView, button: u8, pressed: bool, timestamp: u32): (QueueView, bool)
  {
    var d := v.debug.(pushAttempts := IncU32(v.debug.pushAttempts));
    if |v.events| < CAPACITY then
      (QueueView(v.events + [ButtonEvent(button, pressed, timestamp)],
                 d.(pushSuccess := IncU32(d.pushSuccess), lastPushedButton := button)),
       true)
    else
      (QueueView(v.events, d), false)
  }

  /** What `pop` does to the queue, and the event it hands out, if any. */
  function PopSpec(v: QueueView): (QueueView, Option<ButtonEvent>)
  {
    var d := v.debug.(popAttempts := IncU32(v.debug.popAttempts));
    if |v.events| > 0 then
      (QueueView(v.events[1..],
                 d.(popSuccess := IncU32(d.popSuccess), lastProcessedButton := v.events[0].button)),
       Some(v.events[0]))
    else
      (QueueView(v.events, d), None)
  }

  /** Pops until the queue reports empty, as the main loop's drain does. */
  function PopAll(v: QueueView): QueueView
    decreases |v.events|
  {
    var (v', e) := PopSpec(v);
    if e.None? then v' else PopAll(v')
  }

  /** The queue holds no more events than its usable slots. */
  predicate WithinCapacity(v: QueueView)
  {
    |v.events| <= CAPACITY
  }

  /**
   * The counters agree with the contents: the events pushed and not yet
   * popped are exactly the live ones (modulo 2^32, as the counters wrap),
   * and the two counters nothing increments are still 0.
   */
  predicate CountersAgree(v: QueueView)
  {
    SubU32(v.debug.pushSuccess, v.debug.popSuccess) == |v.events| &&
    v.debug.interruptCalls == 0 && v.debug.debounceChecks == 0
  }

  // ---------------------------------------------------------------------
  // One push, one pop

  /** A push into a queue with room appends the event and reports success. */
  lemma PushWithRoom(v: QueueView, button: u8, pressed: bool, timestamp: u32)
    requires |v.events| < CAPACITY
    ensures var (v', ok) := PushSpec(v, button, pressed, timestamp);
      ok &&
      v'.events == v.events + [ButtonEvent(button, pressed, timestamp)] &&
      v'.debug == v.debug.(pushAttempts := IncU32(v.debug.pushAttempts),
                           pushSuccess := IncU32(v.debug.pushSuccess),
                           lastPushedButton := button)
  {
  }

  /** A push into a full queue fails; only the attempt counter moves. */
  lemma PushWhenFull(v: QueueView, button: u8, pressed: bool, timestamp: u32)
    requires |v.events| == CAPACITY
    ensures var (v', ok) := PushSpec(v, button, pressed, timestamp);
      !ok && v'.events == v.events &&
      v'.debug == v.debug.(pushAttempts := IncU32(v.debug.pushAttempts)) &&
      // the drop shows only as one more attempt than successes
      ((v'.debug.pushAttempts - v'.debug.pushSuccess)
        - (v.debug.pushAttempts - v.debug.pushSuccess) - 1) % TWO_TO_THE_32 == 0
  {
  }

  /** A pop from a non-empty queue hands out the oldest event and removes it. */
  lemma PopNonEmpty(v: QueueView)
    requires |v.events| > 0
    ensures var (v', e) := PopSpec(v);
      e == Some(v.events[0]) && v.events == [v.events[0]] + v'.events &&
      v'.debug == v.debug.(popAttempts := IncU32(v.debug.popAttempts),
                           popSuccess := IncU32(v.debug.popSuccess),
                           lastProcessedButton := v.events[0].button)
  {
  }

  /** A pop from an empty queue fails; only the attempt counter moves. */
  lemma PopEmpty(v: QueueView)
    requires v.events == []
    ensures var (v', e) := PopSpec(v);
      e == None && v'.events == [] &&
      v'.debug == v.debug.(popAttempts := IncU32(v.debug.popAttempts))
  {
  }

  /** Push and pop keep the queue within its 19 usable slots. */
  lemma StepsKeepCapacity(v: QueueView, button: u8, pressed: bool, timestamp: u32)
    requires WithinCapacity(v)
    ensures WithinCapacity(PushSpec(v, button, pressed, timestamp).0)
    ensures WithinCapacity(PopSpec(v).0)
  {
  }

  // ---------------------------------------------------------------------
  // Any interleaving of pushes and pops

  /** One call on the queue, as the interrupt handlers and the main loop make them. */
  datatype QueueOp = PushOp(button: u8, pressed: bool, timestamp: u32) | PopOp

  /**
   * The outcome of a run of calls: the final queue, the events whose push
   * succeeded and the events the successful pops handed out, each in call order.
   */
  datatype Trace = Trace(final: QueueView, accepted: seq<ButtonEvent>, delivered: seq<ButtonEvent>)

  /** One call: the queue after it, and what it accepted and handed out. */
  function Step(v: QueueView, op: QueueOp): Trace
  {
    match op
    case PushOp(b, p, t) =>
      var (v', ok) := PushSpec(v, b, p, t);
      Trace(v', if ok then [ButtonEvent(b, p, t)] else [], [])
    case PopOp =>
      var (v', e) := PopSpec(v);
      Trace(v', [], if e.Some? then [e.value] else [])
  }

  function Run(v: QueueView, ops: seq<QueueOp>): Trace
    decreases |ops|
  {
    if ops == [] then Trace(v, [], [])
    else
      var s := Step(v, ops[0]);
      var r := Run(s.final, ops[1..]);
      Trace(r.final, s.accepted + r.accepted, s.delivered + r.delivered)
  }

  /** One call keeps FIFO order: what it accepts joins the back, what it hands out leaves the front. */
  lemma StepFifo(v: QueueView, op: QueueOp)
    ensures var s := Step(v, op); v.events + s.accepted == s.delivered + s.final.events
  {
    match op
    case PushOp(b, p, t) =>
    case PopOp =>
      if v.events != [] {
        assert v.events == [v.events[0]] + v.events[1..];
      }
  }

  /**
   * FIFO: whatever the interleaving, the events handed out followed by those
   * still queued are the events that were queued at the start followed by
   * those accepted since, in order. Nothing is lost, duplicated or reordered
   * once accepted.
   */
  lemma {:induction false} Fifo(v: QueueView, ops: seq<QueueOp>)
    ensures var r := Run(v, ops); v.events + r.accepted == r.delivered + r.final.events
    decreases |ops|
  {
    if ops != [] {
      var s := Step(v, ops[0]);
      var r := Run(s.final, ops[1..]);
      StepFifo(v, ops[0]);
      Fifo(s.final, ops[1..]);
      ChainFifo(v.events, s.accepted, r.accepted, s.delivered, s.final.events, r.delivered, r.final.events);
    }
  }

  /**
   * Two FIFO stretches chain: if `a + x == p + m` (the first stretch) and
   * `m + y == q + z` (the second, starting from `m`), then the whole run
   * satisfies `a + (x + y) == (p + q) + z`.
   */
  lemma ChainFifo<T>(a: seq<T>, x: seq<T>, y: seq<T>, p: seq<T>, m: seq<T>, q: seq<T>, z: seq<T>)
    requires a + x == p + m && m + y == q + z
    ensures a + (x + y) == (p + q) + z
  {
    assert a + (x + y) == (a + x) + y;
    assert (p + m) + y == p + (m + y);
    assert p + (q + z) == (p + q) + z;
  }

  /** Running one list of calls after another is running their concatenation. */
  lemma {:induction false} RunAppend(v: QueueView, ops1: seq<QueueOp>, ops2: seq<QueueOp>)
    ensures var r1 := Run(v, ops1); var r2 := Run(r1.final, ops2);
      Run(v, ops1 + ops2) == Trace(r2.final, r1.accepted + r2.accepted, r1.delivered + r2.delivered)
    decreases |ops1|
  {
    if ops1 == [] {
      assert ops1 + ops2 == ops2;
    } else {
      assert (ops1 + ops2)[0] == ops1[0] && (ops1 + ops2)[1..] == ops1[1..] + ops2;
      var s := Step(v, ops1[0]);
      RunAppend(s.final, ops1[1..], ops2);
      var r1 := Run(s.final, ops1[1..]);
      var r2 := Run(r1.final, ops2);
      assert s.accepted + (r1.accepted + r2.accepted) == (s.accepted + r1.accepted) + r2.accepted;
      assert s.delivered + (r1.delivered + r2.delivered) == (s.delivered + r1.delivered) + r2.delivered;
    }
  }

  function PushesOf(es: seq<ButtonEvent>): (ops: seq<QueueOp>)
    ensures |ops| == |es|
  {
    if es == [] then [] else [PushOp(es[0].button, es[0].pressed, es[0].timestamp)] + PushesOf(es[1..])
  }

  function Pops(n: nat): (ops: seq<QueueOp>)
    ensures |ops| == n
  {
    if n == 0 then [] else [PopOp] + Pops(n - 1)
  }

  /** A push that finds room grows the queue by the event, accepts it and counts one attempt and one success. */
  lemma PushStepWithRoom(v: QueueView, e: ButtonEvent)
    requires |v.events| < CAPACITY
    ensures var s := Step(v, PushOp(e.button, e.pressed, e.timestamp));
      s.final.events == v.events + [e] && s.accepted == [e] && s.delivered == [] &&
      s.final.debug.pushAttempts == IncU32(v.debug.pushAttempts) &&
      s.final.debug.pushSuccess == IncU32(v.debug.pushSuccess)
  {
  }

  /** Pushes that fit are all accepted, in order, and none of them hands anything out. */
  lemma {:induction false} PushesFitEvents(v: QueueView, es: seq<ButtonEvent>)
    requires |v.events| + |es| <= CAPACITY
    ensures var r := Run(v, PushesOf(es));
      r.accepted == es && r.delivered == [] && r.final.events == v.events + es
    decreases |es|
  {
    if es != [] {
      var e := es[0];
      var op := PushOp(e.button, e.pressed, e.timestamp);
      assert PushesOf(es)[0] == op && PushesOf(es)[1..] == PushesOf(es[1..]);
      PushStepWithRoom(v, e);
      var v' := Step(v, op).final;
      var r := Run(v', PushesOf(es[1..]));
      assert Run(v, PushesOf(es)) == Trace(r.final, [e] + r.accepted, r.delivered);
      PushesFitEvents(v', es[1..]);
      SplitFirst(v.events, es);
    }
  }

  /** Moving the first element of `b` to the end of `a` keeps `a + b`. */
  lemma SplitFirst<T>(a: seq<T>, b: seq<T>)
    requires b != []
    ensures [b[0]] + b[1..] == b && a + b == (a + [b[0]]) + b[1..]
  {
    assert [b[0]] + b[1..] == b;
  }

  /** Each push that fits counts one attempt and one success. */
  lemma {:induction false} PushesFitCounters(v: QueueView, es: seq<ButtonEvent>)
    requires |v.events| + |es| <= CAPACITY
    ensures var d := Run(v, PushesOf(es)).final.debug;
      d.pushAttempts == (v.debug.pushAttempts + |es|) % TWO_TO_THE_32 &&
      d.pushSuccess == (v.debug.pushSuccess + |es|) % TWO_TO_THE_32
    decreases |es|
  {
    if es != [] {
      var e := es[0];
      var op := PushOp(e.button, e.pressed, e.timestamp);
      assert PushesOf(es)[0] == op && PushesOf(es)[1..] == PushesOf(es[1..]);
      PushStepWithRoom(v, e);
      var v' := Step(v, op).final;
      assert Run(v, PushesOf(es)).final == Run(v', PushesOf(es[1..])).final;
      PushesFitCounters(v', es[1..]);
      AddAfterInc(v.debug.pushAttempts, |es| - 1);
      AddAfterInc(v.debug.pushSuccess, |es| - 1);
    }
  }

  /**
   * Pushes that fit are all accepted, none of them hands anything out, and
   * each one counts one attempt and one success.
   */
  lemma PushesFit(v: QueueView, es: seq<ButtonEvent>)
    requires |v.events| + |es| <= CAPACITY
    ensures var r := Run(v, PushesOf(es));
      r.accepted == es && r.delivered == [] && r.final.events == v.events + es &&
      r.final.debug.pushAttempts == (v.debug.pushAttempts + |es|) % TWO_TO_THE_32 &&
      r.final.debug.pushSuccess == (v.debug.pushSuccess + |es|) % TWO_TO_THE_32
  {
    PushesFitEvents(v, es);
    PushesFitCounters(v, es);
  }

  lemma {:induction false} PushesOfAppend(a: seq<ButtonEvent>, b: seq<ButtonEvent>)
    ensures PushesOf(a + b) == PushesOf(a) + PushesOf(b)
    decreases |a|
  {
    if a == [] {
      assert a + b == b;
    } else {
      assert (a + b)[1..] == a[1..] + b;
      PushesOfAppend(a[1..], b);
    }
  }

  /**
   * From a fresh queue, 19 pushes succeed and a 20th fails: the queue holds
   * the first 19 events, and the counters show 20 attempts and 19 successes,
   * so the drop shows as their difference of one.
   */
  lemma TwentiethPushFails(es: seq<ButtonEvent>)
    requires |es| == SIZE
    ensures var r := Run(EMPTY_VIEW, PushesOf(es));
      r.accepted == es[..CAPACITY] && r.final.events == es[..CAPACITY] &&
      r.final.debug.pushAttempts == SIZE && r.final.debug.pushSuccess == CAPACITY
  {
    var first, last := es[..CAPACITY], es[CAPACITY];
    assert es == first + [last];
    PushesOfAppend(first, [last]);
    RunAppend(EMPTY_VIEW, PushesOf(first), PushesOf([last]));
    PushesFit(EMPTY_VIEW, first);
    var mid := Run(EMPTY_VIEW, PushesOf(first)).final;
    PushWhenFull(mid, last.button, last.pressed, last.timestamp);
    assert last == ButtonEvent(last.button, last.pressed, last.timestamp);
    assert PushesOf([last]) == [PushOp(last.button, last.pressed, last.timestamp)];
    assert PushesOf([last])[1..] == [];
  }

  /** As many pops as there are events hand every one of them out and empty the queue. */
  lemma {:induction false} PopsDrain(v: QueueView)
    ensures var r := Run(v, Pops(|v.events|));
      r.accepted == [] && r.delivered == v.events && r.final.events == []
    decreases |v.events|
  {
    if v.events != [] {
      var n := |v.events|;
      assert Pops(n)[0] == PopOp && Pops(n)[1..] == Pops(n - 1);
      var s := Step(v, PopOp);
      assert s.delivered == [v.events[0]] && s.accepted == [] && s.final.events == v.events[1..];
      PopsDrain(s.final);
      assert v.events == [v.events[0]] + v.events[1..];
    }
  }

  /**
   * Round trip: from an empty queue, N <= 19 pushes followed by N pops hand
   * out exactly the pushed events, in push order, and leave the queue empty.
   */
  lemma RoundTrip(v: QueueView, es: seq<ButtonEvent>)
    requires v.events == [] && |es| <= CAPACITY
    ensures var r := Run(v, PushesOf(es) + Pops(|es|));
      r.accepted == es && r.delivered == es && r.final.events == []
  {
    RunAppend(v, PushesOf(es), Pops(|es|));
    PushesFit(v, es);
    var mid := Run(v, PushesOf(es)).final;
    assert mid.events == es;
    PopsDrain(mid);
  }

  // ---------------------------------------------------------------------
  // The diagnostic counters

  lemma StepsKeepCountersAgree(v: QueueView, button: u8, pressed: bool, timestamp: u32)
    requires CountersAgree(v) && WithinCapacity(v)
    ensures CountersAgree(PushSpec(v, button, pressed, timestamp).0)
    ensures CountersAgree(PopSpec(v).0)
  {
  }

  /**
   * Starting from a fresh queue, after any interleaving of pushes and pops,
   * pushSuccess - popSuccess (a uint32_t subtraction) is the number of live
   * events, and interruptCalls and debounceChecks are still 0.
   */
  lemma {:induction false} CountersTrackSize(v: QueueView, ops: seq<QueueOp>)
    requires CountersAgree(v) && WithinCapacity(v)
    ensures var f := Run(v, ops).final; WithinCapacity(f) && CountersAgree(f)
    decreases |ops|
  {
    if ops != [] {
      match ops[0] {
        case PushOp(b, p, t) =>
          StepsKeepCountersAgree(v, b, p, t);
          StepsKeepCapacity(v, b, p, t);
        case PopOp =>
          StepsKeepCountersAgree(v, 0, false, 0);
          StepsKeepCapacity(v, 0, false, 0);
      }
      CountersTrackSize(Step(v, ops[0]).final, ops[1..]);
    }
  }

  /**
   * Draining pops every event, counts one successful pop per event and one
   * more attempt for the final, failing pop, remembers the last event's
   * button, and touches no push counter.
   */
  lemma {:induction false} PopAllDrains(v: QueueView)
    ensures var f := PopAll(v);
      f.events == [] &&
      f.debug.popSuccess == (v.debug.popSuccess + |v.events|) % TWO_TO_THE_32 &&
      f.debug.popAttempts == (v.debug.popAttempts + |v.events| + 1) % TWO_TO_THE_32 &&
      f.debug.lastProcessedButton
        == (if v.events == [] then v.debug.lastProcessedButton else v.events[|v.events| - 1].button) &&
      f.debug.(popSuccess := 0, popAttempts := 0, lastProcessedButton := 0)
        == v.debug.(popSuccess := 0, popAttempts := 0, lastProcessedButton := 0)
    decreases |v.events|
  {
    if v.events != [] {
      var v' := PopSpec(v).0;
      PopAllDrains(v');
      assert PopAll(v) == PopAll(v');
      AddAfterInc(v.debug.popSuccess, |v.events| - 1);
      AddAfterInc(v.debug.popAttempts, |v.events|);
    }
  }

  lemma AddAfterInc(a: u32, n: int)
    ensures (IncU32(a) + n) % TWO_TO_THE_32 == (a + 1 + n) % TWO_TO_THE_32
  {
  }

  // ---------------------------------------------------------------------
  // The queue itself

  /** The array slot of the k-th live event when the oldest one is at `tail`. */
  function Slot(tail: int, k: int): int
  {
    (tail + k) % SIZE
  }

  /** Index arithmetic modulo SIZE for head and tail within 0..SIZE-1. */
  lemma SlotArithmetic(head: int, tail: int)
    requires 0 <= head < SIZE && 0 <= tail < SIZE
    ensures var n := (head - tail) % SIZE;
      Slot(tail, n) == head &&
      ((head + 1) % SIZE != tail <==> n < CAPACITY) &&
      (n < CAPACITY ==> ((head + 1) % SIZE - tail) % SIZE == n + 1) &&
      (tail != head <==> n > 0) &&
      (n > 0 ==> (head - (tail + 1) % SIZE) % SIZE == n - 1)
    ensures forall k :: 0 <= k < (head - tail) % SIZE ==> Slot(tail, k) != head
  {
    var n := (head - tail) % SIZE;
    ModSize(head - tail);
    ModSize(head + 1);
    ModSize(tail + 1);
    ModSize(tail + n);
    ModSize((head + 1) % SIZE - tail);
    ModSize(head - (tail + 1) % SIZE);
    forall k | 0 <= k < n
      ensures Slot(tail, k) != head
    {
      ModSize(tail + k);
    }
  }

  /** `%` by SIZE on a value within one period of 0..SIZE-1. */
  lemma ModSize(x: int)
    requires -SIZE <= x < 2 * SIZE
    ensures x % SIZE == if x < 0 then x + SIZE else if x < SIZE then x else x - SIZE
  {
  }

  /** Advancing `tail` by one slot shifts every live event's position by one. */
  lemma SlotShift(tail: int, next: int)
    requires next == (tail + 1) % SIZE
    ensures forall k :: 0 <= k ==> Slot(next, k) == Slot(tail, k + 1)
  {
  }

  /**
   * ButtonEventQueue: a 20-slot array; `head` is the next slot to write,
   * `tail` the next slot to read; the live events are the slots from `tail`
   * up to (not including) `head`, going round the end of the array.
   */
  class ButtonEventQueue {
    const events: array<ButtonEvent>
    var head: int
    var tail: int
    var debugInfo: DebugInfo
    /** The live events, oldest first. */
    ghost var Contents: seq<ButtonEvent>

    ghost predicate Valid()
      reads this, events
    {
      events.Length == SIZE &&
      0 <= head < SIZE && 0 <= tail < SIZE &&
      |Contents| == (head - tail) % SIZE &&
      forall k :: 0 <= k < |Contents| ==> Contents[k] == events[Slot(tail, k)]
    }

    ghost function View(): QueueView
      reads this
    {
      QueueView(Contents, debugInfo)
    }

    constructor ()
      ensures Valid() && fresh(events)
      ensures View() == EMPTY_VIEW && head == 0 && tail == 0
    {
      events := new ButtonEvent[SIZE](_ => ButtonEvent(0, false, 0));
      head, tail := 0, 0;
      debugInfo := INITIAL_DEBUG;
      Contents := [];
    }

    /** getSize(): the number of live events. */
    function Size(): (n: int)
      reads this, events
      requires Valid()
      ensures n == |Contents| == (head - tail) % SIZE
      ensures 0 <= n <= CAPACITY
    {
      if head >= tail then head - tail else SIZE - (tail - head)
    }

    /**
     * push(button, pressed, timestamp): writes the event at `head` and
     * advances `head` unless that would make it meet `tail`.
     */
    method Push(button: u8, pressed: bool, timestamp: u32) returns (ok: bool)
      requires Valid()
      modifies this, events
      ensures Valid()
      ensures (View(), ok) == PushSpec(old(View()), button, pressed, timestamp)
      ensures tail == old(tail)
      ensures head == if ok then (old(head) + 1) % SIZE else old(head)
      ensures !ok ==> events[..] == old(events[..])
    {
      debugInfo := debugInfo.(pushAttempts := IncU32(debugInfo.pushAttempts));
      var nextHead := (head + 1) % SIZE;
      SlotArithmetic(head, tail);
      if nextHead != tail {
        var e := ButtonEvent(button, pressed, timestamp);
        ghost var live := Contents;
        events[head] := e;
        head := nextHead;
        debugInfo := debugInfo.(pushSuccess := IncU32(debugInfo.pushSuccess), lastPushedButton := button);
        Contents := Contents + [e];
        forall k | 0 <= k < |Contents|
          ensures Contents[k] == events[Slot(tail, k)]
        {
          if k < |live| {
            assert Contents[k] == live[k];
          }
        }
        ok := true;
      } else {
        ok := false;
      }
    }

    /**
     * pop(&event): copies the event at `tail` into the caller's `event` and
     * advances `tail`; on an empty queue the caller's `event` is left as it was.
     */
    method Pop(event: ButtonEvent) returns (ok: bool, event': ButtonEvent)
      requires Valid()
      modifies this
      ensures Valid()
      ensures var (v, e) := PopSpec(old(View()));
        View() == v && ok == e.Some? && event' == (if ok then e.value else event)
      ensures head == old(head)
      ensures tail == if ok then (old(tail) + 1) % SIZE else old(tail)
    {
      debugInfo := debugInfo.(popAttempts := IncU32(debugInfo.popAttempts));
      SlotArithmetic(head, tail);
      if tail != head {
        event' := events[tail];
        SlotShift(tail, (tail + 1) % SIZE);
        tail := (tail + 1) % SIZE;
        debugInfo := debugInfo.(popSuccess := IncU32(debugInfo.popSuccess), lastProcessedButton := event'.button);
        Contents := Contents[1..];
        ok := true;
      } else {
        event' := event;
        ok := false;
      }
    }
  }
}
