/**
 * The button debouncer of handleButton. Each edge on a button pin is
 * ignored outright within DEBOUNCE_DELAY ms of the last accepted press (a
 * time lockout on uint32_t millis); outside it, a press is accepted only if
 * the pin reads LOW, the recorded level is HIGH and a short re-read is still
 * LOW, and the recorded level follows the first read in every case. Only
 * presses are pushed; a release merely re-arms the button.
 */
module Debounce {
  import opened FixedWidth

  /** Timing::DEBOUNCE_DELAY, in milliseconds. */
  const DEBOUNCE_DELAY: int := 50

  /** Pin levels; the buttons pull up, so a pressed button reads LOW. */
  const HIGH: bool := true
  const LOW: bool := false

  /** The state the handler keeps for one button: buttonStates[i] and lastButtonPress[i]. */
  datatype ButtonChannel = ButtonChannel(level: bool, lastPress: u32)

  /** Both arrays' start-up values: HIGH, and a last press at time 0. */
  const INITIAL_CHANNEL: ButtonChannel := ButtonChannel(HIGH, 0)

  /** One interrupt on a button pin: the first read, the verification re-read, and millis(). */
  datatype Edge = Edge(level: bool, verify: bool, time: u32)

  /** What one interrupt does: the button's new state, and whether a press event is pushed. */
  datatype Reaction = Reaction(channel: ButtonChannel, press: bool)

  function React(ch: ButtonChannel, e: Edge): Reaction
  {
    if SubU32(e.time, ch.lastPress) > DEBOUNCE_DELAY then
      var accepted := e.level == LOW && ch.level == HIGH && e.verify == LOW;
      Reaction(ButtonChannel(e.level, if accepted then e.time else ch.lastPress), accepted)
    else
      Reaction(ch, false)
  }

  /**
   * One interrupt: within the lockout nothing changes; outside it the
   * recorded level becomes the first read; a press is pushed exactly when it
   * is a confirmed HIGH-to-LOW transition outside the lockout; and the time
   * of the last press moves only when a press is pushed.
   */
  lemma ReactMeaning(ch: ButtonChannel, e: Edge)
    ensures var r := React(ch, e); var elapsed := SubU32(e.time, ch.lastPress);
      (elapsed <= DEBOUNCE_DELAY ==> r == Reaction(ch, false)) &&
      (elapsed > DEBOUNCE_DELAY ==> r.channel.level == e.level) &&
      (r.press <==> elapsed > DEBOUNCE_DELAY && e.level == LOW && ch.level == HIGH && e.verify == LOW) &&
      r.channel.lastPress == (if r.press then e.time else ch.lastPress)
  {
  }

  /** A re-read that no longer shows the button pressed pushes nothing. */
  lemma GlitchIsRejected(ch: ButtonChannel, e: Edge)
    requires e.verify == HIGH
    ensures !React(ch, e).press
  {
  }

  /** At start-up the last press reads as time 0, so every edge up to 50 ms is ignored. */
  lemma StartupLockout(e: Edge)
    requires e.time <= DEBOUNCE_DELAY
    ensures React(INITIAL_CHANNEL, e) == Reaction(INITIAL_CHANNEL, false)
  {
  }

  /** The press timestamps a run of interrupts on one button pushes, in order. */
  function Pushes(ch: ButtonChannel, edges: seq<Edge>): seq<u32>
    decreases |edges|
  {
    if edges == [] then []
    else
      var r := React(ch, edges[0]);
      (if r.press then [edges[0].time] else []) + Pushes(r.channel, edges[1..])
  }

  /** The button's state after a run of interrupts. */
  function After(ch: ButtonChannel, edges: seq<Edge>): ButtonChannel
    decreases |edges|
  {
    if edges == [] then ch else After(React(ch, edges[0]).channel, edges[1..])
  }

  /**
   * Pushed presses are more than DEBOUNCE_DELAY ms apart (in uint32_t
   * arithmetic), the first one more than that after the last press recorded
   * before the run, and the recorded last press is the last one pushed.
   */
  lemma {:induction false} PushesAreSpaced(ch: ButtonChannel, edges: seq<Edge>)
    ensures var p := Pushes(ch, edges);
      (|p| > 0 ==> SubU32(p[0], ch.lastPress) > DEBOUNCE_DELAY) &&
      (forall k :: 0 < k < |p| ==> SubU32(p[k], p[k - 1]) > DEBOUNCE_DELAY) &&
      After(ch, edges).lastPress == (if p == [] then ch.lastPress else p[|p| - 1])
    decreases |edges|
  {
    if edges != [] {
      var r := React(ch, edges[0]);
      PushesAreSpaced(r.channel, edges[1..]);
      var rest := Pushes(r.channel, edges[1..]);
      if r.press {
        var p := [edges[0].time] + rest;
        assert Pushes(ch, edges) == p;
        forall k | 0 < k < |p|
          ensures SubU32(p[k], p[k - 1]) > DEBOUNCE_DELAY
        {
          assert p[k] == rest[k - 1];
        }
      }
    }
  }

  /**
   * Holding a button down (every interrupt reads LOW) pushes at most one
   * press, and none if the button was already recorded as down: a second
   * press needs a release to be recorded first.
   */
  lemma {:induction false} HeldDownPushesAtMostOnce(ch: ButtonChannel, edges: seq<Edge>)
    requires forall k :: 0 <= k < |edges| ==> edges[k].level == LOW
    ensures |Pushes(ch, edges)| <= (if ch.level == HIGH then 1 else 0)
    decreases |edges|
  {
    if edges != [] {
      var r := React(ch, edges[0]);
      assert r.channel.level == LOW || r.channel == ch;
      assert r.press ==> r.channel.level == LOW;
      HeldDownPushesAtMostOnce(r.channel, edges[1..]);
    }
  }

  /**
   * A press at t=0 and a bounce at t=5 fall in the start-up lockout and are
   * ignored, the release at t=60 is recorded, and the press at t=65 is
   * pushed: one event, stamped 65.
   */
  lemma PressBounceReleasePress()
    ensures Pushes(INITIAL_CHANNEL,
                   [Edge(LOW, LOW, 0), Edge(LOW, LOW, 5), Edge(HIGH, HIGH, 60), Edge(LOW, LOW, 65)])
            == [65]
  {
    var edges := [Edge(LOW, LOW, 0), Edge(LOW, LOW, 5), Edge(HIGH, HIGH, 60), Edge(LOW, LOW, 65)];
    assert edges[1..][1..][1..][1..] == [];
    assert Pushes(ButtonChannel(HIGH, 0), edges[1..][1..][1..]) == [65];
    assert Pushes(INITIAL_CHANNEL, edges[1..][1..]) == [65];
  }

  /**
   * A quick tap: a release that comes within the lockout of the press before
   * it is ignored, so the button stays recorded as down and the next press,
   * however much later, is not pushed either.
   */
  lemma ReleaseInLockoutIsLost(ch: ButtonChannel, press: Edge, release: Edge, next: Edge)
    requires React(ch, press).press
    requires SubU32(release.time, press.time) <= DEBOUNCE_DELAY
    requires next.level == LOW
    ensures After(ch, [press, release]).level == LOW
    ensures Pushes(ch, [press, release, next]) == [press.time]
  {
    var edges := [press, release, next];
    var r := React(ch, press);
    assert edges[1..] == [release, next] && edges[1..][1..] == [next] && [next][1..] == [];
    assert [press, release][1..] == [release] && [release][1..] == [];
    assert r.channel == ButtonChannel(LOW, press.time);
    assert React(r.channel, release) == Reaction(r.channel, false);
    assert !React(r.channel, next).press;
    assert Pushes(r.channel, [next]) == [];
    assert Pushes(r.channel, [release, next]) == [];
    assert After(r.channel, [release]) == After(r.channel, []) == r.channel;
  }

  /** A press bounce within the lockout after an accepted press pushes nothing more. */
  lemma BounceAfterPressIsIgnored(ch: ButtonChannel, press: Edge, bounce: Edge)
    requires React(ch, press).press
    requires SubU32(bounce.time, press.time) <= DEBOUNCE_DELAY
    ensures Pushes(ch, [press, bounce]) == [press.time]
  {
    var r := React(ch, press);
    assert [press, bounce][1..] == [bounce] && [bounce][1..] == [];
    assert r.channel.lastPress == press.time;
    assert !React(r.channel, bounce).press;
    assert Pushes(r.channel, [bounce]) == [];
  }
}
