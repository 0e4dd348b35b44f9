/**
 * The interrupt handlers and the main-loop drains of the controller: the
 * global arrays they share (prevEncoderStates, encoderChanges, buttonStates,
 * lastButtonPress), the flag encoderEvent, the button event queue and the
 * application state, gathered into one Pipeline object. Each handler and
 * each drain is one atomic step; pin levels, the verification re-read and
 * millis() are parameters.
 */
module InputPipeline {
  import opened FixedWidth
  import opened EventQueue
  import opened AppState
  import opened Quadrature
  import opened Debounce

  /** Four encoders and four buttons: RED, GREEN, BLUE, EFFECT. */
  const CHANNELS: int := 4
  const RED: int := 0
  const GREEN: int := 1
  const BLUE: int := 2
  const EFFECT: int := 3

  /** Colour change per encoder tick. */
  const COLOR_STEP: int := 5

  /** Event ids the button handlers push: button index + 1. */
  const RED_BUTTON_ID: u8 := 1
  const GREEN_BUTTON_ID: u8 := 2
  const BLUE_BUTTON_ID: u8 := 3
  const EFFECT_BUTTON_ID: u8 := 4

  /**
   * processEncoders on accumulators `c`: the RGB deltas, scaled by 5, go to
   * adjustColor if any is nonzero, then the effect delta to adjustEffect if
   * it is nonzero.
   */
  function EncodersApplied(s: Settings, c: seq<int8>): Settings
    requires |c| == CHANNELS
  {
    var s' := if c[RED] != 0 || c[GREEN] != 0 || c[BLUE] != 0
              then ColorAdjusted(s, COLOR_STEP * c[RED], COLOR_STEP * c[GREEN], COLOR_STEP * c[BLUE])
              else s;
    if c[EFFECT] != 0 then EffectAdjusted(s', c[EFFECT]) else s'
  }

  /** The body of processButtons' loop for one event. */
  function ButtonApplied(s: Settings, e: ButtonEvent): Settings
  {
    if !e.pressed then s
    else if e.button == RED_BUTTON_ID then WithPreset(s, RED_PRESET)
    else if e.button == GREEN_BUTTON_ID then WithPreset(s, GREEN_PRESET)
    else if e.button == BLUE_BUTTON_ID then WithPreset(s, BLUE_PRESET)
    else if e.button == EFFECT_BUTTON_ID then EffectReset(s)
    else s
  }

  /** processButtons' effect on the state: every queued event, oldest first. */
  function Dispatch(s: Settings, events: seq<ButtonEvent>): Settings
    decreases |events|
  {
    if events == [] then s else Dispatch(ButtonApplied(s, events[0]), events[1..])
  }

  // ---------------------------------------------------------------------
  // What the drains do to the application state

  /** Accumulators that are all zero change nothing. */
  lemma NoTicksNoChange(s: Settings)
    ensures EncodersApplied(s, [0, 0, 0, 0]) == s
  {
  }

  /**
   * The colour is adjusted by five times the RGB accumulators, and the
   * effect by the effect accumulator; if only the effect encoder turned, the
   * colour and its flag are left alone, and if only the colour encoders
   * turned, the effect and its flag are.
   */
  lemma EncodersAppliedMeaning(s: Settings, c: seq<int8>)
    requires |c| == CHANNELS && Consistent(s)
    ensures var t := EncodersApplied(s, c);
      Consistent(t) &&
      t.color == Clamped(s.color.red + COLOR_STEP * c[RED], s.color.green + COLOR_STEP * c[GREEN],
                         s.color.blue + COLOR_STEP * c[BLUE]) &&
      (c[RED] == 0 && c[GREEN] == 0 && c[BLUE] == 0 ==> t.colorChanged == s.colorChanged) &&
      (c[EFFECT] == 0 ==> t.effectIndex == s.effectIndex && t.effectChanged == s.effectChanged) &&
      (c[EFFECT] != 0 ==> t.effectChanged && (t.effectIndex - s.effectIndex - c[EFFECT]) % EFFECT_COUNT == 0)
  {
    var s' := if c[RED] != 0 || c[GREEN] != 0 || c[BLUE] != 0
              then ColorAdjusted(s, COLOR_STEP * c[RED], COLOR_STEP * c[GREEN], COLOR_STEP * c[BLUE])
              else s;
    ColorAdjustedMeaning(s, COLOR_STEP * c[RED], COLOR_STEP * c[GREEN], COLOR_STEP * c[BLUE]);
    TransitionsKeepConsistent(s, COLOR_STEP * c[RED], COLOR_STEP * c[GREEN], COLOR_STEP * c[BLUE], RED_PRESET, 0, c[EFFECT]);
    EffectAdjustedMeaning(s', c[EFFECT]);
    TransitionsKeepConsistent(s', 0, 0, 0, RED_PRESET, 0, c[EFFECT]);
  }

  /** Whether an event picks a colour preset, and which. */
  function PresetOf(e: ButtonEvent): Option<ColorState>
  {
    if e.pressed && e.button == RED_BUTTON_ID then Some(RED_PRESET)
    else if e.pressed && e.button == GREEN_BUTTON_ID then Some(GREEN_PRESET)
    else if e.pressed && e.button == BLUE_BUTTON_ID then Some(BLUE_PRESET)
    else None
  }

  /** The preset picked by the last colour-button press among `events`, if any. */
  function LastPreset(events: seq<ButtonEvent>): Option<ColorState>
    decreases |events|
  {
    if events == [] then None
    else
      var later := LastPreset(events[1..]);
      if later.Some? then later else PresetOf(events[0])
  }

  /** Whether some event among `events` is a press of the effect button. */
  predicate HasEffectPress(events: seq<ButtonEvent>)
  {
    exists k :: 0 <= k < |events| && events[k].pressed && events[k].button == EFFECT_BUTTON_ID
  }

  /**
   * Draining the queue: the colour is the preset of the last colour-button
   * press (or the old colour if there was none) and its flag is raised if
   * there was one; the effect index is 0 and its flag raised if the effect
   * button was pressed, and both are untouched otherwise. Releases and
   * unknown ids have no effect.
   */
  lemma {:induction false} DispatchMeaning(s: Settings, events: seq<ButtonEvent>)
    ensures var t := Dispatch(s, events); var p := LastPreset(events);
      t.color == (if p.Some? then p.value else s.color) &&
      t.colorChanged == (p.Some? || s.colorChanged) &&
      t.effectIndex == (if HasEffectPress(events) then 0 else s.effectIndex) &&
      t.effectChanged == (HasEffectPress(events) || s.effectChanged)
    decreases |events|
  {
    if events != [] {
      var e := events[0];
      var s' := ButtonApplied(s, e);
      DispatchMeaning(s', events[1..]);
      PresetsMeaning(s);
      if HasEffectPress(events[1..]) {
        var k :| 0 <= k < |events[1..]| && events[1..][k].pressed && events[1..][k].button == EFFECT_BUTTON_ID;
        assert events[k + 1] == events[1..][k];
      }
      if HasEffectPress(events) && !(e.pressed && e.button == EFFECT_BUTTON_ID) {
        var k :| 0 <= k < |events| && events[k].pressed && events[k].button == EFFECT_BUTTON_ID;
        assert k > 0 && events[1..][k - 1] == events[k];
      }
    }
  }

  /** Draining keeps a consistent state consistent. */
  lemma {:induction false} DispatchKeepsConsistent(s: Settings, events: seq<ButtonEvent>)
    requires Consistent(s)
    ensures Consistent(Dispatch(s, events))
    decreases |events|
  {
    if events != [] {
      TransitionsKeepConsistent(s, 0, 0, 0, RED_PRESET, 0, 0);
      TransitionsKeepConsistent(s, 0, 0, 0, GREEN_PRESET, 0, 0);
      TransitionsKeepConsistent(s, 0, 0, 0, BLUE_PRESET, 0, 0);
      DispatchKeepsConsistent(ButtonApplied(s, events[0]), events[1..]);
    }
  }

  // ---------------------------------------------------------------------
  // The global state and its handlers

  class Pipeline {
    const queue: ButtonEventQueue
    const state: StateManager
    /** Per-encoder history register: previous sample << 2 | current sample. */
    const prevEncoderStates: array<bv8>
    /** Per-encoder ticks not yet delivered to the main loop. */
    const encoderChanges: array<int8>
    /** Per-button recorded level. */
    const buttonStates: array<bool>
    /** Per-button time of the last accepted press. */
    const lastButtonPress: array<u32>
    /** Set by an encoder tick, cleared by processEncoders. */
    var encoderEvent: bool

    ghost predicate Valid()
      reads this, queue, queue.events, state
    {
      queue.Valid() && state.Valid() &&
      prevEncoderStates.Length == CHANNELS && encoderChanges.Length == CHANNELS &&
      buttonStates.Length == CHANNELS && lastButtonPress.Length == CHANNELS &&
      prevEncoderStates as object != encoderChanges as object &&
      encoderChanges as object != lastButtonPress as object
    }

    /** The global variables' initial values. */
    constructor ()
      ensures Valid()
      ensures fresh(queue) && fresh(queue.events) && fresh(state)
      ensures fresh(prevEncoderStates) && fresh(encoderChanges) && fresh(buttonStates) && fresh(lastButtonPress)
      ensures queue.View() == EMPTY_VIEW && state.View() == INITIAL_SETTINGS
      ensures !encoderEvent
      ensures prevEncoderStates[..] == [0, 0, 0, 0] && encoderChanges[..] == [0, 0, 0, 0]
      ensures buttonStates[..] == [HIGH, HIGH, HIGH, HIGH] && lastButtonPress[..] == [0, 0, 0, 0]
    {
      queue := new ButtonEventQueue();
      state := new StateManager();
      prevEncoderStates := new bv8[CHANNELS](_ => 0);
      encoderChanges := new int8[CHANNELS](_ => 0);
      buttonStates := new bool[CHANNELS](_ => HIGH);
      lastButtonPress := new u32[CHANNELS](_ => 0);
      encoderEvent := false;
    }

    /**
     * The effect of handleEncoder on encoder i with pin sample s, given the
     * history registers, accumulators and flag before it.
     */
    ghost predicate EncoderHandled(i: int, s: PinSample, prev0: seq<bv8>, changes0: seq<int8>, event0: bool)
      reads this, prevEncoderStates, encoderChanges
    {
      0 <= i < CHANNELS && |prev0| == CHANNELS && |changes0| == CHANNELS &&
      var h := NextHistory(prev0[i], s);
      var d := Change(h);
      prevEncoderStates[..] == prev0[i := h] &&
      encoderChanges[..] == changes0[i := if d != 0 then WrapInt8(changes0[i] + d) else changes0[i]] &&
      encoderEvent == (event0 || d != 0)
    }

    /**
     * handleEncoder: shifts the sample into encoder i's history, adds the
     * table entry to its accumulator and raises encoderEvent if the entry is
     * nonzero; touches nothing else.
     */
    method HandleEncoder(i: int, s: PinSample)
      requires Valid() && 0 <= i < CHANNELS
      modifies this, prevEncoderStates, encoderChanges
      ensures Valid()
      ensures EncoderHandled(i, s, old(prevEncoderStates[..]), old(encoderChanges[..]), old(encoderEvent))
    {
      var h := NextHistory(prevEncoderStates[i], s);
      prevEncoderStates[i] := h;
      assert prevEncoderStates[..] == old(prevEncoderStates[..])[i := h];
      var change := Change(h);
      if change != 0 {
        encoderChanges[i] := WrapInt8(encoderChanges[i] + change);
        encoderEvent := true;
      }
    }

    method HandleRedEncoder(s: PinSample)
      requires Valid()
      modifies this, prevEncoderStates, encoderChanges
      ensures Valid()
      ensures EncoderHandled(RED, s, old(prevEncoderStates[..]), old(encoderChanges[..]), old(encoderEvent))
    {
      HandleEncoder(RED, s);
    }

    method HandleGreenEncoder(s: PinSample)
      requires Valid()
      modifies this, prevEncoderStates, encoderChanges
      ensures Valid()
      ensures EncoderHandled(GREEN, s, old(prevEncoderStates[..]), old(encoderChanges[..]), old(encoderEvent))
    {
      HandleEncoder(GREEN, s);
    }

    method HandleBlueEncoder(s: PinSample)
      requires Valid()
      modifies this, prevEncoderStates, encoderChanges
      ensures Valid()
      ensures EncoderHandled(BLUE, s, old(prevEncoderStates[..]), old(encoderChanges[..]), old(encoderEvent))
    {
      HandleEncoder(BLUE, s);
    }

    method HandleEffectEncoder(s: PinSample)
      requires Valid()
      modifies this, prevEncoderStates, encoderChanges
      ensures Valid()
      ensures EncoderHandled(EFFECT, s, old(prevEncoderStates[..]), old(encoderChanges[..]), old(encoderEvent))
    {
      HandleEncoder(EFFECT, s);
    }

    /**
     * The effect of handleButton on button i (event id `id`) for edge e,
     * given the recorded levels, last-press times and queue before it.
     */
    ghost predicate ButtonHandled(i: int, id: u8, e: Edge, states0: seq<bool>, presses0: seq<u32>, queue0: QueueView)
      reads this, buttonStates, lastButtonPress, queue
    {
      0 <= i < CHANNELS && |states0| == CHANNELS && |presses0| == CHANNELS &&
      var r := React(ButtonChannel(states0[i], presses0[i]), e);
      buttonStates[..] == states0[i := r.channel.level] &&
      lastButtonPress[..] == presses0[i := r.channel.lastPress] &&
      queue.View() == (if r.press then PushSpec(queue0, id, true, e.time).0 else queue0)
    }

    /**
     * handleButton: outside the lockout records the level read and, for a
     * confirmed press, pushes (id, pressed, now) and records now as the last
     * press, whether or not the push found room.
     */
    method HandleButton(i: int, id: u8, level: bool, verifyLevel: bool, now: u32)
      requires Valid() && 0 <= i < CHANNELS
      modifies buttonStates, lastButtonPress, queue, queue.events
      ensures Valid()
      ensures ButtonHandled(i, id, Edge(level, verifyLevel, now), old(buttonStates[..]), old(lastButtonPress[..]), old(queue.View()))
    {
      if SubU32(now, lastButtonPress[i]) > DEBOUNCE_DELAY {
        if level == LOW && buttonStates[i] == HIGH {
          if verifyLevel == LOW {
            var _ := queue.Push(id, true, now);
            lastButtonPress[i] := now;
          }
        }
        buttonStates[i] := level;
      }
    }

    method HandleRedButton(level: bool, verifyLevel: bool, now: u32)
      requires Valid()
      modifies buttonStates, lastButtonPress, queue, queue.events
      ensures Valid()
      ensures ButtonHandled(RED, RED_BUTTON_ID, Edge(level, verifyLevel, now), old(buttonStates[..]), old(lastButtonPress[..]), old(queue.View()))
    {
      HandleButton(RED, RED_BUTTON_ID, level, verifyLevel, now);
    }

    method HandleGreenButton(level: bool, verifyLevel: bool, now: u32)
      requires Valid()
      modifies buttonStates, lastButtonPress, queue, queue.events
      ensures Valid()
      ensures ButtonHandled(GREEN, GREEN_BUTTON_ID, Edge(level, verifyLevel, now), old(buttonStates[..]), old(lastButtonPress[..]), old(queue.View()))
    {
      HandleButton(GREEN, GREEN_BUTTON_ID, level, verifyLevel, now);
    }

    method HandleBlueButton(level: bool, verifyLevel: bool, now: u32)
      requires Valid()
      modifies buttonStates, lastButtonPress, queue, queue.events
      ensures Valid()
      ensures ButtonHandled(BLUE, BLUE_BUTTON_ID, Edge(level, verifyLevel, now), old(buttonStates[..]), old(lastButtonPress[..]), old(queue.View()))
    {
      HandleButton(BLUE, BLUE_BUTTON_ID, level, verifyLevel, now);
    }

    method HandleEffectButton(level: bool, verifyLevel: bool, now: u32)
      requires Valid()
      modifies buttonStates, lastButtonPress, queue, queue.events
      ensures Valid()
      ensures ButtonHandled(EFFECT, EFFECT_BUTTON_ID, Edge(level, verifyLevel, now), old(buttonStates[..]), old(lastButtonPress[..]), old(queue.View()))
    {
      HandleButton(EFFECT, EFFECT_BUTTON_ID, level, verifyLevel, now);
    }

    /**
     * processEncoders: if encoderEvent is set, hands the accumulated ticks to
     * the state (colour deltas scaled by 5) and clears all four accumulators
     * and the flag; otherwise changes nothing.
     */
    method ProcessEncoders()
      requires Valid()
      modifies this, encoderChanges, state
      ensures Valid() && !encoderEvent
      ensures !old(encoderEvent) ==>
        encoderChanges[..] == old(encoderChanges[..]) && state.View() == old(state.View())
      ensures old(encoderEvent) ==>
        encoderChanges[..] == [0, 0, 0, 0] &&
        state.View() == EncodersApplied(old(state.View()), old(encoderChanges[..]))
    {
      if !encoderEvent {
        return;
      }
      ghost var c := encoderChanges[..];
      ghost var s0 := state.View();
      if encoderChanges[RED] != 0 || encoderChanges[GREEN] != 0 || encoderChanges[BLUE] != 0 {
        state.AdjustColor(encoderChanges[RED] * COLOR_STEP, encoderChanges[GREEN] * COLOR_STEP, encoderChanges[BLUE] * COLOR_STEP);
        encoderChanges[RED], encoderChanges[GREEN], encoderChanges[BLUE] := 0, 0, 0;
      }
      ghost var s1 := state.View();
      assert s1 == if c[RED] != 0 || c[GREEN] != 0 || c[BLUE] != 0
                   then ColorAdjusted(s0, COLOR_STEP * c[RED], COLOR_STEP * c[GREEN], COLOR_STEP * c[BLUE])
                   else s0;
      assert encoderChanges[EFFECT] == c[EFFECT];
      if encoderChanges[EFFECT] != 0 {
        state.AdjustEffect(encoderChanges[EFFECT]);
        encoderChanges[EFFECT] := 0;
      }
      encoderEvent := false;
    }

    /**
     * processButtons: pops until the queue reports empty and applies each
     * press: ids 1, 2, 3 pick the red, green and blue presets, id 4 resets
     * the effect; releases and other ids are skipped.
     */
    method ProcessButtons()
      requires Valid()
      modifies queue, state
      ensures Valid()
      ensures queue.View() == PopAll(old(queue.View()))
      ensures state.View() == Dispatch(old(state.View()), old(queue.Contents))
    {
      var event := ButtonEvent(0, false, 0);
      while true
        invariant Valid()
        invariant PopAll(queue.View()) == PopAll(old(queue.View()))
        invariant Dispatch(state.View(), queue.Contents) == Dispatch(old(state.View()), old(queue.Contents))
        decreases |queue.Contents|
      {
        ghost var before := queue.View();
        var ok;
        ok, event := queue.Pop(event);
        if !ok {
          assert queue.View() == PopAll(before);
          break;
        }
        ghost var s0 := state.View();
        if event.pressed {
          if event.button == RED_BUTTON_ID {
            state.SetRedPreset();
          } else if event.button == GREEN_BUTTON_ID {
            state.SetGreenPreset();
          } else if event.button == BLUE_BUTTON_ID {
            state.SetBluePreset();
          } else if event.button == EFFECT_BUTTON_ID {
            state.ResetEffect();
          }
        }
        assert state.View() == ButtonApplied(s0, event);
        assert PopAll(before) == PopAll(queue.View());
      }
    }
  }
}
