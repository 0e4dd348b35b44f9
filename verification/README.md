# Rotary-encoder input pipeline of an ESP32 WLED controller, in Dafny

The firmware reads four rotary encoders and four push buttons. One encoder
and one button each control red, green, blue and the lighting effect. Their
state feeds a small application state, which the main loop forwards to a
display and to a WLED light controller. This project models the input
half of the firmware:

- **the quadrature decoder** (`handleEncoder`). Each pin edge shifts the
  two-bit pin sample into a four-bit history, looks that history up in a
  16-entry table of -1/0/+1, and adds any nonzero entry to an `int8_t`
  accumulator for the channel (`quadrature.dfy`; the per-channel arrays
  are in `input_pipeline.dfy`);
- **the button debouncer** (`handleButton`). It uses a 50 ms lockout on
  `millis()` since the last accepted press, plus a confirmed HIGH-to-LOW
  transition with a re-read (`debounce.dfy`);
- **the `ButtonEventQueue`**. This is a 20-slot ring buffer that holds at
  most 19 events. It has wrap-around indices and eight `uint32_t` debug
  counters (`event_queue.dfy`);
- **the `StateManager`**. It holds an RGB colour clamped to 0..255, an
  effect index and two change flags (`state_manager.dfy`);
- **the main-loop drains** `processEncoders` and `processButtons`, and the
  interrupt handlers, as methods of a `Pipeline` object. Its fields are the
  firmware's globals (`input_pipeline.dfy`).

The target is an ESP32, so `unsigned long` is 32 bits wide.
`fixed_width.dfy` makes the target's integer behaviour explicit:

- `x++` on a counter wraps at 2^32;
- `currentTime - lastButtonPress[i]` is a difference modulo 2^32;
- `+=` on an `int8_t` wraps modulo 256;
- C++'s `%` truncates toward zero.

The mutable objects (`ButtonEventQueue`, `StateManager`, `Pipeline`) are
Dafny classes over arrays and fields. Each has a `Valid()` invariant and an
abstract value:

- `QueueView` for the queue;
- `Settings` for the state manager.

Each method is proved against a pure transition function on that value:
`PushSpec`, `PopSpec`, `ColorAdjusted`, `EffectAdjusted`, `Dispatch` and so
on. The lemmas then state what those functions promise:

- FIFO order and capacity of the queue;
- debug counters that track its size;
- the shape of the decoding table;
- four ticks per Gray-code cycle;
- the spacing of debounced presses;
- what a drain does to the application state.

Points where the code behaves differently from a first reading of its
intent are modelled as the code is written:

- One Gray-code step is one tick, so a full detent cycle moves the count by
  4 (`Quadrature.FullCycle`). The cycle in which pin B changes first
  (00-01-11-10) counts -4, the reverse cycle +4. Which of the two is
  clockwise depends on the encoder and its wiring, which the code does not fix.
- `lastButtonPress` starts at 0, so every button edge in the first 50 ms
  after boot is ignored (`Debounce.StartupLockout`). A press at t=0 is not
  pushed.
- `adjustEffect` computes `(index + delta + COUNT) % COUNT` with C++'s
  truncating `%`. A delta below `-COUNT - index` can leave a negative
  effect index: 0 adjusted by -11 gives -1
  (`AppState.AdjustEffectCanGoNegative`), while 0 adjusted by -20 gives 0.
  The index is only guaranteed to lie strictly between -10 and 10. A
  negative index would be an out-of-bounds read where the firmware looks
  up the effect's name, outside this model.
- Only presses are pushed. A release outside the 50 ms lockout is recorded
  in `buttonStates` and never queued. A release within 50 ms of the last
  accepted press is not recorded at all. The button then stays recorded as
  down, and the next press is not pushed either
  (`Debounce.ReleaseInLockoutIsLost`). `lastButtonPress` is updated even when the push fails
  because the queue is full.
- `processButtons` skips events whose `pressed` is false. Because no such
  events are ever pushed, this branch is modelled but never taken by the
  handlers.

## Model

| member | source | states |
|---|---|---|
| FixedWidth.IncU32 | src/ButtonEventQueue.h:49 | `x++` on a uint32_t: the result is x + 1 modulo 2^32, and exactly x + 1 below the maximum |
| FixedWidth.SubU32 | src/main.cpp:50 | unsigned long subtraction: congruent to a - b modulo 2^32; equal to a - b when b <= a, and to 2^32 - (b - a) when the clock has wrapped |
| FixedWidth.WrapInt8 | src/main.cpp:34 | storing into an int8_t: the result is in -128..127, congruent to the input modulo 256, and equal to it when it fits |
| FixedWidth.Constrain | src/StateManager.h:113-115 | Arduino's constrain: the result lies in lo..hi, equals x exactly when x is already in range, and is the point of the range closest to x |
| EventQueue.PushWithRoom | src/ButtonEventQueue.h:48-60 | a push with fewer than 19 events queued appends the event at the back, returns true, and counts one attempt and one success; pop counters untouched |
| EventQueue.PushWhenFull | src/ButtonEventQueue.h:49-61 | a push onto a full queue (19 events) returns false, leaves the events unchanged, and counts only the attempt, so the attempt counter runs one ahead of the success counter |
| EventQueue.PopNonEmpty | src/ButtonEventQueue.h:65-77 | a pop from a non-empty queue hands out the front event, removes it, records its button as last processed, and counts one attempt and one success |
| EventQueue.PopEmpty | src/ButtonEventQueue.h:65-80 | a pop from an empty queue hands out nothing, leaves the events as they are and counts only the attempt |
| EventQueue.StepsKeepCapacity | src/ButtonEventQueue.h:50-52 | no push or pop takes the queue beyond 19 = SIZE - 1 events |
| EventQueue.StepFifo | src/ButtonEventQueue.h:48-80 | one push or pop keeps FIFO order: the contents followed by what it accepted equal what it handed out followed by the new contents |
| EventQueue.Fifo | src/ButtonEventQueue.h:48-80 | across any sequence of pushes and pops, the initial contents followed by the accepted events equal the delivered events followed by the final contents: first in, first out, nothing lost or invented |
| EventQueue.RunAppend | src/ButtonEventQueue.h:48-80 | running two operation sequences one after the other is running their concatenation, with accepted and delivered events concatenated |
| EventQueue.PushStepWithRoom | src/ButtonEventQueue.h:48-59 | one push that finds room appends the event, accepts it, hands nothing out, and advances the attempt and success counters by one |
| EventQueue.PushesFitEvents | src/ButtonEventQueue.h:48-60 | pushes that fit in the remaining room are all accepted in order and appended to the contents, and nothing is delivered |
| EventQueue.PushesFitCounters | src/ButtonEventQueue.h:48-60 | each push that fits adds one to the attempt counter and one to the success counter, modulo 2^32 |
| EventQueue.PushesFit | src/ButtonEventQueue.h:48-60 | pushes that fit in the remaining room are all accepted in order, nothing is delivered, and each adds one to the attempt and success counters (mod 2^32) |
| EventQueue.TwentiethPushFails | src/ButtonEventQueue.h:48-62 | from a fresh queue, of 20 pushes the first 19 are accepted and queued and the 20th is dropped; the counters show 20 attempts and 19 successes |
| EventQueue.PopsDrain | src/ButtonEventQueue.h:65-80 | popping as many times as there are events delivers exactly the contents, in order, and leaves the queue empty |
| EventQueue.RoundTrip | src/ButtonEventQueue.h:48-80 | pushing up to 19 events into an empty queue and popping them all returns exactly those events in the same order and leaves the queue empty |
| EventQueue.StepsKeepCountersAgree | src/ButtonEventQueue.h:48-85 | if successful pushes minus successful pops (mod 2^32) equals the size before a push or pop, it still does after it |
| EventQueue.CountersTrackSize | src/ButtonEventQueue.h:48-85 | along any sequence of operations from a consistent queue, the size stays within capacity and equals pushSuccess - popSuccess modulo 2^32 |
| EventQueue.PopAllDrains | src/main.cpp:167-168 | draining until pop fails empties the queue, counts one success per event and one extra, failing attempt |
| EventQueue.SlotArithmetic | src/ButtonEventQueue.h:50-52 | with head and tail in 0..19, the size (head - tail) mod 20 is below 20; the ring is full exactly when (head + 1) mod 20 == tail; no live slot is the head slot |
| EventQueue.SlotShift | src/ButtonEventQueue.h:74 | after the tail advances, the k-th live slot is the old (k+1)-th |
| EventQueue.ButtonEventQueue.constructor | src/ButtonEventQueue.h:45 | a new queue is empty with head = tail = 0 and every debug counter 0 |
| EventQueue.ButtonEventQueue.Size | src/ButtonEventQueue.h:83-85 | getSize returns the number of queued events, (head - tail) mod 20, never more than 19 |
| EventQueue.ButtonEventQueue.Push | src/ButtonEventQueue.h:48-62 | push writes the event at head and advances head modulo 20 exactly when the ring is not full; the queue's contents and counters become PushSpec of the old ones; tail never moves; a rejected push writes nothing |
| EventQueue.ButtonEventQueue.Pop | src/ButtonEventQueue.h:65-80 | pop hands out the event at tail and advances tail modulo 20 exactly when the queue is not empty; contents and counters become PopSpec of the old ones; on failure the caller's event is left as it was; head never moves |
| AppState.Clamped | src/StateManager.h:113-115 | each component constrained to 0..255: the result is in range, and is the input itself when that is in range |
| AppState.CppRemCount | src/StateManager.h:160 | C++ `% Effects::COUNT`: congruent to x modulo 10, in 0..9 for x >= 0 and in -9..0 for x < 0 |
| AppState.TransitionsKeepConsistent | src/StateManager.h:112-167 | every mutating method keeps the colour in 0..255 and the effect index strictly between -10 and 10 |
| AppState.ColorSetMeaning | src/StateManager.h:112-116 | setColor stores the clamped components, which equal the arguments exactly when those are in range, and touches neither flag nor the effect |
| AppState.ColorAdjustedMeaning | src/StateManager.h:123-135 | adjustColor yields the clamped sums; if these equal the current colour nothing changes at all, otherwise the colour flag is raised; the effect is untouched |
| AppState.ZeroAdjustmentIsIdentity | src/StateManager.h:123-135 | a zero adjustment of an in-range colour is a no-op, the flag included |
| AppState.PresetsMeaning | src/StateManager.h:138-151 | the red, green and blue presets set exactly (150,0,0), (0,150,0), (0,0,150) and raise the colour flag; effect untouched |
| AppState.EffectAdjustedMeaning | src/StateManager.h:159-162 | adjustEffect gives an index congruent to index + delta modulo 10, strictly between -10 and 10, within 0..9 whenever index + delta + 10 is not negative; raises the effect flag; colour untouched |
| AppState.EffectWrapsAround | src/StateManager.h:159-162 | one step up from 9 gives 0 and one step down from 0 gives 9 |
| AppState.AdjustEffectCanGoNegative | src/StateManager.h:160 | from index 0 an adjustment of -11 yields index -1, outside the effect table |
| AppState.EffectSetMeaning | src/StateManager.h:154-157 | setEffect stores the index constrained to 0..9 (the argument itself when in range), raises the effect flag, colour untouched |
| AppState.StateManager.constructor | src/StateManager.h:105-109 | a new state manager holds black, effect 0 and both flags clear |
| AppState.StateManager.SetColor | src/StateManager.h:112-116 | the new state is ColorSet of the old one |
| AppState.StateManager.AdjustColor | src/StateManager.h:123-135 | the new state is ColorAdjusted of the old one |
| AppState.StateManager.SetRedPreset | src/StateManager.h:138-141 | the new state is the old one with colour (150,0,0) and the colour flag raised |
| AppState.StateManager.SetGreenPreset | src/StateManager.h:143-146 | the new state is the old one with colour (0,150,0) and the colour flag raised |
| AppState.StateManager.SetBluePreset | src/StateManager.h:148-151 | the new state is the old one with colour (0,0,150) and the colour flag raised |
| AppState.StateManager.SetEffect | src/StateManager.h:154-157 | the new state is EffectSet of the old one |
| AppState.StateManager.AdjustEffect | src/StateManager.h:159-162 | the new state is EffectAdjusted of the old one |
| AppState.StateManager.ResetEffect | src/StateManager.h:164-167 | the effect index becomes 0 and the effect flag is raised; nothing else changes |
| AppState.StateManager.GetColorState | src/StateManager.h:170 | the colour returned has every component in 0..255 |
| AppState.StateManager.GetEffectIndex | src/StateManager.h:171 | the index returned lies strictly between -10 and 10 |
| AppState.StateManager.GetRed | src/StateManager.h:176 | the red component, in 0..255 |
| AppState.StateManager.GetGreen | src/StateManager.h:177 | the green component, in 0..255 |
| AppState.StateManager.GetBlue | src/StateManager.h:178 | the blue component, in 0..255 |
| AppState.StateManager.ClearColorChanged | src/StateManager.h:181 | only the colour flag changes, to false |
| AppState.StateManager.ClearEffectChanged | src/StateManager.h:182 | only the effect flag changes, to false |
| Quadrature.SampleBits | src/main.cpp:30 | pin A shifted left one bit, combined with pin B: a value below 4 whose bit 1 is pin A and bit 0 is pin B |
| Quadrature.NextHistory | src/main.cpp:29-30 | the new history is below 16, its high half is the low half of the previous history and its low half is the new sample |
| Quadrature.Change | src/main.cpp:27-32 | every table entry is -1, 0 or +1 |
| Quadrature.TableShape | src/main.cpp:27 | the table gives 0 for no change and for a skipped (double) step, +1 or -1 exactly for the single-bit Gray-code steps, and reversing a step negates it |
| Quadrature.ChangeIsStep | src/main.cpp:29-32 | the table lookup after an edge is the step from the previous sample to the new one |
| Quadrature.RestIsZero | src/main.cpp:29-33 | re-reading the sample already recorded gives no change |
| Quadrature.TrackAppend | src/main.cpp:26-37 | tracking two runs of edges in turn adds their net changes and ends where the second run ends |
| Quadrature.FullCycle | src/main.cpp:27-32 | one full cycle 00-01-11-10-00 counts -4 and the reverse cycle +4 |
| Quadrature.Cycles | src/main.cpp:27-32 | n full cycles in which pin B changes first (00-01-11-10) count -4n |
| Quadrature.AccumulateIsNet | src/main.cpp:32-35 | the int8_t accumulator after any run of edges is its start value plus the run's net change, wrapped to int8_t |
| Debounce.ReactMeaning | src/main.cpp:46-60 | within 50 ms of the last accepted press nothing changes; otherwise the recorded level becomes the read; a press is pushed exactly for a confirmed HIGH-to-LOW edge outside the lockout, and only then does the last-press time move |
| Debounce.GlitchIsRejected | src/main.cpp:52-53 | a re-read that is no longer LOW pushes nothing |
| Debounce.StartupLockout | src/main.cpp:50 | with the start-up last-press time 0, every edge up to 50 ms after boot is ignored |
| Debounce.PushesAreSpaced | src/main.cpp:50-55 | successive pushed presses of one button are more than 50 ms apart (uint32 arithmetic), and the recorded last press is the last one pushed |
| Debounce.HeldDownPushesAtMostOnce | src/main.cpp:51-58 | a button held down pushes at most one press, and none if already recorded as down |
| Debounce.PressBounceReleasePress | src/main.cpp:46-60 | press at 0, bounce at 5, release at 60, press at 65 push exactly one press, stamped 65 |
| Debounce.ReleaseInLockoutIsLost | src/main.cpp:50-58 | a release within 50 ms of an accepted press is not recorded, so the button stays recorded as down and the next press, at any later time, pushes nothing |
| Debounce.BounceAfterPressIsIgnored | src/main.cpp:50-55 | a bounce within 50 ms of an accepted press pushes nothing more |
| InputPipeline.NoTicksNoChange | src/main.cpp:140-154 | with every accumulator 0 the drain leaves the state alone |
| InputPipeline.EncodersAppliedMeaning | src/main.cpp:140-154 | draining the encoders adjusts the colour by 5 times each RGB accumulator (only if one is nonzero) and the effect by the effect accumulator (only if nonzero), keeping the state consistent |
| InputPipeline.DispatchMeaning | src/main.cpp:166-188 | draining button events leaves the colour of the last RGB press (or the old colour), raises the colour flag if there was an RGB press and otherwise leaves it as it was, resets the effect index to 0 and raises its flag if there was an effect press and otherwise leaves both alone, and ignores releases and unknown ids |
| InputPipeline.DispatchKeepsConsistent | src/main.cpp:166-188 | draining any button events keeps the state consistent |
| InputPipeline.Pipeline.constructor | src/main.cpp:18-23 | the globals start as declared: empty queue, initial state, histories and accumulators 0, buttons HIGH, last presses 0, no encoder event |
| InputPipeline.Pipeline.HandleEncoder | src/main.cpp:26-37 | the channel's history becomes NextHistory of the old one; on a nonzero table entry the channel's accumulator gains it with int8_t wrap and the event flag is set; otherwise nothing else changes |
| InputPipeline.Pipeline.HandleRedEncoder | src/main.cpp:40 | handleEncoder on channel 0 |
| InputPipeline.Pipeline.HandleGreenEncoder | src/main.cpp:41 | handleEncoder on channel 1 |
| InputPipeline.Pipeline.HandleBlueEncoder | src/main.cpp:42 | handleEncoder on channel 2 |
| InputPipeline.Pipeline.HandleEffectEncoder | src/main.cpp:43 | handleEncoder on channel 3 |
| InputPipeline.Pipeline.HandleButton | src/main.cpp:46-60 | the button's level and last-press time follow Debounce.React; a press is pushed to the queue (PushSpec) exactly when React accepts it; other buttons and the state are untouched |
| InputPipeline.Pipeline.HandleRedButton | src/main.cpp:63 | handleButton on index 0, id 1 |
| InputPipeline.Pipeline.HandleGreenButton | src/main.cpp:64 | handleButton on index 1, id 2 |
| InputPipeline.Pipeline.HandleBlueButton | src/main.cpp:65 | handleButton on index 2, id 3 |
| InputPipeline.Pipeline.HandleEffectButton | src/main.cpp:66-68 | handleButton on index 3, id 4 |
| InputPipeline.Pipeline.ProcessEncoders | src/main.cpp:133-164 | with no encoder event nothing changes; otherwise the state becomes EncodersApplied of the accumulators, all four accumulators end at 0 and the event flag is cleared |
| InputPipeline.Pipeline.ProcessButtons | src/main.cpp:166-188 | the queue is drained (PopAll of its old value, counters included) and the state becomes Dispatch of the events it held, in FIFO order |

## Left out

- Interrupt preemption is not modelled. Each handler, push, pop and drain is one atomic step. This leaves out `volatile`, the `noInterrupts()`/`interrupts()` window in `processEncoders`, and any race between an interrupt and a drain in progress.
- Hardware access is replaced by parameters: `digitalRead`, `millis`, `delayMicroseconds`, `pinMode` and `attachInterrupt`. So are the pin numbers, `setupPins` and `setup`.
- A handler's two pin reads become a `PinSample`, and a button's read and re-read become the `level` and `verifyLevel` arguments.
- The display, network and WLED classes are not part of this model. Neither are `loop`'s throttling, the WLED and display forwarding, `printDebugInfo` and the debug prints.
- `getDebugInfo` and the getters `hasColorChanged` and `hasEffectChanged` are modelled as reads of the state. They promise nothing beyond returning the field, so they carry no contract.
- The `DebugInfo` counters `interruptCalls` and `debounceChecks` are carried but never changed, because no code in the core changes them. The global `colorChangedFromButton` next to `ButtonEvent` is unused and left out.
- The uninitialised local `ButtonEvent event` of `processButtons` is modelled as an all-zero event. Its value is only read after a successful pop has overwritten it.
- AppState.StateManager.AdjustColor: C++ signed `int` overflow of `colorState.red + redDelta` for deltas near INT_MAX is not modelled. The model uses unbounded integers there, and so does AdjustEffect for `effectIndex + delta + COUNT`. The only callers pass at most 5 * 128 and 128.
- The other `config.h` constants are not part of this model. The ones the core uses are carried as constants: `DEBOUNCE_DELAY` (50) and `Effects::COUNT` (10).
