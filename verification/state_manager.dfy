/**
 * The application state the input pipeline drives (StateManager): an RGB
 * colour whose components are clamped to 0..255, the index of the selected
 * lighting effect, and two flags that tell the main loop what to forward.
 *
 * `Settings` is the abstract value of a StateManager. Each method of the
 * class is proved against one of the transition functions below
 * (`ColorSet`, `ColorAdjusted`, `WithPreset`, `EffectSet`, `EffectAdjusted`,
 * `EffectReset`); the lemmas state what those transitions promise.
 */
module AppState {
  import opened FixedWidth

  /** Effects::COUNT: the number of lighting effects. */
  const EFFECT_COUNT: int := 10
  /** Largest value of a colour component. */
  const COMPONENT_MAX: int := 255
  /** Level of the lit component in each colour preset. */
  const PRESET_LEVEL: int := 150

  datatype ColorState = ColorState(red: int, green: int, blue: int)

  const BLACK: ColorState := ColorState(0, 0, 0)
  const RED_PRESET: ColorState := ColorState(PRESET_LEVEL, 0, 0)
  const GREEN_PRESET: ColorState := ColorState(0, PRESET_LEVEL, 0)
  const BLUE_PRESET: ColorState := ColorState(0, 0, PRESET_LEVEL)

  /**
   * Abstract value of a StateManager: the colour, the effect index, and the
   * flags colorChangedFromButton and effectChanged.
   */
  datatype Settings = Settings(color: ColorState, effectIndex: int, colorChanged: bool, effectChanged: bool)

  const INITIAL_SETTINGS: Settings := Settings(BLACK, 0, false, false)

  predicate InRange(c: ColorState)
  {
    0 <= c.red <= COMPONENT_MAX && 0 <= c.green <= COMPONENT_MAX && 0 <= c.blue <= COMPONENT_MAX
  }

  /**
   * What every reachable state satisfies. The effect index is only known to
   * lie strictly between -EFFECT_COUNT and EFFECT_COUNT: a large negative
   * adjustment drives it below 0 (see AdjustEffectCanGoNegative).
   */
  predicate Consistent(s: Settings)
  {
    InRange(s.color) && -EFFECT_COUNT < s.effectIndex < EFFECT_COUNT
  }

  /** The colour each component of which is clamped into 0..255. */
  function Clamped(red: int, green: int, blue: int): (c: ColorState)
    ensures InRange(c)
    ensures InRange(ColorState(red, green, blue)) ==> c == ColorState(red, green, blue)
  {
    ColorState(Constrain(red, 0, COMPONENT_MAX), Constrain(green, 0, COMPONENT_MAX), Constrain(blue, 0, COMPONENT_MAX))
  }

  /**
   * C++ `x % Effects::COUNT`: the remainder of division truncated toward
   * zero, which takes the sign of `x` (Dafny's own `%` never goes negative).
   */
  function CppRemCount(x: int): (r: int)
    ensures (x - r) % EFFECT_COUNT == 0
    ensures x >= 0 ==> 0 <= r < EFFECT_COUNT
    ensures x < 0 ==> -EFFECT_COUNT < r <= 0
  {
    if x >= 0 then x % EFFECT_COUNT else -((-x) % EFFECT_COUNT)
  }

  // ---------------------------------------------------------------------
  // Transitions, one per mutating method of StateManager

  /** setColor: clamps each component; neither flag changes. */
  function ColorSet(s: Settings, red: int, green: int, blue: int): Settings
  {
    s.(color := Clamped(red, green, blue))
  }

  /**
   * adjustColor: the clamped sums are stored, and the colour flag raised,
   * only when they differ from the current colour.
   */
  function ColorAdjusted(s: Settings, redDelta: int, greenDelta: int, blueDelta: int): Settings
  {
    var c := Clamped(s.color.red + redDelta, s.color.green + greenDelta, s.color.blue + blueDelta);
    if c != s.color then s.(color := c, colorChanged := true) else s
  }

  /** setRedPreset, setGreenPreset, setBluePreset: setColor(preset), then raise the colour flag. */
  function WithPreset(s: Settings, preset: ColorState): Settings
  {
    ColorSet(s, preset.red, preset.green, preset.blue).(colorChanged := true)
  }

  /** setEffect: clamps the index into 0..COUNT-1 and raises the effect flag. */
  function EffectSet(s: Settings, newIndex: int): Settings
  {
    s.(effectIndex := Constrain(newIndex, 0, EFFECT_COUNT - 1), effectChanged := true)
  }

  /** adjustEffect: (index + delta + COUNT) % COUNT with C++'s `%`; raises the effect flag. */
  function EffectAdjusted(s: Settings, delta: int): Settings
  {
    s.(effectIndex := CppRemCount(s.effectIndex + delta + EFFECT_COUNT), effectChanged := true)
  }

  /** resetEffect: back to the first effect; raises the effect flag. */
  function EffectReset(s: Settings): Settings
  {
    s.(effectIndex := 0, effectChanged := true)
  }

  // ---------------------------------------------------------------------
  // What the transitions promise

  /** Every transition keeps a consistent state consistent. */
  lemma TransitionsKeepConsistent(s: Settings, r: int, g: int, b: int, preset: ColorState, i: int, delta: int)
    requires Consistent(s) && InRange(preset)
    ensures Consistent(ColorSet(s, r, g, b))
    ensures Consistent(ColorAdjusted(s, r, g, b))
    ensures Consistent(WithPreset(s, preset))
    ensures Consistent(EffectSet(s, i))
    ensures Consistent(EffectAdjusted(s, delta))
    ensures Consistent(EffectReset(s))
  {
  }

  /** setColor: the colour becomes the clamped components; nothing else changes. */
  lemma ColorSetMeaning(s: Settings, r: int, g: int, b: int)
    ensures var t := ColorSet(s, r, g, b);
      InRange(t.color) &&
      (InRange(ColorState(r, g, b)) <==> t.color == ColorState(r, g, b)) &&
      t.colorChanged == s.colorChanged && t.effectIndex == s.effectIndex && t.effectChanged == s.effectChanged
  {
  }

  /**
   * adjustColor: the colour becomes the clamped sums; the colour flag is
   * raised exactly when that changes the colour; when it does not, nothing
   * at all changes; the effect part is never touched.
   */
  lemma ColorAdjustedMeaning(s: Settings, dr: int, dg: int, db: int)
    ensures var t := ColorAdjusted(s, dr, dg, db);
      t.color == Clamped(s.color.red + dr, s.color.green + dg, s.color.blue + db) &&
      (t.color == s.color ==> t == s) &&
      (t.color != s.color ==> t.colorChanged) &&
      t.effectIndex == s.effectIndex && t.effectChanged == s.effectChanged
  {
  }

  /** A zero adjustment of an in-range colour changes nothing, flag included. */
  lemma ZeroAdjustmentIsIdentity(s: Settings)
    requires InRange(s.color)
    ensures ColorAdjusted(s, 0, 0, 0) == s
  {
  }

  /**
   * The three presets set exactly (150,0,0), (0,150,0) and (0,0,150), raise
   * the colour flag, and leave the effect index and effect flag alone.
   */
  lemma PresetsMeaning(s: Settings)
    ensures WithPreset(s, RED_PRESET) == s.(color := ColorState(150, 0, 0), colorChanged := true)
    ensures WithPreset(s, GREEN_PRESET) == s.(color := ColorState(0, 150, 0), colorChanged := true)
    ensures WithPreset(s, BLUE_PRESET) == s.(color := ColorState(0, 0, 150), colorChanged := true)
  {
  }

  /**
   * adjustEffect: the new index is congruent to index + delta modulo COUNT,
   * always strictly between -COUNT and COUNT, and within 0..COUNT-1 whenever
   * index + delta + COUNT is not negative (in particular when the index is in
   * range and delta >= -COUNT - index). The effect flag is raised and the
   * colour part is untouched.
   */
  lemma EffectAdjustedMeaning(s: Settings, delta: int)
    ensures var t := EffectAdjusted(s, delta);
      (t.effectIndex - s.effectIndex - delta) % EFFECT_COUNT == 0 &&
      -EFFECT_COUNT < t.effectIndex < EFFECT_COUNT &&
      (s.effectIndex + delta + EFFECT_COUNT >= 0 ==> 0 <= t.effectIndex < EFFECT_COUNT) &&
      t.effectChanged && t.color == s.color && t.colorChanged == s.colorChanged
  {
  }

  /** Turning one step past either end wraps round. */
  lemma EffectWrapsAround(s: Settings)
    ensures s.effectIndex == EFFECT_COUNT - 1 ==> EffectAdjusted(s, 1).effectIndex == 0
    ensures s.effectIndex == 0 ==> EffectAdjusted(s, -1).effectIndex == EFFECT_COUNT - 1
  {
  }

  /** With C++'s `%`, index 0 adjusted by -11 gives -1, outside the effect list. */
  lemma AdjustEffectCanGoNegative(s: Settings)
    requires s.effectIndex == 0
    ensures EffectAdjusted(s, -11).effectIndex == -1
  {
  }

  /** setEffect clamps into 0..COUNT-1, and keeps an index already in range. */
  lemma EffectSetMeaning(s: Settings, i: int)
    ensures var t := EffectSet(s, i);
      0 <= t.effectIndex < EFFECT_COUNT && (0 <= i < EFFECT_COUNT <==> t.effectIndex == i) &&
      t.effectChanged && t.color == s.color && t.colorChanged == s.colorChanged
  {
  }

  // ---------------------------------------------------------------------
  // The object

  class StateManager {
    var colorState: ColorState
    var effectIndex: int
    var colorChangedFromButton: bool
    var effectChanged: bool

    function View(): Settings
      reads this
    {
      Settings(colorState, effectIndex, colorChangedFromButton, effectChanged)
    }

    ghost predicate Valid()
      reads this
    {
      Consistent(View())
    }

    constructor ()
      ensures Valid() && View() == INITIAL_SETTINGS
    {
      colorState := BLACK;
      effectIndex := 0;
      colorChangedFromButton := false;
      effectChanged := false;
    }

    method SetColor(red: int, green: int, blue: int)
      requires Valid()
      modifies this
      ensures Valid() && View() == ColorSet(old(View()), red, green, blue)
    {
      colorState := ColorState(Constrain(red, 0, COMPONENT_MAX), colorState.green, colorState.blue);
      colorState := colorState.(green := Constrain(green, 0, COMPONENT_MAX));
      colorState := colorState.(blue := Constrain(blue, 0, COMPONENT_MAX));
    }

    method AdjustColor(redDelta: int, greenDelta: int, blueDelta: int)
      requires Valid()
      modifies this
      ensures Valid() && View() == ColorAdjusted(old(View()), redDelta, greenDelta, blueDelta)
    {
      var newRed := Constrain(colorState.red + redDelta, 0, COMPONENT_MAX);
      var newGreen := Constrain(colorState.green + greenDelta, 0, COMPONENT_MAX);
      var newBlue := Constrain(colorState.blue + blueDelta, 0, COMPONENT_MAX);
      if newRed != colorState.red || newGreen != colorState.green || newBlue != colorState.blue {
        colorState := ColorState(newRed, newGreen, newBlue);
        colorChangedFromButton := true;
      }
    }

    method SetRedPreset()
      requires Valid()
      modifies this
      ensures Valid() && View() == WithPreset(old(View()), RED_PRESET)
    {
      SetColor(PRESET_LEVEL, 0, 0);
      colorChangedFromButton := true;
    }

    method SetGreenPreset()
      requires Valid()
      modifies this
      ensures Valid() && View() == WithPreset(old(View()), GREEN_PRESET)
    {
      SetColor(0, PRESET_LEVEL, 0);
      colorChangedFromButton := true;
    }

    method SetBluePreset()
      requires Valid()
      modifies this
      ensures Valid() && View() == WithPreset(old(View()), BLUE_PRESET)
    {
      SetColor(0, 0, PRESET_LEVEL);
      colorChangedFromButton := true;
    }

    method SetEffect(newIndex: int)
      requires Valid()
      modifies this
      ensures Valid() && View() == EffectSet(old(View()), newIndex)
    {
      effectIndex := Constrain(newIndex, 0, EFFECT_COUNT - 1);
      effectChanged := true;
    }

    method AdjustEffect(delta: int)
      requires Valid()
      modifies this
      ensures Valid() && View() == EffectAdjusted(old(View()), delta)
    {
      effectIndex := CppRemCount(effectIndex + delta + EFFECT_COUNT);
      effectChanged := true;
    }

    method ResetEffect()
      requires Valid()
      modifies this
      ensures Valid() && View() == EffectReset(old(View()))
    {
      effectIndex := 0;
      effectChanged := true;
    }

    function GetColorState(): (c: ColorState)
      reads this
      requires Valid()
      ensures InRange(c)
    {
      colorState
    }

    function GetEffectIndex(): (i: int)
      reads this
      requires Valid()
      ensures -EFFECT_COUNT < i < EFFECT_COUNT
    {
      effectIndex
    }

    function GetRed(): (r: int)
      reads this
      requires Valid()
      ensures 0 <= r <= COMPONENT_MAX
    {
      colorState.red
    }

    function GetGreen(): (g: int)
      reads this
      requires Valid()
      ensures 0 <= g <= COMPONENT_MAX
    {
      colorState.green
    }

    function GetBlue(): (b: int)
      reads this
      requires Valid()
      ensures 0 <= b <= COMPONENT_MAX
    {
      colorState.blue
    }

    function HasColorChanged(): bool
      reads this
    {
      colorChangedFromButton
    }

    function HasEffectChanged(): bool
      reads this
    {
      effectChanged
    }

    method ClearColorChanged()
      requires Valid()
      modifies this
      ensures Valid() && View() == old(View()).(colorChanged := false)
    {
      colorChangedFromButton := false;
    }

    method ClearEffectChanged()
      requires Valid()
      modifies this
      ensures Valid() && View() == old(View()).(effectChanged := false)
    {
      effectChanged := false;
    }
  }
}
