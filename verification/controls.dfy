/**
 * The gating rules of the two screens: the bounded steppers of the time
 * input, which controls the main window offers in each run state, the
 * quick-preset grid, the alarm and mode pickers, and the edit-mode gate of
 * the preset management sheet.
 */
module Controls {
  import opened Modes
  import opened Sounds
  import opened Optional
  import Clock
  import Engine
  import Presets

  // ---------------------------------------------------------------------
  // Steppers

  /** A stepper over the half-open range `lower ..< upper`. */
  datatype Range = Range(lower: nat, upper: nat)

  const HoursRange: Range := Range(0, 24)
  const MinutesRange: Range := Range(0, 60)
  const SecondsRange: Range := Range(0, 60)

  predicate InStepRange(v: nat, r: Range) {
    r.lower <= v && v + 1 <= r.upper
  }

  /** The minus button: lowers the value by one unless it is at the lower bound. */
  function StepDown(v: nat, r: Range): (w: nat)
    ensures v > r.lower ==> w + 1 == v
    ensures v <= r.lower ==> w == v
  {
    if v > r.lower then v - 1 else v
  }

  /** The plus button: raises the value by one unless it is at the last value of the range. */
  function StepUp(v: nat, r: Range): (w: nat)
    ensures v + 1 < r.upper ==> w == v + 1
    ensures v + 1 >= r.upper ==> w == v
  {
    if v < r.upper - 1 then v + 1 else v
  }

  /** A value inside the range stays inside under either button. */
  lemma SteppersStayInRange(v: nat, r: Range)
    requires InStepRange(v, r)
    ensures InStepRange(StepDown(v, r), r) && InStepRange(StepUp(v, r), r)
  {
  }

  /** Any number of presses from an in-range value stays in range. */
  lemma {:induction false} StepSequenceStaysInRange(v: nat, r: Range, ups: seq<bool>)
    requires InStepRange(v, r)
    ensures InStepRange(StepMany(v, r, ups), r)
    decreases |ups|
  {
    if |ups| > 0 {
      SteppersStayInRange(v, r);
      StepSequenceStaysInRange(if ups[0] then StepUp(v, r) else StepDown(v, r), r, ups[1..]);
    }
  }

  /** Presses in order: `true` for plus, `false` for minus. */
  function StepMany(v: nat, r: Range, ups: seq<bool>): nat
    decreases |ups|
  {
    if |ups| == 0 then v
    else StepMany(if ups[0] then StepUp(v, r) else StepDown(v, r), r, ups[1..])
  }

  /** Which input field a stepper edits. */
  datatype Field = HoursField | MinutesField | SecondsField

  /**
   * A stepper press on the time input, which is only on screen while idle.
   */
  function PressStepper(t: Engine.Timer, f: Field, up: bool): (r: Engine.Timer)
    ensures t.state != Idle ==> r == t
    ensures r.state == t.state && r.remaining == t.remaining && r.total == t.total
    ensures f != HoursField ==> r.input.hours == t.input.hours
    ensures f != MinutesField ==> r.input.minutes == t.input.minutes
    ensures f != SecondsField ==> r.input.seconds == t.input.seconds
    ensures t.state == Idle && InputInRange(t.input) ==> InputInRange(r.input)
  {
    if t.state != Idle then t
    else
      var i := t.input;
      var step := (v: nat, rg: Range) => if up then StepUp(v, rg) else StepDown(v, rg);
      match f
      case HoursField => t.(input := i.(hours := step(i.hours, HoursRange)))
      case MinutesField => t.(input := i.(minutes := step(i.minutes, MinutesRange)))
      case SecondsField => t.(input := i.(seconds := step(i.seconds, SecondsRange)))
  }

  predicate InputInRange(i: Clock.Fields) {
    InStepRange(i.hours, HoursRange) && InStepRange(i.minutes, MinutesRange)
      && InStepRange(i.seconds, SecondsRange)
  }

  // ---------------------------------------------------------------------
  // Main window controls

  /** The primary control button. */
  datatype Primary = StartButton | PauseButton | ResumeButton

  /** What the main window offers in the current state. */
  datatype Panel = Panel(
    timeInputShown: bool,
    modePickerEnabled: bool,
    presetButtonsEnabled: bool,
    primary: Primary,
    primaryEnabled: bool,
    resetShown: bool)

  function PanelFor(t: Engine.Timer): (p: Panel)
    ensures p.timeInputShown <==> t.state == Idle
    ensures p.modePickerEnabled <==> t.state == Idle
    ensures p.presetButtonsEnabled <==> t.state == Idle
    ensures p.resetShown <==> t.state != Idle
    ensures p.primary == StartButton <==> t.state == Idle
    ensures p.primary == PauseButton <==> t.state == Running
    ensures p.primary == ResumeButton <==> t.state == Paused
    ensures !p.primaryEnabled <==> (t.state == Idle && t.input == Clock.Fields(0, 0, 0))
  {
    var idle := t.state == Idle;
    var primary := match t.state
      case Idle => StartButton
      case Running => PauseButton
      case Paused => ResumeButton;
    var zero := t.input.hours == 0 && t.input.minutes == 0 && t.input.seconds == 0;
    Panel(idle, idle, idle, primary, !(idle && zero), !idle)
  }

  /**
   * The action behind each primary button; Resume calls the same start. The
   * enabled button always does something: Start and Resume put the timer
   * into `Running`, Pause into `Paused`, and Pause and Resume keep the
   * remaining time. In particular the start guard never rejects an enabled
   * Start button.
   */
  function PressPrimary(t: Engine.Timer): (r: Engine.Timer)
    ensures Engine.Valid(t) ==> Engine.Valid(r)
    ensures Engine.Valid(t) && PanelFor(t).primaryEnabled ==>
      && (PanelFor(t).primary != PauseButton ==> r.state == Running)
      && (PanelFor(t).primary == PauseButton ==> r.state == Paused && r.remaining == t.remaining)
      && (PanelFor(t).primary == ResumeButton ==> r.remaining == t.remaining)
  {
    assert t.state == Idle && PanelFor(t).primaryEnabled ==> Clock.Seconds(t.input) > 0 by {
      if t.state == Idle && PanelFor(t).primaryEnabled {
        NonZeroInput(t.input);
      }
    }
    match PanelFor(t).primary
    case StartButton => Engine.Start(t)
    case PauseButton => Engine.Pause(t)
    case ResumeButton => Engine.Start(t)
  }

  /** Input fields that are not all zero denote a positive duration. */
  lemma NonZeroInput(i: Clock.Fields)
    requires i != Clock.Fields(0, 0, 0)
    ensures Clock.Seconds(i) > 0
  {
    if i.hours > 0 {
      assert i.hours * 3600 > 0;
    } else if i.minutes > 0 {
      assert i.minutes * 60 > 0;
    }
  }

  /** The reset button, shown in every non-idle state, always returns to idle. */
  lemma ResetButtonActs(t: Engine.Timer)
    requires PanelFor(t).resetShown
    ensures Engine.Reset(t).state == Idle && !Engine.Reset(t).scheduled
  {
  }

  /** The mode picker, disabled unless idle. */
  function ChooseMode(t: Engine.Timer, m: TimerMode): (r: Engine.Timer)
    ensures t.state == Idle ==> r == t.(mode := m)
    ensures t.state != Idle ==> r == t
  {
    if PanelFor(t).modePickerEnabled then t.(mode := m) else t
  }

  /** The quick-preset grid: at most the first eight presets, in list order. */
  function QuickPresets(list: seq<Presets.Preset>): (g: seq<Presets.Preset>)
    ensures |g| <= 8 && |g| <= |list|
    ensures |list| <= 8 ==> g == list
    ensures |list| > 8 ==> |g| == 8
    ensures forall i :: 0 <= i < |g| ==> g[i] == list[i]
  {
    if |list| <= 8 then list else list[..8]
  }

  /** A quick-preset button, disabled unless idle. */
  function TapPreset(t: Engine.Timer, p: Presets.Preset): (r: Engine.Timer)
    ensures t.state != Idle ==> r == t
    ensures t.state == Idle ==> r == Engine.ApplyPreset(t, p)
  {
    if PanelFor(t).presetButtonsEnabled then Engine.ApplyPreset(t, p) else t
  }

  /** The alarm picker: a changed choice is stored and previewed once. */
  lemma AlarmPickerPersistsAndPreviews(t: Engine.Timer, slot: Option<string>, s: AlarmSound)
    requires s != t.sound
    ensures var r := Engine.SelectSound(t, slot, s);
      LoadSound(r.1, DefaultSound) == s && r.2 == [Engine.PlaySound(s)]
  {
    SaveLoadSound(s, DefaultSound);
  }

  // ---------------------------------------------------------------------
  // Preset management sheet

  /** The sheet's only state: whether edit mode is on. */
  datatype Sheet = Sheet(editMode: bool)

  /** The sheet opens with edit mode off. */
  const SheetOpened: Sheet := Sheet(false)

  /** The "Edit" / "Done Editing" button. */
  function ToggleEdit(sh: Sheet): (r: Sheet)
    ensures r.editMode != sh.editMode
  {
    Sheet(!sh.editMode)
  }

  /** Edit mode is on after an odd number of presses of the edit button. */
  lemma {:induction false} EditModeParity(n: nat)
    ensures ToggleTimes(SheetOpened, n).editMode <==> n % 2 == 1
  {
    if n > 0 {
      EditModeParity(n - 1);
    }
  }

  function ToggleTimes(sh: Sheet, n: nat): Sheet
    decreases n
  {
    if n == 0 then sh else ToggleEdit(ToggleTimes(sh, n - 1))
  }

  /** The delete gesture: honoured only in edit mode, then delegated to the store. */
  function SwipeDelete(sh: Sheet, st: Presets.Store, xs: set<nat>): (r: Presets.Store)
    requires Presets.InRange(xs, |st.presets|)
    ensures !sh.editMode ==> r == st
    ensures sh.editMode ==> r == Presets.Delete(st, xs)
  {
    if sh.editMode then Presets.Delete(st, xs) else st
  }

  /** The move gesture: honoured only in edit mode; the result is a saved permutation. */
  function DragMove(sh: Sheet, st: Presets.Store, xs: set<nat>, dest: nat): (r: Presets.Store)
    requires Presets.InRange(xs, |st.presets|) && dest <= |st.presets|
    ensures !sh.editMode ==> r == st
    ensures sh.editMode ==> multiset(r.presets) == multiset(st.presets) && r.saved == Some(r.presets)
    ensures sh.editMode ==> r.presets == Presets.MoveTo(st.presets, xs, dest)
  {
    if sh.editMode then Presets.Move(st, xs, dest) else st
  }

  /** "Reset to Defaults": the default list, saved, whatever the edit mode. */
  lemma ResetToDefaultsButton(st: Presets.Store, uuid: nat -> Presets.PresetId)
    ensures Presets.ResetToDefaults(st, uuid).presets == Presets.DefaultPresets(uuid)
    ensures |Presets.ResetToDefaults(st, uuid).presets| == 7
  {
  }
}
