/**
 * The countdown state machine of the timer view model. The repeating
 * one-second timer is an explicit `scheduled` flag plus the `Fire` input;
 * the notification and the alarm sound are emitted as events.
 */
module Engine {
  import opened Optional
  import opened Modes
  import opened Sounds
  import Clock
  import Presets

  /** Effects handed to the notification and sound collaborators. */
  datatype Event = Notify | PlaySound(sound: AlarmSound)

  /** The view model's timer state; `input` holds the hour, minute and second fields. */
  datatype Timer = Timer(
    mode: TimerMode,
    state: TimerState,
    remaining: nat,
    total: nat,
    input: Clock.Fields,
    sound: AlarmSound,
    scheduled: bool)

  /**
   * What every reachable state satisfies: the remaining time never exceeds the
   * total, a tick is scheduled exactly while running, and a started countdown
   * has a positive total.
   */
  ghost predicate Valid(t: Timer) {
    && t.remaining <= t.total
    && (t.scheduled <==> t.state == Running)
    && (t.state != Idle ==> t.total > 0)
  }

  /** `init()`: five minutes on the input, the stored sound when it is a valid one. */
  function Initial(soundSlot: Option<string>): (t: Timer)
    ensures Valid(t) && t.state == Idle && t.remaining == 0 && t.total == 0
    ensures Clock.Seconds(t.input) == 300
    ensures t.mode == Basic && t.input.minutes < 60 && t.input.seconds < 60
    ensures soundSlot.Some? && FromRaw(soundSlot.value).Some? ==> RawValue(t.sound) == soundSlot.value
    ensures (soundSlot.None? || FromRaw(soundSlot.value).None?) ==> t.sound == DefaultSound
  {
    FromRawExact(soundSlot.GetOr(""));
    Timer(Basic, Idle, 0, 0, Clock.Fields(0, 5, 0), LoadSound(soundSlot, DefaultSound), false)
  }

  /**
   * `startTimer()`: no effect while running; from idle the total is taken from
   * the input and the countdown runs only when it is positive; from paused
   * the countdown resumes where it stopped.
   */
  function Start(t: Timer): (r: Timer)
    ensures t.state == Running ==> r == t
    ensures t.state == Idle ==>
      && r.total == Clock.Seconds(t.input) && r.remaining == r.total
      && (r.state == Running <==> Clock.Seconds(t.input) > 0)
      && (r.state != Running ==> r.state == Idle && r.scheduled == t.scheduled)
    ensures t.state == Paused ==>
      r.state == Running && r.remaining == t.remaining && r.total == t.total
    ensures t.state != Running && r.state == Running ==> r.scheduled
    ensures r.input == t.input && r.sound == t.sound && r.mode == t.mode
  {
    if t.state == Running then t
    else if t.state == Idle then
      var total := Clock.Seconds(t.input);
      if total > 0 then t.(total := total, remaining := total, state := Running, scheduled := true)
      else t.(total := total, remaining := total)
    else t.(state := Running, scheduled := true)
  }

  /** `pauseTimer()`: only a running countdown pauses; the remaining time is frozen. */
  function Pause(t: Timer): (r: Timer)
    ensures t.state != Running ==> r == t
    ensures t.state == Running ==> r == t.(state := Paused, scheduled := false)
    ensures Valid(t) ==> Valid(r)
  {
    if t.state != Running then t else t.(state := Paused, scheduled := false)
  }

  /** `resetTimer()`: idle, nothing scheduled, both times zero, input kept. */
  function Reset(t: Timer): (r: Timer)
    ensures Valid(r) && r.state == Idle && !r.scheduled && r.total == 0 && r.remaining == 0
    ensures r.input == t.input && r.sound == t.sound && r.mode == t.mode
  {
    t.(state := Idle, scheduled := false, remaining := 0, total := 0)
  }

  /** `timerCompleted()`: stops, then notifies and plays the selected sound once each. */
  function Complete(t: Timer): (r: (Timer, seq<Event>))
    ensures r.0 == t.(state := Idle, scheduled := false)
    ensures r.1 == [Notify, PlaySound(t.sound)]
    ensures Valid(t) ==> Valid(r.0)
  {
    (t.(state := Idle, scheduled := false), [Notify, PlaySound(t.sound)])
  }

  /** The private `tick()`: counts down while time remains, completes otherwise. */
  function Tick(t: Timer): (r: (Timer, seq<Event>))
    ensures t.remaining > 0 ==> r == (t.(remaining := t.remaining - 1), [])
    ensures t.remaining == 0 ==> r == Complete(t)
    ensures r.0.total == t.total && r.0.input == t.input && r.0.sound == t.sound
    ensures Valid(t) ==> Valid(r.0)
  {
    if t.remaining > 0 then (t.(remaining := t.remaining - 1), []) else Complete(t)
  }

  /** One firing of the repeating timer: delivered only while it is scheduled. */
  function Fire(t: Timer): (r: (Timer, seq<Event>))
    ensures !t.scheduled ==> r == (t, [])
    ensures t.scheduled ==> r == Tick(t)
    ensures Valid(t) ==> Valid(r.0)
  {
    if t.scheduled then Tick(t) else (t, [])
  }

  /**
   * `progress`: the elapsed fraction of the total, zero when there is no
   * total. In a valid state it lies between 0 and 1, it is 0 when nothing
   * has elapsed and 1 when nothing remains of a positive total.
   */
  function Progress(t: Timer): (r: real)
    ensures Valid(t) ==> 0.0 <= r <= 1.0
    ensures t.remaining == t.total ==> r == 0.0
    ensures t.total > 0 && t.remaining == 0 ==> r == 1.0
  {
    if t.total > 0 then
      var q := (t.remaining as real) / (t.total as real);
      assert q * (t.total as real) == t.remaining as real;
      assert t.remaining <= t.total ==> q <= 1.0;
      1.0 - q
    else 0.0
  }

  /** `applyPreset(_:)`: a reset, then the preset's duration split into the input fields. */
  function ApplyPreset(t: Timer, p: Presets.Preset): (r: Timer)
    ensures Valid(r) && r.state == Idle && !r.scheduled && r.total == 0 && r.remaining == 0
    ensures Clock.Seconds(r.input) == p.duration
    ensures r.input.minutes < 60 && r.input.seconds < 60
    ensures r.sound == t.sound && r.mode == t.mode
  {
    Reset(t).(input := Clock.Split(p.duration))
  }

  /**
   * Choosing a sound in the picker: when it differs from the current one, the
   * new choice is stored under its raw value and played once as a preview.
   */
  function SelectSound(t: Timer, slot: Option<string>, s: AlarmSound): (r: (Timer, Option<string>, seq<Event>))
    ensures r.0 == t.(sound := s)
    ensures s != t.sound ==> r.1 == Some(RawValue(s)) && r.2 == [PlaySound(s)]
    ensures s == t.sound ==> r.1 == slot && r.2 == []
  {
    if s == t.sound then (t, slot, []) else (t.(sound := s), Some(RawValue(s)), [PlaySound(s)])
  }

  // ---------------------------------------------------------------------
  // Invariant

  /** Every operation keeps `Valid`. */
  lemma ValidPreserved(t: Timer, p: Presets.Preset, s: AlarmSound, slot: Option<string>)
    requires Valid(t)
    ensures Valid(Start(t)) && Valid(Pause(t)) && Valid(Reset(t))
    ensures Valid(Fire(t).0) && Valid(ApplyPreset(t, p)) && Valid(SelectSound(t, slot, s).0)
  {
  }

  /** A firing never decreases the elapsed fraction. */
  lemma ProgressMonotone(t: Timer)
    requires Valid(t)
    ensures Progress(t) <= Progress(Fire(t).0)
  {
    if t.scheduled && t.remaining > 0 {
      var n := t.total as real;
      var a := (t.remaining as real) / n;
      var b := ((t.remaining - 1) as real) / n;
      assert a * n == t.remaining as real;
      assert b * n == (t.remaining - 1) as real;
      assert b <= a;
    }
  }

  // ---------------------------------------------------------------------
  // Runs of the timer

  /**
   * `n` firings in a row, with the events they emitted in order. A run keeps
   * the invariant, never touches the total, the input or the sound, and does
   * nothing while no tick is scheduled.
   */
  function Run(t: Timer, n: nat): (r: (Timer, seq<Event>))
    ensures Valid(t) ==> Valid(r.0)
    ensures r.0.total == t.total && r.0.input == t.input && r.0.sound == t.sound
    ensures !t.scheduled ==> r == (t, [])
    decreases n
  {
    if n == 0 then (t, [])
    else
      var first := Fire(t);
      var rest := Run(first.0, n - 1);
      assert !t.scheduled ==> first == (t, []) && rest == (t, []) && first.1 + rest.1 == [];
      (rest.0, first.1 + rest.1)
  }

  /** While time remains, each firing takes exactly one second off and emits nothing. */
  lemma {:induction false} RunCountsDown(t: Timer, k: nat)
    requires t.scheduled && k <= t.remaining
    ensures Run(t, k) == (t.(remaining := t.remaining - k), [])
    decreases k
  {
    if k > 0 {
      var next := t.(remaining := t.remaining - 1);
      assert Fire(t) == (next, []);
      RunCountsDown(next, k - 1);
      assert Run(t, k) == (Run(next, k - 1).0, Fire(t).1 + Run(next, k - 1).1);
      assert Fire(t).1 + Run(next, k - 1).1 == [];
    }
  }

  /** Firing `a + b` times is firing `a` times and then `b` more, with the events concatenated. */
  lemma {:induction false} RunAdditive(t: Timer, a: nat, b: nat)
    ensures Run(t, a + b) == (Run(Run(t, a).0, b).0, Run(t, a).1 + Run(Run(t, a).0, b).1)
    decreases a
  {
    if a > 0 {
      var first := Fire(t);
      RunAdditive(first.0, a - 1, b);
      var mid := Run(first.0, a - 1);
      assert Run(t, a) == (mid.0, first.1 + mid.1);
      assert Run(t, a + b) == (Run(first.0, a - 1 + b).0, first.1 + Run(first.0, a - 1 + b).1);
      assert first.1 + (mid.1 + Run(mid.0, b).1) == (first.1 + mid.1) + Run(mid.0, b).1;
    } else {
      assert Run(t, 0) == (t, []);
      assert [] + Run(t, b).1 == Run(t, b).1;
    }
  }

  /**
   * A running countdown with `n` seconds left is still running, at zero and
   * silent, after `n` firings; the completion comes on firing `n + 1`, emits
   * one notification and one alarm, keeps the total, and nothing follows.
   */
  lemma CompletesOnNextTick(t: Timer, extra: nat)
    requires Valid(t) && t.state == Running
    ensures Run(t, t.remaining) == (t.(remaining := 0), [])
    ensures Run(t, t.remaining + 1 + extra) ==
      (t.(remaining := 0, state := Idle, scheduled := false), [Notify, PlaySound(t.sound)])
  {
    var n := t.remaining;
    RunCountsDown(t, n);
    RunAdditive(t, n, 1 + extra);
    var z := t.(remaining := 0);
    RunAdditive(z, 1, extra);
    var done := z.(state := Idle, scheduled := false);
    assert Fire(z) == (done, [Notify, PlaySound(t.sound)]);
    assert Run(done, 0) == (done, []);
    assert Run(z, 1) == (done, [Notify, PlaySound(t.sound)] + []);
    assert [] + ([Notify, PlaySound(t.sound)] + []) == [Notify, PlaySound(t.sound)];
  }

  /** Starting from the input: an `N`-second countdown completes on firing `N + 1`. */
  lemma StartThenRun(t: Timer, extra: nat)
    requires Valid(t) && t.state == Idle && Clock.Seconds(t.input) > 0
    ensures var n := Clock.Seconds(t.input);
      var s := Start(t);
      && Run(s, n).0.state == Running && Run(s, n).0.remaining == 0 && Run(s, n).1 == []
      && Run(s, n + 1 + extra).0.state == Idle
      && Run(s, n + 1 + extra).0.total == n
      && Run(s, n + 1 + extra).1 == [Notify, PlaySound(t.sound)]
  {
    CompletesOnNextTick(Start(t), extra);
  }

  /** With all input fields zero, starting leaves the timer idle with nothing scheduled. */
  lemma StartWithZeroInput(t: Timer)
    requires Valid(t) && t.state == Idle && t.input == Clock.Fields(0, 0, 0)
    ensures Start(t).state == Idle && !Start(t).scheduled
    ensures Start(t).total == 0 && Start(t).remaining == 0
  {
    assert Clock.Seconds(t.input) == 0;
  }

  /** Five minutes of input: 300 firings leave it at zero, the 301st completes. */
  lemma FiveMinuteCountdown(t: Timer)
    requires Valid(t) && t.state == Idle && Clock.Seconds(t.input) == 300
    ensures var s := Start(t);
      && Run(s, 300).0.state == Running && Run(s, 300).1 == []
      && Run(s, 301).0.state == Idle && Run(s, 301).1 == [Notify, PlaySound(t.sound)]
  {
    var s := Start(t);
    assert s.remaining == 300 && s.state == Running && Valid(s);
    CompletesOnNextTick(s, 0);
  }

  /** The timer as launched holds five minutes, so its first countdown completes on firing 301. */
  lemma DefaultInputCountdown(slot: Option<string>)
    ensures var s := Start(Initial(slot));
      && Run(s, 300).0.state == Running && Run(s, 300).1 == []
      && Run(s, 301).0.state == Idle && Run(s, 301).1 == [Notify, PlaySound(Initial(slot).sound)]
  {
    FiveMinuteCountdown(Initial(slot));
  }

  /** Pausing and resuming keeps the remaining time exactly. */
  lemma PauseResumeKeepsRemaining(t: Timer)
    requires Valid(t) && t.state == Running
    ensures Start(Pause(t)).remaining == t.remaining && Start(Pause(t)).total == t.total
    ensures Start(Pause(t)) == t
    ensures Run(Pause(t), 5) == (Pause(t), [])
  {
  }

  /** Ten minutes, ten firings, pause, resume, one firing: 589 seconds remain. */
  lemma PauseResumeExample(t: Timer)
    requires Valid(t) && t.state == Idle && t.input == Clock.Fields(0, 10, 0)
    ensures var a := Run(Start(t), 10).0;
      a.remaining == 590 && Fire(Start(Pause(a))).0.remaining == 589
  {
    RunCountsDown(Start(t), 10);
  }

  /** After a reset no pending firing can complete the countdown. */
  lemma ResetSilences(t: Timer, k: nat)
    ensures Run(Reset(t), k) == (Reset(t), [])
  {
  }

  /** Applying a preset while running stops the countdown without starting a new one. */
  lemma ApplyPresetWhileRunning(t: Timer, p: Presets.Preset, k: nat)
    requires Valid(t) && t.state == Running
    ensures ApplyPreset(t, p).state == Idle
    ensures ApplyPreset(t, p).input == Clock.Split(p.duration)
    ensures Run(ApplyPreset(t, p), k).1 == []
  {
  }

  /** A sound chosen during a countdown is the one the completion plays. */
  lemma NewSoundPlaysAtCompletion(t: Timer, slot: Option<string>, s: AlarmSound)
    requires Valid(t) && t.state == Running
    ensures var u := SelectSound(t, slot, s).0;
      u.remaining == t.remaining && u.state == Running
      && Run(u, t.remaining + 1).1 == [Notify, PlaySound(s)]
  {
    CompletesOnNextTick(SelectSound(t, slot, s).0, 0);
  }

  /** A stored choice is the one restored on the next launch. */
  lemma SelectedSoundPersists(t: Timer, slot: Option<string>, s: AlarmSound)
    requires s != t.sound
    ensures Initial(SelectSound(t, slot, s).1).sound == s
  {
    RawRoundTrip(s);
  }
}
