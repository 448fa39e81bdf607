/** The timer's display mode and its run state. */
module Modes {
  import opened Optional

  /** Display mode, a string-backed enumeration. */
  datatype TimerMode = Basic | Visual

  /** `allCases`, in declaration order. */
  const AllModes: seq<TimerMode> := [Basic, Visual]

  /** `rawValue`; looking it up again gives back the same mode. */
  function ModeRaw(m: TimerMode): (r: string)
    ensures ModeFromRaw(r) == Some(m)
  {
    match m
    case Basic => "Basic"
    case Visual => "Visual"
  }

  /** The label shown in the mode picker is the raw value itself. */
  function ModeDisplayName(m: TimerMode): string {
    ModeRaw(m)
  }

  /** Swift's synthesised `init?(rawValue:)`: exact, case-sensitive match. */
  function ModeFromRaw(s: string): (r: Option<TimerMode>)
    ensures r.Some? <==> s == "Basic" || s == "Visual"
  {
    if s == "Basic" then Some(Basic)
    else if s == "Visual" then Some(Visual)
    else None
  }

  /** A successful lookup returns the mode with exactly that raw value; a failed one means no mode has it. */
  lemma ModeFromRawExact(s: string)
    ensures ModeFromRaw(s).Some? ==> ModeRaw(ModeFromRaw(s).value) == s
    ensures ModeFromRaw(s).None? <==> forall m :: ModeRaw(m) != s
  {
  }

  /** The picker label is the raw value, so distinct modes are labelled differently. */
  lemma ModeDisplayDistinct(a: TimerMode, b: TimerMode)
    requires ModeDisplayName(a) == ModeDisplayName(b)
    ensures a == b
  {
    assert ModeFromRaw(ModeRaw(a)) == Some(a);
    assert ModeFromRaw(ModeRaw(b)) == Some(b);
  }

  /** The catalogue lists each mode exactly once, `Basic` first. */
  lemma AllModesComplete()
    ensures |AllModes| == 2 && AllModes[0] == Basic && AllModes[1] == Visual
    ensures forall m :: m in AllModes
  {
    forall m: TimerMode ensures m in AllModes {
      match m
      case Basic => assert AllModes[0] == m;
      case Visual => assert AllModes[1] == m;
    }
  }

  /** Run state of the countdown. */
  datatype TimerState = Idle | Running | Paused
}
