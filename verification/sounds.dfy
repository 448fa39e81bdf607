/**
 * The alarm-sound catalogue: 24 string-backed cases, split into ten macOS
 * system sounds and fourteen bundled custom sounds (nature, modern and
 * "trendy" groups), with their asset names and the playback dispatch.
 */
module Sounds {
  import opened Optional

  datatype AlarmSound =
    // system sounds
    | Beep | Glass | Hero | Morse | Ping | Pop | Purr | Sosumi | Submarine | Tink
    // nature sounds
    | Rain | Wave | Train | Grass
    // modern sounds
    | DigitalChime | SoftBell | AmbientRise | Crystal | ZenBowl
    // trendy alarm sounds
    | GentleWake | MorningBirds | Harp | Marimba | Xylophone

  const SystemGroup: seq<AlarmSound> :=
    [Beep, Glass, Hero, Morse, Ping, Pop, Purr, Sosumi, Submarine, Tink]
  const CustomGroup: seq<AlarmSound> :=
    [Rain, Wave, Train, Grass,
     DigitalChime, SoftBell, AmbientRise, Crystal, ZenBowl,
     GentleWake, MorningBirds, Harp, Marimba, Xylophone]

  /** `allCases`, in declaration order. */
  const AllSounds: seq<AlarmSound> := SystemGroup + CustomGroup

  /** The sound selected when nothing valid is stored. */
  const DefaultSound: AlarmSound := Beep

  /** `rawValue`: a capitalised name of at least three characters. */
  function RawValue(s: AlarmSound): (r: string)
    ensures |r| >= 3 && 'A' <= r[0] <= 'Z'
  {
    match s
    case Beep => "Beep"
    case Glass => "Glass"
    case Hero => "Hero"
    case Morse => "Morse"
    case Ping => "Ping"
    case Pop => "Pop"
    case Purr => "Purr"
    case Sosumi => "Sosumi"
    case Submarine => "Submarine"
    case Tink => "Tink"
    case Rain => "Rain"
    case Wave => "Wave"
    case Train => "Train"
    case Grass => "Grass"
    case DigitalChime => "Digital Chime"
    case SoftBell => "Soft Bell"
    case AmbientRise => "Ambient Rise"
    case Crystal => "Crystal"
    case ZenBowl => "Zen Bowl"
    case GentleWake => "Gentle Wake"
    case MorningBirds => "Morning Birds"
    case Harp => "Harp"
    case Marimba => "Marimba"
    case Xylophone => "Xylophone"
  }

  /** Label in the sound picker. */
  function DisplayName(s: AlarmSound): string {
    RawValue(s)
  }

  /** Name under which a system sound is looked up. */
  function SystemSoundName(s: AlarmSound): string {
    RawValue(s)
  }

  /** Distinct cases have distinct raw values (length and first two characters already differ). */
  lemma RawInjective(a: AlarmSound, b: AlarmSound)
    requires RawValue(a) == RawValue(b)
    ensures a == b
  {
    var ra, rb := RawValue(a), RawValue(b);
    assert |ra| == |rb| && ra[0] == rb[0];
    assert |ra| >= 2 && ra[1] == rb[1];
  }

  /** First entry of `xs` whose raw value is `t`. */
  function Lookup(xs: seq<AlarmSound>, t: string): Option<AlarmSound>
    decreases |xs|
  {
    if |xs| == 0 then None
    else if RawValue(xs[0]) == t then Some(xs[0])
    else Lookup(xs[1..], t)
  }

  /**
   * `init?(rawValue:)`: an exact, case-sensitive match against the raw values,
   * searched in declaration order.
   */
  function FromRaw(t: string): Option<AlarmSound> {
    Lookup(AllSounds, t)
  }

  lemma {:induction false} LookupFound(xs: seq<AlarmSound>, t: string)
    ensures Lookup(xs, t).Some? ==> Lookup(xs, t).value in xs && RawValue(Lookup(xs, t).value) == t
    ensures Lookup(xs, t).None? ==> forall x :: x in xs ==> RawValue(x) != t
    decreases |xs|
  {
    if |xs| > 0 && RawValue(xs[0]) != t {
      LookupFound(xs[1..], t);
      assert forall x :: x in xs ==> x == xs[0] || x in xs[1..];
    }
  }

  lemma {:induction false} LookupMember(xs: seq<AlarmSound>, s: AlarmSound)
    requires s in xs
    ensures Lookup(xs, RawValue(s)) == Some(s)
    decreases |xs|
  {
    if xs[0] != s {
      if RawValue(xs[0]) == RawValue(s) {
        RawInjective(xs[0], s);
      }
      LookupMember(xs[1..], s);
    }
  }

  lemma EverySoundListed(s: AlarmSound)
    ensures s in AllSounds
  {
    if s in {Beep, Glass, Hero, Morse, Ping, Pop, Purr, Sosumi, Submarine, Tink} {
      assert s in SystemGroup;
    } else {
      assert s in CustomGroup;
    }
  }

  /** Lookup by raw value inverts `RawValue`. */
  lemma RawRoundTrip(s: AlarmSound)
    ensures FromRaw(RawValue(s)) == Some(s)
  {
    EverySoundListed(s);
    LookupMember(AllSounds, s);
  }

  /** A successful lookup returns the case whose raw value was given. */
  lemma FromRawSound(t: string)
    ensures FromRaw(t).Some? ==> RawValue(FromRaw(t).value) == t
  {
    LookupFound(AllSounds, t);
  }

  /** Any string other than the 24 raw values names no sound. */
  lemma FromRawExact(t: string)
    ensures FromRaw(t).None? <==> (forall s :: RawValue(s) != t)
  {
    FromRawSound(t);
    if FromRaw(t).None? {
      forall s ensures RawValue(s) != t {
        RawRoundTrip(s);
      }
    }
  }

  /** `isCustomSound`: the bundled nature, modern and trendy sounds. */
  function IsCustomSound(s: AlarmSound): (r: bool)
    ensures r <==> s in CustomGroup
  {
    match s
    case Rain | Wave | Train | Grass => true
    case DigitalChime | SoftBell | AmbientRise | Crystal | ZenBowl => true
    case GentleWake | MorningBirds | Harp | Marimba | Xylophone => true
    case _ => false
  }

  ghost predicate Distinct(xs: seq<AlarmSound>) {
    forall i, j :: 0 <= i < j < |xs| ==> xs[i] != xs[j]
  }

  /** The catalogue lists 24 cases, none twice. */
  lemma CatalogueDistinct()
    ensures |AllSounds| == 24 && Distinct(AllSounds)
  {
    assert Distinct(SystemGroup);
    assert Distinct(CustomGroup);
    forall i, j | 0 <= i < |SystemGroup| && 0 <= j < |CustomGroup|
      ensures SystemGroup[i] != CustomGroup[j]
    {
      assert !IsCustomSound(SystemGroup[i]) && IsCustomSound(CustomGroup[j]);
    }
  }

  /**
   * Every case is listed; the custom classification holds for exactly the 14
   * entries of the custom group and fails for the 10 system sounds.
   */
  lemma CatalogueClassification()
    ensures forall s :: s in AllSounds
    ensures |SystemGroup| == 10 && |CustomGroup| == 14
    ensures forall s :: IsCustomSound(s) <==> s in CustomGroup
    ensures forall s :: !IsCustomSound(s) <==> s in SystemGroup
  {
    forall s ensures s in AllSounds && (IsCustomSound(s) <==> s in CustomGroup)
      && (!IsCustomSound(s) <==> s in SystemGroup)
    {
      EverySoundListed(s);
      if IsCustomSound(s) {
        assert s !in SystemGroup;
      } else {
        assert s !in CustomGroup;
      }
    }
  }

  function LowerChar(c: char): char {
    if 'A' <= c <= 'Z' then (c as int + 32) as char else c
  }

  /** `lowercased()` on the ASCII raw values. */
  function Lowercase(t: string): (r: string)
    ensures |r| == |t|
    ensures forall i :: 0 <= i < |t| ==> r[i] == LowerChar(t[i])
  {
    seq(|t|, i requires 0 <= i < |t| => LowerChar(t[i]))
  }

  /** Bundled file names use lower-case letters and underscores only. */
  predicate IsAssetName(t: string) {
    forall i :: 0 <= i < |t| ==> ('a' <= t[i] <= 'z' || t[i] == '_')
  }

  predicate IsLetters(t: string) {
    forall i :: 0 <= i < |t| ==> ('a' <= t[i] <= 'z' || 'A' <= t[i] <= 'Z')
  }

  /** Lower-casing a word of letters gives an asset name. */
  lemma LowercaseLetters(t: string)
    ensures IsLetters(t) ==> IsAssetName(Lowercase(t))
  {
  }

  /** How a raw value is spelled in a file name: lower case, with the space as an underscore. */
  function SnakeCase(t: string): (r: string)
    ensures |r| == |t|
    ensures forall i :: 0 <= i < |t| ==> r[i] == if t[i] == ' ' then '_' else LowerChar(t[i])
  {
    seq(|t|, i requires 0 <= i < |t| => if t[i] == ' ' then '_' else LowerChar(t[i]))
  }

  /**
   * Base name (without `.wav`) of a sound's bundled file: its raw value in
   * lower case with the space written as an underscore. For every custom
   * sound this is a valid asset name.
   */
  function AudioFileName(s: AlarmSound): (r: string)
    ensures r == SnakeCase(RawValue(s))
    ensures IsCustomSound(s) ==> IsAssetName(r)
  {
    if s in TwoWord then SnakeName(s)
    else
      assert IsLetters(RawValue(s)) by {
        if IsCustomSound(s) { CustomOneWordLetters(s); } else { SystemLetters(s); }
      }
      LowercaseLetters(RawValue(s));
      assert Lowercase(RawValue(s)) == SnakeCase(RawValue(s));
      Lowercase(RawValue(s))
  }

  /** The cases whose raw value has two words. */
  const TwoWord: set<AlarmSound> := {DigitalChime, SoftBell, AmbientRise, ZenBowl, GentleWake, MorningBirds}

  /** The explicit snake_case names of the two-word sounds. */
  function SnakeName(s: AlarmSound): (r: string)
    requires s in TwoWord
    ensures r == SnakeCase(RawValue(s))
    ensures IsAssetName(r)
  {
    SpellingsModern();
    SpellingsModernMore();
    SpellingsTrendy();
    match s
    case DigitalChime => "digital_chime"
    case SoftBell => "soft_bell"
    case AmbientRise => "ambient_rise"
    case ZenBowl => "zen_bowl"
    case GentleWake => "gentle_wake"
    case MorningBirds => "morning_birds"
  }

  /** The explicit names spell the raw values in snake case and are asset names. */
  lemma SpellingsModern()
    ensures SnakeCase("Digital Chime") == "digital_chime" && IsAssetName("digital_chime")
    ensures SnakeCase("Soft Bell") == "soft_bell" && IsAssetName("soft_bell")
  {
  }

  lemma SpellingsModernMore()
    ensures SnakeCase("Ambient Rise") == "ambient_rise" && IsAssetName("ambient_rise")
    ensures SnakeCase("Zen Bowl") == "zen_bowl" && IsAssetName("zen_bowl")
  {
  }

  lemma SpellingsTrendy()
    ensures SnakeCase("Gentle Wake") == "gentle_wake" && IsAssetName("gentle_wake")
    ensures SnakeCase("Morning Birds") == "morning_birds" && IsAssetName("morning_birds")
  {
  }

  /** The system sounds are spelled with letters only. */
  lemma SystemLetters(s: AlarmSound)
    requires !IsCustomSound(s)
    ensures IsLetters(RawValue(s))
  {
    match s
    case Beep =>
    case Glass =>
    case Hero =>
    case Morse =>
    case Ping =>
    case Pop =>
    case Purr =>
    case Sosumi =>
    case Submarine =>
    case Tink =>
  }

  /** The one-word custom sounds are spelled with letters only. */
  lemma CustomOneWordLetters(s: AlarmSound)
    requires IsCustomSound(s) && s !in TwoWord
    ensures IsLetters(RawValue(s))
  {
    match s
    case Rain =>
    case Wave =>
    case Train =>
    case Grass =>
    case Crystal =>
    case Harp =>
    case Marimba =>
    case Xylophone =>
  }

  /**
   * The six two-word custom sounds use explicit snake_case names; every other
   * case uses its lower-cased raw value.
   */
  lemma AudioFileNames(s: AlarmSound)
    ensures s !in TwoWord ==> AudioFileName(s) == Lowercase(RawValue(s))
  {
  }

  /** Rain is played from `rain.wav` and Crystal from `crystal.wav`. */
  lemma AudioFileNameExamples()
    ensures AudioFileName(Rain) == "rain" && AudioFileName(Crystal) == "crystal"
  {
    assert RawValue(Rain) == "Rain" && RawValue(Crystal) == "Crystal";
    SpellingsOneWord();
  }

  lemma SpellingsOneWord()
    ensures SnakeCase("Rain") == "rain" && SnakeCase("Crystal") == "crystal"
  {
  }

  /**
   * What the host provides: the `.wav` resources present in the app bundle,
   * those of them that decode as sounds, and the system sounds known by name.
   */
  datatype Assets = Assets(bundled: set<string>, decodable: set<string>, named: set<string>)

  /** The audible result of one `play()` call: exactly one sound, never an error. */
  datatype Playback = WavFile(file: string) | SystemSound(name: string) | FallbackBeep

  /** `play()`: custom sounds use the bundled wav, system sounds their name; any failure beeps. */
  function Play(s: AlarmSound, a: Assets): (p: Playback)
    ensures IsCustomSound(s) ==>
      (p == WavFile(AudioFileName(s)) <==> AudioFileName(s) in a.bundled && AudioFileName(s) in a.decodable)
    ensures !IsCustomSound(s) ==> (p == SystemSound(RawValue(s)) <==> RawValue(s) in a.named)
    ensures p.WavFile? ==> IsCustomSound(s) && p.file == AudioFileName(s)
    ensures p.SystemSound? ==> !IsCustomSound(s) && p.name == RawValue(s)
  {
    if IsCustomSound(s) then
      var file := AudioFileName(s);
      if file !in a.bundled then FallbackBeep
      else if file in a.decodable then WavFile(file)
      else FallbackBeep
    else if SystemSoundName(s) in a.named then SystemSound(SystemSoundName(s))
    else FallbackBeep
  }

  /** A missing or undecodable asset degrades to the fallback beep. */
  lemma PlayFallback(s: AlarmSound, a: Assets)
    ensures Play(s, a) == FallbackBeep <==>
      (if IsCustomSound(s) then AudioFileName(s) !in a.bundled || AudioFileName(s) !in a.decodable
       else RawValue(s) !in a.named)
  {
  }

  /** Restoring the stored preference: only an exact raw value replaces the current choice. */
  function LoadSound(stored: Option<string>, current: AlarmSound): (r: AlarmSound)
    ensures stored.Some? && FromRaw(stored.value).Some? ==> RawValue(r) == stored.value
    ensures (stored.None? || forall s :: RawValue(s) != stored.value) ==> r == current
  {
    FromRawExact(stored.GetOr(""));
    FromRawSound(stored.GetOr(""));
    if stored.Some? && FromRaw(stored.value).Some? then FromRaw(stored.value).value else current
  }

  /** Storing a sound's raw value and loading it back restores that sound. */
  lemma SaveLoadSound(s: AlarmSound, current: AlarmSound)
    ensures LoadSound(Some(RawValue(s)), current) == s
  {
    RawRoundTrip(s);
  }
}
