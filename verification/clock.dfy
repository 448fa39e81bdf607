/**
 * Hour/minute/second decomposition of a duration in whole seconds and its
 * "HH:MM:SS" / "MM:SS" rendering, shared by the preset label
 * (`formattedDuration`), the countdown label (`formattedTimeRemaining`) and
 * the preset-to-input-field split of `applyPreset`.
 */
module Clock {
  import opened Optional
  import opened Decimal

  /** The three fields a duration splits into. */
  datatype Fields = Fields(hours: nat, minutes: nat, seconds: nat)

  /** Seconds denoted by a set of input fields. */
  function Seconds(f: Fields): nat {
    f.hours * 3600 + f.minutes * 60 + f.seconds
  }

  /** Integer division by 3600, then by 60 of the remainder, and remainder by 60. */
  function Split(d: nat): (f: Fields)
    ensures Seconds(f) == d
    ensures f.minutes < 60 && f.seconds < 60
  {
    var h := d / 3600;
    var m := (d % 3600) / 60;
    var s := d % 60;
    assert d % 3600 == m * 60 + (d % 3600) % 60;
    assert d == (h * 60 + m) * 60 + (d % 3600) % 60;
    assert (d % 3600) % 60 == s;
    Fields(h, m, s)
  }

  /** The decomposition is the only one with minutes and seconds below 60. */
  lemma SplitUnique(f: Fields)
    requires f.minutes < 60 && f.seconds < 60
    ensures Split(Seconds(f)) == f
  {
    var d := Seconds(f);
    var g := Split(d);
    assert d == (f.hours * 60 + f.minutes) * 60 + f.seconds;
    assert d == (g.hours * 60 + g.minutes) * 60 + g.seconds;
    assert f.seconds == g.seconds;
    assert f.hours * 60 + f.minutes == g.hours * 60 + g.minutes;
  }

  /**
   * Rendering: hours are shown only when at least one whole hour remains.
   * Reading the label back from the right recovers the duration, so no
   * field is truncated.
   */
  function Format(d: nat): (r: string)
    ensures ParseLabel(r) == Some(d)
  {
    var f := Split(d);
    RenderFields(f);
    ReadFields(Render(f), f);
    Render(f)
  }

  /** `%02d:%02d:%02d` with hours, `%02d:%02d` without. */
  function Render(f: Fields): string {
    if f.hours > 0 then Pad2(f.hours) + ":" + Pad2(f.minutes) + ":" + Pad2(f.seconds)
    else Pad2(f.minutes) + ":" + Pad2(f.seconds)
  }

  /**
   * Reads a rendered label back: the last two characters are seconds, the
   * two before the last colon are minutes, and anything before a further
   * colon is the hours field.
   */
  function ParseLabel(t: string): Option<nat> {
    if |t| < 5 || t[|t| - 3] != ':' then None
    else
      var sec := t[|t| - 2..];
      var min := t[|t| - 5..|t| - 3];
      var rest := t[..|t| - 5];
      if !AllDigits(sec) || !AllDigits(min) then None
      else if |rest| == 0 then Some(Parse(min) * 60 + Parse(sec))
      else if rest[|rest| - 1] != ':' || |rest| == 1 || !AllDigits(rest[..|rest| - 1]) then None
      else Some(Parse(rest[..|rest| - 1]) * 3600 + Parse(min) * 60 + Parse(sec))
  }

  /** A string holding the padded fields of `f` in label positions reads back as `Seconds(f)`. */
  lemma ReadFields(t: string, f: Fields)
    requires |t| >= 5 && t[|t| - 3] == ':' && t[|t| - 2..] == Pad2(f.seconds) && t[|t| - 5..|t| - 3] == Pad2(f.minutes)
    requires f.hours == 0 ==> |t| == 5
    requires f.hours > 0 ==> |t| >= 8 && t[|t| - 6] == ':' && t[..|t| - 6] == Pad2(f.hours)
    ensures ParseLabel(t) == Some(Seconds(f))
  {
    if f.hours > 0 {
      ParseLong(t);
    } else {
      ParseShort(t);
    }
  }

  /** Where the three fields of a label sit. */
  lemma RenderFields(f: Fields)
    requires f.minutes < 60 && f.seconds < 60
    ensures var t := Render(f);
      && |t| >= 5 && t[|t| - 3] == ':' && t[|t| - 2..] == Pad2(f.seconds) && t[|t| - 5..|t| - 3] == Pad2(f.minutes)
      && (f.hours == 0 ==> |t| == 5)
      && (f.hours > 0 ==> |t| >= 8 && t[|t| - 6] == ':' && t[..|t| - 6] == Pad2(f.hours))
  {
    var t := Render(f);
    var mm, ss := Pad2(f.minutes), Pad2(f.seconds);
    if f.hours > 0 {
      var hh := Pad2(f.hours);
      assert t == hh + ":" + mm + ":" + ss;
      assert t[|t| - 2..] == ss;
      assert t[|t| - 5..|t| - 3] == mm;
      assert t[..|t| - 6] == hh;
    } else {
      assert t == mm + ":" + ss;
      assert t[|t| - 2..] == ss;
      assert t[|t| - 5..|t| - 3] == mm;
    }
  }

  /** The minutes-and-seconds branch of the parser, on the slices it reads. */
  lemma ParseShort(t: string)
    requires |t| == 5 && t[2] == ':' && AllDigits(t[3..]) && AllDigits(t[..2])
    ensures ParseLabel(t) == Some(Parse(t[..2]) * 60 + Parse(t[3..]))
  {
    assert t[..|t| - 5] == [];
  }

  /** The hours branch of the parser, on the slices it reads. */
  lemma ParseLong(t: string)
    requires |t| >= 8 && t[|t| - 3] == ':' && t[|t| - 6] == ':'
    requires AllDigits(t[|t| - 2..]) && AllDigits(t[|t| - 5..|t| - 3]) && AllDigits(t[..|t| - 6])
    ensures ParseLabel(t) == Some(Parse(t[..|t| - 6]) * 3600 + Parse(t[|t| - 5..|t| - 3]) * 60 + Parse(t[|t| - 2..]))
  {
    var rest := t[..|t| - 5];
    assert rest[|rest| - 1] == t[|t| - 6];
    assert rest[..|rest| - 1] == t[..|t| - 6];
  }

  /** The label has an hours field exactly when the duration is at least one hour. */
  lemma FormatShape(d: nat)
    ensures d < 3600 ==> |Format(d)| == 5 && Format(d)[2] == ':'
    ensures d >= 3600 ==> |Format(d)| >= 8 && Format(d)[|Format(d)| - 6] == ':'
    ensures d >= 360000 ==> |Format(d)| >= 9
  {
  }

  /** Worked examples of the rendering. */
  lemma FormatExamplesShort()
    ensures Format(300) == "05:00"
    ensures Format(1500) == "25:00"
  {
    assert Split(300) == Fields(0, 5, 0);
    assert Split(1500) == Fields(0, 25, 0);
    assert Show(0) == "0" && Show(5) == "5";
    assert Show(25) == Show(2) + [DigitChar(5)];
    assert Pad2(0) == "00" && Pad2(5) == "05" && Pad2(25) == "25";
    assert Format(300) == Render(Fields(0, 5, 0));
    assert Format(1500) == Render(Fields(0, 25, 0));
  }

  lemma FormatExamplesLong()
    ensures Format(3600) == "01:00:00"
    ensures Format(3661) == "01:01:01"
  {
    assert Split(3600) == Fields(1, 0, 0);
    assert Split(3661) == Fields(1, 1, 1);
    assert Show(0) == "0" && Show(1) == "1";
    assert Pad2(0) == "00" && Pad2(1) == "01";
    assert Format(3600) == Render(Fields(1, 0, 0));
    assert Format(3661) == Render(Fields(1, 1, 1));
  }
}
