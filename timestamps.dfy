/** Time-of-day text shared by the pipeline: the `format_timestamp` helper
    that three files repeat, the millisecond clock it encodes, and the
    `keyframe_HH-MM-SS-mmm_N.jpg` name pattern that two decoders match. */
module Timestamps {
  import opened Wrappers
  import opened Text

  /** Python's `int(x)` on a float: truncation toward zero. */
  function Trunc(x: real): (r: int)
    ensures x >= 0.0 ==> r == x.Floor
    ensures x < 0.0 ==> x <= r as real < x + 1.0
  {
    if x >= 0.0 then x.Floor else -((-x).Floor)
  }

  /** Whole milliseconds in a non-negative number of seconds. */
  function Millis(t: real): nat
    requires t >= 0.0
  {
    (t * 1000.0).Floor
  }

  /** A time of day split into its printed fields. */
  datatype Clock = Clock(hours: nat, minutes: nat, seconds: nat, millis: nat)

  /** The decomposition of a millisecond count into fields. */
  function ToClock(ms: nat): (c: Clock)
    ensures c.minutes < 60 && c.seconds < 60 && c.millis < 1000
    ensures ((c.hours * 60 + c.minutes) * 60 + c.seconds) * 1000 + c.millis == ms
  {
    var whole := ms / 1000;
    Clock(whole / 60 / 60, whole / 60 % 60, whole % 60, ms % 1000)
  }

  /** The fields printed as `HH<sep>MM<sep>SS<msSep>mmm`, zero-padded. */
  function ClockText(c: Clock, sep: char, msSep: char): string
  {
    ZeroPad(c.hours, 2) + [sep] + ZeroPad(c.minutes, 2) + [sep] + ZeroPad(c.seconds, 2)
      + [msSep] + ZeroPad(c.millis, 3)
  }

  /** `format_timestamp(seconds)` as written in the source: milliseconds from
      `int((seconds % 1) * 1000)`, whole seconds from `int(seconds)`, then two
      floored `divmod`s by 60, printed with `:02d` and `:03d`. */
  function FormatSeconds(seconds: real, sep: char, msSep: char): string
  {
    var ms := ((seconds - seconds.Floor as real) * 1000.0).Floor;
    var whole := Trunc(seconds);
    var minutesTotal := whole / 60;
    FormatInt(minutesTotal / 60, 2) + [sep] + FormatInt(minutesTotal % 60, 2) + [sep]
      + FormatInt(whole % 60, 2) + [msSep] + FormatInt(ms, 3)
  }

  lemma FloorShift(x: real, k: int)
    ensures (x - k as real).Floor == x.Floor - k
  {
  }

  /** For a non-negative time, the float formula prints exactly the clock
      fields of the truncated millisecond count. */
  lemma FormatSecondsIsClock(t: real, sep: char, msSep: char)
    requires t >= 0.0
    ensures FormatSeconds(t, sep, msSep) == ClockText(ToClock(Millis(t)), sep, msSep)
  {
    var ms := ((t - t.Floor as real) * 1000.0).Floor;
    var whole := Trunc(t);
    FormatSecondsFields(t);
    ClockTextOf(ToClock(Millis(t)), whole / 60 / 60, whole / 60 % 60, whole % 60, ms, sep, msSep);
  }

  /** The four numbers `format_timestamp` prints are the clock fields of the
      truncated millisecond count. */
  lemma FormatSecondsFields(t: real)
    requires t >= 0.0
    ensures var c := ToClock(Millis(t));
            var whole := Trunc(t);
            && whole / 60 / 60 == c.hours && whole / 60 % 60 == c.minutes && whole % 60 == c.seconds
            && ((t - t.Floor as real) * 1000.0).Floor == c.millis
  {
    var f := t.Floor;
    var m := Millis(t);
    assert 1000 * f <= m < 1000 * f + 1000 by {
      assert (1000 * f) as real <= t * 1000.0 < (1000 * f + 1000) as real;
    }
    assert m / 1000 == f;
    FloorShift(t * 1000.0, 1000 * f);
    assert (t - f as real) * 1000.0 == t * 1000.0 - (1000 * f) as real;
    assert ((t - f as real) * 1000.0).Floor == m % 1000;
  }

  lemma ClockTextOf(c: Clock, h: int, m: int, s: int, ms: int, sep: char, msSep: char)
    requires h == c.hours && m == c.minutes && s == c.seconds && ms == c.millis
    ensures FormatInt(h, 2) + [sep] + FormatInt(m, 2) + [sep] + FormatInt(s, 2) + [msSep] + FormatInt(ms, 3)
            == ClockText(c, sep, msSep)
  {
  }

  /** The printed fields of a non-negative time: minutes and seconds below
      60, milliseconds below 1000, the hours uncapped, and together the whole
      seconds of the time. */
  lemma ClockFields(t: real)
    requires t >= 0.0
    ensures var c := ToClock(Millis(t));
            && c.minutes < 60 && c.seconds < 60 && c.millis < 1000
            && c.hours * 3600 + c.minutes * 60 + c.seconds == t.Floor
            && c.millis == Millis(t) - 1000 * t.Floor
  {
    var f := t.Floor;
    var m := Millis(t);
    assert 1000 * f <= m < 1000 * f + 1000 by {
      assert (1000 * f) as real <= t * 1000.0 < (1000 * f + 1000) as real;
    }
    assert m / 1000 == f;
  }

  // ---------------------------------------------------------------------------
  // The keyframe file name
  // ---------------------------------------------------------------------------

  /** The name extract_keyframes gives the `count`-th keyframe taken at time
      `t`: `keyframe_<format_timestamp(t)>_<count:04d>.jpg`. */
  function KeyframeFilename(t: real, count: nat): string
  {
    "keyframe_" + FormatSeconds(t, '-', '-') + "_" + FormatInt(count, 4) + ".jpg"
  }

  /** The groups of `keyframe_(\d{2})-(\d{2})-(\d{2})-(\d{3})_(\d+)\.jpg`. */
  datatype NameFields = NameFields(hh: string, mm: string, ss: string, mmm: string, number: string)

  function Reassemble(f: NameFields): string
  {
    "keyframe_" + f.hh + "-" + f.mm + "-" + f.ss + "-" + f.mmm + "_" + f.number + ".jpg"
  }

  /** Length of the run of digits at the front of `s`. */
  function DigitRun(s: string): (k: nat)
    ensures k <= |s| && AllDigits(s[..k])
    ensures k == |s| || !IsDigit(s[k])
  {
    if |s| > 0 && IsDigit(s[0]) then
      var k := 1 + DigitRun(s[1..]);
      assert s[..k] == [s[0]] + s[1..][..k - 1];
      k
    else 0
  }

  lemma ReassemblePrefix(name: string, k: nat)
    requires |name| >= 26 + k
    requires name[..9] == "keyframe_" && name[11] == '-' && name[14] == '-' && name[17] == '-'
    requires name[21] == '_' && name[22 + k..26 + k] == ".jpg"
    ensures Reassemble(NameFields(name[9..11], name[12..14], name[15..17], name[18..21], name[22..22 + k]))
            == name[..26 + k]
  {
    assert name[..9] + name[9..11] == name[..11];
    assert name[..11] + "-" == name[..12];
    assert name[..12] + name[12..14] == name[..14];
    assert name[..14] + "-" == name[..15];
    assert name[..15] + name[15..17] == name[..17];
    assert name[..17] + "-" == name[..18];
    assert name[..18] + name[18..21] == name[..21];
    assert name[..21] + "_" == name[..22];
    assert name[..22] + name[22..22 + k] == name[..22 + k];
    assert name[..22 + k] + ".jpg" == name[..26 + k];
  }

  /** `re.match` of the keyframe pattern: anchored at the start only, so
      anything after `.jpg` is accepted. `\d+` is greedy and must be followed
      by `.jpg`, so it takes the whole run of digits. */
  function MatchKeyframeName(name: string): (r: Option<NameFields>)
    ensures r.Some? ==> StartsWith(name, Reassemble(r.value))
    ensures r.Some? ==> && |r.value.hh| == 2 && |r.value.mm| == 2 && |r.value.ss| == 2
                        && |r.value.mmm| == 3 && |r.value.number| >= 1
    ensures r.Some? ==> && AllDigits(r.value.hh) && AllDigits(r.value.mm) && AllDigits(r.value.ss)
                        && AllDigits(r.value.mmm) && AllDigits(r.value.number)
  {
    if && |name| >= 22 && name[..9] == "keyframe_"
       && AllDigits(name[9..11]) && name[11] == '-'
       && AllDigits(name[12..14]) && name[14] == '-'
       && AllDigits(name[15..17]) && name[17] == '-'
       && AllDigits(name[18..21]) && name[21] == '_'
    then
      var k := DigitRun(name[22..]);
      if k >= 1 && StartsWith(name[22 + k..], ".jpg") then
        assert name[22..][..k] == name[22..22 + k];
        var f := NameFields(name[9..11], name[12..14], name[15..17], name[18..21], name[22..22 + k]);
        ReassemblePrefix(name, k);
        Some(f)
      else None
    else None
  }
}
