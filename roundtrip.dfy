/** The time a keyframe was taken travels through its file name: the
    extractor writes `keyframe_HH-MM-SS-mmm_NNNN.jpg`, and the structured-JSON
    generator, the MinerU processor and the server each decode that name on
    their own. These lemmas show that all three read back the same clock and
    the same whole milliseconds, for any keyframe taken before the hundredth
    hour, and that the stamp line `:HH:MM:SS.mmm` the slide parser looks for
    reads back the same time. */
module Roundtrip {
  import opened Wrappers
  import opened Text
  import opened Timestamps
  import Asr
  import Structured
  import Mineru
  import MineruMarkdown
  import Server

  /** A time the two-digit hour field of the file name can hold. */
  predicate TwoDigitHours(t: real) {
    t >= 0.0 && Millis(t) < 100 * 3600 * 1000
  }

  /** The seconds the name keeps: whole milliseconds. */
  function KeptSeconds(t: real): real
    requires t >= 0.0
  {
    Millis(t) as real / 1000.0
  }

  /** The fields of a clock as the name pattern's groups. */
  function FieldsOf(c: Clock, count: nat): (f: NameFields)
    ensures AllDigits(f.hh) && AllDigits(f.mm) && AllDigits(f.ss) && AllDigits(f.mmm) && AllDigits(f.number)
  {
    NameFields(ZeroPad(c.hours, 2), ZeroPad(c.minutes, 2), ZeroPad(c.seconds, 2), ZeroPad(c.millis, 3),
               ZeroPad(count, 4))
  }

  predicate ClockInRange(c: Clock) {
    c.hours < 100 && c.minutes < 60 && c.seconds < 60 && c.millis < 1000
  }

  lemma ClockOfTime(t: real)
    requires TwoDigitHours(t)
    ensures ClockInRange(ToClock(Millis(t)))
    ensures var c := ToClock(Millis(t));
            KeptSeconds(t) == (c.hours * 3600 + c.minutes * 60 + c.seconds) as real + c.millis as real / 1000.0
  {
    var c := ToClock(Millis(t));
    var whole := (c.hours * 60 + c.minutes) * 60 + c.seconds;
    assert whole * 1000 + c.millis == Millis(t);
    assert c.hours * 3600000 <= Millis(t);
    assert (whole * 1000 + c.millis) as real / 1000.0 == whole as real + c.millis as real / 1000.0;
  }

  lemma {:induction false} DigitRunOf(d: string, rest: string)
    requires AllDigits(d)
    requires rest == [] || !IsDigit(rest[0])
    ensures DigitRun(d + rest) == |d|
  {
    if d != [] {
      assert (d + rest)[1..] == d[1..] + rest;
      DigitRunOf(d[1..], rest);
    }
  }

  /** The keyframe pattern matches a name built from two-digit hour, minute
      and second fields, three-digit milliseconds and a run of digits,
      followed by anything at all (`re.match` anchors only the start), and
      its groups are those fields. */
  lemma MatchFields(f: NameFields, rest: string)
    requires |f.hh| == 2 && |f.mm| == 2 && |f.ss| == 2 && |f.mmm| == 3 && |f.number| >= 1
    requires AllDigits(f.hh) && AllDigits(f.mm) && AllDigits(f.ss) && AllDigits(f.mmm) && AllDigits(f.number)
    ensures MatchKeyframeName(Reassemble(f) + rest) == Some(f)
  {
    var base := Reassemble(f);
    var name := base + rest;
    var k := |f.number|;
    ReassembleLayout(f);
    assert |base| == 26 + k;
    assert name[..9] == base[..9] && name[9..11] == base[9..11] && name[12..14] == base[12..14];
    assert name[15..17] == base[15..17] && name[18..21] == base[18..21];
    assert name[11] == base[11] && name[14] == base[14] && name[17] == base[17] && name[21] == base[21];
    assert name[22..] == f.number + (".jpg" + rest);
    DigitRunOf(f.number, ".jpg" + rest);
    assert name[22 + k..] == ".jpg" + rest;
    assert name[22..22 + k] == f.number;
  }

  /** Where the fields sit in a reassembled name. */
  lemma ReassembleLayout(f: NameFields)
    requires |f.hh| == 2 && |f.mm| == 2 && |f.ss| == 2 && |f.mmm| == 3
    ensures var name := Reassemble(f);
            && name[..9] == "keyframe_" && name[9..11] == f.hh && name[12..14] == f.mm
            && name[15..17] == f.ss && name[18..21] == f.mmm
            && name[11] == '-' && name[14] == '-' && name[17] == '-' && name[21] == '_'
            && name[22..] == f.number + ".jpg"
  {
    var name := Reassemble(f);
    assert name[..9] == "keyframe_";
    assert name[9..11] == f.hh;
    assert name[12..14] == f.mm;
    assert name[15..17] == f.ss;
    assert name[18..21] == f.mmm;
    assert name[22..] == f.number + ".jpg";
  }

  lemma Regroup(p: string, h: string, m: string, s: string, ms: string, q: string, n: string, r: string)
    ensures p + (h + "-" + m + "-" + s + "-" + ms) + q + n + r == p + h + "-" + m + "-" + s + "-" + ms + q + n + r
  {
  }

  lemma ClockReassembly(c: Clock, count: nat)
    ensures "keyframe_" + ClockText(c, '-', '-') + "_" + FormatInt(count, 4) + ".jpg"
            == Reassemble(FieldsOf(c, count))
  {
    var f := FieldsOf(c, count);
    Regroup("keyframe_", f.hh, f.mm, f.ss, f.mmm, "_", f.number, ".jpg");
  }

  /** The extractor's name is the pattern's reassembly of the padded clock
      fields and the padded count. */
  lemma NameIsReassembly(t: real, count: nat)
    requires TwoDigitHours(t)
    ensures KeyframeFilename(t, count) == Reassemble(FieldsOf(ToClock(Millis(t)), count))
  {
    FormatSecondsIsClock(t, '-', '-');
    ClockReassembly(ToClock(Millis(t)), count);
  }

  /** The pattern matches the extractor's name and its groups are the padded
      clock fields and the padded count. */
  lemma MatchClockName(t: real, count: nat)
    requires TwoDigitHours(t)
    ensures MatchKeyframeName(KeyframeFilename(t, count)) == Some(FieldsOf(ToClock(Millis(t)), count))
  {
    var c := ToClock(Millis(t));
    ClockOfTime(t);
    NameIsReassembly(t, count);
    var f := FieldsOf(c, count);
    assert |f.hh| == 2 && |f.mm| == 2 && |f.ss| == 2 && |f.mmm| == 3;
    MatchFields(f, "");
    assert Reassemble(f) + "" == Reassemble(f);
  }

  /** The generator's record of the name: the timestamp text is the one the
      ASR processor prints for `t`, the seconds are `t`'s whole
      milliseconds, the frame number is the count, and the sort key is the
      count. */
  lemma GeneratorReadsName(directory: string, t: real, count: nat)
    requires TwoDigitHours(t)
    ensures var name := KeyframeFilename(t, count);
            && MatchKeyframeName(name) == Some(FieldsOf(ToClock(Millis(t)), count))
            && var r := Structured.RecordOf(directory, name, FieldsOf(ToClock(Millis(t)), count));
            && r.timestamp == Asr.FormatTimestamp(t)
            && r.timestampSeconds == KeptSeconds(t)
            && r.frameNumber == count
            && r.filename == name
  {
    var c := ToClock(Millis(t));
    ClockOfTime(t);
    FormatSecondsIsClock(t, ':', '.');
    MatchClockName(t, count);
    RecordOfClock(directory, KeyframeFilename(t, count), c, count);
  }

  /** The generator's record of the padded fields of a clock holds the clock
      text, the clock's seconds and the count. */
  lemma RecordOfClock(directory: string, name: string, c: Clock, count: nat)
    ensures var r := Structured.RecordOf(directory, name, FieldsOf(c, count));
            && r.timestamp == ClockText(c, ':', '.')
            && r.timestampSeconds == (c.hours * 3600 + c.minutes * 60 + c.seconds) as real + c.millis as real / 1000.0
            && r.frameNumber == count
            && r.filename == name
  {
  }

  /** The clock part of a name: the four time fields joined by dashes. */
  function ClockPart(f: NameFields): string {
    f.hh + "-" + f.mm + "-" + f.ss + "-" + f.mmm
  }

  lemma Regroup2(h: string, m: string, s: string, ms: string, n: string)
    ensures "keyframe_" + h + "-" + m + "-" + s + "-" + ms + "_" + n + ".jpg"
            == "keyframe" + ['_'] + ((h + "-" + m + "-" + s + "-" + ms) + ['_'] + (n + ".jpg"))
    ensures h + "-" + m + "-" + s + "-" + ms == h + ['-'] + (m + ['-'] + (s + ['-'] + ms))
  {
  }

  /** A name built from digit fields splits at `_` into `keyframe`, the
      clock part and the number with `.jpg`, and its clock part splits at
      `-` into the four time fields. */
  lemma NameGroups(f: NameFields)
    requires AllDigits(f.hh) && AllDigits(f.mm) && AllDigits(f.ss) && AllDigits(f.mmm) && AllDigits(f.number)
    ensures Reassemble(f) == "keyframe" + ['_'] + (ClockPart(f) + ['_'] + (f.number + ".jpg"))
    ensures '_' !in ClockPart(f) && '.' !in ClockPart(f) && '_' !in f.number && '.' !in f.number
    ensures Split(ClockPart(f), '-') == [f.hh, f.mm, f.ss, f.mmm]
  {
    Regroup2(f.hh, f.mm, f.ss, f.mmm, f.number);
    DigitsExclude(f.hh, '-');
    DigitsExclude(f.mm, '-');
    DigitsExclude(f.ss, '-');
    DigitsExclude(f.mmm, '-');
    DigitsExclude(f.hh, '_');
    DigitsExclude(f.mm, '_');
    DigitsExclude(f.ss, '_');
    DigitsExclude(f.mmm, '_');
    DigitsExclude(f.number, '_');
    DigitsExclude(f.hh, '.');
    DigitsExclude(f.mm, '.');
    DigitsExclude(f.ss, '.');
    DigitsExclude(f.mmm, '.');
    DigitsExclude(f.number, '.');
    SplitAtSeparator(f.hh, '-', f.mm + ['-'] + (f.ss + ['-'] + f.mmm));
    SplitAtSeparator(f.mm, '-', f.ss + ['-'] + f.mmm);
    SplitAtSeparator(f.ss, '-', f.mmm);
    SplitNoSeparator(f.mmm, '-');
  }

  lemma SplitThree(a: string, b: string, c: string)
    requires '_' !in a && '_' !in b && '_' !in c
    ensures Split(a + ['_'] + (b + ['_'] + c), '_') == [a, b, c]
  {
    SplitAtSeparator(a, '_', b + ['_'] + c);
    SplitAtSeparator(b, '_', c);
    SplitNoSeparator(c, '_');
  }

  /** The stem of a name without dots before its `.jpg` is the name without
      `.jpg`. */
  lemma StemOfJpg(stem: string)
    requires |stem| > 0 && '.' !in stem
    ensures Stem(stem + ".jpg") == stem
  {
    var name := stem + ".jpg";
    LastIndexOfIs(name, '.', |stem|);
    assert name[..|stem|] == stem;
  }

  /** The sort key `int(stem.split('_')[-1])` of the extractor's name is the
      count. */
  lemma SortKeyOfName(t: real, count: nat)
    requires TwoDigitHours(t)
    ensures Structured.SortKey(KeyframeFilename(t, count)) == Some(count)
  {
    NameIsReassembly(t, count);
    SortKeyOfFields(KeyframeFilename(t, count), FieldsOf(ToClock(Millis(t)), count), count);
  }

  /** The sort key of a reassembled name is the value of its number field. */
  lemma SortKeyOfFields(name: string, f: NameFields, count: nat)
    requires AllDigits(f.hh) && AllDigits(f.mm) && AllDigits(f.ss) && AllDigits(f.mmm)
    requires f.number == ZeroPad(count, 4) && name == Reassemble(f)
    ensures Structured.SortKey(name) == Some(count)
  {
    NameGroups(f);
    var stem := "keyframe" + ['_'] + (ClockPart(f) + ['_'] + f.number);
    assert name == stem + ".jpg";
    StemOfJpg(stem);
    SplitThree("keyframe", ClockPart(f), f.number);
    ParseFormatInt(count, 4);
  }

  /** The MinerU processor's reading of the name is the ASR timestamp text. */
  lemma MineruReadsName(t: real, count: nat)
    requires TwoDigitHours(t)
    ensures Mineru.ExtractTimestampFromFilename(KeyframeFilename(t, count)) == Some(Asr.FormatTimestamp(t))
  {
    ClockOfTime(t);
    FormatSecondsIsClock(t, '-', '-');
    FormatSecondsIsClock(t, ':', '.');
    MatchClockName(t, count);
  }

  /** The server's parse of a name whose second `_` field splits at `-` into
      four fields that `int` reads. */
  lemma ServerParse(img: string, h: int, m: int, s: int, ms: int)
    requires |Split(img, '_')| >= 3 && '-' in Split(img, '_')[1]
    requires var fields := Split(Split(img, '_')[1], '-');
             && |fields| == 4 && ParseInt(fields[0]) == Some(h) && ParseInt(fields[1]) == Some(m)
             && ParseInt(fields[2]) == Some(s) && ParseInt(fields[3]) == Some(ms)
    ensures Server.ParseFrameName(img).0 == (h * 3600 + m * 60 + s) as real + ms as real / 1000.0
    ensures Server.ParseFrameName(img).1
            == FormatInt(h, 2) + ":" + FormatInt(m, 2) + ":" + FormatInt(s, 2) + "." + FormatInt(ms, 3)
  {
  }

  lemma ColonText(c: Clock)
    ensures FormatInt(c.hours, 2) + ":" + FormatInt(c.minutes, 2) + ":" + FormatInt(c.seconds, 2) + "."
            + FormatInt(c.millis, 3) == ClockText(c, ':', '.')
  {
  }

  lemma ServerReadsClock(c: Clock, count: nat)
    requires ClockInRange(c)
    ensures Server.ParseFrameName(Reassemble(FieldsOf(c, count))).0
            == (c.hours * 3600 + c.minutes * 60 + c.seconds) as real + c.millis as real / 1000.0
    ensures Server.ParseFrameName(Reassemble(FieldsOf(c, count))).1 == ClockText(c, ':', '.')
  {
    var f := FieldsOf(c, count);
    ParseDigits(f.hh, c.hours);
    ParseDigits(f.mm, c.minutes);
    ParseDigits(f.ss, c.seconds);
    ParseDigits(f.mmm, c.millis);
    ServerReadsDigits(f, c.hours, c.minutes, c.seconds, c.millis);
    ColonText(c);
  }

  /** The server's parse of a reassembled name whose time fields `int` reads. */
  lemma ServerReadsDigits(f: NameFields, h: int, m: int, s: int, ms: int)
    requires |f.hh| == 2
    requires AllDigits(f.hh) && AllDigits(f.mm) && AllDigits(f.ss) && AllDigits(f.mmm) && AllDigits(f.number)
    requires ParseInt(f.hh) == Some(h) && ParseInt(f.mm) == Some(m)
    requires ParseInt(f.ss) == Some(s) && ParseInt(f.mmm) == Some(ms)
    ensures Server.ParseFrameName(Reassemble(f)).0 == (h * 3600 + m * 60 + s) as real + ms as real / 1000.0
    ensures Server.ParseFrameName(Reassemble(f)).1
            == FormatInt(h, 2) + ":" + FormatInt(m, 2) + ":" + FormatInt(s, 2) + "." + FormatInt(ms, 3)
  {
    ServerSplitsName(f);
    ServerParse(Reassemble(f), h, m, s, ms);
  }

  /** A reassembled name splits at `_` into at least three fields, and its
      second field splits at `-` into the four time fields. */
  lemma ServerSplitsName(f: NameFields)
    requires |f.hh| == 2
    requires AllDigits(f.hh) && AllDigits(f.mm) && AllDigits(f.ss) && AllDigits(f.mmm) && AllDigits(f.number)
    ensures var parts := Split(Reassemble(f), '_');
            && |parts| >= 3 && parts[1] == ClockPart(f) && '-' in parts[1]
            && Split(parts[1], '-') == [f.hh, f.mm, f.ss, f.mmm]
  {
    NameGroups(f);
    SplitThree("keyframe", ClockPart(f), f.number + ".jpg");
    assert ClockPart(f)[2] == '-';
  }

  /** The server's reading of the name: the kept seconds and the ASR
      timestamp text. */
  lemma ServerReadsName(t: real, count: nat)
    requires TwoDigitHours(t)
    ensures Server.ParseFrameName(KeyframeFilename(t, count)).0 == KeptSeconds(t)
    ensures Server.ParseFrameName(KeyframeFilename(t, count)).1 == Asr.FormatTimestamp(t)
  {
    var c := ToClock(Millis(t));
    ClockOfTime(t);
    NameIsReassembly(t, count);
    FormatSecondsIsClock(t, ':', '.');
    ServerReadsFieldsOf(KeyframeFilename(t, count), c, count, KeptSeconds(t), Asr.FormatTimestamp(t));
  }

  lemma ServerReadsFieldsOf(name: string, c: Clock, count: nat, seconds: real, text: string)
    requires ClockInRange(c) && name == Reassemble(FieldsOf(c, count))
    requires seconds == (c.hours * 3600 + c.minutes * 60 + c.seconds) as real + c.millis as real / 1000.0
    requires text == ClockText(c, ':', '.')
    ensures Server.ParseFrameName(name).0 == seconds && Server.ParseFrameName(name).1 == text
  {
    ServerReadsClock(c, count);
  }

  /** The generator's parse of the record's timestamp text gives back the
      record's seconds. */
  lemma GeneratorParsesTimestamp(t: real, float: string -> Option<real>)
    requires TwoDigitHours(t)
    requires Structured.ReadsDecimals(float)
    ensures Structured.ParseTimestamp(Asr.FormatTimestamp(t), float) == KeptSeconds(t)
  {
    ClockOfTime(t);
    FormatSecondsIsClock(t, ':', '.');
    Structured.ParseTimestampOfClock(ToClock(Millis(t)), float);
  }

  /** The stamp pattern reads its four fields back from a line that starts
      with them. */
  lemma MatchStampFields(hh: string, mm: string, ss: string, mmm: string, rest: string)
    requires |hh| == 2 && |mm| == 2 && |ss| == 2 && |mmm| == 3
    requires AllDigits(hh) && AllDigits(mm) && AllDigits(ss) && AllDigits(mmm)
    ensures MineruMarkdown.MatchStamp(":" + (hh + [':'] + mm + [':'] + ss + ['.'] + mmm) + rest)
            == Some(MineruMarkdown.Stamp(hh, mm, ss, mmm))
  {
    var line := ":" + (hh + [':'] + mm + [':'] + ss + ['.'] + mmm) + rest;
    assert line[1..3] == hh && line[4..6] == mm && line[7..9] == ss && line[10..13] == mmm;
  }

  /** A markdown line starting with `:` and the ASR timestamp text of `t`
      opens a slide whose timestamp is that text and whose seconds are the
      kept seconds. */
  lemma StampLineReadsTime(t: real, rest: string)
    requires TwoDigitHours(t)
    ensures var m := MineruMarkdown.MatchStamp(":" + Asr.FormatTimestamp(t) + rest);
            && m.Some?
            && MineruMarkdown.StampText(m.value) == Asr.FormatTimestamp(t)
            && MineruMarkdown.StampSeconds(m.value) == KeptSeconds(t)
  {
    var c := ToClock(Millis(t));
    ClockOfTime(t);
    FormatSecondsIsClock(t, ':', '.');
    var hh, mm, ss, mmm := ZeroPad(c.hours, 2), ZeroPad(c.minutes, 2), ZeroPad(c.seconds, 2), ZeroPad(c.millis, 3);
    assert Asr.FormatTimestamp(t) == hh + [':'] + mm + [':'] + ss + ['.'] + mmm;
    MatchStampFields(hh, mm, ss, mmm, rest);
  }

  lemma HourFirst(f: NameFields)
    ensures Reassemble(f) == "keyframe_" + f.hh + ("-" + f.mm + "-" + f.ss + "-" + f.mmm + "_" + f.number + ".jpg")
  {
  }

  /** No name whose hour field has three digits matches the keyframe
      pattern: the dash it needs after two digits is a digit. */
  lemma LongHourUnmatched(hh: string, tail: string)
    requires |hh| >= 3 && AllDigits(hh)
    ensures MatchKeyframeName("keyframe_" + hh + tail).None?
  {
    var name := "keyframe_" + hh + tail;
    assert name[11] == hh[2];
  }

  /** From the hundredth hour on the hour field has three digits and the
      keyframe pattern no longer matches the extractor's name. */
  lemma HundredthHourUnmatched(t: real, count: nat)
    requires t >= 0.0 && Millis(t) >= 100 * 3600 * 1000
    ensures MatchKeyframeName(KeyframeFilename(t, count)).None?
  {
    var c := ToClock(Millis(t));
    FormatSecondsIsClock(t, '-', '-');
    var whole := (c.hours * 60 + c.minutes) * 60 + c.seconds;
    assert whole * 1000 + c.millis == Millis(t);
    assert c.hours >= 100;
    var f := FieldsOf(c, count);
    ClockReassembly(c, count);
    HourFirst(f);
    LongHourUnmatched(f.hh, "-" + f.mm + "-" + f.ss + "-" + f.mmm + "_" + f.number + ".jpg");
  }
}
