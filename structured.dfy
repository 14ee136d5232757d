/** generate_structured_json.py: keyframe file names are decoded back to
    timestamps, each keyframe becomes a slide carrying the transcript
    segments near its time, and a summary is built over the slides.

    Python's `float(str)` is a parameter (`float` returns None where Python
    raises); the directory listing is an input; reading the transcript file
    and writing the JSON file are not modelled. */
module Structured {
  import opened Wrappers
  import opened Text
  import opened Timestamps
  import opened Sorting
  import Asr

  // ---------------------------------------------------------------------------
  // parse_timestamp
  // ---------------------------------------------------------------------------

  /** `parse_timestamp`: `H:M:S` with each field read by `float`, else the
      whole string read by `float`; 0.0 wherever `float` raises. */
  function ParseTimestamp(s: string, float: string -> Option<real>): real
  {
    if ':' in s && |Split(s, ':')| == 3 then
      var parts := Split(s, ':');
      match (float(parts[0]), float(parts[1]), float(parts[2]))
      case (Some(h), Some(m), Some(x)) => h * 3600.0 + m * 60.0 + x
      case _ => 0.0
    else
      match float(s)
      case Some(v) => v
      case None => 0.0
  }

  function Pow10(n: nat): (r: real)
    ensures r >= 1.0
  {
    if n == 0 then 1.0 else 10.0 * Pow10(n - 1)
  }

  /** What `float` returns for the plain decimals `DDD` and `DDD.DDD`; None
      for every other spelling. */
  function DecimalValue(s: string): Option<real>
  {
    var k := IndexOf(s, '.');
    if k == |s| then
      if |s| > 0 && AllDigits(s) then Some(DigitsValue(s) as real) else None
    else FractionValue(s[..k], s[k + 1..])
  }

  /** The value of `whole.fraction`. */
  function FractionValue(whole: string, fraction: string): Option<real>
  {
    if |whole| > 0 && |fraction| > 0 && AllDigits(whole) && AllDigits(fraction)
    then Some(DigitsValue(whole) as real + DigitsValue(fraction) as real / Pow10(|fraction|))
    else None
  }

  /** `float` reads plain decimals as Python does. */
  ghost predicate ReadsDecimals(float: string -> Option<real>) {
    forall s :: DecimalValue(s).Some? ==> float(s) == DecimalValue(s)
  }

  lemma DecimalOfDigits(d: string)
    requires |d| > 0 && AllDigits(d)
    ensures DecimalValue(d) == Some(DigitsValue(d) as real)
  {
    DigitsExclude(d, '.');
  }

  lemma DecimalOfFraction(w: string, f: string)
    requires AllDigits(w)
    ensures DecimalValue(w + "." + f) == FractionValue(w, f)
  {
    var s := w + "." + f;
    DigitsExclude(w, '.');
    assert s[..|w|] == w;
    assert s[|w|] == '.';
    assert s[..|w| + 1] == w + ".";
    assert IndexOf(s, '.') == |w|;
    assert s[|w| + 1..] == f;
  }

  lemma FractionOfMillis(seconds: nat, millis: nat)
    requires millis < 1000
    ensures FractionValue(ZeroPad(seconds, 2), ZeroPad(millis, 3))
            == Some(seconds as real + millis as real / 1000.0)
  {
    var ms := ZeroPad(millis, 3);
    assert |ms| == 3;
    assert Pow10(3) == 1000.0;
  }

  /** The clock text splits at its two colons into hours, minutes and
      `SS.mmm`. */
  lemma ClockTextSplit(c: Clock)
    ensures var text := ClockText(c, ':', '.');
            && ':' in text
            && Split(text, ':') == [ZeroPad(c.hours, 2), ZeroPad(c.minutes, 2),
                                    ZeroPad(c.seconds, 2) + "." + ZeroPad(c.millis, 3)]
  {
    var a := ZeroPad(c.hours, 2);
    var b := ZeroPad(c.minutes, 2);
    var rest := ZeroPad(c.seconds, 2) + "." + ZeroPad(c.millis, 3);
    var text := ClockText(c, ':', '.');
    assert text == a + [':'] + (b + [':'] + rest);
    DigitsExclude(a, ':');
    DigitsExclude(b, ':');
    DigitsExclude(ZeroPad(c.seconds, 2), ':');
    DigitsExclude(ZeroPad(c.millis, 3), ':');
    assert ':' !in rest;
    SplitTwoColons(a, b, rest);
  }

  lemma SplitTwoColons(a: string, b: string, rest: string)
    requires ':' !in a && ':' !in b && ':' !in rest
    ensures ':' in a + [':'] + (b + [':'] + rest)
    ensures Split(a + [':'] + (b + [':'] + rest), ':') == [a, b, rest]
  {
    SplitAtSeparator(a, ':', b + [':'] + rest);
    SplitAtSeparator(b, ':', rest);
    SplitNoSeparator(rest, ':');
    assert (a + [':'] + (b + [':'] + rest))[|a|] == ':';
  }

  /** Reading back the `HH:MM:SS.mmm` text of the transcript clock gives the
      time it spells, whenever `float` reads plain decimals correctly. */
  lemma ParseTimestampOfClock(c: Clock, float: string -> Option<real>)
    requires c.millis < 1000
    requires ReadsDecimals(float)
    ensures ParseTimestamp(ClockText(c, ':', '.'), float)
            == (c.hours * 3600 + c.minutes * 60 + c.seconds) as real + c.millis as real / 1000.0
  {
    var sec := ZeroPad(c.seconds, 2);
    var ms := ZeroPad(c.millis, 3);
    ClockTextSplit(c);
    DecimalOfDigits(ZeroPad(c.hours, 2));
    DecimalOfDigits(ZeroPad(c.minutes, 2));
    DecimalOfFraction(sec, ms);
    FractionOfMillis(c.seconds, c.millis);
  }

  // ---------------------------------------------------------------------------
  // extract_keyframe_info
  // ---------------------------------------------------------------------------

  /** One decoded keyframe file. */
  datatype KeyframeRecord = KeyframeRecord(frameNumber: int, timestamp: string, timestampSeconds: real,
                                           filename: string, path: string)

  /** The glob `keyframe_*.jpg`. */
  predicate IsKeyframeGlob(name: string) {
    |name| >= 13 && StartsWith(name, "keyframe_") && EndsWith(name, ".jpg")
  }

  /** The sort key `int(x.stem.split('_')[-1])`; None where `int` raises. */
  function SortKey(name: string): Option<int>
  {
    var parts := Split(Stem(name), '_');
    ParseInt(parts[|parts| - 1])
  }

  function KeyOf(name: string): int {
    match SortKey(name)
    case Some(k) => k
    case None => 0
  }

  /** The order `sorted(..., key=...)` uses. */
  function ByKey(): (string, string) -> bool {
    (a: string, b: string) => KeyOf(a) <= KeyOf(b)
  }

  /** `str(keyframes_dir / name)` for a path that `keyframes_dir.glob`
      yields, where `directory` is `str(keyframes_dir)`: pathlib prints the
      current directory `.` as nothing before the name, and keeps a root
      `/` without doubling it. */
  function GlobPath(directory: string, name: string): string
  {
    if directory == "." then name
    else if EndsWith(directory, "/") then directory + name
    else directory + "/" + name
  }

  /** The globbed path ends with the name and is the bare name in the
      current directory; otherwise it starts with the directory. Its last
      component is the name, as `keyframe_file.name` reads it back. */
  lemma GlobPathName(directory: string, name: string)
    ensures var r := GlobPath(directory, name);
            && EndsWith(r, name)
            && (directory == "." ==> r == name)
            && (directory != "." ==> StartsWith(r, directory) && |r| > |name|)
            && ('/' !in name ==> r[LastIndexOf(r, '/') + 1..] == name)
  {
    var r := GlobPath(directory, name);
    assert r[|r| - |name|..] == name;
    assert directory != "." ==> r[..|directory|] == directory;
    if '/' !in name {
      var k := if directory == "." then -1 else |r| - |name| - 1;
      assert forall j :: k < j < |r| ==> r[j] == name[j - (|r| - |name|)];
      LastIndexOfIs(r, '/', k);
    }
  }

  /** The record of a name that matches the keyframe pattern. */
  function RecordOf(directory: string, name: string, f: NameFields): KeyframeRecord
    requires AllDigits(f.hh) && AllDigits(f.mm) && AllDigits(f.ss) && AllDigits(f.mmm) && AllDigits(f.number)
  {
    KeyframeRecord(
      DigitsValue(f.number),
      f.hh + ":" + f.mm + ":" + f.ss + "." + f.mmm,
      (DigitsValue(f.hh) * 3600 + DigitsValue(f.mm) * 60 + DigitsValue(f.ss)) as real
        + DigitsValue(f.mmm) as real / 1000.0,
      name,
      GlobPath(directory, name))
  }

  /** The records of the names in `files` that match the pattern, in order. */
  function Records(directory: string, files: seq<string>): seq<KeyframeRecord>
  {
    if files == [] then []
    else
      var name := files[|files| - 1];
      Records(directory, files[..|files| - 1])
        + match MatchKeyframeName(name)
          case Some(f) => [RecordOf(directory, name, f)]
          case None => []
  }

  /** The globbed names sorted by their key; None when some key is not an
      integer (the ValueError ends the whole generation). */
  function SortedFiles(listing: seq<string>): Option<seq<string>>
  {
    var files := Filter(listing, IsKeyframeGlob);
    if forall i :: 0 <= i < |files| ==> SortKey(files[i]).Some? then Some(SortBy(files, ByKey())) else None
  }

  /** What `extract_keyframe_info` returns for a directory listing. */
  function KeyframeInfo(directory: string, listing: seq<string>): Option<seq<KeyframeRecord>>
  {
    match SortedFiles(listing)
    case Some(files) => Some(Records(directory, files))
    case None => None
  }

  /** `extract_keyframe_info`: the loop over the sorted names. */
  method ExtractKeyframeInfo(directory: string, listing: seq<string>) returns (r: Option<seq<KeyframeRecord>>)
    ensures r == KeyframeInfo(directory, listing)
  {
    var files := Filter(listing, IsKeyframeGlob);
    if exists i :: 0 <= i < |files| && SortKey(files[i]).None? {
      return None;
    }
    var sorted := SortBy(files, ByKey());
    var keyframes: seq<KeyframeRecord> := [];
    for i := 0 to |sorted|
      invariant keyframes == Records(directory, sorted[..i])
    {
      var name := sorted[i];
      var m := MatchKeyframeName(name);
      assert sorted[..i + 1][..i] == sorted[..i];
      if m.Some? {
        keyframes := keyframes + [RecordOf(directory, name, m.value)];
      }
    }
    assert sorted[..|sorted|] == sorted;
    return Some(keyframes);
  }

  lemma ByKeyPreorder()
    ensures TotalPreorder(ByKey())
  {
  }

  /** The name matches the keyframe pattern. */
  predicate Decodable(name: string) {
    MatchKeyframeName(name).Some?
  }

  function Names(records: seq<KeyframeRecord>): (r: seq<string>)
    ensures |r| == |records|
  {
    seq(|records|, k requires 0 <= k < |records| => records[k].filename)
  }

  /** The records are those of the names of `files` that match the pattern,
      one each, in the order of `files`. */
  lemma RecordsAre(directory: string, files: seq<string>)
    ensures Names(Records(directory, files)) == Filter(files, Decodable)
    ensures var rs := Records(directory, files);
            forall k :: 0 <= k < |rs| ==>
              Decodable(rs[k].filename)
              && rs[k] == RecordOf(directory, rs[k].filename, MatchKeyframeName(rs[k].filename).value)
              && rs[k].path == GlobPath(directory, rs[k].filename)
  {
    RecordsNames(directory, files);
    RecordsDecoded(directory, files);
  }

  /** One more name adds its record exactly when it matches. */
  lemma RecordsSnoc(directory: string, files: seq<string>, name: string)
    ensures Records(directory, files + [name])
            == Records(directory, files)
               + if Decodable(name) then [RecordOf(directory, name, MatchKeyframeName(name).value)] else []
    ensures Decodable(name) ==> RecordOf(directory, name, MatchKeyframeName(name).value).filename == name
  {
    assert (files + [name])[..|files|] == files;
  }

  lemma {:induction false} RecordsNames(directory: string, files: seq<string>)
    ensures Names(Records(directory, files)) == Filter(files, Decodable)
  {
    if files != [] {
      var init := files[..|files| - 1];
      var name := files[|files| - 1];
      RecordsNames(directory, init);
      assert files == init + [name];
      RecordsNamesSnoc(directory, init, name);
      FilterSnoc(init, name, Decodable);
    }
  }

  lemma RecordsNamesSnoc(directory: string, files: seq<string>, name: string)
    ensures Names(Records(directory, files + [name]))
            == Names(Records(directory, files)) + if Decodable(name) then [name] else []
  {
    RecordsSnoc(directory, files, name);
    var rs := Records(directory, files);
    if Decodable(name) {
      var r := RecordOf(directory, name, MatchKeyframeName(name).value);
      assert Names(rs + [r]) == Names(rs) + [name];
    } else {
      assert rs + [] == rs;
    }
  }

  lemma {:induction false} RecordsDecoded(directory: string, files: seq<string>)
    ensures var rs := Records(directory, files);
            forall k :: 0 <= k < |rs| ==>
              Decodable(rs[k].filename)
              && rs[k] == RecordOf(directory, rs[k].filename, MatchKeyframeName(rs[k].filename).value)
  {
    if files != [] {
      var init := files[..|files| - 1];
      var name := files[|files| - 1];
      RecordsDecoded(directory, init);
      assert files == init + [name];
      RecordsSnoc(directory, init, name);
    }
  }

  /** The sorted names of a listing are its `keyframe_*.jpg` names. */
  lemma SortedFilesMembers(listing: seq<string>)
    requires SortedFiles(listing).Some?
    ensures forall n :: n in SortedFiles(listing).value <==> n in listing && IsKeyframeGlob(n)
  {
    var files := Filter(listing, IsKeyframeGlob);
    var sorted := SortBy(files, ByKey());
    FilterMembers(listing, IsKeyframeGlob);
    forall n
      ensures n in sorted <==> n in files
    {
      assert n in sorted <==> n in multiset(sorted);
      assert n in files <==> n in multiset(files);
    }
  }

  /** Decoding fails exactly when some listed `keyframe_*.jpg` name has a
      sort key that is not an integer. */
  lemma KeyframeInfoFails(directory: string, listing: seq<string>)
    ensures KeyframeInfo(directory, listing).None? <==>
            exists n :: n in listing && IsKeyframeGlob(n) && SortKey(n).None?
  {
    var files := Filter(listing, IsKeyframeGlob);
    FilterMembers(listing, IsKeyframeGlob);
    if KeyframeInfo(directory, listing).None? {
      var i :| 0 <= i < |files| && SortKey(files[i]).None?;
      assert files[i] in files;
    }
  }

  /** Each decoded keyframe comes from a listed `keyframe_*.jpg` name that
      matches the pattern, and is the record of that name. */
  lemma KeyframeInfoSound(directory: string, listing: seq<string>)
    requires KeyframeInfo(directory, listing).Some?
    ensures var rs := KeyframeInfo(directory, listing).value;
            forall k :: 0 <= k < |rs| ==>
              && rs[k].filename in listing && IsKeyframeGlob(rs[k].filename)
              && Decodable(rs[k].filename)
              && rs[k] == RecordOf(directory, rs[k].filename, MatchKeyframeName(rs[k].filename).value)
  {
    var sorted := SortedFiles(listing).value;
    var rs := Records(directory, sorted);
    SortedFilesMembers(listing);
    RecordsAre(directory, sorted);
    FilterMembers(sorted, Decodable);
    forall k | 0 <= k < |rs|
      ensures rs[k].filename in sorted
    {
      assert Names(rs)[k] in Filter(sorted, Decodable);
    }
  }

  /** Every listed `keyframe_*.jpg` name that matches the pattern is
      decoded. */
  lemma KeyframeInfoComplete(directory: string, listing: seq<string>, n: string)
    requires KeyframeInfo(directory, listing).Some?
    requires n in listing && IsKeyframeGlob(n) && Decodable(n)
    ensures RecordOf(directory, n, MatchKeyframeName(n).value) in KeyframeInfo(directory, listing).value
  {
    var sorted := SortedFiles(listing).value;
    var rs := Records(directory, sorted);
    SortedFilesMembers(listing);
    RecordsAre(directory, sorted);
    FilterMembers(sorted, Decodable);
    assert n in Names(rs);
    var k :| 0 <= k < |rs| && Names(rs)[k] == n;
    assert rs[k] == RecordOf(directory, n, MatchKeyframeName(n).value);
  }

  /** The decoded keyframes come in order of their names' sort keys. */
  lemma KeyframeInfoOrdered(directory: string, listing: seq<string>)
    requires KeyframeInfo(directory, listing).Some?
    ensures var rs := KeyframeInfo(directory, listing).value;
            forall k, l :: 0 <= k < l < |rs| ==> KeyOf(rs[k].filename) <= KeyOf(rs[l].filename)
  {
    var sorted := SortedFiles(listing).value;
    var rs := Records(directory, sorted);
    ByKeyPreorder();
    SortBySorted(Filter(listing, IsKeyframeGlob), ByKey());
    FilterSorted(sorted, Decodable, ByKey());
    RecordsAre(directory, sorted);
    forall k, l | 0 <= k < l < |rs|
      ensures KeyOf(rs[k].filename) <= KeyOf(rs[l].filename)
    {
      assert ByKey()(Names(rs)[k], Names(rs)[l]);
    }
  }

  /** The members of a filtered list are the members that pass the test. */
  lemma {:induction false} FilterMembers<T>(s: seq<T>, p: T -> bool)
    ensures forall x :: x in Filter(s, p) <==> x in s && p(x)
  {
    if s != [] {
      FilterMembers(s[1..], p);
      assert s == [s[0]] + s[1..];
    }
  }

  // ---------------------------------------------------------------------------
  // match_keyframes_with_asr
  // ---------------------------------------------------------------------------

  /** A transcript segment as the ASR file gives it. */
  datatype AsrSegment = AsrSegment(start: real, end: real, text: string)

  function Abs(x: real): real {
    if x < 0.0 then -x else x
  }

  /** The segment covers time `t`, or starts within 5 seconds of it. */
  predicate Attaches(seg: AsrSegment, t: real) {
    (seg.start <= t <= seg.end) || Abs(seg.start - t) <= 5.0
  }

  /** The texts of the segments that attach to `t`, in segment order. */
  function MatchingTexts(segs: seq<AsrSegment>, t: real): seq<string>
  {
    if segs == [] then []
    else
      var last := segs[|segs| - 1];
      MatchingTexts(segs[..|segs| - 1], t) + (if Attaches(last, t) then [last.text] else [])
  }

  /** The indices of the segments that attach to `t`: increasing, and each
      of an attaching segment. */
  function MatchIndices(segs: seq<AsrSegment>, t: real): (r: seq<nat>)
    ensures forall k :: 0 <= k < |r| ==> r[k] < |segs| && Attaches(segs[r[k]], t)
    ensures forall k, l :: 0 <= k < l < |r| ==> r[k] < r[l]
  {
    if segs == [] then []
    else
      var n := |segs| - 1;
      MatchIndices(segs[..n], t) + (if Attaches(segs[n], t) then [n] else [])
  }

  /** Every attaching segment is among the matches. */
  lemma {:induction false} MatchIndicesComplete(segs: seq<AsrSegment>, t: real, j: nat)
    requires j < |segs| && Attaches(segs[j], t)
    ensures j in MatchIndices(segs, t)
  {
    if j < |segs| - 1 {
      MatchIndicesComplete(segs[..|segs| - 1], t, j);
    }
  }

  /** The matched texts are the texts of the attaching segments, in
      segment order; one segment may attach to several keyframes. */
  lemma {:induction false} MatchingTextsAre(segs: seq<AsrSegment>, t: real)
    ensures var idx := MatchIndices(segs, t);
            && |MatchingTexts(segs, t)| == |idx|
            && forall k :: 0 <= k < |idx| ==> MatchingTexts(segs, t)[k] == segs[idx[k]].text
  {
    if segs != [] {
      MatchingTextsAre(segs[..|segs| - 1], t);
    }
  }

  /** Index of the first sentence mark, or `|s|`: the first piece of
      `re.split('[。！？.!?]', s)`. */
  function FirstMark(s: string): (k: nat)
    ensures k <= |s|
    ensures forall i :: 0 <= i < k ==> !Asr.IsSentenceMark(s[i])
    ensures k < |s| ==> Asr.IsSentenceMark(s[k])
  {
    if s == [] || Asr.IsSentenceMark(s[0]) then 0 else 1 + FirstMark(s[1..])
  }

  /** The title drawn from a text: its first sentence piece, stripped, cut
      to 50 characters. */
  function TitleOf(text: string): (title: string)
  {
    TakeChars(Strip(text[..FirstMark(text)]), 50)
  }

  /** A title holds at most 50 characters, no sentence mark, and is the whole
      stripped first piece when that piece is short enough. */
  lemma TitleFacts(text: string)
    ensures |TitleOf(text)| <= 50
    ensures forall i :: 0 <= i < |TitleOf(text)| ==> !Asr.IsSentenceMark(TitleOf(text)[i])
    ensures var piece := Strip(text[..FirstMark(text)]);
            TitleOf(text) == piece[..|TitleOf(text)|] && (|piece| <= 50 ==> TitleOf(text) == piece)
  {
    var prefix := text[..FirstMark(text)];
    var piece := Strip(prefix);
    StripChars(prefix);
    forall i | 0 <= i < |TitleOf(text)|
      ensures !Asr.IsSentenceMark(TitleOf(text)[i])
    {
      var c := TitleOf(text)[i];
      assert c == piece[i];
      assert c in piece;
      assert c in prefix;
      var j :| 0 <= j < |prefix| && prefix[j] == c;
      assert text[j] == c;
    }
  }

  /** One slide. */
  datatype Slide = Slide(slideNumber: int, timestamp: string, timestampSeconds: real,
                         filename: string, path: string,
                         content: seq<string>, title: string, speakerText: string)

  /** The slide of one keyframe. */
  function SlideFor(kf: KeyframeRecord, segs: seq<AsrSegment>): Slide
  {
    var texts := MatchingTexts(segs, kf.timestampSeconds);
    Slide(kf.frameNumber + 1, kf.timestamp, kf.timestampSeconds, kf.filename, kf.path, texts,
          if texts != [] then TitleOf(texts[0]) else "",
          if texts != [] then Join(texts, " ") else "")
  }

  /** What `match_keyframes_with_asr` returns: one slide per keyframe. */
  function Slides(keyframes: seq<KeyframeRecord>, segs: seq<AsrSegment>): (r: seq<Slide>)
    ensures |r| == |keyframes|
  {
    seq(|keyframes|, i requires 0 <= i < |keyframes| => SlideFor(keyframes[i], segs))
  }

  /** `match_keyframes_with_asr`: for each keyframe, scan all segments. */
  method MatchKeyframesWithAsr(keyframes: seq<KeyframeRecord>, segs: seq<AsrSegment>) returns (slides: seq<Slide>)
    ensures slides == Slides(keyframes, segs)
  {
    slides := [];
    for i := 0 to |keyframes|
      invariant |slides| == i
      invariant forall k :: 0 <= k < i ==> slides[k] == SlideFor(keyframes[k], segs)
    {
      var slide := MatchKeyframe(keyframes[i], segs);
      slides := slides + [slide];
    }
  }

  /** The body of the outer loop of `match_keyframes_with_asr`: the slide
      of one keyframe, its texts gathered by scanning every segment. */
  method MatchKeyframe(keyframe: KeyframeRecord, segs: seq<AsrSegment>) returns (slide: Slide)
    ensures slide == SlideFor(keyframe, segs)
  {
    var t := keyframe.timestampSeconds;
    var matching: seq<string> := [];
    for j := 0 to |segs|
      invariant matching == MatchingTexts(segs[..j], t)
    {
      var segment := segs[j];
      assert segs[..j + 1][..j] == segs[..j];
      if (segment.start <= t <= segment.end) || Abs(segment.start - t) <= 5.0 {
        matching := matching + [segment.text];
      }
    }
    assert segs[..|segs|] == segs;
    slide := Slide(keyframe.frameNumber + 1, keyframe.timestamp, t, keyframe.filename, keyframe.path,
                   matching, "", if matching != [] then Join(matching, " ") else "");
    if matching != [] {
      slide := slide.(title := TitleOf(matching[0]));
    }
  }

  /** Slide `i` belongs to keyframe `i`: it is numbered one past the frame
      number, keeps the keyframe's time and file, lists the texts of the
      attaching segments in segment order, and takes its title from the
      first of them and its speaker text from all of them. */
  lemma SlideContents(keyframes: seq<KeyframeRecord>, segs: seq<AsrSegment>, i: nat)
    requires i < |keyframes|
    ensures var s := Slides(keyframes, segs)[i];
            var kf := keyframes[i];
            var idx := MatchIndices(segs, kf.timestampSeconds);
            && s.slideNumber == kf.frameNumber + 1
            && s.timestamp == kf.timestamp && s.timestampSeconds == kf.timestampSeconds
            && s.filename == kf.filename && s.path == kf.path
            && |s.content| == |idx|
            && (forall k :: 0 <= k < |idx| ==> s.content[k] == segs[idx[k]].text)
            && (idx == [] ==> s.title == "" && s.speakerText == "")
            && (idx != [] ==> s.title == TitleOf(segs[idx[0]].text) && s.speakerText == Join(s.content, " "))
  {
    MatchingTextsAre(segs, keyframes[i].timestampSeconds);
  }

  /** A slide's speaker text is empty exactly when no segment attaches, or
      the only attaching segment has empty text. */
  lemma {:induction false} SpeakerTextEmpty(texts: seq<string>)
    ensures (if texts != [] then Join(texts, " ") else "") == "" <==> texts == [] || texts == [""]
  {
    if |texts| >= 2 {
      assert |Join(texts, " ")| >= 1;
    }
  }

  // ---------------------------------------------------------------------------
  // The summary of generate_structured_json
  // ---------------------------------------------------------------------------

  /** One entry of the summary's timeline. */
  datatype TimelineEntry = TimelineEntry(slideNumber: int, timestamp: string, title: string,
                                         hasText: bool, textLength: nat)

  datatype ContentAnalysis = ContentAnalysis(totalTextLength: nat, averageTextPerSlide: real,
                                             slidesWithText: nat, slidesWithoutText: nat)

  datatype Metadata = Metadata(videoName: string, totalSlides: nat, totalKeyframes: nat, totalAsrSegments: nat,
                               durationSeconds: real, durationFormatted: string,
                               keyframesDirectory: string, asrFile: string)

  datatype StructuredData = StructuredData(metadata: Metadata, slides: seq<Slide>, contentAnalysis: ContentAnalysis,
                                           timeline: seq<TimelineEntry>, keyTopics: set<string>)

  function TotalTextLength(slides: seq<Slide>): nat
  {
    if slides == [] then 0 else TotalTextLength(slides[..|slides| - 1]) + |slides[|slides| - 1].speakerText|
  }

  function SlidesWithText(slides: seq<Slide>): nat
  {
    if slides == [] then 0
    else SlidesWithText(slides[..|slides| - 1]) + (if slides[|slides| - 1].speakerText != "" then 1 else 0)
  }

  function SlidesWithoutText(slides: seq<Slide>): nat
  {
    if slides == [] then 0
    else SlidesWithoutText(slides[..|slides| - 1]) + (if slides[|slides| - 1].speakerText == "" then 1 else 0)
  }

  /** Every slide has text or has none. */
  lemma {:induction false} TextCountsAdd(slides: seq<Slide>)
    ensures SlidesWithText(slides) + SlidesWithoutText(slides) == |slides|
  {
    if slides != [] {
      TextCountsAdd(slides[..|slides| - 1]);
    }
  }

  /** The total text length is zero exactly when no slide has text. */
  lemma {:induction false} TextLengthZero(slides: seq<Slide>)
    ensures TotalTextLength(slides) == 0 <==> SlidesWithText(slides) == 0
  {
    if slides != [] {
      TextLengthZero(slides[..|slides| - 1]);
    }
  }

  /** The timeline title: the slide's title, else `幻灯片 N`. */
  function TimelineTitle(slide: Slide): string {
    if slide.title != "" then slide.title else "幻灯片 " + FormatInt(slide.slideNumber, 0)
  }

  function Timeline(slides: seq<Slide>): (r: seq<TimelineEntry>)
    ensures |r| == |slides|
  {
    seq(|slides|, i requires 0 <= i < |slides| =>
      TimelineEntry(slides[i].slideNumber, slides[i].timestamp, TimelineTitle(slides[i]),
                    slides[i].speakerText != "", |slides[i].speakerText|))
  }

  /** The distinct titles longer than five characters. */
  function KeyTopics(slides: seq<Slide>): set<string>
  {
    set i | 0 <= i < |slides| && slides[i].title != "" && |slides[i].title| > 5 :: slides[i].title
  }

  /** `f"{int(d//60):02d}:{int(d%60):02d}"` with Python's floored `//`
      and `%` on floats. */
  function DurationText(d: real): string
  {
    var q := (d / 60.0).Floor;
    FormatInt(Trunc(q as real), 2) + ":" + FormatInt(Trunc(d - 60.0 * q as real), 2)
  }

  /** For a non-negative duration the two fields are whole minutes and the
      remaining whole seconds. */
  lemma DurationFields(d: real)
    requires d >= 0.0
    ensures var q := (d / 60.0).Floor;
            var m := Trunc(q as real);
            var s := Trunc(d - 60.0 * q as real);
            0 <= s < 60 && m * 60 + s == d.Floor
  {
    var q := (d / 60.0).Floor;
    assert q as real <= d / 60.0 < q as real + 1.0;
    assert 60.0 * q as real <= d < 60.0 * q as real + 60.0;
    var r := d - 60.0 * q as real;
    assert 0.0 <= r < 60.0;
    FloorShift(d, 60 * q);
  }

  /** The average of `total` over `n` slides, times `n`, is `total`. */
  lemma AverageBack(total: nat, n: nat)
    ensures n > 0 ==> (total as real / n as real) * n as real == total as real
  {
  }

  /** The last keyframe's time, or 0 without keyframes. */
  function TotalDuration(keyframes: seq<KeyframeRecord>): real {
    if keyframes != [] then keyframes[|keyframes| - 1].timestampSeconds else 0.0
  }

  /** What `generate_structured_json` builds from the decoded keyframes and
      the transcript segments. */
  function Summarize(videoName: string, directory: string, asrFile: string,
                     keyframes: seq<KeyframeRecord>, segs: seq<AsrSegment>): (d: StructuredData)
    ensures d.metadata.totalSlides == d.metadata.totalKeyframes == |d.slides| == |keyframes|
    ensures d.metadata.totalAsrSegments == |segs|
    ensures d.contentAnalysis.slidesWithText + d.contentAnalysis.slidesWithoutText == |keyframes|
    ensures d.contentAnalysis == Analysis(d.slides)
    ensures |d.timeline| == |d.slides|
  {
    var slides := Slides(keyframes, segs);
    var duration := TotalDuration(keyframes);
    StructuredData(
      Metadata(videoName, |slides|, |keyframes|, |segs|, duration, DurationText(duration), directory, asrFile),
      slides,
      Analysis(slides),
      Timeline(slides),
      KeyTopics(slides))
  }

  /** The content analysis of the slides: the slides with and without text
      add up to all slides, the total length is zero exactly when no slide
      has text, and the average times the slide count is the total. */
  function Analysis(slides: seq<Slide>): (a: ContentAnalysis)
    ensures a.slidesWithText + a.slidesWithoutText == |slides|
    ensures a.totalTextLength == 0 <==> a.slidesWithText == 0
    ensures slides != [] ==> a.averageTextPerSlide * |slides| as real == a.totalTextLength as real
    ensures slides == [] ==> a.averageTextPerSlide == 0.0
  {
    var total := TotalTextLength(slides);
    TextCountsAdd(slides);
    TextLengthZero(slides);
    AverageBack(total, |slides|);
    ContentAnalysis(total, if slides != [] then total as real / |slides| as real else 0.0,
                    SlidesWithText(slides), SlidesWithoutText(slides))
  }

  /** `generate_structured_json`: None exactly when decoding the keyframe
      names raises, that is when some `keyframe_*.jpg` name has a sort key
      `int` cannot read; otherwise the summary of the decoded keyframes. */
  function GenerateStructuredJson(videoName: string, directory: string, listing: seq<string>,
                                  asrFile: string, segs: seq<AsrSegment>): (r: Option<StructuredData>)
    ensures r.None? <==> exists n :: n in listing && IsKeyframeGlob(n) && SortKey(n).None?
    ensures r.Some? ==>
              && KeyframeInfo(directory, listing).Some?
              && r.value.metadata.videoName == videoName
              && r.value.slides == Slides(KeyframeInfo(directory, listing).value, segs)
  {
    KeyframeInfoFails(directory, listing);
    match KeyframeInfo(directory, listing)
    case Some(keyframes) => Some(Summarize(videoName, directory, asrFile, keyframes, segs))
    case None => None
  }

  /** The summary's counters agree with the slides: one slide per keyframe,
      slides with and without text add up to all slides, one timeline entry
      per slide with the `幻灯片 N` fallback, and the key topics are exactly
      the titles longer than five characters. */
  lemma SummaryFacts(videoName: string, directory: string, asrFile: string,
                     keyframes: seq<KeyframeRecord>, segs: seq<AsrSegment>)
    ensures var d := Summarize(videoName, directory, asrFile, keyframes, segs);
            && d.metadata.totalSlides == d.metadata.totalKeyframes == |keyframes|
            && d.contentAnalysis.slidesWithText + d.contentAnalysis.slidesWithoutText == d.metadata.totalSlides
            && |d.timeline| == |d.slides|
            && (forall i :: 0 <= i < |d.timeline| ==>
                  d.timeline[i].slideNumber == keyframes[i].frameNumber + 1
                  && (d.slides[i].title == "" ==>
                        d.timeline[i].title == "幻灯片 " + FormatInt(keyframes[i].frameNumber + 1, 0)))
            && (forall t :: t in d.keyTopics <==> |t| > 5 && exists i :: 0 <= i < |d.slides| && d.slides[i].title == t)
  {
    var d := Summarize(videoName, directory, asrFile, keyframes, segs);
    TextCountsAdd(d.slides);
  }
}
