/** The keyframe extractor (extractor.py): an adaptive scene-change
    threshold estimated from a few sampled frames, and a forward scan at a
    fixed cadence that keeps a frame when it differs enough from the frame
    read just before it.

    The video decoder is an oracle (`Video`): whether it opens, the frame
    rate and frame count it reports, which positions can be read, and the
    normalised grey-level difference between the frames at two positions. */
module Extractor {
  import opened Wrappers
  import opened Text
  import opened Timestamps

  datatype Video = Video(
    isOpen: bool,              // cv2.VideoCapture(path).isOpened()
    fps: real,                 // CAP_PROP_FPS as reported; may be 0 or negative
    frameCount: int,           // int(CAP_PROP_FRAME_COUNT); may be 0 or negative
    readable: nat -> bool,     // seeking to a position and reading it succeeds
    diff: (nat, nat) -> real)  // calculate_frame_difference of the frames at two positions

  datatype VideoError = CannotOpen

  const DefaultThreshold: real := 0.1
  const MinThreshold: real := 0.05
  const MaxThreshold: real := 0.3
  const DefaultFps: real := 30.0
  const DefaultSampleCount: nat := 10

  /** One emitted keyframe record (the dict built in extract_keyframes).
      Its `path` and `timestamp_formatted` keys are determined by the output
      directory, the keyframe's number and its timestamp, so they are the
      member functions Path and TimestampFormatted of those. */
  datatype Keyframe = Keyframe(
    outputDir: string,
    number: nat,
    timestamp: real,
    frameNumber: nat,
    difference: real)
  {
    /** The `path` key: `<output_dir>/keyframe_<HH-MM-SS-mmm>_<number:04d>.jpg`. */
    function Path(): string {
      PathJoin(outputDir, KeyframeFilename(timestamp, number))
    }

    /** The `timestamp_formatted` key: `HH-MM-SS-mmm`. */
    function TimestampFormatted(): string {
      FormatTimestamp(timestamp)
    }

    /** KeyframeInfo.format_timestamp: `HH:MM:SS.mmm`. */
    function ClockLabel(): string {
      FormatSeconds(timestamp, ':', '.')
    }

    /** For a non-negative timestamp the label spells the clock fields of
        its whole milliseconds. */
    lemma ClockLabelIsClock()
      requires timestamp >= 0.0
      ensures ClockLabel() == ClockText(ToClock(Millis(timestamp)), ':', '.')
    {
      FormatSecondsIsClock(timestamp, ':', '.');
    }
  }

  /** `format_timestamp`: the `HH-MM-SS-mmm` part of a keyframe file name. */
  function FormatTimestamp(seconds: real): string {
    FormatSeconds(seconds, '-', '-')
  }

  /** The frame rate after the fallback for a non-positive reported rate. */
  function EffectiveFps(v: Video): (fps: real)
    ensures fps > 0.0
    ensures v.fps > 0.0 ==> fps == v.fps
  {
    if v.fps <= 0.0 then DefaultFps else v.fps
  }

  /** `get_video_duration`. */
  function VideoDuration(v: Video): (r: Result<real, VideoError>)
    ensures r.Err? <==> !v.isOpen
    ensures r.Ok? ==> r.value >= 0.0
    ensures r.Ok? && v.frameCount > 0 ==> r.value * EffectiveFps(v) == v.frameCount as real
    ensures r.Ok? && v.frameCount <= 0 ==> r.value == 0.0
  {
    if !v.isOpen then Err(CannotOpen)
    else
      var fps := EffectiveFps(v);
      Ok(if v.frameCount > 0 then v.frameCount as real / fps else 0.0)
  }

  /** `format_duration`'s two floored divmods split the whole seconds into
      hours, minutes below 60 and seconds below 60. */
  function DurationFields(seconds: real): (r: (int, nat, nat))
    ensures r.1 < 60 && r.2 < 60
    ensures r.0 * 3600 + r.1 * 60 + r.2 == seconds.Floor
  {
    var whole := seconds.Floor;
    (whole / 3600, whole % 3600 / 60, whole % 60)
  }

  /** `format_duration`: `HH:MM:SS` with the hours not capped. The text
      splits at its colons into three integers that `int` reads back as
      hours, minutes below 60 and seconds below 60 making up the whole
      seconds. */
  function FormatDuration(seconds: real): (r: string)
    ensures var parts := Split(r, ':');
            && |parts| == 3
            && ParseInt(parts[0]).Some? && ParseInt(parts[1]).Some? && ParseInt(parts[2]).Some?
            && 0 <= ParseInt(parts[1]).value < 60 && 0 <= ParseInt(parts[2]).value < 60
            && ParseInt(parts[0]).value * 3600 + ParseInt(parts[1]).value * 60 + ParseInt(parts[2]).value
                 == seconds.Floor
  {
    var f := DurationFields(seconds);
    DurationTextReads(f.0, f.1, f.2);
    FormatInt(f.0, 2) + ":" + FormatInt(f.1, 2) + ":" + FormatInt(f.2, 2)
  }

  /** Three `format(n, '02d')` fields joined by colons split and read back. */
  lemma DurationTextReads(a: int, b: int, c: int)
    ensures var parts := Split(FormatInt(a, 2) + ":" + FormatInt(b, 2) + ":" + FormatInt(c, 2), ':');
            && |parts| == 3
            && ParseInt(parts[0]) == Some(a) && ParseInt(parts[1]) == Some(b) && ParseInt(parts[2]) == Some(c)
  {
    var h, m, s := FormatInt(a, 2), FormatInt(b, 2), FormatInt(c, 2);
    FormatIntNoColon(a);
    FormatIntNoColon(b);
    FormatIntNoColon(c);
    assert h + ":" + m + ":" + s == h + [':'] + (m + [':'] + s);
    SplitAtSeparator(h, ':', m + [':'] + s);
    SplitAtSeparator(m, ':', s);
    SplitNoSeparator(s, ':');
    ParseFormatInt(a, 2);
    ParseFormatInt(b, 2);
    ParseFormatInt(c, 2);
  }

  lemma FormatIntNoColon(a: int)
    ensures ':' !in FormatInt(a, 2)
  {
    if a < 0 {
      DigitsExclude(ZeroPad(-a, 1), ':');
    } else {
      DigitsExclude(ZeroPad(a, 2), ':');
    }
  }

  // ---------------------------------------------------------------------------
  // Adaptive threshold
  // ---------------------------------------------------------------------------

  /** `max(0.05, min(x, 0.3))`. */
  function Clamp(x: real): (r: real)
    ensures MinThreshold <= r <= MaxThreshold
    ensures MinThreshold <= x <= MaxThreshold ==> r == x
    ensures x < MinThreshold ==> r == MinThreshold
    ensures x > MaxThreshold ==> r == MaxThreshold
  {
    if x < MinThreshold then MinThreshold else if x > MaxThreshold then MaxThreshold else x
  }

  /** `max(1, frame_count // (sample_count + 1))`. */
  function SampleInterval(frameCount: int, sampleCount: nat): (n: nat)
    ensures n >= 1
  {
    var q := frameCount / (sampleCount + 1);
    if q < 1 then 1 else q
  }

  /** The number of sample positions `0, interval, 2*interval, ...` read
      before the first read failure, out of `limit`. */
  function ReadRun(v: Video, interval: nat, limit: nat, i: nat): (k: nat)
    requires i <= limit
    ensures i <= k <= limit
    decreases limit - i
  {
    if i < limit && v.readable(Position(i, interval)) then ReadRun(v, interval, limit, i + 1) else i
  }

  /** Differences between consecutive sampled frames when `k` were read. */
  function SampleDifferences(v: Video, interval: nat, k: nat): (d: seq<real>)
    ensures |d| == if k == 0 then 0 else k - 1
  {
    seq(if k == 0 then 0 else k - 1, j requires 0 <= j => v.diff(Position(j, interval), Position(j + 1, interval)))
  }

  lemma SampleDifferencesStep(v: Video, interval: nat, k: nat)
    requires k >= 1
    ensures SampleDifferences(v, interval, k + 1)
            == SampleDifferences(v, interval, k) + [v.diff(Position(k - 1, interval), Position(k, interval))]
  {
  }

  /** The threshold `calculate_adaptive_threshold` returns for an opened
      video. `spread` stands for `mean + 0.5 * std` of the differences. */
  function AdaptiveThreshold(v: Video, sampleCount: nat, spread: seq<real> -> real): (t: real)
    ensures MinThreshold <= t <= MaxThreshold
  {
    if v.frameCount <= 1 then DefaultThreshold
    else
      var interval := SampleInterval(v.frameCount, sampleCount);
      var d := SampleDifferences(v, interval, ReadRun(v, interval, sampleCount + 1, 0));
      if |d| == 0 then DefaultThreshold else Clamp(spread(d))
  }

  /** The fail-soft default: 0.1 exactly when there is at most one frame or
      fewer than two sample positions could be read; otherwise the clamped
      spread of the differences. */
  lemma AdaptiveThresholdCases(v: Video, sampleCount: nat, spread: seq<real> -> real)
    ensures var interval := SampleInterval(v.frameCount, sampleCount);
            var run := ReadRun(v, interval, sampleCount + 1, 0);
            AdaptiveThreshold(v, sampleCount, spread)
              == if v.frameCount <= 1 || run <= 1 then DefaultThreshold
                 else Clamp(spread(SampleDifferences(v, interval, run)))
    ensures v.frameCount > 1 && (!v.readable(0) || sampleCount == 0) ==>
              AdaptiveThreshold(v, sampleCount, spread) == DefaultThreshold
  {
  }

  // ---------------------------------------------------------------------------
  // The scan
  // ---------------------------------------------------------------------------

  /** `int(capture_interval * fps)`, raised to at least 1. */
  function FrameInterval(captureInterval: real, fps: real): (n: nat)
    ensures n >= 1
    ensures Trunc(captureInterval * fps) >= 1 ==> n == Trunc(captureInterval * fps)
  {
    var k := Trunc(captureInterval * fps);
    if k < 1 then 1 else k
  }

  /** The number of sampled positions `0, interval, 2*interval, ...` the scan
      reads: it stops at the end of the stream or at the first failed read. */
  function ScanRun(v: Video, interval: nat, k: nat): (r: nat)
    requires interval >= 1
    ensures k <= r
    decreases if Position(k, interval) < v.frameCount then v.frameCount - Position(k, interval) else 0
  {
    if Position(k, interval) < v.frameCount && v.readable(Position(k, interval)) then
      assert Position(k + 1, interval) == Position(k, interval) + interval;
      ScanRun(v, interval, k + 1)
    else k
  }

  /** The `k`-th sampled frame position. */
  function Position(k: nat, interval: nat): nat
  {
    k * interval
  }

  lemma PositionNext(k: nat, interval: nat)
    ensures Position(k + 1, interval) == Position(k, interval) + interval
  {
  }

  /** `frame_position / fps`: the time of a frame position in seconds. */
  function TimeOf(v: Video, position: nat): (t: real)
    ensures t >= 0.0
  {
    position as real / EffectiveFps(v)
  }

  /** Whether the `k`-th sampled frame is kept: always the first one, after
      that only when it differs from the frame sampled just before it by more
      than the threshold. */
  predicate Emits(v: Video, threshold: real, interval: nat, k: nat) {
    k == 0 || v.diff(Position(k - 1, interval), Position(k, interval)) > threshold
  }

  /** The indices of the sampled frames kept among the first `k`. */
  function Kept(v: Video, threshold: real, interval: nat, k: nat): seq<nat>
  {
    if k == 0 then []
    else Kept(v, threshold, interval, k - 1) + if Emits(v, threshold, interval, k - 1) then [k - 1] else []
  }

  /** The record for the `k`-th sampled frame, saved as keyframe number `count`. */
  function KeyframeAt(v: Video, outputDir: string, interval: nat, k: nat, count: nat): Keyframe
  {
    var position := Position(k, interval);
    var t := TimeOf(v, position);
    Keyframe(outputDir, count, t, position,
             if k == 0 then 0.0 else v.diff(Position(k - 1, interval), position))
  }

  /** `make` applied to each kept index and its place in the list: the
      records of the kept frames, numbered from 0 in order. */
  function Numbered<T>(make: (nat, nat) -> T, kept: seq<nat>): (r: seq<T>)
    ensures |r| == |kept|
  {
    seq(|kept|, i requires 0 <= i < |kept| => make(kept[i], i))
  }

  /** The record builder of the scan. */
  function Recorder(v: Video, outputDir: string, interval: nat): (nat, nat) -> Keyframe
  {
    (k: nat, count: nat) => KeyframeAt(v, outputDir, interval, k, count)
  }

  /** The keyframes among the first `k` sampled frames, ignoring the cap. */
  function Candidates(v: Video, outputDir: string, threshold: real, interval: nat, k: nat): seq<Keyframe>
  {
    Numbered(Recorder(v, outputDir, interval), Kept(v, threshold, interval, k))
  }

  /** `s[:n]` for a cap that may be zero or negative. */
  function TakeUpTo<T>(s: seq<T>, n: int): (r: seq<T>)
    ensures |r| <= |s| && r == s[..|r|]
    ensures n <= 0 ==> r == []
    ensures n > 0 ==> |r| == if |s| <= n then |s| else n
  {
    if n <= 0 then [] else if |s| <= n then s else s[..n]
  }

  /** What extract_keyframes returns for an opened video: the first
      `maxScreenshots` keyframes among the frames the scan reads. */
  function Selected(v: Video, outputDir: string, threshold: real, interval: nat, maxScreenshots: int): seq<Keyframe>
    requires interval >= 1
  {
    TakeUpTo(Candidates(v, outputDir, threshold, interval, ScanRun(v, interval, 0)), maxScreenshots)
  }

  /** The scan never saves more than `maxScreenshots` keyframes, and none
      when the cap is zero or less. */
  lemma SelectedCapped(v: Video, outputDir: string, threshold: real, interval: nat, maxScreenshots: int)
    requires interval >= 1
    ensures maxScreenshots <= 0 ==> Selected(v, outputDir, threshold, interval, maxScreenshots) == []
    ensures maxScreenshots > 0 ==> |Selected(v, outputDir, threshold, interval, maxScreenshots)| <= maxScreenshots
  {
  }

  lemma {:induction false} ScanRunStable(v: Video, interval: nat, k: nat)
    requires interval >= 1
    requires Position(k, interval) < v.frameCount && v.readable(Position(k, interval))
    ensures ScanRun(v, interval, k + 1) == ScanRun(v, interval, k)
  {
  }

  lemma NumberedSnoc<T>(make: (nat, nat) -> T, kept: seq<nat>, k: nat)
    ensures Numbered(make, kept + [k]) == Numbered(make, kept) + [make(k, |kept|)]
  {
    assert (kept + [k])[..|kept|] == kept;
  }

  lemma NumberedPrefix<T>(make: (nat, nat) -> T, kept: seq<nat>, n: nat)
    requires n <= |kept|
    ensures Numbered(make, kept)[..n] == Numbered(make, kept[..n])
  {
  }

  lemma CandidatesStep(v: Video, outputDir: string, threshold: real, interval: nat, k: nat)
    ensures var c := Candidates(v, outputDir, threshold, interval, k);
            Candidates(v, outputDir, threshold, interval, k + 1)
              == if Emits(v, threshold, interval, k) then c + [KeyframeAt(v, outputDir, interval, k, |c|)] else c
  {
    var kept := Kept(v, threshold, interval, k);
    if Emits(v, threshold, interval, k) {
      NumberedSnoc(Recorder(v, outputDir, interval), kept, k);
    } else {
      assert Kept(v, threshold, interval, k + 1) == kept;
    }
  }

  lemma CandidatesSkip(v: Video, outputDir: string, threshold: real, interval: nat, k: nat)
    requires !Emits(v, threshold, interval, k)
    ensures Candidates(v, outputDir, threshold, interval, k + 1) == Candidates(v, outputDir, threshold, interval, k)
  {
    assert Kept(v, threshold, interval, k + 1) == Kept(v, threshold, interval, k);
  }

  lemma {:induction false} KeptPrefix(v: Video, threshold: real, interval: nat, k: nat, k': nat)
    requires k <= k'
    ensures var c := Kept(v, threshold, interval, k);
            var c' := Kept(v, threshold, interval, k');
            |c| <= |c'| && c'[..|c|] == c
    decreases k'
  {
    if k < k' {
      KeptPrefix(v, threshold, interval, k, k' - 1);
      var c := Kept(v, threshold, interval, k);
      var b := Kept(v, threshold, interval, k' - 1);
      var c' := Kept(v, threshold, interval, k');
      assert c'[..|b|] == b;
      assert c'[..|c|] == b[..|c|];
    }
  }

  lemma CandidatesPrefix(v: Video, outputDir: string, threshold: real, interval: nat, k: nat, k': nat)
    requires k <= k'
    ensures var c := Candidates(v, outputDir, threshold, interval, k);
            var c' := Candidates(v, outputDir, threshold, interval, k');
            |c| <= |c'| && c'[..|c|] == c
  {
    KeptPrefix(v, threshold, interval, k, k');
    var n := |Kept(v, threshold, interval, k)|;
    NumberedPrefix(Recorder(v, outputDir, interval), Kept(v, threshold, interval, k'), n);
  }

  /** Where the scan stops: at the end of what it can read, or once the
      cap is reached. Either way it has collected the selected keyframes. */
  lemma SelectedWhenStopped(v: Video, outputDir: string, threshold: real, interval: nat, maxScreenshots: int, k: nat)
    requires interval >= 1
    requires k <= ScanRun(v, interval, 0)
    requires var c := Candidates(v, outputDir, threshold, interval, k);
             && (k == ScanRun(v, interval, 0) || |c| >= maxScreenshots)
             && (k == 0 || |c| <= maxScreenshots)
    ensures Candidates(v, outputDir, threshold, interval, k) == Selected(v, outputDir, threshold, interval, maxScreenshots)
  {
    CandidatesPrefix(v, outputDir, threshold, interval, k, ScanRun(v, interval, 0));
  }

  // ---------------------------------------------------------------------------
  // What the scan promises
  // ---------------------------------------------------------------------------

  lemma {:induction false} PositionLess(a: nat, b: nat, interval: nat)
    requires a < b
    ensures Position(a, interval) + interval <= Position(b, interval)
  {
    PositionNext(b - 1, interval);
    if a < b - 1 {
      PositionLess(a, b - 1, interval);
    }
  }

  /** The scan reads every sampled position before the one where it stops,
      and stops at the end of the stream or at the first failed read. */
  lemma {:induction false} ScanRunReads(v: Video, interval: nat, k: nat)
    requires interval >= 1
    ensures forall j :: k <= j < ScanRun(v, interval, k) ==>
              Position(j, interval) < v.frameCount && v.readable(Position(j, interval))
    ensures var r := ScanRun(v, interval, k);
            Position(r, interval) >= v.frameCount || !v.readable(Position(r, interval))
    decreases if Position(k, interval) < v.frameCount then v.frameCount - Position(k, interval) else 0
  {
    if Position(k, interval) < v.frameCount && v.readable(Position(k, interval)) {
      PositionNext(k, interval);
      ScanRunReads(v, interval, k + 1);
    }
  }

  /** The kept indices are strictly increasing, below `k`, and are exactly
      the sampled frames among the first `k` that the emission rule keeps. */
  lemma {:induction false} KeptFacts(v: Video, threshold: real, interval: nat, k: nat)
    ensures var r := Kept(v, threshold, interval, k);
            && (forall i :: 0 <= i < |r| ==> r[i] < k)
            && (forall i, j :: 0 <= i < j < |r| ==> r[i] < r[j])
            && (forall j :: 0 <= j < k ==> (j in r <==> Emits(v, threshold, interval, j)))
  {
    if k > 0 {
      KeptFacts(v, threshold, interval, k - 1);
    }
  }

  /** Every kept sample passes the keep test. */
  lemma {:induction false} KeptEmits(v: Video, threshold: real, interval: nat, k: nat, j: nat)
    requires j < |Kept(v, threshold, interval, k)|
    ensures Emits(v, threshold, interval, Kept(v, threshold, interval, k)[j])
  {
    if j < |Kept(v, threshold, interval, k - 1)| {
      KeptEmits(v, threshold, interval, k - 1, j);
    }
  }

  /** The fields of one keyframe record. */
  lemma KeyframeAtFields(v: Video, outputDir: string, interval: nat, k: nat, count: nat)
    ensures var r := KeyframeAt(v, outputDir, interval, k, count);
            && r.frameNumber == Position(k, interval)
            && r.timestamp == TimeOf(v, r.frameNumber)
            && r.outputDir == outputDir && r.number == count
            && r.difference == if k == 0 then 0.0 else v.diff(Position(k - 1, interval), r.frameNumber)
  {
  }

  lemma TimeOfLess(v: Video, p: nat, q: nat)
    requires p < q
    ensures TimeOf(v, p) < TimeOf(v, q)
  {
    var fps := EffectiveFps(v);
    assert TimeOf(v, q) - TimeOf(v, p) == (q - p) as real / fps;
  }

  /** Record `i` of the selection is the record of the `i`-th kept frame. */
  lemma SelectedAt(v: Video, outputDir: string, threshold: real, interval: nat, maxScreenshots: int, i: nat)
    requires interval >= 1
    requires i < |Selected(v, outputDir, threshold, interval, maxScreenshots)|
    ensures var kept := Kept(v, threshold, interval, ScanRun(v, interval, 0));
            && i < |kept| && kept[i] < ScanRun(v, interval, 0)
            && Selected(v, outputDir, threshold, interval, maxScreenshots)[i] == KeyframeAt(v, outputDir, interval, kept[i], i)
  {
    var run := ScanRun(v, interval, 0);
    KeptFacts(v, threshold, interval, run);
  }

  /** One selected keyframe: a frame the scan read, on the sampling grid,
      named with its own sequence number; after the first frame it differs
      from the frame read `interval` positions before it by more than the
      threshold. */
  lemma SelectedRecord(v: Video, outputDir: string, threshold: real, interval: nat, maxScreenshots: int, i: nat)
    requires interval >= 1
    requires i < |Selected(v, outputDir, threshold, interval, maxScreenshots)|
    ensures var r := Selected(v, outputDir, threshold, interval, maxScreenshots)[i];
            && r.frameNumber < v.frameCount && v.readable(r.frameNumber)
            && (exists n: nat :: n < ScanRun(v, interval, 0) && r.frameNumber == Position(n, interval))
            && r.timestamp == TimeOf(v, r.frameNumber)
            && r.Path() == PathJoin(outputDir, KeyframeFilename(r.timestamp, i))
            && (r.frameNumber == 0 ==> r.difference == 0.0)
            && (r.frameNumber > 0 ==>
                  && r.frameNumber >= interval
                  && r.difference == v.diff(r.frameNumber - interval, r.frameNumber)
                  && r.difference > threshold)
  {
    SelectedPlacement(v, outputDir, threshold, interval, maxScreenshots, i);
    SelectedMotion(v, outputDir, threshold, interval, maxScreenshots, i);
  }

  lemma SelectedPlacement(v: Video, outputDir: string, threshold: real, interval: nat, maxScreenshots: int, i: nat)
    requires interval >= 1
    requires i < |Selected(v, outputDir, threshold, interval, maxScreenshots)|
    ensures var r := Selected(v, outputDir, threshold, interval, maxScreenshots)[i];
            && r.frameNumber < v.frameCount && v.readable(r.frameNumber)
            && (exists n: nat :: n < ScanRun(v, interval, 0) && r.frameNumber == Position(n, interval))
            && r.timestamp == TimeOf(v, r.frameNumber)
            && r.Path() == PathJoin(outputDir, KeyframeFilename(r.timestamp, i))
  {
    var run := ScanRun(v, interval, 0);
    var kept := Kept(v, threshold, interval, run);
    SelectedAt(v, outputDir, threshold, interval, maxScreenshots, i);
    KeyframeAtFields(v, outputDir, interval, kept[i], i);
    ScanRunReads(v, interval, 0);
  }

  lemma SelectedMotion(v: Video, outputDir: string, threshold: real, interval: nat, maxScreenshots: int, i: nat)
    requires interval >= 1
    requires i < |Selected(v, outputDir, threshold, interval, maxScreenshots)|
    ensures var r := Selected(v, outputDir, threshold, interval, maxScreenshots)[i];
            && (r.frameNumber == 0 ==> r.difference == 0.0)
            && (r.frameNumber > 0 ==>
                  && r.frameNumber >= interval
                  && r.difference == v.diff(r.frameNumber - interval, r.frameNumber)
                  && r.difference > threshold)
  {
    var run := ScanRun(v, interval, 0);
    var kept := Kept(v, threshold, interval, run);
    var r := Selected(v, outputDir, threshold, interval, maxScreenshots)[i];
    SelectedSample(v, outputDir, threshold, interval, maxScreenshots, i);
    KeptEmits(v, threshold, interval, run, i);
    RecordMotion(v, threshold, interval, kept[i], r.frameNumber, r.difference);
  }

  /** The frame number and the difference of a selected record, from the
      sample it was taken at. */
  lemma SelectedSample(v: Video, outputDir: string, threshold: real, interval: nat, maxScreenshots: int, i: nat)
    requires interval >= 1
    requires i < |Selected(v, outputDir, threshold, interval, maxScreenshots)|
    ensures var kept := Kept(v, threshold, interval, ScanRun(v, interval, 0));
            var r := Selected(v, outputDir, threshold, interval, maxScreenshots)[i];
            && i < |kept| && kept[i] < ScanRun(v, interval, 0)
            && r.frameNumber == Position(kept[i], interval)
            && r.difference == if kept[i] == 0 then 0.0 else v.diff(Position(kept[i] - 1, interval), r.frameNumber)
  {
    var kept := Kept(v, threshold, interval, ScanRun(v, interval, 0));
    SelectedAt(v, outputDir, threshold, interval, maxScreenshots, i);
    KeyframeAtFields(v, outputDir, interval, kept[i], i);
  }

  /** The frame number and difference recorded for a kept sample. */
  lemma RecordMotion(v: Video, threshold: real, interval: nat, k: nat, frameNumber: nat, difference: real)
    requires interval >= 1 && Emits(v, threshold, interval, k)
    requires frameNumber == Position(k, interval)
    requires difference == if k == 0 then 0.0 else v.diff(Position(k - 1, interval), frameNumber)
    ensures frameNumber == 0 ==> difference == 0.0
    ensures frameNumber > 0 ==>
              && frameNumber >= interval
              && difference == v.diff(frameNumber - interval, frameNumber)
              && difference > threshold
  {
    EmittedPosition(v, threshold, interval, k);
  }

  /** A kept sample after the first lies at least one interval into the
      video and differs from the sample before it by more than the threshold. */
  lemma EmittedPosition(v: Video, threshold: real, interval: nat, k: nat)
    requires interval >= 1 && Emits(v, threshold, interval, k)
    ensures Position(k, interval) == 0 <==> k == 0
    ensures k > 0 ==>
              && Position(k, interval) >= interval
              && Position(k - 1, interval) == Position(k, interval) - interval
              && v.diff(Position(k - 1, interval), Position(k, interval))
                 == v.diff(Position(k, interval) - interval, Position(k, interval))
              && v.diff(Position(k, interval) - interval, Position(k, interval)) > threshold
  {
    if k > 0 {
      PositionNext(k - 1, interval);
    }
  }

  /** Two selected keyframes in list order have increasing frame numbers and
      timestamps. */
  lemma SelectedOrdered(v: Video, outputDir: string, threshold: real, interval: nat, maxScreenshots: int, i: nat, j: nat)
    requires interval >= 1
    requires i < j < |Selected(v, outputDir, threshold, interval, maxScreenshots)|
    ensures var s := Selected(v, outputDir, threshold, interval, maxScreenshots);
            s[i].frameNumber < s[j].frameNumber && s[i].timestamp < s[j].timestamp
  {
    var kept := Kept(v, threshold, interval, ScanRun(v, interval, 0));
    SelectedAt(v, outputDir, threshold, interval, maxScreenshots, i);
    SelectedAt(v, outputDir, threshold, interval, maxScreenshots, j);
    KeptFacts(v, threshold, interval, ScanRun(v, interval, 0));
    KeyframeAtFields(v, outputDir, interval, kept[i], i);
    KeyframeAtFields(v, outputDir, interval, kept[j], j);
    PositionLess(kept[i], kept[j], interval);
    TimeOfLess(v, Position(kept[i], interval), Position(kept[j], interval));
  }

  lemma TimeOfZero(v: Video)
    ensures TimeOf(v, 0) == 0.0
  {
  }

  /** With the first position readable and room for one keyframe, keyframe
      #0 is frame 0, taken at time 0 with difference 0.0. */
  lemma FirstKeyframe(v: Video, outputDir: string, threshold: real, interval: nat, maxScreenshots: int)
    requires interval >= 1
    requires v.frameCount >= 1 && v.readable(0) && maxScreenshots >= 1
    ensures var s := Selected(v, outputDir, threshold, interval, maxScreenshots);
            && |s| >= 1
            && s[0].frameNumber == 0 && s[0].timestamp == 0.0 && s[0].difference == 0.0
            && s[0].Path() == PathJoin(outputDir, KeyframeFilename(0.0, 0))
  {
    var run := ScanRun(v, interval, 0);
    assert run >= 1 by {
      assert Position(0, interval) == 0;
    }
    assert Kept(v, threshold, interval, 1) == [0];
    KeptPrefix(v, threshold, interval, 1, run);
    assert Kept(v, threshold, interval, run)[0] == 0;
    TimeOfZero(v);
    SelectedAt(v, outputDir, threshold, interval, maxScreenshots, 0);
    var r := KeyframeAt(v, outputDir, interval, 0, 0);
    assert Selected(v, outputDir, threshold, interval, maxScreenshots)[0] == r;
    KeyframeAtFields(v, outputDir, interval, 0, 0);
    assert r.frameNumber == 0 && r.timestamp == 0.0 && r.difference == 0.0;
  }

  /** Different sampled indices are different frame positions. */
  lemma PositionInjective(a: nat, b: nat, interval: nat)
    requires interval >= 1 && Position(a, interval) == Position(b, interval)
    ensures a == b
  {
    if a < b {
      PositionLess(a, b, interval);
    } else if b < a {
      PositionLess(b, a, interval);
    }
  }

  /** Until the cap is reached, a sampled frame the scan read is a keyframe
      exactly when the emission rule keeps it: the first frame always, any
      later one when its difference from the frame read before it exceeds
      the threshold. The cap binds only after frame `j` when at most
      `maxScreenshots` of the first `j + 1` sampled frames are kept. */
  lemma EmittedIff(v: Video, outputDir: string, threshold: real, interval: nat, maxScreenshots: int, j: nat)
    requires interval >= 1
    requires j < ScanRun(v, interval, 0)
    requires |Kept(v, threshold, interval, j + 1)| <= maxScreenshots
    ensures var s := Selected(v, outputDir, threshold, interval, maxScreenshots);
            (exists i :: 0 <= i < |s| && s[i].frameNumber == Position(j, interval))
              <==> (j == 0 || v.diff(Position(j - 1, interval), Position(j, interval)) > threshold)
  {
    var run := ScanRun(v, interval, 0);
    var kept := Kept(v, threshold, interval, run);
    var s := Selected(v, outputDir, threshold, interval, maxScreenshots);
    KeptFacts(v, threshold, interval, run);
    if Emits(v, threshold, interval, j) {
      EmittedSelected(v, outputDir, threshold, interval, maxScreenshots, j);
    }
    if i :| 0 <= i < |s| && s[i].frameNumber == Position(j, interval) {
      SelectedAt(v, outputDir, threshold, interval, maxScreenshots, i);
      KeyframeAtFields(v, outputDir, interval, kept[i], i);
      PositionInjective(kept[i], j, interval);
      assert j in kept;
    }
  }

  /** A frame the rule keeps before the cap binds is among the selected
      keyframes, at its place among the kept frames. */
  lemma EmittedSelected(v: Video, outputDir: string, threshold: real, interval: nat, maxScreenshots: int, j: nat)
    requires interval >= 1
    requires j < ScanRun(v, interval, 0)
    requires |Kept(v, threshold, interval, j + 1)| <= maxScreenshots
    requires Emits(v, threshold, interval, j)
    ensures var s := Selected(v, outputDir, threshold, interval, maxScreenshots);
            exists i :: 0 <= i < |s| && s[i].frameNumber == Position(j, interval)
  {
    var run := ScanRun(v, interval, 0);
    var i := KeptIndex(v, threshold, interval, j, run);
    SelectedSize(v, outputDir, threshold, interval, maxScreenshots);
    SelectedAt(v, outputDir, threshold, interval, maxScreenshots, i);
    KeyframeAtFields(v, outputDir, interval, j, i);
  }

  /** A kept frame `j` before `k` has its place among the frames kept up to
      `k` below the number kept up to `j + 1`. */
  lemma KeptIndex(v: Video, threshold: real, interval: nat, j: nat, k: nat) returns (i: nat)
    requires j < k && Emits(v, threshold, interval, j)
    ensures i < |Kept(v, threshold, interval, j + 1)| <= |Kept(v, threshold, interval, k)|
    ensures Kept(v, threshold, interval, k)[i] == j
  {
    var prefix := Kept(v, threshold, interval, j + 1);
    KeptFacts(v, threshold, interval, j + 1);
    KeptPrefix(v, threshold, interval, j + 1, k);
    assert j in prefix;
    i :| 0 <= i < |prefix| && prefix[i] == j;
    assert Kept(v, threshold, interval, k)[..|prefix|][i] == prefix[i];
  }

  /** The number of selected keyframes: the kept frames, up to the cap. */
  lemma SelectedSize(v: Video, outputDir: string, threshold: real, interval: nat, maxScreenshots: int)
    requires interval >= 1
    ensures var n := |Kept(v, threshold, interval, ScanRun(v, interval, 0))|;
            |Selected(v, outputDir, threshold, interval, maxScreenshots)|
              == if maxScreenshots <= 0 then 0 else if n <= maxScreenshots then n else maxScreenshots
  {
  }

  lemma {:induction false} KeptStatic(v: Video, threshold: real, interval: nat, k: nat)
    requires threshold >= 0.0 && forall i, j :: v.diff(i, j) == 0.0
    requires k >= 1
    ensures Kept(v, threshold, interval, k) == [0]
  {
    if k > 1 {
      KeptStatic(v, threshold, interval, k - 1);
    }
  }

  /** A video whose frames never differ yields exactly one keyframe, since
      the adaptive threshold is at least 0.05. */
  lemma StaticVideoOneKeyframe(v: Video, outputDir: string, captureInterval: real, maxScreenshots: int,
                               spread: seq<real> -> real)
    requires forall i, j :: v.diff(i, j) == 0.0
    requires v.frameCount >= 1 && v.readable(0) && maxScreenshots >= 1
    ensures |Selected(v, outputDir, AdaptiveThreshold(v, DefaultSampleCount, spread),
                      FrameInterval(captureInterval, EffectiveFps(v)), maxScreenshots)| == 1
  {
    var interval := FrameInterval(captureInterval, EffectiveFps(v));
    var threshold := AdaptiveThreshold(v, DefaultSampleCount, spread);
    var run := ScanRun(v, interval, 0);
    assert run >= 1 by {
      assert Position(0, interval) == 0;
    }
    KeptStatic(v, threshold, interval, run);
  }

  class KeyframeExtractor {
    /** Duration of the last video scanned, in seconds (`self.video_duration`). */
    var videoDuration: real

    constructor ()
      ensures videoDuration == 0.0
    {
      videoDuration := 0.0;
    }

    /** `calculate_adaptive_threshold`: read `sampleCount + 1` frames spaced
        evenly over the video and stop at the first failed read. */
    method CalculateAdaptiveThreshold(v: Video, sampleCount: nat, spread: seq<real> -> real)
      returns (r: Result<real, VideoError>)
      ensures r.Err? <==> !v.isOpen
      ensures r.Ok? ==> MinThreshold <= r.value <= MaxThreshold
      ensures r.Ok? ==> r.value == AdaptiveThreshold(v, sampleCount, spread)
    {
      if !v.isOpen {
        return Err(CannotOpen);
      }
      if v.frameCount <= 1 {
        return Ok(DefaultThreshold);
      }
      var interval := SampleInterval(v.frameCount, sampleCount);
      var differences: seq<real> := [];
      var previous: Option<nat> := None;
      var i := 0;
      while i < sampleCount + 1
        invariant i <= sampleCount + 1
        invariant ReadRun(v, interval, sampleCount + 1, i) == ReadRun(v, interval, sampleCount + 1, 0)
        invariant previous == if i == 0 then None else Some(Position(i - 1, interval))
        invariant differences == SampleDifferences(v, interval, i)
      {
        var position := Position(i, interval);
        if !v.readable(position) {
          break;
        }
        if previous.Some? {
          SampleDifferencesStep(v, interval, i);
          differences := differences + [v.diff(previous.value, position)];
        }
        previous := Some(position);
        i := i + 1;
      }
      if |differences| == 0 {
        return Ok(DefaultThreshold);
      }
      return Ok(Clamp(spread(differences)));
    }

    /** `extract_keyframes`: fails when the video cannot be opened; otherwise
        records the video's duration and returns the selected keyframes.
        `spread` stands for the threshold statistic over sampled differences. */
    method ExtractKeyframes(v: Video, outputDir: string, captureInterval: real, maxScreenshots: int,
                            spread: seq<real> -> real)
      returns (r: Result<seq<Keyframe>, VideoError>)
      modifies this
      ensures !v.isOpen ==> r == Err(CannotOpen) && videoDuration == old(videoDuration)
      ensures v.isOpen ==> VideoDuration(v) == Ok(videoDuration)
      ensures v.isOpen ==>
        r == Ok(Selected(v, outputDir, AdaptiveThreshold(v, DefaultSampleCount, spread),
                         FrameInterval(captureInterval, EffectiveFps(v)), maxScreenshots))
    {
      if !v.isOpen {
        return Err(CannotOpen);
      }
      var fps := if v.fps <= 0.0 then DefaultFps else v.fps;
      var thresholdResult := CalculateAdaptiveThreshold(v, DefaultSampleCount, spread);
      var threshold := thresholdResult.value;
      var frameInterval := Trunc(captureInterval * fps);
      if frameInterval < 1 {
        frameInterval := 1;
      }
      videoDuration := VideoDuration(v).value;
      assert frameInterval == FrameInterval(captureInterval, EffectiveFps(v));
      var keyframes := ScanKeyframes(v, outputDir, threshold, frameInterval, maxScreenshots);
      return Ok(keyframes);
    }

    /** Saving the frame at `framePosition`: the keyframe list grows by the
        record of that frame, numbered by the keyframes saved so far. */
    method SaveKeyframe(v: Video, outputDir: string, threshold: real, interval: nat, ghost k: nat,
                        framePosition: nat, keyframes: seq<Keyframe>, difference: real)
      returns (extended: seq<Keyframe>)
      requires framePosition == Position(k, interval)
      requires keyframes == Candidates(v, outputDir, threshold, interval, k)
      requires Emits(v, threshold, interval, k)
      requires difference == if k == 0 then 0.0 else v.diff(Position(k - 1, interval), Position(k, interval))
      ensures extended == Candidates(v, outputDir, threshold, interval, k + 1)
    {
      var timestamp := framePosition as real / EffectiveFps(v);
      var keyframe := Keyframe(outputDir, |keyframes|, timestamp, framePosition, difference);
      CandidatesStep(v, outputDir, threshold, interval, k);
      extended := keyframes + [keyframe];
    }

    /** The scanning loop of `extract_keyframes`: read every `interval`-th
        frame until the end of the stream, a failed read or the cap, keeping
        the first frame and every frame that differs from the one before it
        by more than the threshold. */
    method ScanKeyframes(v: Video, outputDir: string, threshold: real, interval: nat, maxScreenshots: int)
      returns (keyframes: seq<Keyframe>)
      requires interval >= 1
      ensures keyframes == Selected(v, outputDir, threshold, interval, maxScreenshots)
    {
      ghost var run := ScanRun(v, interval, 0);
      keyframes := [];
      var previous: Option<nat> := None;
      var framePosition: nat := 0;
      var screenshotCount := 0;
      ghost var k: nat := 0;
      while framePosition < v.frameCount && screenshotCount < maxScreenshots
        invariant framePosition == Position(k, interval)
        invariant k <= run && ScanRun(v, interval, k) == run
        invariant previous.None? <==> k == 0
        invariant previous.Some? ==> previous.value == Position(k - 1, interval)
        invariant keyframes == Candidates(v, outputDir, threshold, interval, k)
        invariant screenshotCount == |keyframes|
        invariant k == 0 || screenshotCount <= maxScreenshots
        decreases v.frameCount - framePosition
      {
        if !v.readable(framePosition) {
          assert run == k;
          break;
        }
        ScanRunStable(v, interval, k);
        if previous.None? {
          keyframes := SaveKeyframe(v, outputDir, threshold, interval, k, framePosition, keyframes, 0.0);
          screenshotCount := screenshotCount + 1;
        } else {
          var difference := v.diff(previous.value, framePosition);
          if difference > threshold {
            keyframes := SaveKeyframe(v, outputDir, threshold, interval, k, framePosition, keyframes, difference);
            screenshotCount := screenshotCount + 1;
          } else {
            CandidatesSkip(v, outputDir, threshold, interval, k);
          }
        }
        previous := Some(framePosition);
        PositionNext(k, interval);
        framePosition := framePosition + interval;
        k := k + 1;
      }
      assert k == run || screenshotCount >= maxScreenshots;
      SelectedWhenStopped(v, outputDir, threshold, interval, maxScreenshots, k);
    }
  }
}
