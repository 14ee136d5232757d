/** mineru_keyframe_processor.py apart from the markdown parser: the keyframe
    file-name decoder, the classification of the files MinerU writes, and
    the text blocks and statistics drawn from its markdown. Walking the
    output directory, running MinerU and reading files are not modelled:
    their results are inputs. */
module Mineru {
  import opened Wrappers
  import opened Text
  import opened Timestamps
  import opened Sorting

  // ---------------------------------------------------------------------------
  // extract_timestamp_from_filename
  // ---------------------------------------------------------------------------

  /** `extract_timestamp_from_filename`: `HH:MM:SS.mmm` from a name matching
      `keyframe_(\d{2})-(\d{2})-(\d{2})-(\d{3})_\d+\.jpg` at its start. */
  function ExtractTimestampFromFilename(filename: string): (r: Option<string>)
    ensures r.Some? ==> |r.value| == 12 && r.value[2] == ':' && r.value[5] == ':' && r.value[8] == '.'
    ensures r.Some? <==> MatchKeyframeName(filename).Some?
  {
    match MatchKeyframeName(filename)
    case Some(f) => Some(f.hh + ":" + f.mm + ":" + f.ss + "." + f.mmm)
    case None => None
  }

  // ---------------------------------------------------------------------------
  // find_generated_files
  // ---------------------------------------------------------------------------

  /** One path found under the output directory. */
  datatype Entry = Entry(path: string, name: string, isFile: bool)

  datatype Category =
    | Markdown | ContentJson | MiddleJson | OtherJson | Image | LayoutPdf | SpansPdf | Unclassified

  /** The category of a file, by its lower-cased suffix and then by words in
      its lower-cased name, checked in the order the source checks them. */
  function CategoryOf(name: string): (r: Category)
    ensures var ext := Lower(Suffix(name));
            && (r == Markdown <==> ext == ".md")
            && (r in {ContentJson, MiddleJson, OtherJson} <==> ext == ".json")
            && (r == Image <==> ext in {".png", ".jpg", ".jpeg"})
            && (r in {LayoutPdf, SpansPdf} ==> ext == ".pdf")
    ensures r == ContentJson <==> Lower(Suffix(name)) == ".json" && Contains(Lower(name), "content")
    ensures r == MiddleJson ==> !Contains(Lower(name), "content") && Contains(Lower(name), "middle")
    ensures r == LayoutPdf <==> Lower(Suffix(name)) == ".pdf" && Contains(Lower(name), "layout")
    ensures r == SpansPdf ==> !Contains(Lower(name), "layout") && Contains(Lower(name), "span")
  {
    var ext := Lower(Suffix(name));
    var low := Lower(name);
    if ext == ".md" then Markdown
    else if ext == ".json" then
      if Contains(low, "content") then ContentJson
      else if Contains(low, "middle") then MiddleJson
      else OtherJson
    else if ext == ".png" || ext == ".jpg" || ext == ".jpeg" then Image
    else if ext == ".pdf" then
      if Contains(low, "layout") then LayoutPdf
      else if Contains(low, "span") then SpansPdf
      else Unclassified
    else Unclassified
  }

  /** The dictionary `find_generated_files` returns; an absent key is None. */
  datatype GeneratedFiles = GeneratedFiles(
    markdown: Option<string>, contentJson: Option<string>, middleJson: Option<string>,
    otherJson: Option<string>, images: Option<seq<string>>,
    layoutPdf: Option<string>, spansPdf: Option<string>)

  const NoFiles := GeneratedFiles(None, None, None, None, None, None, None)

  /** One file recorded: a later file of a single-valued category replaces
      the earlier one; images are collected. */
  function Record(files: GeneratedFiles, entry: Entry): GeneratedFiles
  {
    if !entry.isFile then files
    else
      match CategoryOf(entry.name)
      case Markdown => files.(markdown := Some(entry.path))
      case ContentJson => files.(contentJson := Some(entry.path))
      case MiddleJson => files.(middleJson := Some(entry.path))
      case OtherJson => files.(otherJson := Some(entry.path))
      case Image =>
        files.(images := Some((if files.images.Some? then files.images.value else []) + [entry.path]))
      case LayoutPdf => files.(layoutPdf := Some(entry.path))
      case SpansPdf => files.(spansPdf := Some(entry.path))
      case Unclassified => files
  }

  /** The dictionary after the entries, in the order the walk yields them. */
  function Classify(entries: seq<Entry>): GeneratedFiles
  {
    if entries == [] then NoFiles else Record(Classify(entries[..|entries| - 1]), entries[|entries| - 1])
  }

  /** `find_generated_files` over the entries of the walk. */
  method FindGeneratedFiles(entries: seq<Entry>) returns (files: GeneratedFiles)
    ensures files == Classify(entries)
  {
    files := NoFiles;
    for i := 0 to |entries|
      invariant files == Classify(entries[..i])
    {
      assert entries[..i + 1][..i] == entries[..i];
      var entry := entries[i];
      if entry.isFile {
        var ext := Lower(Suffix(entry.name));
        var low := Lower(entry.name);
        if ext == ".md" {
          files := files.(markdown := Some(entry.path));
        } else if ext == ".json" {
          if Contains(low, "content") {
            files := files.(contentJson := Some(entry.path));
          } else if Contains(low, "middle") {
            files := files.(middleJson := Some(entry.path));
          } else {
            files := files.(otherJson := Some(entry.path));
          }
        } else if ext == ".png" || ext == ".jpg" || ext == ".jpeg" {
          if files.images.None? {
            files := files.(images := Some([]));
          }
          files := files.(images := Some(files.images.value + [entry.path]));
        } else if ext == ".pdf" {
          if Contains(low, "layout") {
            files := files.(layoutPdf := Some(entry.path));
          } else if Contains(low, "span") {
            files := files.(spansPdf := Some(entry.path));
          }
        }
      }
    }
    assert entries[..|entries|] == entries;
  }

  /** The single-valued entry of a category. */
  function Slot(files: GeneratedFiles, c: Category): Option<string>
  {
    match c
    case Markdown => files.markdown
    case ContentJson => files.contentJson
    case MiddleJson => files.middleJson
    case OtherJson => files.otherJson
    case LayoutPdf => files.layoutPdf
    case SpansPdf => files.spansPdf
    case _ => None
  }

  predicate Single(c: Category) {
    !c.Image? && !c.Unclassified?
  }

  /** The entry is a file of category `c`. */
  predicate IsOf(entry: Entry, c: Category) {
    entry.isFile && CategoryOf(entry.name) == c
  }

  lemma RecordSlot(files: GeneratedFiles, entry: Entry, c: Category)
    requires Single(c)
    ensures Slot(Record(files, entry), c) == if IsOf(entry, c) then Some(entry.path) else Slot(files, c)
  {
  }

  /** The index of the last element of `s` that satisfies `p`, or -1. */
  function LastWhere<T>(s: seq<T>, p: T -> bool): (k: int)
    ensures -1 <= k < |s|
    ensures k >= 0 ==> p(s[k])
    ensures forall j :: k < j < |s| ==> !p(s[j])
  {
    if s == [] then -1
    else if p(s[|s| - 1]) then |s| - 1
    else LastWhere(s[..|s| - 1], p)
  }

  /** The index of the last file of category `c`, or -1. */
  function LastOf(entries: seq<Entry>, c: Category): int
  {
    LastWhere(entries, (e: Entry) => IsOf(e, c))
  }

  /** A single-valued key holds the path of the last file of its category,
      and is absent when there is none. */
  lemma {:induction false} ClassifySlot(entries: seq<Entry>, c: Category)
    requires Single(c)
    ensures Slot(Classify(entries), c) == if LastOf(entries, c) < 0 then None else Some(entries[LastOf(entries, c)].path)
  {
    if entries != [] {
      var init := entries[..|entries| - 1];
      ClassifySlot(init, c);
      RecordSlot(Classify(init), entries[|entries| - 1], c);
    }
  }

  function IsImageFile(entry: Entry): bool {
    IsOf(entry, Image)
  }

  function Paths(entries: seq<Entry>): (r: seq<string>)
    ensures |r| == |entries|
  {
    seq(|entries|, i requires 0 <= i < |entries| => entries[i].path)
  }

  /** The `images` key lists the paths of all image files in walk order, and
      is absent when there are none. */
  lemma {:induction false} ClassifyImages(entries: seq<Entry>)
    ensures var images := Filter(entries, IsImageFile);
            Classify(entries).images == if images == [] then None else Some(Paths(images))
  {
    if entries != [] {
      var init := entries[..|entries| - 1];
      var last := entries[|entries| - 1];
      ClassifyImages(init);
      assert entries == init + [last];
      FilterSnoc(init, last, IsImageFile);
      RecordImages(Classify(init), last);
      var before := Filter(init, IsImageFile);
      if IsImageFile(last) {
        assert Paths(before + [last]) == Paths(before) + [last.path];
        if before == [] {
          assert [] + [last.path] == [last.path];
        }
      } else {
        assert before + [] == before;
      }
    }
  }

  /** Recording an entry appends its path to the images exactly when it is
      an image file. */
  lemma RecordImages(files: GeneratedFiles, entry: Entry)
    ensures Record(files, entry).images
            == if IsImageFile(entry) then Some((if files.images.Some? then files.images.value else []) + [entry.path])
               else files.images
  {
  }

  // ---------------------------------------------------------------------------
  // extract_key_information
  // ---------------------------------------------------------------------------

  /** The runs of non-blank lines closed so far, and the open run. */
  datatype BlockState = BlockState(closed: seq<seq<string>>, current: seq<string>)

  /** The blank-line splitting of already stripped lines. */
  function BlockRun(lines: seq<string>): BlockState
  {
    if lines == [] then BlockState([], [])
    else
      var st := BlockRun(lines[..|lines| - 1]);
      var line := lines[|lines| - 1];
      if line != "" then st.(current := st.current + [line])
      else if st.current != [] then BlockState(st.closed + [st.current], [])
      else st
  }

  /** The maximal runs of non-blank lines. */
  function Runs(lines: seq<string>): seq<seq<string>>
  {
    var st := BlockRun(lines);
    st.closed + (if st.current != [] then [st.current] else [])
  }

  function JoinRuns(runs: seq<seq<string>>): (r: seq<string>)
    ensures |r| == |runs|
  {
    seq(|runs|, i requires 0 <= i < |runs| => Join(runs[i], "\n"))
  }

  function StrippedLines(md: string): (r: seq<string>)
    ensures |r| == |Split(md, '\n')|
  {
    var parts := Split(md, '\n');
    seq(|parts|, i requires 0 <= i < |parts| => Strip(parts[i]))
  }

  /** The text blocks of a markdown text: its maximal runs of non-blank
      stripped lines, each joined with newlines. */
  function TextBlocks(md: string): seq<string>
  {
    if md == "" then [] else JoinRuns(Runs(StrippedLines(md)))
  }

  predicate NonBlank(line: string) {
    line != ""
  }

  function Flatten(runs: seq<seq<string>>): seq<string>
  {
    if runs == [] then [] else Flatten(runs[..|runs| - 1]) + runs[|runs| - 1]
  }

  /** The number of lines that begin a run: non-blank, first or after a
      blank line. */
  function RunStarts(lines: seq<string>): nat
  {
    if lines == [] then 0
    else
      var n := |lines| - 1;
      RunStarts(lines[..n]) + (if lines[n] != "" && (n == 0 || lines[n - 1] == "") then 1 else 0)
  }

  lemma BlockRunInvariant(lines: seq<string>)
    ensures var st := BlockRun(lines);
            && Flatten(st.closed) + st.current == Filter(lines, NonBlank)
            && (forall k :: 0 <= k < |st.closed| ==> st.closed[k] != [])
            && (st.current != [] <==> lines != [] && lines[|lines| - 1] != "")
            && |st.closed| + (if st.current != [] then 1 else 0) == RunStarts(lines)
  {
    BlockRunLines(lines);
    BlockRunShape(lines);
  }

  /** The closed runs and the open one hold the non-blank lines in order. */
  lemma {:induction false} BlockRunLines(lines: seq<string>)
    ensures var st := BlockRun(lines);
            Flatten(st.closed) + st.current == Filter(lines, NonBlank)
  {
    if lines != [] {
      var init := lines[..|lines| - 1];
      var line := lines[|lines| - 1];
      BlockRunLines(init);
      var st0 := BlockRun(init);
      assert lines == init + [line];
      FilterSnoc(init, line, NonBlank);
      if line == "" && st0.current != [] {
        assert Flatten(st0.closed + [st0.current]) == Flatten(st0.closed) + st0.current by {
          assert (st0.closed + [st0.current])[..|st0.closed|] == st0.closed;
        }
      }
      if line != "" {
        assert Flatten(st0.closed) + (st0.current + [line]) == (Flatten(st0.closed) + st0.current) + [line];
      }
    }
  }

  /** No closed run is empty, a run is open exactly after a non-blank line,
      and there is one run per line that begins one. */
  lemma {:induction false} BlockRunShape(lines: seq<string>)
    ensures var st := BlockRun(lines);
            && (forall k :: 0 <= k < |st.closed| ==> st.closed[k] != [])
            && (st.current != [] <==> lines != [] && lines[|lines| - 1] != "")
            && |st.closed| + (if st.current != [] then 1 else 0) == RunStarts(lines)
  {
    if lines != [] {
      var init := lines[..|lines| - 1];
      BlockRunShape(init);
    }
  }

  /** The line positions `lo..hi` of one run. */
  datatype LineSpan = LineSpan(lo: nat, hi: nat)

  /** `lines[lo..hi]` is a maximal run of non-blank lines: it is not empty,
      every line in it is non-blank, and a blank line or the edge of the
      text lies on either side. */
  predicate MaximalRun(lines: seq<string>, sp: LineSpan) {
    && sp.lo < sp.hi <= |lines|
    && (forall k :: sp.lo <= k < sp.hi ==> lines[k] != "")
    && (sp.lo == 0 || lines[sp.lo - 1] == "")
    && (sp.hi == |lines| || lines[sp.hi] == "")
  }

  /** The positions of the closed runs of `BlockRun`, and where its open
      run began. */
  ghost function RunBounds(lines: seq<string>): (r: (seq<LineSpan>, nat))
  {
    if lines == [] then ([], 0)
    else
      var n := |lines| - 1;
      var st := BlockRun(lines[..n]);
      var b := RunBounds(lines[..n]);
      if lines[n] != "" then (b.0, if st.current == [] then n else b.1)
      else if st.current != [] then (b.0 + [LineSpan(b.1, n)], b.1)
      else b
  }

  /** The position spans of the runs, in order. */
  ghost function RunSpans(lines: seq<string>): seq<LineSpan>
  {
    var st := BlockRun(lines);
    var b := RunBounds(lines);
    b.0 + (if st.current != [] then [LineSpan(b.1, |lines|)] else [])
  }

  /** Where the runs `closed` and the open run `current` sit in `lines`:
      at the spans `spans` and from position `start` on. */
  predicate SpansAgree(lines: seq<string>, closed: seq<seq<string>>, current: seq<string>,
                       spans: seq<LineSpan>, start: nat)
  {
    && |spans| == |closed|
    && (forall k :: 0 <= k < |spans| ==>
          MaximalRun(lines, spans[k]) && spans[k].hi < |lines| && closed[k] == lines[spans[k].lo..spans[k].hi])
    && (forall k :: 0 <= k < |spans| - 1 ==> spans[k].hi < spans[k + 1].lo)
    && (current != [] ==>
          && start < |lines|
          && MaximalRun(lines, LineSpan(start, |lines|))
          && current == lines[start..]
          && (|spans| > 0 ==> spans[|spans| - 1].hi < start))
  }

  /** Where each run of `BlockRun` sits in the lines read so far. */
  ghost predicate BoundsAgree(lines: seq<string>) {
    SpansAgree(lines, BlockRun(lines).closed, BlockRun(lines).current, RunBounds(lines).0, RunBounds(lines).1)
  }

  lemma {:induction false} BlockRunBounds(lines: seq<string>)
    ensures BoundsAgree(lines)
  {
    if lines != [] {
      var n := |lines| - 1;
      BlockRunBounds(lines[..n]);
      assert lines == lines[..n] + [lines[n]];
      BoundsStep(lines[..n], lines[n]);
    }
  }

  lemma BoundsStep(init: seq<string>, line: string)
    requires BoundsAgree(init)
    ensures BoundsAgree(init + [line])
  {
    var st := BlockRun(init);
    var b := RunBounds(init);
    var st' := BlockRun(init + [line]);
    var b' := RunBounds(init + [line]);
    RunSnoc(init, line);
    if line != "" {
      BlockRunShape(init);
      AgreeNonBlank(init, line, st.closed, st.current, b.0, b.1);
      assert st' == st.(current := st.current + [line]);
      assert b' == (b.0, if st.current == [] then |init| else b.1);
    } else if st.current != [] {
      AgreeClose(init, line, st.closed, st.current, b.0, b.1);
      assert st' == BlockState(st.closed + [st.current], []);
      assert b' == (b.0 + [LineSpan(b.1, |init|)], b.1);
    } else {
      AgreeBlank(init, line, st.closed, b.0, b.1);
      assert st' == st && b' == b;
    }
  }

  /** One more line read: `BlockRun` and `RunBounds` take one step. */
  lemma RunSnoc(init: seq<string>, line: string)
    ensures var st := BlockRun(init);
            var b := RunBounds(init);
            && BlockRun(init + [line])
                 == (if line != "" then st.(current := st.current + [line])
                     else if st.current != [] then BlockState(st.closed + [st.current], [])
                     else st)
            && RunBounds(init + [line])
                 == (if line != "" then (b.0, if st.current == [] then |init| else b.1)
                     else if st.current != [] then (b.0 + [LineSpan(b.1, |init|)], b.1)
                     else b)
  {
    assert (init + [line])[..|init|] == init;
  }

  /** A span that ends before the last line read stays a maximal run, with
      the same lines, once one more line is read. */
  lemma MaximalRunGrow(init: seq<string>, line: string, sp: LineSpan)
    requires MaximalRun(init, sp) && sp.hi < |init|
    ensures MaximalRun(init + [line], sp) && (init + [line])[sp.lo..sp.hi] == init[sp.lo..sp.hi]
  {
  }

  /** The closed spans carry over unchanged when a line is read. */
  lemma ClosedSpansGrow(init: seq<string>, line: string, spans: seq<LineSpan>, closed: seq<seq<string>>)
    requires |spans| == |closed|
    requires forall k :: 0 <= k < |spans| ==>
               MaximalRun(init, spans[k]) && spans[k].hi < |init| && closed[k] == init[spans[k].lo..spans[k].hi]
    ensures forall k :: 0 <= k < |spans| ==>
              && MaximalRun(init + [line], spans[k]) && spans[k].hi < |init + [line]|
              && closed[k] == (init + [line])[spans[k].lo..spans[k].hi]
  {
    forall k | 0 <= k < |spans| {
      MaximalRunGrow(init, line, spans[k]);
    }
  }

  /** A non-blank line opens a run at its own position or extends the open one. */
  lemma AgreeNonBlank(init: seq<string>, line: string, closed: seq<seq<string>>, current: seq<string>,
                      spans: seq<LineSpan>, start: nat)
    requires SpansAgree(init, closed, current, spans, start) && line != ""
    requires current == [] ==> |init| == 0 || init[|init| - 1] == ""
    ensures var start' := if current == [] then |init| else start;
            SpansAgree(init + [line], closed, current + [line], spans, start')
  {
    var lines := init + [line];
    var n := |init|;
    ClosedSpansGrow(init, line, spans, closed);
    if current == [] {
      assert lines[n..] == [line];
      if |spans| > 0 {
        assert spans[|spans| - 1].hi < n;
      }
    } else {
      assert lines[start..] == init[start..] + [line];
    }
  }

  /** A blank line closes the open run at its own position. */
  lemma AgreeClose(init: seq<string>, line: string, closed: seq<seq<string>>, current: seq<string>,
                   spans: seq<LineSpan>, start: nat)
    requires SpansAgree(init, closed, current, spans, start) && line == "" && current != []
    ensures SpansAgree(init + [line], closed + [current], [], spans + [LineSpan(start, |init|)], start)
  {
    var lines := init + [line];
    var n := |init|;
    ClosedSpansGrow(init, line, spans, closed);
    assert init[start..] == lines[start..n];
  }

  /** A blank line with no open run changes nothing. */
  lemma AgreeBlank(init: seq<string>, line: string, closed: seq<seq<string>>, spans: seq<LineSpan>, start: nat)
    requires SpansAgree(init, closed, [], spans, start)
    ensures SpansAgree(init + [line], closed, [], spans, start)
  {
    ClosedSpansGrow(init, line, spans, closed);
  }

  /** The runs hold exactly the non-blank lines, in order; none is empty;
      and there is one run per line that begins one. */
  lemma RunsCover(lines: seq<string>)
    ensures Flatten(Runs(lines)) == Filter(lines, NonBlank)
    ensures forall k :: 0 <= k < |Runs(lines)| ==> Runs(lines)[k] != []
    ensures |Runs(lines)| == RunStarts(lines)
  {
    var st := BlockRun(lines);
    BlockRunInvariant(lines);
    if st.current != [] {
      assert (st.closed + [st.current])[..|st.closed|] == st.closed;
    } else {
      assert st.closed + [] == st.closed;
    }
  }

  /** The runs are where the lines break: each is the slice of the lines at
      its span, each span is a maximal run of non-blank lines (blank lines
      or the edges of the text on either side), and the spans come in
      increasing position with blank lines between them. */
  lemma RunsAreMaximal(lines: seq<string>)
    ensures var runs := Runs(lines);
            var sp := RunSpans(lines);
            && |sp| == |runs|
            && (forall k :: 0 <= k < |sp| ==> MaximalRun(lines, sp[k]) && runs[k] == lines[sp[k].lo..sp[k].hi])
            && (forall k :: 0 <= k < |sp| - 1 ==> sp[k].hi < sp[k + 1].lo)
  {
    BlockRunBounds(lines);
  }

  /** What MinerU's run reported; an absent key is None. */
  datatype MineruResult = MineruResult(status: Option<string>, error: Option<string>, videoName: Option<string>,
                                       markdown: Option<string>, imageCount: Option<int>,
                                       generatedFiles: Option<GeneratedFiles>)

  datatype KeyStatistics = KeyStatistics(totalTextBlocks: nat, markdownLength: nat, hasImages: bool,
                                         hasTables: bool, hasFormulas: bool, imageCount: int)

  datatype KeyInformation = KeyInformation(videoName: Option<string>, textBlocks: seq<string>,
                                           markdown: string, statistics: KeyStatistics,
                                           generatedFiles: GeneratedFiles)

  /** The error record: `处理失败` with the reported error as details. */
  datatype KeyFailure = KeyFailure(details: string)

  function GetOr<T>(o: Option<T>, default: T): T {
    if o.Some? then o.value else default
  }

  /** The statistics of a markdown text with its text blocks. */
  function StatisticsOf(md: string, blocks: seq<string>, imageCount: int): KeyStatistics
  {
    KeyStatistics(|blocks|, |md|,
                  Contains(Lower(md), "images") || imageCount > 0,
                  Contains(Lower(md), "table") || '|' in md,
                  '$' in md || Contains(Lower(md), "formula"),
                  imageCount)
  }

  /** What `extract_key_information` returns: the error record, with the
      reported error or `未知错误`, exactly when the status is not `success`;
      otherwise the markdown (empty when absent), its text blocks, the
      statistics counted from them, and the run's generated files passed
      through (the empty dictionary when absent). */
  function KeyInformationOf(result: MineruResult): (r: Result<KeyInformation, KeyFailure>)
    ensures r.Err? <==> result.status != Some("success")
    ensures r.Err? ==> r.error.details == if result.error.Some? then result.error.value else "未知错误"
    ensures r.Ok? ==>
              && r.value.videoName == result.videoName
              && r.value.markdown == (if result.markdown.Some? then result.markdown.value else "")
              && r.value.textBlocks == TextBlocks(r.value.markdown)
              && r.value.statistics.totalTextBlocks == |r.value.textBlocks|
              && r.value.statistics.markdownLength == |r.value.markdown|
              && (r.value.markdown == "" ==> r.value.textBlocks == [])
              && r.value.generatedFiles == (if result.generatedFiles.Some? then result.generatedFiles.value else NoFiles)
  {
    if result.status != Some("success") then Err(KeyFailure(GetOr(result.error, "未知错误")))
    else
      var md := GetOr(result.markdown, "");
      var blocks := TextBlocks(md);
      Ok(KeyInformation(result.videoName, blocks, md, StatisticsOf(md, blocks, GetOr(result.imageCount, 0)),
                        GetOr(result.generatedFiles, NoFiles)))
  }

  /** The loop of `extract_key_information` that gathers the text blocks. */
  method ExtractTextBlocks(md: string) returns (blocks: seq<string>)
    ensures blocks == TextBlocks(md)
  {
    blocks := [];
    if md != "" {
      var lines := Split(md, '\n');
      var current: seq<string>;
      ghost var closed: seq<seq<string>>;
      blocks, current, closed := ScanBlocks(md, lines);
      ghost var stripped := StrippedLines(md);
      if current != [] {
        blocks := blocks + [Join(current, "\n")];
        closed := closed + [current];
      }
      assert closed == Runs(stripped);
    }
  }

  /** The line loop itself: the blocks closed by blank lines, and the lines
      of the block still open at the end. */
  method ScanBlocks(ghost md: string, lines: seq<string>)
    returns (blocks: seq<string>, current: seq<string>, ghost closed: seq<seq<string>>)
    requires lines == Split(md, '\n')
    ensures BlockRun(StrippedLines(md)) == BlockState(closed, current)
    ensures blocks == JoinRuns(closed)
  {
    blocks := [];
    current := [];
    closed := [];
    ghost var stripped := StrippedLines(md);
    for i := 0 to |lines|
      invariant BlockRun(stripped[..i]) == BlockState(closed, current)
      invariant blocks == JoinRuns(closed)
    {
      assert stripped[..i + 1][..i] == stripped[..i];
      var line := Strip(lines[i]);
      if line != "" {
        current := current + [line];
      } else if current != [] {
        blocks := blocks + [Join(current, "\n")];
        closed := closed + [current];
        current := [];
      }
    }
    assert stripped[..|lines|] == stripped;
  }

  /** `extract_key_information`. */
  method ExtractKeyInformation(result: MineruResult) returns (r: Result<KeyInformation, KeyFailure>)
    ensures r == KeyInformationOf(result)
  {
    if result.status != Some("success") {
      return Err(KeyFailure(GetOr(result.error, "未知错误")));
    }
    var md := GetOr(result.markdown, "");
    var blocks := ExtractTextBlocks(md);
    var imageCount := GetOr(result.imageCount, 0);
    r := Ok(KeyInformation(result.videoName, blocks, md, StatisticsOf(md, blocks, imageCount),
                           GetOr(result.generatedFiles, NoFiles)));
  }

  /** The reported text blocks of a successful run are the maximal runs of
      non-blank stripped lines of its markdown, each joined with newlines:
      block `k` is the slice of the stripped lines at span `k`, bounded by
      blank lines or the edges of the text, the spans come in order, and
      together the blocks hold every non-blank line. */
  lemma KeyInformationBlocks(result: MineruResult)
    requires result.status == Some("success")
    ensures var md := GetOr(result.markdown, "");
            var lines := StrippedLines(md);
            var info := KeyInformationOf(result).value;
            var runs := Runs(lines);
            var sp := RunSpans(lines);
            && info.statistics.totalTextBlocks == |info.textBlocks| == RunStarts(lines) == |sp|
            && info.textBlocks == JoinRuns(runs)
            && (forall k :: 0 <= k < |sp| ==>
                  MaximalRun(lines, sp[k]) && info.textBlocks[k] == Join(lines[sp[k].lo..sp[k].hi], "\n"))
            && (forall k :: 0 <= k < |sp| - 1 ==> sp[k].hi < sp[k + 1].lo)
            && Flatten(runs) == Filter(lines, NonBlank)
  {
    var md := GetOr(result.markdown, "");
    RunsCover(StrippedLines(md));
    RunsAreMaximal(StrippedLines(md));
    if md == "" {
      assert Split(md, '\n') == [md] by {
        SplitNoSeparator(md, '\n');
      }
      assert StrippedLines(md) == [""];
      assert StrippedLines(md)[..0] == [];
    }
  }
}
