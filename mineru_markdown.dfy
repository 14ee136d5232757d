/** mineru_keyframe_processor.py, `parse_markdown_to_json`: the markdown that
    MinerU recognises from the slide PDF is read line by line into slides.
    A line `:HH:MM:SS.mmm` opens a slide; within a slide `# ` lines give the
    title, `![](images/NAME)` lines add an image, a line starting with `$$`
    opens a formula and a later line ending with `$$` closes it, and other
    lines are content. */
module MineruMarkdown {
  import opened Wrappers
  import opened Text

  // ---------------------------------------------------------------------------
  // Reading one line
  // ---------------------------------------------------------------------------

  /** The four digit groups of a `:HH:MM:SS.mmm` line. */
  datatype Stamp = Stamp(hh: string, mm: string, ss: string, mmm: string)

  predicate StampDigits(s: Stamp) {
    AllDigits(s.hh) && AllDigits(s.mm) && AllDigits(s.ss) && AllDigits(s.mmm)
  }

  /** `re.match(r':(\d{2}):(\d{2}):(\d{2})\.(\d{3})', line)`: the line starts
      with the stamp; whatever follows it is ignored. */
  function MatchStamp(line: string): (r: Option<Stamp>)
    ensures r.Some? ==> |r.value.hh| == 2 && |r.value.mm| == 2 && |r.value.ss| == 2 && |r.value.mmm| == 3
    ensures r.Some? ==> StampDigits(r.value)
  {
    if && |line| >= 13
       && line[0] == ':' && line[3] == ':' && line[6] == ':' && line[9] == '.'
       && AllDigits(line[1..3]) && AllDigits(line[4..6]) && AllDigits(line[7..9]) && AllDigits(line[10..13])
    then Some(Stamp(line[1..3], line[4..6], line[7..9], line[10..13]))
    else None
  }

  /** `re.match(r'!\[\]\(images/([^)]+)\)', line)`: the name runs from after
      `![](images/` up to the first `)`, which must exist, and is not empty. */
  function ImageName(line: string): (r: Option<string>)
    ensures r.Some? ==> r.value != [] && ')' !in r.value
    ensures r.Some? ==> StartsWith(line, "![](images/")
    ensures r.Some? ==> 11 + |r.value| < |line| && line[11..11 + |r.value|] == r.value && line[11 + |r.value|] == ')'
  {
    if StartsWith(line, "![](images/") then
      var rest := line[11..];
      var k := IndexOf(rest, ')');
      if 0 < k < |rest| then
        Some(rest[..k])
      else None
    else None
  }

  /** Conversely, every line that starts `![](images/`, then a non-empty
      name without `)`, then `)`, matches, whatever follows, and the name is
      the group. */
  lemma ImageNameComplete(x: string, rest: string)
    requires x != [] && ')' !in x
    ensures ImageName("![](images/" + x + ")" + rest) == Some(x)
  {
    var line := "![](images/" + x + ")" + rest;
    assert line[..11] == "![](images/";
    var r := line[11..];
    assert r[..|x|] == x;
    assert r[|x|] == ')';
  }

  /** What a stripped line is, by the first test it passes. Without an open
      slide every kind but a stamp is skipped. */
  datatype LineKind =
    | StampLine(stamp: Stamp)
    | TitleLine(title: string)
    | ImageLine(name: string)
    | FormulaOpen(first: string)
    | FormulaClose(last: string)
    | TextLine
    | Skipped

  function Kind(line: string): (r: LineKind)
    ensures r.StampLine? ==> StampDigits(r.stamp)
    ensures r.ImageLine? ==> r.name != [] && ')' !in r.name
    ensures r.TextLine? ==> line != [] && !StartsWith(line, ":")
  {
    if MatchStamp(line).Some? then StampLine(MatchStamp(line).value)
    else if StartsWith(line, "# ") then TitleLine(Strip(line[2..]))
    else if ImageName(line).Some? then ImageLine(ImageName(line).value)
    else if StartsWith(line, "$$") then FormulaOpen(line[2..])
    else if EndsWith(line, "$$") then FormulaClose(line[..|line| - 2])
    else if line != [] && !StartsWith(line, ":") then TextLine
    else Skipped
  }

  // ---------------------------------------------------------------------------
  // Slides and the line-by-line state
  // ---------------------------------------------------------------------------

  datatype ImageRef = ImageRef(filename: string, path: string, fullPath: string)

  datatype MdSlide = MdSlide(timestamp: string, timestampSeconds: real, title: string,
                             content: seq<string>, images: seq<ImageRef>, formulas: seq<string>)

  /** The slides closed so far, the open slide, and the formula lines; None
      for `formula_lines` stands for the variable not yet being bound. */
  datatype ParseState = ParseState(slides: seq<MdSlide>, current: Option<MdSlide>,
                                   formulaLines: Option<seq<string>>)

  function StampText(s: Stamp): string {
    s.hh + ":" + s.mm + ":" + s.ss + "." + s.mmm
  }

  function StampSeconds(s: Stamp): real
    requires StampDigits(s)
  {
    (DigitsValue(s.hh) * 3600 + DigitsValue(s.mm) * 60 + DigitsValue(s.ss)) as real + DigitsValue(s.mmm) as real / 1000.0
  }

  function NewSlide(s: Stamp): MdSlide
    requires StampDigits(s)
  {
    MdSlide(StampText(s), StampSeconds(s), "", [], [], [])
  }

  /** The image entry; `images_dir` is used when it is not empty. */
  function ImageRefOf(name: string, imagesDir: string): ImageRef {
    ImageRef(name, "images/" + name, if imagesDir != "" then imagesDir + "/" + name else "images/" + name)
  }

  function Pending(current: Option<MdSlide>): seq<MdSlide> {
    if current.Some? then [current.value] else []
  }

  /** The closed slides and the open one. */
  function AllSlides(st: ParseState): seq<MdSlide> {
    st.slides + Pending(st.current)
  }

  /** One stripped line; None where appending to the unbound `formula_lines`
      raises. */
  function Step(st: ParseState, line: string, imagesDir: string): Option<ParseState>
  {
    var kind := Kind(line);
    if kind.StampLine? then
      Some(ParseState(AllSlides(st), Some(NewSlide(kind.stamp)), st.formulaLines))
    else if st.current.None? then Some(st)
    else
      var s := st.current.value;
      match kind
      case TitleLine(title) => Some(st.(current := Some(s.(title := title))))
      case ImageLine(name) => Some(st.(current := Some(s.(images := s.images + [ImageRefOf(name, imagesDir)]))))
      case FormulaOpen(first) => Some(st.(formulaLines := Some([first])))
      case FormulaClose(last) =>
        if st.formulaLines.None? then None
        else
          var lines := st.formulaLines.value + [last];
          var formula := Strip(Join(lines, "\n"));
          Some(ParseState(st.slides, Some(s.(formulas := s.formulas + (if formula != "" then [formula] else []))),
                          Some(lines)))
      case TextLine => Some(st.(current := Some(s.(content := s.content + [line]))))
      case _ => Some(st)
  }

  /** The state after the lines of `lines`, each stripped first. */
  function ParseLines(lines: seq<string>, imagesDir: string): Option<ParseState>
  {
    if lines == [] then Some(ParseState([], None, None))
    else
      match ParseLines(lines[..|lines| - 1], imagesDir)
      case None => None
      case Some(st) => Step(st, Strip(lines[|lines| - 1]), imagesDir)
  }

  // ---------------------------------------------------------------------------
  // The document
  // ---------------------------------------------------------------------------

  datatype TimelineEntry = TimelineEntry(slideNumber: nat, timestamp: string, title: string,
                                         imageCount: nat, contentLength: nat)

  datatype MdMetadata = MdMetadata(sourceFile: string, imagesDirectory: string, totalSlides: nat,
                                   totalImages: nat, totalFormulas: nat, mainTopic: string,
                                   durationSeconds: real)

  datatype MdSummary = MdSummary(keyTopics: set<string>, imageDistribution: map<string, nat>,
                                 hasFormulas: bool, hasImages: bool, hasText: bool,
                                 timeline: seq<TimelineEntry>)

  datatype MarkdownDoc = MarkdownDoc(metadata: MdMetadata, slides: seq<MdSlide>, summary: MdSummary)

  /** The error record: only its source file is modelled. */
  datatype ParseFailure = ParseFailure(sourceFile: string)

  function TotalImages(slides: seq<MdSlide>): nat {
    if slides == [] then 0 else TotalImages(slides[..|slides| - 1]) + |slides[|slides| - 1].images|
  }

  function TotalFormulas(slides: seq<MdSlide>): nat {
    if slides == [] then 0 else TotalFormulas(slides[..|slides| - 1]) + |slides[|slides| - 1].formulas|
  }

  /** The non-empty titles, in slide order. */
  function Titles(slides: seq<MdSlide>): seq<string> {
    if slides == [] then []
    else Titles(slides[..|slides| - 1]) + (if slides[|slides| - 1].title != "" then [slides[|slides| - 1].title] else [])
  }

  /** The key `slide_N` of the N-th slide. */
  function SlideKey(n: nat): string {
    "slide_" + FormatInt(n, 0)
  }

  function ImageDistribution(slides: seq<MdSlide>): map<string, nat> {
    if slides == [] then map[]
    else ImageDistribution(slides[..|slides| - 1])[SlideKey(|slides|) := |slides[|slides| - 1].images|]
  }

  function Timeline(slides: seq<MdSlide>): (r: seq<TimelineEntry>)
    ensures |r| == |slides|
  {
    seq(|slides|, i requires 0 <= i < |slides| =>
      TimelineEntry(i + 1, slides[i].timestamp,
                    if slides[i].title != "" then slides[i].title else "幻灯片 " + FormatInt(i + 1, 0),
                    |slides[i].images|, |Join(slides[i].content, " ")|))
  }

  /** The document built from the final list of slides. */
  function BuildDoc(slides: seq<MdSlide>, sourceFile: string, imagesDir: string): MarkdownDoc
  {
    var titles := Titles(slides);
    var images := TotalImages(slides);
    var formulas := TotalFormulas(slides);
    MarkdownDoc(
      MdMetadata(sourceFile, imagesDir, |slides|, images, formulas,
                 if titles != [] then titles[0] else "未知主题",
                 if slides != [] then slides[|slides| - 1].timestampSeconds else 0.0),
      slides,
      MdSummary((set t | t in titles), ImageDistribution(slides), formulas > 0, images > 0,
                exists i :: 0 <= i < |slides| && slides[i].content != [],
                Timeline(slides)))
  }

  /** What `parse_markdown_to_json` returns. */
  function ParseMarkdown(content: string, sourceFile: string, imagesDir: string): Result<MarkdownDoc, ParseFailure>
  {
    match ParseLines(Split(content, '\n'), imagesDir)
    case None => Err(ParseFailure(sourceFile))
    case Some(st) => Ok(BuildDoc(AllSlides(st), sourceFile, imagesDir))
  }

  /** Once a line has raised, the whole parse has. */
  lemma {:induction false} ParseLinesFailed(lines: seq<string>, i: nat, imagesDir: string)
    requires i <= |lines| && ParseLines(lines[..i], imagesDir).None?
    ensures ParseLines(lines, imagesDir).None?
  {
    if i < |lines| {
      assert lines[..|lines| - 1][..i] == lines[..i];
      ParseLinesFailed(lines[..|lines| - 1], i, imagesDir);
    } else {
      assert lines[..i] == lines;
    }
  }

  /** The body of the loop of `parse_markdown_to_json` for one stripped
      line: None where it raises. */
  method ReadLine(st: ParseState, line: string, imagesDir: string) returns (next: Option<ParseState>)
    ensures next == Step(st, line, imagesDir)
  {
    var slides, current, formulaLines := st.slides, st.current, st.formulaLines;
    var kind := Kind(line);
    if kind.StampLine? {
      if current.Some? {
        slides := slides + [current.value];
      } else {
        assert slides + [] == slides;
      }
      current := Some(NewSlide(kind.stamp));
    } else if current.Some? {
      match kind
      case TitleLine(title) =>
        current := Some(current.value.(title := title));
      case ImageLine(name) =>
        current := Some(current.value.(images := current.value.images + [ImageRefOf(name, imagesDir)]));
      case FormulaOpen(first) =>
        formulaLines := Some([first]);
      case FormulaClose(last) =>
        if formulaLines.None? {
          return None;
        }
        formulaLines := Some(formulaLines.value + [last]);
        var formula := Strip(Join(formulaLines.value, "\n"));
        if formula != "" {
          current := Some(current.value.(formulas := current.value.formulas + [formula]));
        } else {
          assert current.value.formulas + [] == current.value.formulas;
        }
      case TextLine =>
        current := Some(current.value.(content := current.value.content + [line]));
      case _ =>
    }
    next := Some(ParseState(slides, current, formulaLines));
  }

  /** `parse_markdown_to_json`: the loop over the lines, then the last open
      slide, then the document. */
  method ParseMarkdownToJson(content: string, sourceFile: string, imagesDir: string)
    returns (r: Result<MarkdownDoc, ParseFailure>)
    ensures r == ParseMarkdown(content, sourceFile, imagesDir)
  {
    var lines := Split(content, '\n');
    var st := ParseState([], None, None);
    for i := 0 to |lines|
      invariant ParseLines(lines[..i], imagesDir) == Some(st)
    {
      assert lines[..i + 1][..i] == lines[..i];
      var next := ReadLine(st, Strip(lines[i]), imagesDir);
      if next.None? {
        ParseLinesFailed(lines, i + 1, imagesDir);
        return Err(ParseFailure(sourceFile));
      }
      st := next.value;
    }
    assert lines[..|lines|] == lines;
    var slides := st.slides;
    if st.current.Some? {
      slides := slides + [st.current.value];
    } else {
      assert slides + [] == slides;
    }
    assert slides == AllSlides(st);
    r := Ok(BuildDoc(slides, sourceFile, imagesDir));
  }

  // ---------------------------------------------------------------------------
  // Which lines open slides, and when the parse fails
  // ---------------------------------------------------------------------------

  function KindAt(lines: seq<string>, i: nat): LineKind
    requires i < |lines|
  {
    Kind(Strip(lines[i]))
  }

  /** Some line is a stamp: a slide is open after `lines`. */
  predicate HasSlide(lines: seq<string>) {
    exists i :: 0 <= i < |lines| && KindAt(lines, i).StampLine?
  }

  /** Some `$$` line came while a slide was open: `formula_lines` is bound. */
  predicate Opened(lines: seq<string>) {
    exists j :: 0 <= j < |lines| && KindAt(lines, j).FormulaOpen? && HasSlide(lines[..j])
  }

  /** Some closing `$$` line came while a slide was open but before any
      opening one. */
  predicate Orphan(lines: seq<string>) {
    exists i :: 0 <= i < |lines| && KindAt(lines, i).FormulaClose? && HasSlide(lines[..i]) && !Opened(lines[..i])
  }

  /** The stamps of the stamp lines, in order. */
  function Stamps(lines: seq<string>): (r: seq<Stamp>)
    ensures forall k :: 0 <= k < |r| ==> StampDigits(r[k])
  {
    if lines == [] then []
    else
      var kind := KindAt(lines, |lines| - 1);
      Stamps(lines[..|lines| - 1]) + (if kind.StampLine? then [kind.stamp] else [])
  }

  /** Extending the lines by one keeps the kinds of the earlier lines. */
  lemma KindsKept(lines: seq<string>, line: string)
    ensures forall i :: 0 <= i < |lines| ==> KindAt(lines + [line], i) == KindAt(lines, i)
    ensures forall i :: 0 <= i <= |lines| ==> (lines + [line])[..i] == lines[..i]
  {
  }

  lemma HasSlideSnoc(lines: seq<string>, line: string)
    ensures HasSlide(lines + [line]) <==> HasSlide(lines) || Kind(Strip(line)).StampLine?
  {
    KindsKept(lines, line);
    if Kind(Strip(line)).StampLine? {
      assert KindAt(lines + [line], |lines|).StampLine?;
    }
  }

  lemma OpenedSnoc(lines: seq<string>, line: string)
    ensures Opened(lines + [line]) <==> Opened(lines) || (Kind(Strip(line)).FormulaOpen? && HasSlide(lines))
  {
    var all := lines + [line];
    KindsKept(lines, line);
    assert all[..|lines|] == lines;
    if Opened(all) && !Opened(lines) {
      var j :| 0 <= j < |all| && KindAt(all, j).FormulaOpen? && HasSlide(all[..j]);
      assert j == |lines|;
    }
    if Opened(lines) {
      var j :| 0 <= j < |lines| && KindAt(lines, j).FormulaOpen? && HasSlide(lines[..j]);
      assert KindAt(all, j).FormulaOpen? && HasSlide(all[..j]);
    }
  }

  lemma OrphanSnoc(lines: seq<string>, line: string)
    ensures Orphan(lines + [line]) <==>
            Orphan(lines) || (Kind(Strip(line)).FormulaClose? && HasSlide(lines) && !Opened(lines))
  {
    var all := lines + [line];
    KindsKept(lines, line);
    assert all[..|lines|] == lines;
    if Orphan(all) && !Orphan(lines) {
      var i :| 0 <= i < |all| && KindAt(all, i).FormulaClose? && HasSlide(all[..i]) && !Opened(all[..i]);
      assert i == |lines|;
    }
    if Orphan(lines) {
      var i :| 0 <= i < |lines| && KindAt(lines, i).FormulaClose? && HasSlide(lines[..i]) && !Opened(lines[..i]);
      assert KindAt(all, i).FormulaClose? && HasSlide(all[..i]) && !Opened(all[..i]);
    }
  }

  /** What one line does to the open slide, to `formula_lines`, and whether
      it raises. */
  lemma StepOutcome(st: ParseState, line: string, imagesDir: string)
    ensures Step(st, line, imagesDir).None? <==>
            Kind(line).FormulaClose? && st.current.Some? && st.formulaLines.None?
    ensures Step(st, line, imagesDir).Some? ==>
              && (Step(st, line, imagesDir).value.current.Some? <==> st.current.Some? || Kind(line).StampLine?)
              && (Step(st, line, imagesDir).value.formulaLines.Some? <==>
                    st.formulaLines.Some? || (Kind(line).FormulaOpen? && st.current.Some?))
  {
  }

  /** Inside an open slide, a line that is not a stamp keeps the slide open
      and changes it field by field: a title line replaces the title (so the
      last one wins), an image line appends its image, a text line appends
      the line, a closing formula line may append a formula, and nothing
      else changes. */
  lemma StepCurrent(st: ParseState, line: string, imagesDir: string)
    requires st.current.Some? && !Kind(line).StampLine?
    requires Step(st, line, imagesDir).Some?
    ensures var s := st.current.value;
            var next := Step(st, line, imagesDir).value;
            var kind := Kind(line);
            && next.slides == st.slides && next.current.Some?
            && next.current.value.timestamp == s.timestamp
            && next.current.value.timestampSeconds == s.timestampSeconds
            && next.current.value.title == (if kind.TitleLine? then kind.title else s.title)
            && next.current.value.images
               == s.images + (if kind.ImageLine? then [ImageRefOf(kind.name, imagesDir)] else [])
            && next.current.value.content == s.content + (if kind.TextLine? then [line] else [])
            && (!kind.FormulaClose? ==> next.current.value.formulas == s.formulas)
  {
    var s := st.current.value;
    match Kind(line)
    case TitleLine(_) =>
    case ImageLine(_) =>
    case FormulaOpen(_) =>
      assert s.images + [] == s.images && s.content + [] == s.content;
    case FormulaClose(_) =>
      assert s.images + [] == s.images && s.content + [] == s.content;
    case TextLine =>
    case Skipped =>
      assert s.images + [] == s.images && s.content + [] == s.content;
  }

  /** A stamp line adds one slide; no line changes the stamps of the slides
      already there. */
  lemma StepSlides(st: ParseState, line: string, imagesDir: string)
    requires Step(st, line, imagesDir).Some?
    ensures var all := AllSlides(st);
            var next := AllSlides(Step(st, line, imagesDir).value);
            && |next| == |all| + (if Kind(line).StampLine? then 1 else 0)
            && (forall k :: 0 <= k < |all| ==>
                  next[k].timestamp == all[k].timestamp && next[k].timestampSeconds == all[k].timestampSeconds)
            && (Kind(line).StampLine? ==> next[|all|] == NewSlide(Kind(line).stamp))
  {
  }

  /** No line breaks the shape of a slide. */
  lemma StepShape(st: ParseState, line: string, imagesDir: string)
    requires Step(st, line, imagesDir).Some?
    requires forall s :: s in AllSlides(st) ==> SlideShape(s, imagesDir)
    ensures forall s :: s in AllSlides(Step(st, line, imagesDir).value) ==> SlideShape(s, imagesDir)
  {
    var kind := Kind(line);
    var next := Step(st, line, imagesDir).value;
    if !kind.StampLine? && st.current.Some? {
      var s := st.current.value;
      assert s in AllSlides(st);
      assert next.slides == st.slides;
      assert next.current.Some? && SlideShape(next.current.value, imagesDir) by {
        match kind
        case ImageLine(name) =>
          assert next.current.value.images == s.images + [ImageRefOf(name, imagesDir)];
        case TextLine =>
          assert next.current.value.content == s.content + [line];
        case FormulaClose(last) =>
          var lines := st.formulaLines.value + [last];
          var formula := Strip(Join(lines, "\n"));
          assert next.current.value.formulas == s.formulas + (if formula != "" then [formula] else []);
        case _ =>
      }
    }
  }

  /** The parse fails exactly when a closing `$$` line comes inside a slide
      before any opening `$$` line has come inside a slide; otherwise a slide
      is open exactly when some line was a stamp, and `formula_lines` is bound
      exactly when some opening line came inside a slide. */
  lemma {:induction false} ParseLinesState(lines: seq<string>, imagesDir: string)
    ensures ParseLines(lines, imagesDir).None? <==> Orphan(lines)
    ensures ParseLines(lines, imagesDir).Some? ==>
              && (ParseLines(lines, imagesDir).value.current.Some? <==> HasSlide(lines))
              && (ParseLines(lines, imagesDir).value.formulaLines.Some? <==> Opened(lines))
  {
    if lines != [] {
      var init := lines[..|lines| - 1];
      var line := lines[|lines| - 1];
      assert lines == init + [line];
      ParseLinesState(init, imagesDir);
      if ParseLines(init, imagesDir).Some? {
        StepOutcome(ParseLines(init, imagesDir).value, Strip(line), imagesDir);
      }
      HasSlideSnoc(init, line);
      OpenedSnoc(init, line);
      OrphanSnoc(init, line);
    }
  }

  /** The slides are those of the stamp lines, one each in order, carrying
      the stamp's text and its time in seconds. */
  lemma {:induction false} ParseLinesSlides(lines: seq<string>, imagesDir: string)
    requires ParseLines(lines, imagesDir).Some?
    ensures var st := ParseLines(lines, imagesDir).value;
            var all := AllSlides(st);
            var stamps := Stamps(lines);
            && |all| == |stamps|
            && forall k :: 0 <= k < |all| ==>
                 all[k].timestamp == StampText(stamps[k]) && all[k].timestampSeconds == StampSeconds(stamps[k])
  {
    if lines != [] {
      var init := lines[..|lines| - 1];
      ParseLinesSlides(init, imagesDir);
      StepSlides(ParseLines(init, imagesDir).value, Strip(lines[|lines| - 1]), imagesDir);
    }
  }

  /** What every slide holds: content lines are non-empty and do not start
      with `:`, formulas are non-empty, and images point into `images/`. */
  ghost predicate SlideShape(s: MdSlide, imagesDir: string) {
    && (forall c :: c in s.content ==> c != [] && !StartsWith(c, ":"))
    && (forall f :: f in s.formulas ==> f != [])
    && (forall im :: im in s.images ==> im.filename != [] && ')' !in im.filename && im == ImageRefOf(im.filename, imagesDir))
  }

  lemma {:induction false} ParseLinesShape(lines: seq<string>, imagesDir: string)
    requires ParseLines(lines, imagesDir).Some?
    ensures var st := ParseLines(lines, imagesDir).value;
            forall s :: s in AllSlides(st) ==> SlideShape(s, imagesDir)
  {
    if lines != [] {
      var init := lines[..|lines| - 1];
      ParseLinesShape(init, imagesDir);
      StepShape(ParseLines(init, imagesDir).value, Strip(lines[|lines| - 1]), imagesDir);
    }
  }

  // ---------------------------------------------------------------------------
  // The statistics
  // ---------------------------------------------------------------------------

  lemma SlideKeyDistinct(m: nat, n: nat)
    requires m != n
    ensures SlideKey(m) != SlideKey(n)
  {
    assert SlideKey(m)[6..] == ZeroPad(m, 0);
    assert SlideKey(n)[6..] == ZeroPad(n, 0);
  }

  /** `image_distribution` maps `slide_N` to the image count of the N-th
      slide, and has no other keys. */
  lemma ImageDistributionAt(slides: seq<MdSlide>)
    ensures forall k :: k in ImageDistribution(slides) <==> exists n :: 1 <= n <= |slides| && k == SlideKey(n)
    ensures forall n :: 1 <= n <= |slides| ==> ImageDistribution(slides)[SlideKey(n)] == |slides[n - 1].images|
  {
    ImageDistributionKeys(slides);
    ImageDistributionValues(slides);
  }

  /** Every key of `image_distribution` names a slide. */
  lemma {:induction false} ImageDistributionKeys(slides: seq<MdSlide>)
    ensures forall k :: k in ImageDistribution(slides) ==> exists n :: 1 <= n <= |slides| && k == SlideKey(n)
  {
    if slides != [] {
      var last := |slides|;
      var init := slides[..last - 1];
      var d := ImageDistribution(slides);
      var di := ImageDistribution(init);
      ImageDistributionKeys(init);
      assert d == di[SlideKey(last) := |slides[last - 1].images|];
      forall k | k in d
        ensures exists n :: 1 <= n <= last && k == SlideKey(n)
      {
        if k == SlideKey(last) {
          assert 1 <= last <= last && k == SlideKey(last);
        } else {
          assert k in di;
          var n :| 1 <= n <= |init| && k == SlideKey(n);
          assert 1 <= n <= last && k == SlideKey(n);
        }
      }
    }
  }

  /** Every slide has its key, mapped to its image count. */
  lemma {:induction false} ImageDistributionValues(slides: seq<MdSlide>)
    ensures forall n :: 1 <= n <= |slides| ==>
              SlideKey(n) in ImageDistribution(slides) && ImageDistribution(slides)[SlideKey(n)] == |slides[n - 1].images|
  {
    if slides != [] {
      var init := slides[..|slides| - 1];
      ImageDistributionValues(init);
      forall n | 1 <= n <= |slides|
        ensures SlideKey(n) in ImageDistribution(slides)
        ensures ImageDistribution(slides)[SlideKey(n)] == |slides[n - 1].images|
      {
        if n < |slides| {
          SlideKeyDistinct(n, |slides|);
          assert init[n - 1] == slides[n - 1];
        }
      }
    }
  }

  /** There are images exactly when some slide has one, and formulas exactly
      when some slide has one. */
  lemma {:induction false} TotalsPositive(slides: seq<MdSlide>)
    ensures TotalImages(slides) > 0 <==> exists i :: 0 <= i < |slides| && slides[i].images != []
    ensures TotalFormulas(slides) > 0 <==> exists i :: 0 <= i < |slides| && slides[i].formulas != []
  {
    if slides != [] {
      TotalsPositive(slides[..|slides| - 1]);
    }
  }

  /** The main topic is the title of the first slide that has one. */
  lemma {:induction false} TitlesFirst(slides: seq<MdSlide>, i: nat)
    requires i < |slides| && slides[i].title != ""
    requires forall j :: 0 <= j < i ==> slides[j].title == ""
    ensures Titles(slides) != [] && Titles(slides)[0] == slides[i].title
  {
    if i < |slides| - 1 {
      TitlesFirst(slides[..|slides| - 1], i);
    } else {
      TitlesNone(slides[..i]);
    }
  }

  /** Without any titled slide there are no titles: the topic is `未知主题`. */
  lemma {:induction false} TitlesNone(slides: seq<MdSlide>)
    requires forall j :: 0 <= j < |slides| ==> slides[j].title == ""
    ensures Titles(slides) == []
  {
    if slides != [] {
      TitlesNone(slides[..|slides| - 1]);
    }
  }

  /** The key topics are exactly the non-empty titles. */
  lemma {:induction false} TitlesAre(slides: seq<MdSlide>)
    ensures forall t :: t in Titles(slides) <==> t != "" && exists i :: 0 <= i < |slides| && slides[i].title == t
  {
    if slides != [] {
      var init := slides[..|slides| - 1];
      TitlesAre(init);
      forall t | t != "" && exists i :: 0 <= i < |slides| && slides[i].title == t
        ensures t in Titles(slides)
      {
        var i :| 0 <= i < |slides| && slides[i].title == t;
        if i < |init| {
          assert init[i].title == t;
        }
      }
    }
  }
}
