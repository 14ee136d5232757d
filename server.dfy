/** server.py: the upload-extension check, the stored upload name, the
    keyframe entries `/extract` reports, and the listing `list_keyframes`
    builds from a directory of keyframe images. The web framework, file
    system and `secure_filename` are not modelled: the directory listing and
    the secured name are inputs, and the unique id is a parameter. */
module Server {
  import opened Wrappers
  import opened Text
  import opened Timestamps
  import opened Sorting
  import Extractor

  // ---------------------------------------------------------------------------
  // allowed_file
  // ---------------------------------------------------------------------------

  const AllowedExtensions: set<string> := {"mp4", "avi", "mov", "mkv", "wmv", "flv"}

  /** The text after the last `.`: `filename.rsplit('.', 1)[1]`. */
  function AfterLastDot(filename: string): string
  {
    filename[LastIndexOf(filename, '.') + 1..]
  }

  /** `allowed_file`: the name has a dot and the text after its last dot,
      lower-cased, is a video extension. */
  function AllowedFile(filename: string): (r: bool)
    ensures r <==> exists k :: 0 <= k < |filename| && filename[k] == '.' && '.' !in filename[k + 1..]
                               && Lower(filename[k + 1..]) in AllowedExtensions
  {
    LastDotIs(filename);
    '.' in filename && Lower(AfterLastDot(filename)) in AllowedExtensions
  }

  /** A dot with no dot after it is the last dot, and there is one exactly
      when the name holds a dot. */
  lemma LastDotIs(filename: string)
    ensures var dot := LastIndexOf(filename, '.');
            && ('.' in filename <==> dot >= 0)
            && (dot >= 0 ==> '.' !in filename[dot + 1..])
            && forall k :: 0 <= k < |filename| && filename[k] == '.' && '.' !in filename[k + 1..] ==> k == dot
  {
    var dot := LastIndexOf(filename, '.');
    if '.' in filename {
      var k :| 0 <= k < |filename| && filename[k] == '.';
    }
    if dot >= 0 {
      var tail := filename[dot + 1..];
      forall j | 0 <= j < |tail|
        ensures tail[j] != '.'
      {
        assert tail[j] == filename[dot + 1 + j];
      }
    }
  }

  /** A name is allowed exactly when it ends in a dot and an extension that
      lower-cases to a video extension. */
  lemma AllowedFileOf(base: string, ext: string)
    requires '.' !in ext
    ensures AllowedFile(base + "." + ext) <==> Lower(ext) in AllowedExtensions
  {
    var name := base + "." + ext;
    LastIndexOfIs(name, '.', |base|);
    assert name[|base|] == '.';
    assert name[|base| + 1..] == ext;
  }

  /** A name without a dot is never allowed. */
  lemma NoDotNotAllowed(filename: string)
    requires '.' !in filename
    ensures !AllowedFile(filename)
  {
  }

  // ---------------------------------------------------------------------------
  // The stored upload name
  // ---------------------------------------------------------------------------

  /** Some character of `p[lo..hi]` is not a dot. */
  predicate HasNonDot(p: string, lo: nat, hi: nat)
    requires lo <= hi <= |p|
  {
    exists k :: lo <= k < hi && p[k] != '.'
  }

  /** `os.path.splitext`: split before the last dot of the last path
      component, unless every character before that dot in the component is
      a dot. */
  function SplitExt(p: string): (r: (string, string))
    ensures r.0 + r.1 == p
    ensures r.1 == "" || (r.1[0] == '.' && '.' !in r.1[1..] && '/' !in r.1)
  {
    var sep := LastIndexOf(p, '/');
    var dot := LastIndexOf(p, '.');
    if dot > sep && HasNonDot(p, sep + 1, dot) then
      assert p[..dot] + p[dot..] == p;
      assert forall j :: 0 <= j < |p[dot..]| ==> p[dot..][j] == p[dot + j];
      (p[..dot], p[dot..])
    else (p, "")
  }

  /** The stored name `f"{base_name}_{unique_id}{extension}"`: `_` and the
      id inserted into the secured name just before its extension's dot, or
      at its end when it has no extension. */
  function UniqueName(filename: string, id: string): (r: string)
    ensures exists k :: 0 <= k <= |filename| && r == filename[..k] + "_" + id + filename[k..]
                        && (k == |filename| || (filename[k] == '.' && '.' !in filename[k + 1..]))
  {
    var (base, ext) := SplitExt(filename);
    var k := |base|;
    assert filename[..k] == base && filename[k..] == ext;
    assert ext != "" ==> filename[k + 1..] == ext[1..];
    base + "_" + id + ext
  }

  /** The stored name keeps the extension of the secured name: when that
      name has an extension, the stored name splits into the base with the
      id appended and the same extension, and is allowed exactly when the
      secured name is. The unique id holds neither dots nor slashes. */
  lemma UniqueNameKeepsExtension(filename: string, id: string)
    requires '.' !in id && '/' !in id
    requires SplitExt(filename).1 != ""
    ensures var (base, ext) := SplitExt(filename);
            && SplitExt(UniqueName(filename, id)) == (base + "_" + id, ext)
            && (AllowedFile(UniqueName(filename, id)) <==> AllowedFile(filename))
  {
    var (base, ext) := SplitExt(filename);
    UniqueNameSplit(filename, id);
    AfterExtensionDot(filename, base, ext);
    AfterExtensionDot(UniqueName(filename, id), base + "_" + id, ext);
  }

  lemma UniqueNameSplit(filename: string, id: string)
    requires '.' !in id && '/' !in id
    requires SplitExt(filename).1 != ""
    ensures var (base, ext) := SplitExt(filename);
            SplitExt(UniqueName(filename, id)) == (base + "_" + id, ext)
  {
    var (base, ext) := SplitExt(filename);
    var name := UniqueName(filename, id);
    var stem := base + "_" + id;
    var sep := LastIndexOf(filename, '/');
    assert name == stem + ext;
    assert LastIndexOf(filename, '.') == |base| && sep < |base|;
    UniqueNameDots(filename, id, base, ext, sep);
    assert name[|base|] == '_';
    assert HasNonDot(name, sep + 1, |stem|);
    SplitExtAt(name, sep, |stem|);
    assert name[..|stem|] == stem;
    assert name[|stem|..] == ext;
  }

  /** The new name's last dot is the extension's, its last slash the base's. */
  lemma UniqueNameDots(filename: string, id: string, base: string, ext: string, sep: int)
    requires '.' !in id && '/' !in id
    requires filename == base + ext && ext != "" && ext[0] == '.' && '.' !in ext[1..] && '/' !in ext
    requires sep == LastIndexOf(filename, '/') && sep < |base|
    ensures var name := base + "_" + id + ext;
            LastIndexOf(name, '.') == |base + "_" + id| && LastIndexOf(name, '/') == sep
  {
    var name := base + "_" + id + ext;
    var stem := base + "_" + id;
    assert forall j :: |stem| < j < |name| ==> name[j] == ext[1..][j - |stem| - 1];
    LastIndexOfIs(name, '.', |stem|);
    assert forall j :: sep < j < |base| ==> name[j] == filename[j];
    assert forall j :: |base| <= j < |stem| ==> name[j] != '/';
    assert forall j :: |stem| <= j < |name| ==> name[j] == ext[j - |stem|];
    LastIndexOfIs(name, '/', sep);
  }

  /** `splitext` of a name whose last dot follows its last slash and a
      character that is not a dot. */
  lemma SplitExtAt(p: string, sep: int, dot: int)
    requires sep == LastIndexOf(p, '/') && dot == LastIndexOf(p, '.') && sep < dot
    requires HasNonDot(p, sep + 1, dot)
    ensures SplitExt(p) == (p[..dot], p[dot..])
  {
  }

  /** A name that ends in a dot and a dot-free extension has that extension
      after its last dot. */
  lemma AfterExtensionDot(p: string, base: string, ext: string)
    requires p == base + ext && ext != "" && ext[0] == '.' && '.' !in ext[1..]
    ensures '.' in p && AfterLastDot(p) == ext[1..]
  {
    assert p[|base|] == '.';
    LastIndexOfIs(p, '.', |base|);
    assert p[|base| + 1..] == ext[1..];
  }

  // ---------------------------------------------------------------------------
  // /extract: the reported keyframes
  // ---------------------------------------------------------------------------

  /** `os.path.basename`: the text after the last `/`. */
  function Basename(p: string): string
  {
    p[LastIndexOf(p, '/') + 1..]
  }

  datatype ExtractedFrame = ExtractedFrame(url: string, timestamp: real, timestampFormatted: string,
                                           frameNumber: nat, difference: real)

  /** One reported keyframe: its URL under the output folder's name, and the
      formatted time with every `-` turned into `:`. */
  function ExtractedOf(outputDir: string, kf: Extractor.Keyframe): ExtractedFrame
  {
    ExtractedFrame("/keyframes/" + Basename(outputDir) + "/" + Basename(kf.Path()), kf.timestamp,
                   ReplaceChar(kf.TimestampFormatted(), '-', ':'), kf.frameNumber, kf.difference)
  }

  /** The reported keyframes, in order. */
  function Extracted(outputDir: string, keyframes: seq<Extractor.Keyframe>): (r: seq<ExtractedFrame>)
    ensures |r| == |keyframes|
  {
    if keyframes == [] then []
    else Extracted(outputDir, keyframes[..|keyframes| - 1]) + [ExtractedOf(outputDir, keyframes[|keyframes| - 1])]
  }

  lemma {:induction false} ExtractedAt(outputDir: string, keyframes: seq<Extractor.Keyframe>, i: nat)
    requires i < |keyframes|
    ensures Extracted(outputDir, keyframes)[i] == ExtractedOf(outputDir, keyframes[i])
  {
    if i < |keyframes| - 1 {
      ExtractedAt(outputDir, keyframes[..|keyframes| - 1], i);
    }
  }

  /** The loop of `/extract` that builds `keyframe_data`: one entry per
      keyframe, in order. */
  method ExtractResponse(outputDir: string, keyframes: seq<Extractor.Keyframe>) returns (data: seq<ExtractedFrame>)
    ensures |data| == |keyframes|
    ensures forall i :: 0 <= i < |keyframes| ==> data[i] == ExtractedOf(outputDir, keyframes[i])
  {
    data := [];
    for i := 0 to |keyframes|
      invariant data == Extracted(outputDir, keyframes[..i])
    {
      assert keyframes[..i + 1][..i] == keyframes[..i];
      data := data + [ExtractedOf(outputDir, keyframes[i])];
    }
    assert keyframes[..|keyframes|] == keyframes;
    forall i | 0 <= i < |keyframes|
      ensures data[i] == ExtractedOf(outputDir, keyframes[i])
    {
      ExtractedAt(outputDir, keyframes, i);
    }
  }

  lemma ReplaceCharAppend(a: string, b: string, x: char, y: char)
    ensures ReplaceChar(a + b, x, y) == ReplaceChar(a, x, y) + ReplaceChar(b, x, y)
  {
  }

  lemma ReplaceCharDigits(d: string, x: char, y: char)
    requires AllDigits(d) && !IsDigit(x)
    ensures ReplaceChar(d, x, y) == d
  {
  }

  /** Turning the dashes of the extractor's `HH-MM-SS-mmm` into colons gives
      `HH:MM:SS:mmm`: the same clock with colons as every separator. */
  lemma DashesToColons(c: Clock)
    ensures ReplaceChar(ClockText(c, '-', '-'), '-', ':') == ClockText(c, ':', ':')
  {
    var h, m, s, ms := ZeroPad(c.hours, 2), ZeroPad(c.minutes, 2), ZeroPad(c.seconds, 2), ZeroPad(c.millis, 3);
    ReplaceCharDigits(h, '-', ':');
    ReplaceCharDigits(m, '-', ':');
    ReplaceCharDigits(s, '-', ':');
    ReplaceCharDigits(ms, '-', ':');
    ReplaceAround(h + "-" + m + "-" + s, ms, '-', ':');
    ReplaceAround(h + "-" + m, s, '-', ':');
    ReplaceAround(h, m, '-', ':');
  }

  lemma ReplaceAround(a: string, b: string, x: char, y: char)
    ensures ReplaceChar(a + [x] + b, x, y) == ReplaceChar(a, x, y) + [y] + ReplaceChar(b, x, y)
  {
    ReplaceCharAppend(a + [x], b, x, y);
    ReplaceCharAppend(a, [x], x, y);
  }

  /** For a keyframe the extractor recorded at a non-negative time, the
      reported formatted time is `HH:MM:SS:mmm` of its whole milliseconds. */
  lemma ExtractedTimestamp(outputDir: string, kf: Extractor.Keyframe)
    requires kf.timestamp >= 0.0
    ensures ExtractedOf(outputDir, kf).timestampFormatted == ClockText(ToClock(Millis(kf.timestamp)), ':', ':')
  {
    FormatSecondsIsClock(kf.timestamp, '-', '-');
    DashesToColons(ToClock(Millis(kf.timestamp)));
  }

  // ---------------------------------------------------------------------------
  // list_keyframes
  // ---------------------------------------------------------------------------

  datatype ListedFrame = ListedFrame(url: string, filename: string, timestamp: real, timestampFormatted: string)

  /** The names `list_keyframes` keeps: ending, case-insensitively, in
      `.jpg`, `.jpeg` or `.png`. */
  predicate IsImageName(name: string) {
    EndsWith(Lower(name), ".jpg") || EndsWith(Lower(name), ".jpeg") || EndsWith(Lower(name), ".png")
  }

  /** The time and its text decoded from a name: the second `_` field split
      at `-` into hours, minutes, seconds and optional milliseconds, each
      read by `int`; 0 and the empty text whenever a test fails or `int`
      raises. */
  function ParseFrameName(img: string): (r: (real, string))
    ensures r.1 != "" <==> FrameNameDecodes(img)
    ensures r.1 == "" ==> r.0 == 0.0
    ensures r.0 >= 0.0
  {
    if FrameNameDecodes(img) then
      var fields := Split(Split(img, '_')[1], '-');
      ParseIntUnsigned(fields[0]);
      ParseIntUnsigned(fields[1]);
      ParseIntUnsigned(fields[2]);
      var h, m, s := ParseInt(fields[0]).value, ParseInt(fields[1]).value, ParseInt(fields[2]).value;
      var ms := if |fields| > 3 then ParseIntUnsigned(fields[3]); ParseInt(fields[3]).value else 0;
      TimeNonNegative(h, m, s, ms);
      ((h * 3600 + m * 60 + s) as real + ms as real / 1000.0,
       FormatInt(h, 2) + ":" + FormatInt(m, 2) + ":" + FormatInt(s, 2) + "." + FormatInt(ms, 3))
    else (0.0, "")
  }

  lemma TimeNonNegative(h: nat, m: nat, s: nat, ms: nat)
    ensures (h * 3600 + m * 60 + s) as real + ms as real / 1000.0 >= 0.0
  {
  }

  /** The tests `list_keyframes` applies to a name all pass and `int`
      reads every time field. */
  predicate FrameNameDecodes(img: string) {
    var parts := Split(img, '_');
    && |parts| >= 3 && '-' in parts[1]
    && var fields := Split(parts[1], '-');
       && |fields| >= 3
       && ParseInt(fields[0]).Some? && ParseInt(fields[1]).Some? && ParseInt(fields[2]).Some?
       && (|fields| > 3 ==> ParseInt(fields[3]).Some?)
  }

  function FrameOf(base: string, img: string): ListedFrame
  {
    var (t, text) := ParseFrameName(img);
    ListedFrame("/keyframes/" + base + "/" + img, img, t, text)
  }

  function Frames(base: string, names: seq<string>): (r: seq<ListedFrame>)
    ensures |r| == |names|
  {
    seq(|names|, i requires 0 <= i < |names| => FrameOf(base, names[i]))
  }

  /** Python's order on strings. */
  function ByName(): (string, string) -> bool {
    (a: string, b: string) => LexLe(a, b)
  }

  /** The order of `keyframe_data.sort(key=lambda x: x['timestamp'])`. */
  function ByTimestamp(): (ListedFrame, ListedFrame) -> bool {
    (a: ListedFrame, b: ListedFrame) => a.timestamp <= b.timestamp
  }

  /** The image names in the order `sorted(os.listdir(...))` gives. */
  function ImageNames(listing: seq<string>): seq<string>
  {
    Filter(SortBy(listing, ByName()), IsImageName)
  }

  /** What `list_keyframes` returns for a listing of the folder `base`. */
  function Listed(base: string, listing: seq<string>): seq<ListedFrame>
  {
    SortBy(Frames(base, ImageNames(listing)), ByTimestamp())
  }

  /** `list_keyframes` for the keyframe folder `base` (the video's name
      without its extension, `SplitExt(filename).0`) holding the names of
      `listing`: the loop over the sorted names, then the sort by timestamp. */
  method ListKeyframes(base: string, listing: seq<string>) returns (frames: seq<ListedFrame>)
    ensures frames == Listed(base, listing)
  {
    var names := SortBy(listing, ByName());
    var data: seq<ListedFrame> := [];
    for i := 0 to |names|
      invariant data == Frames(base, Filter(names[..i], IsImageName))
    {
      var img := names[i];
      FramesSnoc(base, names[..i], img);
      assert names[..i + 1] == names[..i] + [img];
      if EndsWith(Lower(img), ".jpg") || EndsWith(Lower(img), ".jpeg") || EndsWith(Lower(img), ".png") {
        var (timestamp, timestampText) := ParseFrameName(img);
        data := data + [ListedFrame("/keyframes/" + base + "/" + img, img, timestamp, timestampText)];
      }
    }
    assert names[..|names|] == names;
    frames := SortBy(data, ByTimestamp());
  }

  lemma FramesSnoc(base: string, s: seq<string>, img: string)
    ensures Frames(base, Filter(s + [img], IsImageName))
            == Frames(base, Filter(s, IsImageName)) + (if IsImageName(img) then [FrameOf(base, img)] else [])
  {
    FilterSnoc(s, img, IsImageName);
    var f := Filter(s, IsImageName);
    if IsImageName(img) {
      assert Frames(base, f + [img]) == Frames(base, f) + [FrameOf(base, img)];
    } else {
      assert f + [] == f;
    }
  }

  lemma ByNamePreorder()
    ensures TotalPreorder(ByName())
  {
    forall a: string, b: string
      ensures ByName()(a, b) || ByName()(b, a)
    {
      LexLeTotal(a, b);
    }
    forall a: string, b: string, c: string | ByName()(a, b) && ByName()(b, c)
      ensures ByName()(a, c)
    {
      LexLeTransitive(a, b, c);
    }
  }

  /** How often each value occurs in a filtered list. */
  lemma {:induction false} FilterCount<T>(s: seq<T>, p: T -> bool, x: T)
    ensures multiset(Filter(s, p))[x] == if p(x) then multiset(s)[x] else 0
  {
    if s != [] {
      assert s == [s[0]] + s[1..];
      var rest := Filter(s[1..], p);
      FilterCount(s[1..], p, x);
      assert multiset(Filter(s, p)) == multiset(if p(s[0]) then [s[0]] else []) + multiset(rest);
    }
  }

  /** Filtering two permutations of each other gives permutations of each
      other. */
  lemma FilterPermutation(s: seq<string>, t: seq<string>, p: string -> bool)
    requires multiset(s) == multiset(t)
    ensures multiset(Filter(s, p)) == multiset(Filter(t, p))
  {
    forall x: string
      ensures multiset(Filter(s, p))[x] == multiset(Filter(t, p))[x]
    {
      FilterCount(s, p, x);
      FilterCount(t, p, x);
    }
  }

  /** How often each frame occurs among the frames of some names. */
  lemma {:induction false} FramesCount(base: string, names: seq<string>, f: ListedFrame)
    ensures multiset(Frames(base, names))[f] == if f == FrameOf(base, f.filename) then multiset(names)[f.filename] else 0
  {
    if names != [] {
      var init := names[..|names| - 1];
      var last := names[|names| - 1];
      FramesCount(base, init, f);
      assert names == init + [last];
      assert Frames(base, names) == Frames(base, init) + [FrameOf(base, last)];
      FrameOfIs(base, last, f);
    }
  }

  /** A name's frame is `f` exactly when the name is `f`'s file name and `f`
      is that name's frame. */
  lemma FrameOfIs(base: string, img: string, f: ListedFrame)
    ensures FrameOf(base, img) == f <==> f.filename == img && f == FrameOf(base, f.filename)
  {
  }

  /** The listing holds one frame per listed image name, each decoded from
      its name: a permutation of the frames of the image names as listed. */
  lemma ListedPermutation(base: string, listing: seq<string>)
    ensures multiset(Listed(base, listing)) == multiset(Frames(base, Filter(listing, IsImageName)))
  {
    var names := ImageNames(listing);
    var direct := Filter(listing, IsImageName);
    FilterPermutation(SortBy(listing, ByName()), listing, IsImageName);
    forall f
      ensures multiset(Frames(base, names))[f] == multiset(Frames(base, direct))[f]
    {
      FramesCount(base, names, f);
      FramesCount(base, direct, f);
    }
  }

  /** The listing is ordered by timestamp. */
  lemma ListedOrdered(base: string, listing: seq<string>)
    ensures var r := Listed(base, listing);
            forall i, j :: 0 <= i < j < |r| ==> r[i].timestamp <= r[j].timestamp
  {
    SortBySorted(Frames(base, ImageNames(listing)), ByTimestamp());
  }

  /** Frames with the same timestamp keep the order of their names. */
  lemma ListedStable(base: string, listing: seq<string>, i: nat, j: nat)
    requires i < j < |Listed(base, listing)|
    requires Listed(base, listing)[i].timestamp == Listed(base, listing)[j].timestamp
    ensures LexLe(Listed(base, listing)[i].filename, Listed(base, listing)[j].filename)
  {
    var names := ImageNames(listing);
    var frames := Frames(base, names);
    ByNamePreorder();
    SortBySorted(listing, ByName());
    FilterSorted(SortBy(listing, ByName()), IsImageName, ByName());
    var byName := (a: ListedFrame, b: ListedFrame) => LexLe(a.filename, b.filename);
    assert Sorted(frames, byName) by {
      forall k, l | 0 <= k < l < |frames|
        ensures byName(frames[k], frames[l])
      {
        assert ByName()(names[k], names[l]);
      }
    }
    StableOrder(frames, ByTimestamp(), byName, i, j);
  }
}
