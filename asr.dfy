/** The transcript post-processing of asr_processor.py: neighbouring speech
    segments are merged into sentence-like groups, and each merged segment is
    split into sentences whose time spans are apportioned by character count.

    The speech model and the sentence tokenizer are not modelled: the
    transcription result is an input and the tokenizer a parameter. A
    segment's word list is an object (`WordList`) because the merge extends
    it in place through a shallow copy of the segment. */
module Asr {
  import opened Wrappers
  import opened Text
  import opened Timestamps

  /** One word timestamp of a segment; its content plays no part here. */
  datatype Word = Word(text: string, start: real, end: real)

  /** The `words` list of a segment: a mutable list that the merge extends. */
  class WordList {
    var items: seq<Word>

    constructor (items: seq<Word>)
      ensures this.items == items
    {
      this.items := items;
    }
  }

  /** A transcription segment; `words` is None when the key is absent. */
  datatype Segment = Segment(start: real, end: real, text: string, words: Option<WordList>)

  /** A sentence with its estimated time span. */
  datatype Sentence = Sentence(text: string, start: real, end: real)

  /** The transcription result as the speech model returns it; a missing
      key is None. */
  datatype Transcription = Transcription(text: Option<string>, segments: Option<seq<Segment>>)

  /** The processed result: the full text and the raw segments passed
      through, plus the sentences. */
  datatype Processed = Processed(fullText: string, segments: seq<Segment>, sentences: seq<Sentence>)

  /** `format_timestamp`: `HH:MM:SS.mmm`. */
  function FormatTimestamp(seconds: real): string {
    FormatSeconds(seconds, ':', '.')
  }

  lemma FormatTimestampIsClock(seconds: real)
    requires seconds >= 0.0
    ensures FormatTimestamp(seconds) == ClockText(ToClock(Millis(seconds)), ':', '.')
  {
    FormatSecondsIsClock(seconds, ':', '.');
  }

  // ---------------------------------------------------------------------------
  // Merging segments
  // ---------------------------------------------------------------------------

  /** The sentence-ending marks: `. ! ?` and their full-width forms. */
  predicate IsSentenceMark(c: char) {
    c == '.' || c == '!' || c == '?' || c == '。' || c == '！' || c == '？'
  }

  /** A new group starts when the accumulated text, stripped, ends with a
      sentence mark, or the next text, stripped, starts with an upper-case
      letter. */
  predicate IsBoundary(accumulated: string, next: string) {
    var a := Strip(accumulated);
    var b := Strip(next);
    (|a| > 0 && IsSentenceMark(a[|a| - 1])) || (|b| > 0 && IsUpper(b[0]))
  }

  /** The text of the group `segs[a..b]`: the first segment's text as is,
      then `" " + stripped text` for each further segment. */
  function GroupText(segs: seq<Segment>, a: nat, b: nat): string
    requires a < b <= |segs|
    decreases b
  {
    if b == a + 1 then segs[a].text
    else GroupText(segs, a, b - 1) + " " + Strip(segs[b - 1].text)
  }

  /** The merged segment of the group `segs[a..b]`: the first segment with
      the group's text and the last segment's end. */
  function Combine(segs: seq<Segment>, a: nat, b: nat): Segment
    requires a < b <= |segs|
  {
    segs[a].(end := segs[b - 1].end, text := GroupText(segs, a, b))
  }

  /** The group `segs[first..end]` of consecutive segments. */
  datatype Span = Span(first: nat, end: nat)

  /** The groups already closed and the first segment of the open group. */
  datatype Grouping = Grouping(closed: seq<Span>, current: nat)

  /** How the first `n` segments are grouped when `opens(a, i)` says whether
      segment `i` opens a new group after the open group that starts at `a`. */
  function Grouped(opens: (nat, nat) -> bool, n: nat): (gr: Grouping)
    requires 1 <= n
    ensures gr.current < n
    ensures |gr.closed| == 0 ==> gr.current == 0
    ensures |gr.closed| > 0 ==> gr.closed[0].first == 0 && gr.closed[|gr.closed| - 1].end == gr.current
    ensures forall g :: 0 <= g < |gr.closed| ==> gr.closed[g].first < gr.closed[g].end <= gr.current
  {
    if n == 1 then Grouping([], 0)
    else
      var p := Grouped(opens, n - 1);
      if opens(p.current, n - 1) then Grouping(p.closed + [Span(p.current, n - 1)], n - 1) else p
  }

  /** All groups of the first `n` segments, the open one last. */
  function Spans(opens: (nat, nat) -> bool, n: nat): (sp: seq<Span>)
    requires 1 <= n
  {
    var gr := Grouped(opens, n);
    gr.closed + [Span(gr.current, n)]
  }

  /** The boundary test of `merge_segments` between the group of `segs`
      that starts at `a` and the segment `i` after it. */
  function Opens(segs: seq<Segment>): (nat, nat) -> bool
  {
    (a: nat, i: nat) => a < i < |segs| && IsBoundary(GroupText(segs, a, i), segs[i].text)
  }

  /** Segment `j` is the first of one of the groups `sp`. */
  predicate StartsGroup(sp: seq<Span>, j: nat) {
    exists g :: 0 <= g < |sp| && sp[g].first == j
  }

  /** The merged segment of each group in `spans`. */
  function CombineAll(segs: seq<Segment>, spans: seq<Span>): (r: seq<Segment>)
    requires forall g :: 0 <= g < |spans| ==> spans[g].first < spans[g].end <= |segs|
    ensures |r| == |spans|
  {
    seq(|spans|, g requires 0 <= g < |spans| => Combine(segs, spans[g].first, spans[g].end))
  }

  lemma CombineAllSnoc(segs: seq<Segment>, spans: seq<Span>, s: Span)
    requires forall g :: 0 <= g < |spans| ==> spans[g].first < spans[g].end <= |segs|
    requires s.first < s.end <= |segs|
    ensures CombineAll(segs, spans + [s]) == CombineAll(segs, spans) + [Combine(segs, s.first, s.end)]
  {
    var r := CombineAll(segs, spans + [s]);
    var e := CombineAll(segs, spans) + [Combine(segs, s.first, s.end)];
    assert |r| == |e|;
    forall g | 0 <= g < |r|
      ensures r[g] == e[g]
    {
      if g < |spans| {
        assert (spans + [s])[g] == spans[g];
      }
    }
  }

  /** What `merge_segments` returns: one merged segment per group. */
  function Merged(segs: seq<Segment>): (r: seq<Segment>)
    ensures segs != [] ==> |r| == |Spans(Opens(segs), |segs|)|
  {
    if segs == [] then [] else CombineAll(segs, Spans(Opens(segs), |segs|))
  }

  /** The word lists the segments refer to. */
  function WordLists(segs: seq<Segment>): set<WordList>
  {
    set j | 0 <= j < |segs| && segs[j].words.Some? :: segs[j].words.value
  }

  /** No two segments share a word list. */
  predicate DistinctWordLists(segs: seq<Segment>) {
    forall i, j :: 0 <= i < |segs| && 0 <= j < |segs| && i != j && segs[i].words.Some? && segs[j].words.Some? ==>
      segs[i].words.value != segs[j].words.value
  }

  /** The current contents of each segment's word list (empty without one). */
  function WordItems(segs: seq<Segment>): (r: seq<seq<Word>>)
    reads WordLists(segs)
    ensures |r| == |segs|
  {
    if segs == [] then []
    else
      var last := segs[|segs| - 1];
      WordItems(segs[..|segs| - 1]) + [if last.words.Some? then last.words.value.items else []]
  }

  lemma WordItemsAt(segs: seq<Segment>, j: nat)
    requires j < |segs|
    ensures WordItems(segs)[j] == if segs[j].words.Some? then segs[j].words.value.items else []
  {
    if j < |segs| - 1 {
      WordItemsAt(segs[..|segs| - 1], j);
    }
  }

  /** The words of `segs[a..b]` in order, taken from the snapshot `items`,
      from the segments that have a word list. */
  function Gathered(segs: seq<Segment>, items: seq<seq<Word>>, a: nat, b: nat): seq<Word>
    requires a <= b <= |segs| == |items|
    decreases b
  {
    if b == a then []
    else Gathered(segs, items, a, b - 1) + (if segs[b - 1].words.Some? then items[b - 1] else [])
  }

  /** One step of the grouping: segment `n` either closes the open group and
      opens its own, or joins the open group. */
  lemma GroupedStep(opens: (nat, nat) -> bool, n: nat)
    requires 1 <= n
    ensures var gr := Grouped(opens, n);
            Grouped(opens, n + 1)
              == if opens(gr.current, n) then Grouping(gr.closed + [Span(gr.current, n)], n) else gr
  {
  }

  /** The boundary test as `merge_segments` applies it. */
  lemma OpensAt(segs: seq<Segment>, a: nat, i: nat)
    requires a < i < |segs|
    ensures Opens(segs)(a, i) == IsBoundary(Combine(segs, a, i).text, segs[i].text)
  {
  }

  /** A group of one segment is that segment. */
  lemma CombineSingle(segs: seq<Segment>, i: nat)
    requires i < |segs|
    ensures Combine(segs, i, i + 1) == segs[i]
  {
  }

  /** Joining segment `n` to the group that starts at `a` extends the merged
      text with the stripped text of `n` and moves the end to its end. */
  lemma CombineJoin(segs: seq<Segment>, a: nat, n: nat)
    requires a < n < |segs|
    ensures Combine(segs, a, n + 1)
            == Combine(segs, a, n).(text := Combine(segs, a, n).text + " " + Strip(segs[n].text), end := segs[n].end)
  {
  }

  /** The word lists `items` after grouping the first `n` segments, from the
      snapshot `before`: the list of each group's first segment holds its own
      words followed by those of the rest of the group ... */
  ghost predicate FirstListsGathered(opens: (nat, nat) -> bool, segs: seq<Segment>, before: seq<seq<Word>>,
                                     items: seq<seq<Word>>, n: nat)
    requires 1 <= n <= |segs| == |before| == |items|
  {
    var sp := Spans(opens, n);
    forall g :: 0 <= g < |sp| && segs[sp[g].first].words.Some? ==>
      items[sp[g].first] == before[sp[g].first] + Gathered(segs, before, sp[g].first + 1, sp[g].end)
  }

  /** ... and every other list is as it was. */
  ghost predicate OtherListsKept(opens: (nat, nat) -> bool, segs: seq<Segment>, before: seq<seq<Word>>,
                                 items: seq<seq<Word>>, n: nat)
    requires 1 <= n <= |segs| == |before| == |items|
  {
    forall j :: 0 <= j < |segs| && !StartsGroup(Spans(opens, n), j) ==> items[j] == before[j]
  }

  /** The word lists once segment `n` has been read: it appends its words to
      the list of the open group's first segment when it joins that group
      and both have a list. */
  ghost function ListsStep(opens: (nat, nat) -> bool, segs: seq<Segment>, before: seq<seq<Word>>,
                           items: seq<seq<Word>>, n: nat): (r: seq<seq<Word>>)
    requires 1 <= n < |segs| == |before| == |items|
    ensures |r| == |items|
  {
    var a := Grouped(opens, n).current;
    if !opens(a, n) && segs[a].words.Some? && segs[n].words.Some?
    then items[a := items[a] + before[n]] else items
  }

  lemma FirstListsStep(opens: (nat, nat) -> bool, segs: seq<Segment>, before: seq<seq<Word>>,
                       items: seq<seq<Word>>, n: nat)
    requires 1 <= n < |segs| == |before| == |items|
    requires FirstListsGathered(opens, segs, before, items, n) && OtherListsKept(opens, segs, before, items, n)
    ensures FirstListsGathered(opens, segs, before, ListsStep(opens, segs, before, items, n), n + 1)
  {
    if opens(Grouped(opens, n).current, n) {
      FirstListsOpen(opens, segs, before, items, n);
    } else {
      FirstListsJoin(opens, segs, before, items, n);
    }
  }

  lemma FirstListsOpen(opens: (nat, nat) -> bool, segs: seq<Segment>, before: seq<seq<Word>>,
                       items: seq<seq<Word>>, n: nat)
    requires 1 <= n < |segs| == |before| == |items|
    requires FirstListsGathered(opens, segs, before, items, n) && OtherListsKept(opens, segs, before, items, n)
    requires opens(Grouped(opens, n).current, n)
    ensures FirstListsGathered(opens, segs, before, items, n + 1)
  {
    var sp' := Spans(opens, n + 1);
    forall g | 0 <= g < |sp'| && segs[sp'[g].first].words.Some?
      ensures items[sp'[g].first] == before[sp'[g].first] + Gathered(segs, before, sp'[g].first + 1, sp'[g].end)
    {
      FirstListOpenAt(opens, segs, before, items, n, g);
    }
  }

  lemma FirstListOpenAt(opens: (nat, nat) -> bool, segs: seq<Segment>, before: seq<seq<Word>>,
                        items: seq<seq<Word>>, n: nat, g: nat)
    requires 1 <= n < |segs| == |before| == |items|
    requires FirstListsGathered(opens, segs, before, items, n) && OtherListsKept(opens, segs, before, items, n)
    requires opens(Grouped(opens, n).current, n)
    requires g < |Spans(opens, n + 1)|
    ensures var sp' := Spans(opens, n + 1);
            segs[sp'[g].first].words.Some? ==>
              items[sp'[g].first] == before[sp'[g].first] + Gathered(segs, before, sp'[g].first + 1, sp'[g].end)
  {
    var sp := Spans(opens, n);
    var sp' := Spans(opens, n + 1);
    if g < |sp| {
      assert sp'[g] == sp[g];
    } else {
      assert sp'[g] == Span(n, n + 1);
      assert forall h :: 0 <= h < |sp| ==> sp[h].first < n;
      assert !StartsGroup(sp, n);
      assert items[n] == before[n];
    }
  }

  lemma FirstListsJoin(opens: (nat, nat) -> bool, segs: seq<Segment>, before: seq<seq<Word>>,
                       items: seq<seq<Word>>, n: nat)
    requires 1 <= n < |segs| == |before| == |items|
    requires FirstListsGathered(opens, segs, before, items, n)
    requires !opens(Grouped(opens, n).current, n)
    ensures FirstListsGathered(opens, segs, before, ListsStep(opens, segs, before, items, n), n + 1)
  {
    var sp' := Spans(opens, n + 1);
    var items' := ListsStep(opens, segs, before, items, n);
    forall g | 0 <= g < |sp'| && segs[sp'[g].first].words.Some?
      ensures items'[sp'[g].first] == before[sp'[g].first] + Gathered(segs, before, sp'[g].first + 1, sp'[g].end)
    {
      FirstListJoinAt(opens, segs, before, items, n, g);
    }
  }

  lemma FirstListJoinAt(opens: (nat, nat) -> bool, segs: seq<Segment>, before: seq<seq<Word>>,
                        items: seq<seq<Word>>, n: nat, g: nat)
    requires 1 <= n < |segs| == |before| == |items|
    requires FirstListsGathered(opens, segs, before, items, n)
    requires !opens(Grouped(opens, n).current, n)
    requires g < |Spans(opens, n + 1)|
    ensures var sp' := Spans(opens, n + 1);
            segs[sp'[g].first].words.Some? ==>
              ListsStep(opens, segs, before, items, n)[sp'[g].first]
                == before[sp'[g].first] + Gathered(segs, before, sp'[g].first + 1, sp'[g].end)
  {
    var gr := Grouped(opens, n);
    var a := gr.current;
    var sp := Spans(opens, n);
    var sp' := Spans(opens, n + 1);
    assert Grouped(opens, n + 1) == gr;
    assert sp'[g].first == sp[g].first;
    if g < |gr.closed| {
      assert sp'[g] == sp[g] == gr.closed[g];
      assert gr.closed[g].first < a;
    } else {
      assert sp[g] == Span(a, n);
      if segs[a].words.Some? {
        assert items[a] == before[a] + Gathered(segs, before, a + 1, n);
        JoinedList(segs, before, items, a, n);
      }
    }
  }

  /** The open group's list after segment `n` joins it. */
  lemma JoinedList(segs: seq<Segment>, before: seq<seq<Word>>, items: seq<seq<Word>>, a: nat, n: nat)
    requires a < n < |segs| == |before| == |items|
    requires segs[a].words.Some?
    requires items[a] == before[a] + Gathered(segs, before, a + 1, n)
    ensures (if segs[n].words.Some? then items[a := items[a] + before[n]] else items)[a]
            == before[a] + Gathered(segs, before, a + 1, n + 1)
  {
  }

  lemma OtherListsStep(opens: (nat, nat) -> bool, segs: seq<Segment>, before: seq<seq<Word>>,
                       items: seq<seq<Word>>, n: nat)
    requires 1 <= n < |segs| == |before| == |items|
    requires OtherListsKept(opens, segs, before, items, n)
    ensures OtherListsKept(opens, segs, before, ListsStep(opens, segs, before, items, n), n + 1)
  {
    var a := Grouped(opens, n).current;
    var sp := Spans(opens, n);
    var sp' := Spans(opens, n + 1);
    assert sp'[|sp'| - 1].first == n || sp'[|sp'| - 1].first == a;
    forall j | 0 <= j < |segs| && !StartsGroup(sp', j)
      ensures ListsStep(opens, segs, before, items, n)[j] == before[j]
    {
      if j < n {
        SpansKeepStarts(opens, n, j);
      } else {
        assert forall g :: 0 <= g < |sp| ==> sp[g].first < n;
      }
    }
  }

  /** Both facts about the word lists carry over one step of the grouping. */
  lemma ListsStepKeeps(opens: (nat, nat) -> bool, segs: seq<Segment>, before: seq<seq<Word>>,
                       items: seq<seq<Word>>, n: nat)
    requires 1 <= n < |segs| == |before| == |items|
    requires FirstListsGathered(opens, segs, before, items, n) && OtherListsKept(opens, segs, before, items, n)
    ensures var items' := ListsStep(opens, segs, before, items, n);
            FirstListsGathered(opens, segs, before, items', n + 1) && OtherListsKept(opens, segs, before, items', n + 1)
  {
    FirstListsStep(opens, segs, before, items, n);
    OtherListsStep(opens, segs, before, items, n);
  }

  /** The word list of a group's first segment grows by the next segment's
      words (`list.extend`). */
  method Extend(list: WordList, more: seq<Word>)
    modifies list
    ensures list.items == old(list.items) + more
  {
    list.items := list.items + more;
  }

  /** Extending the list of segment `a` changes that list only, since no
      two segments share a list. */
  method ExtendShared(ghost segs: seq<Segment>, ghost a: nat, list: WordList, more: seq<Word>, ghost items: seq<seq<Word>>)
    returns (ghost extended: seq<seq<Word>>)
    requires DistinctWordLists(segs) && a < |segs| == |items| && segs[a].words == Some(list)
    requires forall j :: 0 <= j < |segs| && segs[j].words.Some? ==> segs[j].words.value.items == items[j]
    modifies list
    ensures extended == items[a := items[a] + more]
    ensures forall j :: 0 <= j < |segs| && segs[j].words.Some? ==> segs[j].words.value.items == extended[j]
  {
    Extend(list, more);
    extended := items[a := items[a] + more];
    forall j | 0 <= j < |segs| && segs[j].words.Some?
      ensures segs[j].words.value.items == extended[j]
    {
      if j != a {
        assert segs[j].words.value != list;
      }
    }
  }

  /** The state of `merge_segments` after reading `n` segments: the merged
      segments so far, the accumulator, the index of the segment whose word
      list the accumulator shares, and the contents of every word list. */
  datatype Run = Run(merged: seq<Segment>, current: Segment, first: nat, items: seq<seq<Word>>)

  ghost function MergeRun(segs: seq<Segment>, before: seq<seq<Word>>, n: nat): (r: Run)
    requires 1 <= n <= |segs| == |before|
    ensures r.first < n && |r.items| == |segs|
    ensures r.current.words == segs[r.first].words
    ensures forall j :: n <= j < |segs| ==> r.items[j] == before[j]
  {
    if n == 1 then Run([], segs[0], 0, before)
    else
      var p := MergeRun(segs, before, n - 1);
      var next := segs[n - 1];
      if IsBoundary(p.current.text, next.text) then Run(p.merged + [p.current], next, n - 1, p.items)
      else
        Run(p.merged, p.current.(text := p.current.text + " " + Strip(next.text), end := next.end), p.first,
            if p.current.words.Some? && next.words.Some? then p.items[p.first := p.items[p.first] + before[n - 1]]
            else p.items)
  }

  /** One step of the pass. */
  lemma MergeRunStep(segs: seq<Segment>, before: seq<seq<Word>>, n: nat)
    requires 1 <= n < |segs| == |before|
    ensures var p := MergeRun(segs, before, n);
            var next := segs[n];
            MergeRun(segs, before, n + 1)
              == if IsBoundary(p.current.text, next.text) then Run(p.merged + [p.current], next, n, p.items)
                 else Run(p.merged, p.current.(text := p.current.text + " " + Strip(next.text), end := next.end),
                          p.first,
                          if p.current.words.Some? && next.words.Some?
                          then p.items[p.first := p.items[p.first] + before[n]] else p.items)
  {
  }

  /** A segment that starts a new sentence closes the accumulator. */
  lemma MergeRunClose(segs: seq<Segment>, before: seq<seq<Word>>, n: nat)
    requires 1 <= n < |segs| == |before|
    requires IsBoundary(MergeRun(segs, before, n).current.text, segs[n].text)
    ensures var p := MergeRun(segs, before, n);
            MergeRun(segs, before, n + 1) == Run(p.merged + [p.current], segs[n], n, p.items)
  {
  }

  /** Any other segment joins the accumulator, and its words join the list
      of the group's first segment. */
  lemma MergeRunJoin(segs: seq<Segment>, before: seq<seq<Word>>, n: nat)
    requires 1 <= n < |segs| == |before|
    requires !IsBoundary(MergeRun(segs, before, n).current.text, segs[n].text)
    ensures var p := MergeRun(segs, before, n);
            var r := MergeRun(segs, before, n + 1);
            && r.merged == p.merged && r.first == p.first
            && r.current == p.current.(text := p.current.text + " " + Strip(segs[n].text), end := segs[n].end)
            && r.items == if p.current.words.Some? && segs[n].words.Some?
                          then p.items[p.first := p.items[p.first] + before[n]] else p.items
  {
  }

  /** The pass follows the grouping: the accumulator is the merged segment
      of the open group and the merged segments are those of the closed
      groups. */
  lemma {:induction false} MergeRunSegments(segs: seq<Segment>, before: seq<seq<Word>>, n: nat)
    requires 1 <= n <= |segs| == |before|
    ensures MergeAgrees(segs, before, n)
  {
    if n == 1 {
      CombineSingle(segs, 0);
    } else {
      MergeRunSegments(segs, before, n - 1);
      MergeAgreesStep(segs, before, n - 1);
    }
  }

  /** The state of the pass after `n` segments matches the grouping. */
  ghost predicate MergeAgrees(segs: seq<Segment>, before: seq<seq<Word>>, n: nat)
    requires 1 <= n <= |segs| == |before|
  {
    var r := MergeRun(segs, before, n);
    var gr := Grouped(Opens(segs), n);
    && r.first == gr.current
    && r.merged == CombineAll(segs, gr.closed)
    && r.current == Combine(segs, gr.current, n)
  }

  /** One iteration of `merge_segments`: segment `n` either closes the open
      group and starts its own, or joins the open group. */
  lemma MergeAgreesStep(segs: seq<Segment>, before: seq<seq<Word>>, n: nat)
    requires 1 <= n < |segs| == |before|
    requires MergeAgrees(segs, before, n)
    ensures MergeAgrees(segs, before, n + 1)
  {
    var gr := Grouped(Opens(segs), n);
    var cur := Combine(segs, gr.current, n);
    MergeRunStep(segs, before, n);
    GroupedStep(Opens(segs), n);
    OpensAt(segs, gr.current, n);
    if IsBoundary(cur.text, segs[n].text) {
      CombineAllSnoc(segs, gr.closed, Span(gr.current, n));
      CombineSingle(segs, n);
    } else {
      CombineJoin(segs, gr.current, n);
    }
  }

  /** The word lists after the pass are as `FirstListsGathered` and
      `OtherListsKept` describe. */
  lemma {:induction false} MergeRunLists(segs: seq<Segment>, before: seq<seq<Word>>, n: nat)
    requires 1 <= n <= |segs| == |before|
    ensures var r := MergeRun(segs, before, n);
            && FirstListsGathered(Opens(segs), segs, before, r.items, n)
            && OtherListsKept(Opens(segs), segs, before, r.items, n)
  {
    if n > 1 {
      var p := MergeRun(segs, before, n - 1);
      MergeRunLists(segs, before, n - 1);
      MergeRunSegments(segs, before, n - 1);
      OpensAt(segs, p.first, n - 1);
      ListsStepKeeps(Opens(segs), segs, before, p.items, n - 1);
      assert MergeRun(segs, before, n).items == ListsStep(Opens(segs), segs, before, p.items, n - 1);
    }
  }

  /** The word lists once the pass is over, read through the segments. */
  lemma ListsAfterMerge(segs: seq<Segment>, before: seq<seq<Word>>, items: seq<seq<Word>>)
    requires 1 <= |segs| == |before|
    requires items == MergeRun(segs, before, |segs|).items
    requires forall j :: 0 <= j < |segs| && segs[j].words.Some? ==> segs[j].words.value.items == items[j]
    ensures ListsMerged(segs, before)
  {
    MergeRunLists(segs, before, |segs|);
  }

  /** The word lists after `merge_segments`, against the snapshot `before`
      taken when it was called: the list of each group's first segment
      holds its own words followed by those of the rest of the group, in
      segment order, and every other list is as it was. */
  ghost predicate ListsMerged(segs: seq<Segment>, before: seq<seq<Word>>)
    requires 1 <= |segs| == |before|
    reads WordLists(segs)
  {
    var sp := Spans(Opens(segs), |segs|);
    && (forall g :: 0 <= g < |sp| && segs[sp[g].first].words.Some? ==>
          segs[sp[g].first].words.value.items
            == before[sp[g].first] + Gathered(segs, before, sp[g].first + 1, sp[g].end))
    && (forall j :: 0 <= j < |segs| && segs[j].words.Some? && !StartsGroup(sp, j) ==>
          segs[j].words.value.items == before[j])
  }

  /** `merge_segments`: a single pass with one accumulator. The result is
      one segment per group; the word list of each group's first segment,
      which the accumulator shares, is extended in place with the words of
      the group's later segments, and no other list changes. */
  method MergeSegments(segs: seq<Segment>, ghost before: seq<seq<Word>>) returns (merged: seq<Segment>)
    requires DistinctWordLists(segs)
    requires |before| == |segs|
    requires forall j :: 0 <= j < |segs| && segs[j].words.Some? ==> segs[j].words.value.items == before[j]
    modifies WordLists(segs)
    ensures merged == Merged(segs)
    ensures segs != [] ==> ListsMerged(segs, before)
  {
    if |segs| == 0 {
      return [];
    }
    var closed, current, items := MergePass(segs, before);
    MergeRunMerged(segs, before, closed, current);
    ListsAfterMerge(segs, before, items);
    merged := closed + [current];
  }

  /** The loop of `merge_segments`: the merged segments of the closed groups,
      the accumulator, and the word lists as `MergeRun` describes them. */
  method MergePass(segs: seq<Segment>, ghost before: seq<seq<Word>>)
    returns (merged: seq<Segment>, current: Segment, ghost items: seq<seq<Word>>)
    requires DistinctWordLists(segs)
    requires 1 <= |segs| == |before|
    requires forall j :: 0 <= j < |segs| && segs[j].words.Some? ==> segs[j].words.value.items == before[j]
    modifies WordLists(segs)
    ensures merged == MergeRun(segs, before, |segs|).merged
    ensures current == MergeRun(segs, before, |segs|).current
    ensures items == MergeRun(segs, before, |segs|).items
    ensures forall j :: 0 <= j < |segs| && segs[j].words.Some? ==> segs[j].words.value.items == items[j]
  {
    items := before;
    merged := [];
    current := segs[0];
    var i := 1;
    while i < |segs|
      invariant 1 <= i <= |segs|
      invariant merged == MergeRun(segs, before, i).merged
      invariant current == MergeRun(segs, before, i).current
      invariant items == MergeRun(segs, before, i).items
      invariant forall j :: 0 <= j < |segs| && segs[j].words.Some? ==> segs[j].words.value.items == items[j]
    {
      merged, current, items := MergeNext(segs, before, i, merged, current, items);
      i := i + 1;
    }
  }

  /** One iteration of the loop of `merge_segments`, reading segment `i`. */
  method MergeNext(segs: seq<Segment>, ghost before: seq<seq<Word>>, i: nat,
                   merged: seq<Segment>, current: Segment, ghost items: seq<seq<Word>>)
    returns (merged': seq<Segment>, current': Segment, ghost items': seq<seq<Word>>)
    requires DistinctWordLists(segs)
    requires 1 <= i < |segs| == |before|
    requires merged == MergeRun(segs, before, i).merged
    requires current == MergeRun(segs, before, i).current
    requires items == MergeRun(segs, before, i).items
    requires forall j :: 0 <= j < |segs| && segs[j].words.Some? ==> segs[j].words.value.items == items[j]
    modifies WordLists(segs)
    ensures merged' == MergeRun(segs, before, i + 1).merged
    ensures current' == MergeRun(segs, before, i + 1).current
    ensures items' == MergeRun(segs, before, i + 1).items
    ensures forall j :: 0 <= j < |segs| && segs[j].words.Some? ==> segs[j].words.value.items == items'[j]
  {
    var next := segs[i];
    ghost var a := MergeRun(segs, before, i).first;
    merged', current', items' := merged, current, items;
    if IsBoundary(current.text, next.text) {
      MergeRunClose(segs, before, i);
      merged' := merged + [current];
      current' := next;
    } else {
      MergeRunJoin(segs, before, i);
      current' := current.(text := current.text + " " + Strip(next.text), end := next.end);
      if current'.words.Some? && next.words.Some? {
        assert next.words.value.items == before[i];
        items' := ExtendShared(segs, a, current'.words.value, next.words.value.items, items);
      }
    }
  }

  /** Once every segment is read, the closed groups and the accumulator make
      up the merged transcript. */
  lemma MergeRunMerged(segs: seq<Segment>, before: seq<seq<Word>>, merged: seq<Segment>, current: Segment)
    requires 1 <= |segs| == |before|
    requires merged == MergeRun(segs, before, |segs|).merged && current == MergeRun(segs, before, |segs|).current
    ensures merged + [current] == Merged(segs)
  {
    var n := |segs|;
    MergeRunSegments(segs, before, n);
    var gr := Grouped(Opens(segs), n);
    CombineAllSnoc(segs, gr.closed, Span(gr.current, n));
  }

  /** There are at most as many groups as segments. */
  lemma {:induction false} GroupedCount(opens: (nat, nat) -> bool, n: nat)
    requires 1 <= n
    ensures |Grouped(opens, n).closed| < n
  {
    if n > 1 {
      GroupedCount(opens, n - 1);
    }
  }

  /** The groups tile the segments: each group ends where the next begins. */
  lemma {:induction false} SpansTile(opens: (nat, nat) -> bool, n: nat, g: nat)
    requires 1 <= n && g + 1 < |Spans(opens, n)|
    ensures Spans(opens, n)[g].end == Spans(opens, n)[g + 1].first
  {
    var p := Grouped(opens, n - 1);
    if g + 1 < |Spans(opens, n - 1)| {
      SpansTile(opens, n - 1, g);
    }
  }

  /** Each merged segment stands for its group: it keeps the first
      segment's start and word list, ends where the group's last segment
      ends, and carries the group's text. */
  lemma MergedGroups(segs: seq<Segment>, g: nat)
    requires segs != [] && g < |Merged(segs)|
    ensures var sp := Spans(Opens(segs), |segs|);
            var m := Merged(segs)[g];
            && sp[g].first < sp[g].end <= |segs|
            && m.start == segs[sp[g].first].start && m.words == segs[sp[g].first].words
            && m.end == segs[sp[g].end - 1].end
            && m.text == GroupText(segs, sp[g].first, sp[g].end)
  {
  }

  /** The merge yields between one and `|segs|` segments for a non-empty
      input; the first keeps the first segment's start and the last ends
      where the last segment ends. */
  lemma MergedBounds(segs: seq<Segment>)
    requires segs != []
    ensures var m := Merged(segs);
            && 1 <= |m| <= |segs|
            && m[0].start == segs[0].start
            && m[|m| - 1].end == segs[|segs| - 1].end
  {
    GroupedCount(Opens(segs), |segs|);
    var sp := Spans(Opens(segs), |segs|);
    var m := Merged(segs);
    assert m[0] == Combine(segs, 0, sp[0].end);
    assert m[|m| - 1] == Combine(segs, sp[|sp| - 1].first, |segs|);
  }

  /** Segment `n` starts a group of the first `n + 1` exactly when `opens`
      says so for the open group. */
  lemma SpansNewStart(opens: (nat, nat) -> bool, n: nat)
    requires 1 <= n
    ensures StartsGroup(Spans(opens, n + 1), n) <==> opens(Grouped(opens, n).current, n)
  {
    var sp := Spans(opens, n + 1);
    if opens(Grouped(opens, n).current, n) {
      assert sp[|sp| - 1].first == n;
    } else {
      assert forall g :: 0 <= g < |sp| ==> sp[g].first < n;
    }
  }

  /** Reading segment `n` changes no earlier segment's role. */
  lemma SpansKeepStarts(opens: (nat, nat) -> bool, n: nat, j: nat)
    requires 1 <= n && j < n
    ensures StartsGroup(Spans(opens, n + 1), j) <==> StartsGroup(Spans(opens, n), j)
  {
    var sp := Spans(opens, n + 1);
    var p := Spans(opens, n);
    if StartsGroup(p, j) {
      var g :| 0 <= g < |p| && p[g].first == j;
      assert sp[g].first == j;
    }
    if StartsGroup(sp, j) {
      var g :| 0 <= g < |sp| && sp[g].first == j;
      assert g < |p| && p[g].first == j;
    }
  }

  /** Segment `i > 0` starts a group exactly when `opens` says so for the
      group it would otherwise join. */
  lemma {:induction false} SpansStartIff(opens: (nat, nat) -> bool, n: nat, i: nat)
    requires 1 <= i < n
    ensures StartsGroup(Spans(opens, n), i) <==> opens(Grouped(opens, i).current, i)
  {
    if n == i + 1 {
      SpansNewStart(opens, i);
    } else {
      var m := n - 1;
      SpansStartIff(opens, m, i);
      SpansKeepStarts(opens, m, i);
      assert m + 1 == n;
    }
  }

  /** A segment after the first opens a new merged segment exactly when the
      text accumulated in the group it would join, stripped, ends with a
      sentence mark, or its own text, stripped, starts with a capital. */
  lemma MergedBoundaryIff(segs: seq<Segment>, i: nat)
    requires 1 <= i < |segs|
    ensures StartsGroup(Spans(Opens(segs), |segs|), i) <==>
            IsBoundary(GroupText(segs, Grouped(Opens(segs), i).current, i), segs[i].text)
  {
    SpansStartIff(Opens(segs), |segs|, i);
  }

  // ---------------------------------------------------------------------------
  // Sentences
  // ---------------------------------------------------------------------------

  /** Total character count of a list of sentences. */
  function TotalLength(parts: seq<string>): nat
  {
    if parts == [] then 0 else TotalLength(parts[..|parts| - 1]) + |parts[|parts| - 1]|
  }

  /** `start + (end - start) * (before / total)`, or `start` when the total
      is zero. */
  function SentenceStart(start: real, end: real, before: nat, total: nat): real
  {
    if total > 0 then start + (end - start) * (before as real / total as real) else start
  }

  /** `(end - start) * (length / total)`, or 0 when the total is zero. */
  function SentenceDuration(start: real, end: real, length: nat, total: nat): real
  {
    (end - start) * (if total > 0 then length as real / total as real else 0.0)
  }

  /** Sentence `i` of a multi-sentence segment: it starts at the share of
      the span taken by the sentences before it and lasts its own share. */
  function SentenceAt(parts: seq<string>, i: nat, start: real, end: real): Sentence
    requires i < |parts|
  {
    var total := TotalLength(parts);
    var s := SentenceStart(start, end, TotalLength(parts[..i]), total);
    Sentence(parts[i], s, s + SentenceDuration(start, end, |parts[i]|, total))
  }

  /** The sentences of a multi-sentence segment with their apportioned spans. */
  function Apportion(parts: seq<string>, start: real, end: real): (r: seq<Sentence>)
    ensures |r| == |parts|
  {
    seq(|parts|, i requires 0 <= i < |parts| => SentenceAt(parts, i, start, end))
  }

  /** The sentences of one merged segment: a single sentence keeps the
      segment's span; otherwise the span is apportioned. */
  function SegmentSentences(segment: Segment, tokenize: string -> seq<string>): seq<Sentence>
  {
    var parts := tokenize(Strip(segment.text));
    if |parts| == 1 then [Sentence(parts[0], segment.start, segment.end)]
    else Apportion(parts, segment.start, segment.end)
  }

  /** The sentences of all merged segments, in order. */
  function AllSentences(merged: seq<Segment>, tokenize: string -> seq<string>): seq<Sentence>
  {
    if merged == [] then []
    else AllSentences(merged[..|merged| - 1], tokenize) + SegmentSentences(merged[|merged| - 1], tokenize)
  }

  /** The number of sentences the tokenizer finds in each merged segment, summed. */
  function SentenceCount(merged: seq<Segment>, tokenize: string -> seq<string>): nat
  {
    if merged == [] then 0
    else SentenceCount(merged[..|merged| - 1], tokenize) + |tokenize(Strip(merged[|merged| - 1].text))|
  }

  /** What `process_transcription` returns, given the merged segments. */
  function ProcessedResult(t: Transcription, merged: seq<Segment>, tokenize: string -> seq<string>): Processed
  {
    var segments := if t.segments.Some? then t.segments.value else [];
    Processed(if t.text.Some? then t.text.value else "", segments,
              if segments == [] then [] else AllSentences(merged, tokenize))
  }

  lemma TotalLengthSnoc(parts: seq<string>, i: nat)
    requires i < |parts|
    ensures TotalLength(parts[..i + 1]) == TotalLength(parts[..i]) + |parts[i]|
  {
    assert parts[..i + 1][..i] == parts[..i];
  }

  lemma DivideSum(a: real, x: real, y: real, t: real)
    requires t > 0.0
    ensures a * (x / t) + a * (y / t) == a * ((x + y) / t)
  {
    assert x / t + y / t == (x + y) / t;
  }

  /** The end of sentence `i` is the start of sentence `i + 1`. */
  lemma ApportionAdjacent(parts: seq<string>, start: real, end: real, i: nat)
    requires i + 1 < |parts| && TotalLength(parts) > 0
    ensures SentenceAt(parts, i, start, end).end == SentenceAt(parts, i + 1, start, end).start
  {
    TotalLengthSnoc(parts, i);
    ShareSum(start, end, TotalLength(parts[..i]), |parts[i]|, TotalLength(parts));
  }

  /** Consecutive shares of the span add up. */
  lemma ShareSum(start: real, end: real, b: nat, l: nat, total: nat)
    requires total > 0
    ensures SentenceStart(start, end, b, total) + SentenceDuration(start, end, l, total)
            == SentenceStart(start, end, b + l, total)
  {
    DivideSum(end - start, b as real, l as real, total as real);
    assert (b + l) as real == b as real + l as real;
  }

  /** The last sentence ends at the segment's end. */
  lemma ApportionLast(parts: seq<string>, start: real, end: real)
    requires |parts| >= 1 && TotalLength(parts) > 0
    ensures SentenceAt(parts, |parts| - 1, start, end).end == end
  {
    var n := |parts| - 1;
    TotalLengthSnoc(parts, n);
    assert parts[..n + 1] == parts;
    ShareSum(start, end, TotalLength(parts[..n]), |parts[n]|, TotalLength(parts));
    ShareWhole(start, end, TotalLength(parts));
  }

  /** The first sentence starts at the start of the span. */
  lemma ShareNone(start: real, end: real, total: nat)
    ensures SentenceStart(start, end, 0, total) == start
  {
  }

  /** The whole total's share reaches the end of the span. */
  lemma ShareWhole(start: real, end: real, total: nat)
    requires total > 0
    ensures SentenceStart(start, end, total, total) == end
  {
    assert (total as real) / (total as real) == 1.0;
  }

  /** With a positive total the sentences tile the segment's span: the first
      starts at its start, each ends where the next starts, and the last ends
      at its end. */
  lemma ApportionTiles(parts: seq<string>, start: real, end: real)
    requires |parts| >= 1 && TotalLength(parts) > 0
    ensures var r := Apportion(parts, start, end);
            && r[0].start == start
            && (forall i :: 0 <= i < |r| - 1 ==> r[i].end == r[i + 1].start)
            && r[|r| - 1].end == end
  {
    var r := Apportion(parts, start, end);
    assert parts[..0] == [];
    ShareNone(start, end, TotalLength(parts));
    forall i | 0 <= i < |r| - 1
      ensures r[i].end == r[i + 1].start
    {
      ApportionAdjacent(parts, start, end, i);
    }
    ApportionLast(parts, start, end);
  }

  /** With a zero total every sentence starts and ends at the segment's start. */
  lemma ApportionEmptyText(parts: seq<string>, start: real, end: real)
    requires TotalLength(parts) == 0
    ensures forall s :: s in Apportion(parts, start, end) ==> s.start == start && s.end == start
  {
  }

  /** Each merged segment contributes as many sentences as the tokenizer
      returns for it; an empty tokenizer result contributes none. */
  lemma {:induction false} AllSentencesCount(merged: seq<Segment>, tokenize: string -> seq<string>)
    ensures |AllSentences(merged, tokenize)| == SentenceCount(merged, tokenize)
  {
    if merged != [] {
      AllSentencesCount(merged[..|merged| - 1], tokenize);
    }
  }

  /** `process_transcription`: merges the segments, then splits each merged
      segment into sentences. The full text and the raw segment list pass
      through; the raw segments it returns carry the word lists the merge
      has extended: each group's first list gains the words of the rest of
      its group, and every other list is as it was. */
  method ProcessTranscription(t: Transcription, tokenize: string -> seq<string>) returns (r: Processed)
    requires t.segments.Some? ==> DistinctWordLists(t.segments.value)
    modifies if t.segments.Some? then WordLists(t.segments.value) else {}
    ensures t.segments.None? || t.segments.value == [] ==> r == ProcessedResult(t, [], tokenize)
    ensures t.segments.Some? && t.segments.value != [] ==>
              r == ProcessedResult(t, Merged(t.segments.value), tokenize)
    ensures t.segments.Some? && t.segments.value != [] ==>
      ListsMerged(t.segments.value, old(WordItems(t.segments.value)))
  {
    var fullText := if t.text.Some? then t.text.value else "";
    var segments := if t.segments.Some? then t.segments.value else [];
    if |segments| == 0 {
      return Processed(fullText, segments, []);
    }
    forall j | 0 <= j < |segments| {
      WordItemsAt(segments, j);
    }
    var merged := MergeSegments(segments, WordItems(segments));
    var allSentences := SplitSentences(merged, tokenize);
    return Processed(fullText, segments, allSentences);
  }

  /** The loop of `process_transcription` over the merged segments. */
  method SplitSentences(merged: seq<Segment>, tokenize: string -> seq<string>) returns (allSentences: seq<Sentence>)
    ensures allSentences == AllSentences(merged, tokenize)
  {
    allSentences := [];
    var m := 0;
    while m < |merged|
      invariant 0 <= m <= |merged|
      invariant allSentences == AllSentences(merged[..m], tokenize)
    {
      var segment := merged[m];
      var text := Strip(segment.text);
      var start := segment.start;
      var end := segment.end;
      var sentences := tokenize(text);
      var added: seq<Sentence>;
      if |sentences| == 1 {
        added := [Sentence(sentences[0], start, end)];
      } else {
        added := ApportionSentences(sentences, start, end);
      }
      assert merged[..m + 1][..m] == merged[..m];
      allSentences := allSentences + added;
      m := m + 1;
    }
    assert merged[..m] == merged;
  }

  /** The inner loop of `process_transcription` for a multi-sentence
      segment, with its running character position. */
  method ApportionSentences(sentences: seq<string>, start: real, end: real) returns (r: seq<Sentence>)
    ensures r == Apportion(sentences, start, end)
  {
    var totalChars := 0;
    var k := 0;
    while k < |sentences|
      invariant 0 <= k <= |sentences|
      invariant totalChars == TotalLength(sentences[..k])
    {
      TotalLengthSnoc(sentences, k);
      totalChars := totalChars + |sentences[k]|;
      k := k + 1;
    }
    assert sentences[..k] == sentences;
    r := [];
    var currentPos := 0;
    k := 0;
    while k < |sentences|
      invariant 0 <= k <= |sentences|
      invariant currentPos == TotalLength(sentences[..k])
      invariant r == Apportion(sentences, start, end)[..k]
    {
      var sentenceLen := |sentences[k]|;
      var sentenceRatio := if totalChars > 0 then sentenceLen as real / totalChars as real else 0.0;
      var sentenceDuration := (end - start) * sentenceRatio;
      var sentenceStart := if totalChars > 0 then start + (end - start) * (currentPos as real / totalChars as real)
                           else start;
      var sentenceEnd := sentenceStart + sentenceDuration;
      ghost var all := Apportion(sentences, start, end);
      assert all[k] == Sentence(sentences[k], sentenceStart, sentenceEnd);
      assert all[..k + 1] == all[..k] + [all[k]];
      r := r + [Sentence(sentences[k], sentenceStart, sentenceEnd)];
      TotalLengthSnoc(sentences, k);
      currentPos := currentPos + sentenceLen;
      k := k + 1;
    }
  }
}
