# video_to_ppt: a verified model of the keyframe and transcript pipeline

video_to_ppt turns a lecture video into slides. The pipeline has these steps:

- The keyframe extractor scans the video at a fixed cadence. It saves the first frame, and after that every sampled frame whose difference from the frame read before it exceeds an adaptive threshold. Each saved frame is named `keyframe_HH-MM-SS-mmm_NNNN.jpg`.
- The ASR processor merges the speech-recognition segments into sentence-like groups. It then splits each group into sentences, whose time spans are apportioned by character count.
- The structured-JSON generator decodes the keyframe names back into times. It attaches transcript segments to each keyframe with a 5-second tolerance and builds a slide document with a summary.
- The MinerU processor decodes the same names. It parses the markdown recognised from the slide PDF into slides and extracts text blocks from it. It also sorts the files MinerU writes into categories.
- The web server checks upload extensions, composes stored upload names, and lists the keyframes of a video. For that listing it decodes the names a third time.

This project models these pieces in Dafny and proves what the code promises about them.

The modules are:

| module | file | models |
|---|---|---|
| `Wrappers` | `wrappers.dfy` | `Option` and `Result` |
| `Text` | `text.dfy` | the Python string operations the code uses: `strip`, `split`/`join`, `lower`, `isupper`, `int()`, `:0Nd` padding |
| `Sorting` | `sorting.dfy` | Python's stable `sorted`/`list.sort` as an insertion sort, with its order and stability lemmas |
| `Timestamps` | `timestamps.dfy` | `format_timestamp` (repeated in three files), the millisecond clock it prints, and the keyframe name pattern |
| `Extractor` | `extractor.dfy` | `extractor.py` |
| `Asr` | `asr.dfy` | `asr_processor.py` |
| `Structured` | `structured.dfy` | `generate_structured_json.py` |
| `Mineru`, `MineruMarkdown` | `mineru.dfy`, `mineru_markdown.dfy` | `mineru_keyframe_processor.py` |
| `Server` | `server.dfy` | `server.py` |
| `Roundtrip` | `roundtrip.dfy` | the file name written by the extractor, read back by each of the three decoders |

Model conventions:

- **The video is an oracle.** `Extractor.Video` gives:
  - whether the video opened;
  - the reported frame rate and frame count;
  - which positions can be read;
  - `diff(i, j)`, the difference score of two frames.
- **Loops are methods.** Each loop of the source is a method. It is proved equal to a recursive specification function, and the properties are lemmas about that function:
  - `ScanKeyframes` is proved against `Selected`;
  - `MergeSegments` against `Merged`;
  - `ParseMarkdownToJson` against `ParseMarkdown`.
- **`merge_segments` mutates shared word lists.** It extends word lists in place through a shallow copy. So a segment's word list is an object (`Asr.WordList`), and `MergeSegments` states what every list holds afterwards.
- **Floats are reals.** `int()` on a float is truncation toward zero. `//` and `%` are floored.

## Model

| member | source | states |
|---|---|---|
| Extractor.Keyframe.ClockLabelIsClock | extractor.py:23-29 | `KeyframeInfo.format_timestamp` of a non-negative time prints the hour, minute, second and millisecond fields of its whole milliseconds |
| Extractor.EffectiveFps | extractor.py:208-210 | the frame rate used is positive, and is the reported rate whenever that is positive (30 otherwise) |
| Extractor.VideoDuration | extractor.py:136-162 | fails exactly when the video cannot be opened; otherwise the duration is non-negative, times the frame rate gives the frame count, and is 0 without frames |
| Extractor.DurationFields | extractor.py:164-176 | `format_duration` prints hours, minutes below 60 and seconds below 60 that together make the whole seconds |
| Extractor.FormatDuration | extractor.py:164-176 | the text is three `:`-separated integers: hours, minutes in [0, 60) and seconds in [0, 60) with `h*3600+m*60+s` the whole seconds |
| Extractor.Clamp | extractor.py:130 | the result lies in [0.05, 0.3], equals its input inside that range and the nearer bound outside it |
| Extractor.SampleInterval | extractor.py:96 | the sampling interval is at least 1 |
| Extractor.AdaptiveThreshold | extractor.py:73-134 | the threshold always lies in [0.05, 0.3] |
| Extractor.AdaptiveThresholdCases | extractor.py:91-93 | the threshold is the default 0.1 when there is at most one frame or fewer than two samples were read; otherwise it is the clamped spread of the sampled differences |
| Extractor.KeyframeExtractor.CalculateAdaptiveThreshold | extractor.py:73-134 | the sampling loop fails exactly when the video cannot be opened, and otherwise returns the threshold of `AdaptiveThreshold`, which lies in [0.05, 0.3] |
| Extractor.FrameInterval | extractor.py:222-224 | the frame step is at least 1, and is `int(capture_interval * fps)` whenever that is at least 1 |
| Extractor.ScanRunReads | extractor.py:243-249 | the scan reads every sampled position before the one where it stops, and it stops at the end of the stream or at the first failed read |
| Extractor.KeyframeExtractor.ExtractKeyframes | extractor.py:178-328 | fails without a state change when the video cannot be opened; otherwise records the video's duration and returns the keyframes `Selected` describes, with the adaptive threshold and the raised frame step |
| Extractor.KeyframeExtractor.ScanKeyframes | extractor.py:243-315 | the scan loop returns exactly the first `max_screenshots` keyframes among the frames read up to the first failed read |
| Extractor.KeyframeExtractor.SaveKeyframe | extractor.py:265-308 | saving a frame appends its record, numbered by the keyframes saved so far |
| Extractor.SelectedWhenStopped | extractor.py:243 | once the cap is reached, or the stream ends, the keyframes collected so far are the result |
| Extractor.SelectedCapped | extractor.py:243 | never more keyframes than `max_screenshots`, and none for a cap of zero or less |
| Extractor.SelectedRecord | extractor.py:252-308 | keyframe `i` is a readable frame on the sampling grid before the end of the stream. Its time is its frame number over the frame rate, and its file is named with sequence number `i`. After frame 0 it differs from the frame read one step before by more than the threshold, and that difference is recorded |
| Extractor.SelectedOrdered | extractor.py:315 | frame numbers and timestamps strictly increase along the keyframe list |
| Extractor.FirstKeyframe | extractor.py:265-283 | for a readable first frame and a positive cap, keyframe 0 is frame 0 at time 0 with difference 0.0, named with sequence number 0 |
| Extractor.EmittedIff | extractor.py:287-312 | for a read frame `j` such that at most `max_screenshots` frames up to and including `j` pass the test, `j` is a keyframe exactly when it is the first or its difference from the previous read frame (not the previous keyframe) exceeds the threshold |
| Extractor.StaticVideoOneKeyframe | extractor.py:290 | a video whose frames never differ yields exactly one keyframe, because the threshold is at least 0.05 |
| Timestamps.FormatSecondsIsClock | extractor.py:340-344 | for a non-negative time, `format_timestamp` prints exactly the clock fields of its whole milliseconds |
| Timestamps.ClockFields | extractor.py:340-344 | minutes and seconds are below 60 and milliseconds below 1000; hours are not capped; `h*3600+m*60+s` is the floor of the time |
| Timestamps.MatchKeyframeName | generate_structured_json.py:40-41 | a match means the name starts with the reassembled groups: four digit groups of widths 2, 2, 2, 3 and a non-empty digit group; conversely every such name followed by any text matches (`Roundtrip.MatchFields`) |
| Asr.FormatTimestampIsClock | asr_processor.py:205-219 | the ASR `format_timestamp` prints `HH:MM:SS.mmm` from the clock fields of the whole milliseconds |
| Asr.MergeSegments | asr_processor.py:166-203 | returns one merged segment per group. The word list of each group's first segment is extended in place with the words of the rest of the group, in order; every other word list is unchanged (`ListsMerged`) |
| Asr.MergePass | asr_processor.py:180-199 | the loop's merged list, accumulator and word lists are those of the single-pass description `MergeRun` |
| Asr.MergeRunSegments | asr_processor.py:180-199 | the single pass agrees with the grouping specification: closed groups merged, the accumulator the merge of the open group |
| Asr.ListsAfterMerge | asr_processor.py:197-198 | after the pass, each group's first list holds its own words followed by the words of the rest of the group in order, and every other list is as before (`ListsMerged`) |
| Asr.GroupedCount | asr_processor.py:180-201 | there are fewer closed groups than segments, so between 1 and `len(segments)` merged segments |
| Asr.SpansTile | asr_processor.py:180-201 | each group ends where the next begins |
| Asr.MergedBounds | asr_processor.py:176-201 | a non-empty input gives 1 to `len(segments)` merged segments; the first keeps the first start, the last ends at the last end |
| Asr.MergedGroups | asr_processor.py:180-198 | each merged segment keeps its group's first start and word list, ends at its last end, and carries the group's text |
| Asr.CombineJoin | asr_processor.py:195-196 | a merge appends `" "` plus the stripped next text and moves the end to the next segment's end |
| Asr.SpansStartIff | asr_processor.py:186-193 | a segment opens a group exactly when the boundary test holds against the open group |
| Asr.MergedBoundaryIff | asr_processor.py:186-193 | a segment starts a new group exactly when the accumulated text, stripped, ends in `. ! ? 。 ！ ？` or its own stripped text starts with an upper-case letter |
| Asr.Apportion | asr_processor.py:142-159 | one sentence per tokenizer piece |
| Asr.ApportionSentences | asr_processor.py:142-159 | the running-position loop yields the apportioned sentences |
| Asr.ApportionAdjacent | asr_processor.py:147-151 | each sentence ends where the next starts |
| Asr.ApportionLast | asr_processor.py:147-151 | with a positive character total the last sentence ends at the segment's end |
| Asr.ApportionTiles | asr_processor.py:142-159 | with a positive character total the sentences tile `[start, end]`: first at the start, contiguous, last at the end |
| Asr.ApportionEmptyText | asr_processor.py:147-150 | with a zero character total every sentence starts and ends at the segment's start |
| Asr.AllSentencesCount | asr_processor.py:125-159 | the sentence count is the sum of the tokenizer's counts; an empty tokenizer result adds nothing |
| Asr.SplitSentences | asr_processor.py:125-159 | the loop over the merged segments yields their sentences in order, one segment keeping its whole span |
| Asr.ProcessTranscription | asr_processor.py:94-164 | with no segments the sentences are empty and text and segments pass through; otherwise the sentences are those of the merged segments, and the raw segments it returns carry word lists extended by the merge: each group's first list gains the rest of the group's words, every other list is unchanged |
| Structured.ParseTimestampOfClock | generate_structured_json.py:14-24 | `parse_timestamp` reads an `HH:MM:SS.mmm` text back to its seconds, given a `float` that reads decimals correctly |
| Structured.ExtractKeyframeInfo | generate_structured_json.py:26-56 | the loop returns the records `KeyframeInfo` describes, or fails when a sort key is not an integer; each record's path is the pathlib path of the globbed file (`GlobPath`) |
| Structured.KeyframeInfoFails | generate_structured_json.py:31-34 | decoding fails exactly when some `keyframe_*.jpg` name has a non-integer sort key |
| Structured.KeyframeInfoSound | generate_structured_json.py:40-54 | every record comes from a listed `keyframe_*.jpg` name that matches the pattern, and is that name's record |
| Structured.KeyframeInfoComplete | generate_structured_json.py:36-54 | every listed name that matches is decoded; non-matching names are skipped |
| Structured.KeyframeInfoOrdered | generate_structured_json.py:31-34 | records come in order of their names' numeric sort key |
| Structured.RecordsAre | generate_structured_json.py:36-54 | the records are those of the matching names, in order, each holding its name's groups and the pathlib path of the name in the directory |
| Structured.GlobPathName | generate_structured_json.py:31-52 | `str(keyframe_file)` ends with the name and is the bare name when the directory is `.`; otherwise it starts with the directory; its last component is the name |
| Structured.MatchIndices | generate_structured_json.py:90-94 | every matched index is a segment within tolerance, in increasing order |
| Structured.MatchIndicesComplete | generate_structured_json.py:90-94 | every segment with `start <= t <= end` or `abs(start - t) <= 5` is matched |
| Structured.MatchingTextsAre | generate_structured_json.py:89-94 | the matched texts are the attaching segments' texts in segment order |
| Structured.MatchKeyframesWithAsr | generate_structured_json.py:81-119 | the loop returns one slide per keyframe as `Slides` describes |
| Structured.MatchKeyframe | generate_structured_json.py:86-115 | the inner loop builds the keyframe's slide |
| Structured.SlideContents | generate_structured_json.py:97-115 | slide `i` has number `frame_number + 1`, the keyframe's time and file, the attaching texts in order, the title of the first and the space-joined speaker text; empty title and text with no match |
| Structured.TitleFacts | generate_structured_json.py:111-115 | a title has at most 50 characters and no sentence mark; it is a prefix of the stripped first piece, and the whole piece when that is short enough |
| Structured.SpeakerTextEmpty | generate_structured_json.py:107 | the speaker text is empty exactly when nothing matched or the only match is empty |
| Structured.SummaryFacts | generate_structured_json.py:141-180 | one slide per keyframe; slides with and without text add up to all slides; one timeline entry per slide with the `幻灯片 N` fallback; key topics are exactly the titles longer than 5 characters |
| Structured.Summarize | generate_structured_json.py:139-185 | one slide per keyframe and as many as `total_slides`; `total_asr_segments` counts the segments; one timeline entry per slide; the content analysis is `Analysis` of the slides |
| Structured.Analysis | generate_structured_json.py:161-166 | slides with and without text add up to all slides; the total text length is zero exactly when no slide has text; the average times the slide count is the total, and 0 without slides |
| Structured.GenerateStructuredJson | generate_structured_json.py:121-196 | returns None exactly when decoding the keyframe names raises (a `keyframe_*.jpg` name whose sort key `int` cannot read); otherwise the document of the given video with the slides of the decoded keyframes |
| Structured.DurationFields | generate_structured_json.py:153 | the formatted duration shows whole minutes and seconds below 60 that make up the whole seconds |
| Structured.TextLengthZero | generate_structured_json.py:142 | the total text length is zero exactly when no slide has text |
| Mineru.ExtractTimestampFromFilename | mineru_keyframe_processor.py:65-83 | returns a 12-character `HH:MM:SS.mmm` text exactly when the name matches the keyframe pattern |
| Mineru.FindGeneratedFiles | mineru_keyframe_processor.py:277-304 | the loop builds the dictionary `Classify` describes |
| Mineru.CategoryOf | mineru_keyframe_processor.py:283-304 | a file is markdown exactly for `.md`, a JSON file exactly for `.json`, an image exactly for `.png`, `.jpg`, `.jpeg`, and a PDF only for `.pdf` (lower-cased suffix); a JSON file is the content JSON exactly when its lower-cased name contains `content`, the middle JSON only without `content` and with `middle`; a PDF is the layout PDF exactly when the name contains `layout`, the spans PDF only without `layout` and with `span` |
| Mineru.ClassifySlot | mineru_keyframe_processor.py:283-304 | each single-valued key holds the path of the last file of its category, and is absent without one |
| Mineru.ClassifyImages | mineru_keyframe_processor.py:296-299 | `images` lists all image files in walk order, and is absent without any |
| Mineru.RecordSlot | mineru_keyframe_processor.py:287-304 | recording a file replaces its category's entry and no other |
| Mineru.ExtractTextBlocks | mineru_keyframe_processor.py:372-388 | the loop yields the text blocks `TextBlocks` describes |
| Mineru.ExtractKeyInformation | mineru_keyframe_processor.py:352-407 | returns the error record when the status is not `success`, else the blocks and statistics of the markdown and the run's generated files |
| Mineru.KeyInformationOf | mineru_keyframe_processor.py:352-407 | fails exactly when the status is not `success`, with the reported error or `未知错误`; otherwise the video name, the markdown (empty without one), its text blocks, their count and the markdown length, with no blocks for an empty markdown, and the run's `generated_files` passed through (empty when absent) |
| Mineru.KeyInformationBlocks | mineru_keyframe_processor.py:372-392 | `total_text_blocks` counts the blocks, one per line that begins a run. Block `k` is the newline-join of the stripped lines at the `k`-th span, which is a maximal run of non-blank lines (bounded by a blank line or the text's edge on both sides); the spans come in increasing order with a gap between each two, and together they hold every non-blank line in order |
| Mineru.RunsCover | mineru_keyframe_processor.py:378-388 | the runs hold exactly the non-blank lines in order, none is empty, one per line that begins a run |
| Mineru.RunsAreMaximal | mineru_keyframe_processor.py:378-388 | each run is the lines of a span that is a maximal run of non-blank lines, and the spans increase with a blank line between each two |
| MineruMarkdown.MatchStamp | mineru_keyframe_processor.py:617 | a match gives four digit groups of widths 2, 2, 2, 3 |
| MineruMarkdown.ImageName | mineru_keyframe_processor.py:643 | a match gives a non-empty name without `)` that follows `![](images/` and precedes a `)` |
| MineruMarkdown.ImageNameComplete | mineru_keyframe_processor.py:643 | conversely every line of `![](images/`, a non-empty name without `)`, and `)` matches, whatever follows, with that name as the group |
| MineruMarkdown.Kind | mineru_keyframe_processor.py:617-666 | stamp lines carry digit groups, image lines a valid name, and content lines are non-empty and do not start with `:` |
| MineruMarkdown.ParseMarkdownToJson | mineru_keyframe_processor.py:595-723 | the line loop returns the document `ParseMarkdown` describes, or the error record |
| MineruMarkdown.ReadLine | mineru_keyframe_processor.py:613-666 | one loop iteration performs the `Step` of the line |
| MineruMarkdown.ParseLinesFailed | mineru_keyframe_processor.py:717-723 | once a line raises, the whole parse returns the error record |
| MineruMarkdown.ParseLinesState | mineru_keyframe_processor.py:654-662 | the parse fails exactly when a closing `$$` line comes in a slide before any opening `$$` line in the whole document (the formula lines are never reset); a slide is open exactly after a stamp line |
| MineruMarkdown.StepOutcome | mineru_keyframe_processor.py:617-666 | one line raises exactly when it closes a formula with none opened |
| MineruMarkdown.StepCurrent | mineru_keyframe_processor.py:638-666 | within a slide the last `# ` title wins; image lines append images, text lines append content and closing lines non-empty formulas |
| MineruMarkdown.ParseLinesSlides | mineru_keyframe_processor.py:617-635 | one slide per stamp line, in order, with the stamp's text and seconds |
| MineruMarkdown.ParseLinesShape | mineru_keyframe_processor.py:638-666 | content lines are non-empty and do not start with `:`, formulas are non-empty, images point into `images/` |
| MineruMarkdown.Stamps | mineru_keyframe_processor.py:617-629 | the stamps of the stamp lines are digit groups |
| MineruMarkdown.TotalsPositive | mineru_keyframe_processor.py:699-702 | there are images, or formulas, exactly when some slide has one |
| MineruMarkdown.TitlesFirst | mineru_keyframe_processor.py:678-679 | the main topic is the title of the first titled slide |
| MineruMarkdown.TitlesNone | mineru_keyframe_processor.py:679 | with no titled slide there are no titles, so the topic is `未知主题` |
| MineruMarkdown.TitlesAre | mineru_keyframe_processor.py:678 | the key topics are exactly the non-empty titles |
| MineruMarkdown.ImageDistributionAt | mineru_keyframe_processor.py:695-698 | `image_distribution` maps `slide_N` to the N-th slide's image count, and has no other keys |
| Server.AllowedFileOf | server.py:41-42 | a name is allowed exactly when the text after its last dot, lower-cased, is one of the six video extensions |
| Server.NoDotNotAllowed | server.py:42 | a name without a dot is never allowed |
| Server.AllowedFile | server.py:41-42 | a name is allowed exactly when it has a dot with no dot after it and the text after that dot, lower-cased, is an allowed extension |
| Server.SplitExt | server.py:64 | `os.path.splitext` splits the name into base and an extension that is empty or a dot with no further dot or slash |
| Server.UniqueNameKeepsExtension | server.py:62-65 | the stored name splits into the base with `_id` appended and the same extension, and is allowed exactly when the secured name is |
| Server.UniqueName | server.py:62-65 | the stored name inserts `_id` at the position where the extension begins: at a dot with no dot after it, or at the end without an extension |
| Server.ExtractResponse | server.py:118-129 | one reported entry per keyframe, in order, each with the folder URL and the rewritten timestamp |
| Server.DashesToColons | server.py:126 | rewriting `-` to `:` turns `HH-MM-SS-mmm` into `HH:MM:SS:mmm` |
| Server.ExtractedTimestamp | server.py:126 | the reported `timestamp_formatted` is `HH:MM:SS:mmm` of the keyframe's whole milliseconds |
| Server.ParseFrameName | server.py:450-465 | a name gets a non-empty timestamp text exactly when it has at least three `_` fields, its second holds a `-` and splits into at least three `-` fields, and `int` reads the time fields; otherwise time 0 and the empty text; the time is never negative |
| Server.ListKeyframes | server.py:445-477 | the loop and the sort return the listing `Listed` describes |
| Server.ListedPermutation | server.py:447-474 | the listing holds one entry per name ending in `.jpg`, `.jpeg` or `.png` (case-insensitively) and no others, each decoded from its name |
| Server.ListedOrdered | server.py:477 | the listing is ordered by timestamp |
| Server.ListedStable | server.py:447 | entries with equal timestamps keep the order of their names |
| Sorting.SortBySorted | server.py:477 | the sort orders its result |
| Sorting.SortByStable | server.py:477 | the sort is stable: elements with equal keys keep their input order |
| Roundtrip.MatchFields | generate_structured_json.py:40-41 | the pattern accepts every name that starts with one built from well-formed groups, whatever follows, and gives the groups back |
| Roundtrip.NameIsReassembly | extractor.py:267 | the extractor's name is the reassembly of the clock fields and the padded count |
| Roundtrip.MatchClockName | extractor.py:267 | below the hundredth hour every name the extractor writes matches the pattern, with the clock fields and count as groups |
| Roundtrip.GeneratorReadsName | generate_structured_json.py:43-54 | the generator reads the extractor's name back to the ASR timestamp text, the whole milliseconds as seconds, and the count as frame number |
| Roundtrip.SortKeyOfName | generate_structured_json.py:33 | the sort key of the extractor's name is its count |
| Roundtrip.MineruReadsName | mineru_keyframe_processor.py:76-83 | the MinerU decoder reads the extractor's name back to the ASR timestamp text |
| Roundtrip.ServerReadsName | server.py:454-465 | the server reads the extractor's name back to the whole milliseconds and the ASR timestamp text |
| Roundtrip.ServerReadsClock | server.py:454-465 | the server reads a name built from a clock to that clock's seconds and text |
| Roundtrip.GeneratorParsesTimestamp | generate_structured_json.py:14-24 | `parse_timestamp` reads the ASR timestamp text back to the whole milliseconds |
| Roundtrip.StampLineReadsTime | mineru_keyframe_processor.py:617-629 | a `:HH:MM:SS.mmm` stamp line of the ASR timestamp text opens a slide with that text and the whole milliseconds |
| Roundtrip.LongHourUnmatched | generate_structured_json.py:40 | a name with a three-digit hour field never matches the pattern |
| Roundtrip.HundredthHourUnmatched | extractor.py:340-344 | from the hundredth hour on, the extractor's name no longer matches the pattern, so the generator and MinerU decoders drop the keyframe |

## Left out

### Left out by design

- Video decoding, seeking and `cv2.imwrite` are not modelled. The video is the `Video` oracle, and saving a frame only records its path.
- `calculate_frame_difference` is the oracle's `diff`.
- Extractor.KeyframeExtractor.CalculateAdaptiveThreshold: the mean plus half the standard deviation is the parameter `spread`. Only the sampling, the defaults and the clamp are modelled, because the statistic is floating-point numerics.
- Extractor.KeyframeExtractor.ExtractKeyframes: the progress callback, `last_progress_update`, the wall clock and debug logging are not modelled. Neither is the `total_frames_to_process` estimate, which only feeds progress.
- Extractor.Keyframe: the `path` and `timestamp_formatted` entries of a keyframe dictionary are the member functions `Path()` and `TimestampFormatted()`. They compute from the stored output folder, time and number, with the same values.
- Floats are exact reals. `round(..., 2)` on sentence times is not modelled, so the apportioning lemmas state the times before rounding.
- Structured.ParseTimestampOfClock: Python's `float()` is a parameter, required only to read plain decimals correctly (`ReadsDecimals`). Its other accepted syntaxes are not modelled.
- Roundtrip.GeneratorParsesTimestamp has the same `float()` assumption.
- The Whisper model, its device choice and file writing are not modelled. The transcription result is an input.
- NLTK `sent_tokenize` is the parameter `tokenize`.
- Asr.MergeSegments: it requires that no two input segments share a word-list object. Without that, aliasing between input lists would make the in-place extension order-dependent, which the model does not capture.
- `load_asr_data`, JSON reading and writing, directory globbing and walking, and `datetime.now()` stamps are not modelled. A directory is the list of its entry names, in the order the file system yields them.
- Structured.GlobPath: the keyframes directory is the text `str(keyframes_dir)`, which pathlib has already normalised (no trailing or doubled slashes, `.` for the current directory). pathlib's normalisation itself is not modelled.
- `key_topics` is a set, because the order of `list(set(...))` is unspecified.
- The MinerU subprocess, PDF rendering, `cleanup_redundant_files`, `extract_key_content_only` and the batch driver are not modelled; they are I/O.
- MineruMarkdown.ParseMarkdownToJson: the error record keeps only its source file. The exception message and time are not modelled.
- The Flask routes, file saving and the `404` branch of `list_keyframes` are not modelled. Neither is the video duration that `list_keyframes` reads with `get_video_duration`, since that is already modelled as `VideoDuration`.
- `secure_filename` and `uuid4` are not modelled. The secured name is an input and the unique id a parameter without dots or slashes.
- `/extract` passes a `force_interval` argument that `extract_keyframes` does not accept. The model calls the extractor with the arguments it does accept.
- Character classes are modelled on explicit sets:
  - `\d` is the ASCII digits;
  - `isupper` is the upper-case letters of the Basic Latin, Latin-1 Supplement and Latin Extended-A blocks, the Greek capitals from U+0386 to U+03AB, the Cyrillic capitals from U+0400 to U+052F, and the full-width Latin capitals `Ａ`–`Ｚ`; capitals of other scripts and blocks (Latin Extended-B and beyond, archaic and Coptic Greek letters, Armenian, Georgian, letter-like symbols and others) count as not upper-case;
  - `lower` maps ASCII letters;
  - `strip` removes the characters Python counts as whitespace.

  Python's full Unicode tables are not modelled.

### Behaviour worth knowing

The model follows the code in each case.

- Merging: a segment whose accumulated text ends with `.` closes its group even when the next text starts in lower case. So `"Hello."` followed by `"world"` gives two merged segments.
- Alignment: segments are attached to keyframes from the ASR file's raw `segments`, not from the apportioned sentences.
- Keyframe names: the count is printed with `:04d`, which widens past 9999. The decoders' `\d+` accepts any width.
- Keyframe names: an hour of 100 or more prints three digits, which the `\d{2}` patterns reject (`Roundtrip.HundredthHourUnmatched`). The server's decoder still reads such names.
- Markdown slide parser: `formula_lines` is never reset between formulas or slides. A closing `$$` line appends to the last opened formula's lines.
- Markdown slide parser: a closing `$$` line inside a slide raises only while no `$$` line has opened a formula anywhere earlier in the document, and then the whole call returns the error record.
- Markdown slide parser: a single line `$$x$$` only opens a formula.
