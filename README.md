# tipping-points-climate: the content pipeline and scroll engine in Dafny

This project models two parts of the tipping-points-climate scrollytelling site in Dafny and proves properties of the model.

**The narrative content pipeline.** The site's text is one Markdown document. It passes through three parsers and one scheduler:

- `convert_content.py` (module `ConvertContent`) writes the *paired* scheme. The keys are:
  - `title`;
  - `description-title-1`;
  - one `header-i` / `description-i` pair per `## ` section, numbered from 1.

  The output is a `sceneContent` object literal that ends with two fixed navigation entries.
- `convert_content_2.py` (module `ConvertSegments`) writes the *segment* scheme:
  - `header-0` holds the title;
  - bodies are cut at `[segment]`;
  - every non-blank piece gets the next `segment-k` of one shared counter;
  - section headings borrow the counter's current value.
- `generate_config.py` (module `GenerateConfig`) turns a content map into a timeline of scene records. With T = the number of `header-` keys plus one, scene i runs over [i/T, (i+1)/T].
- `markdownParser.js` (module `MarkdownParser`) cuts the text before every `# ` or `## ` heading line. It gives each heading an id (the slug of its title) and fills a content map keyed by `header-<id>` / `description-<id>`.

Python's `re` is modelled directly in module `PyRegex`, not as a general regex engine. It covers the three searches both converters share:

- the multiline title search;
- the start-anchored title body;
- `findall` over `## ` sections.

These are explicit scans that keep Python's leftmost, greedy/lazy and backtracking behaviour. The string primitives live in module `Strings`: `strip`/`trim` with each language's whitespace set, literal `split`/`join`, backslash doubling and decimal numerals.

**The scroll-progress engine.**

- `interpolation.js` (module `Interpolation`): `clamp`, `lerp`, `calculateProgress`, `lerpPosition`, `Easing.LINEAR`, over exact reals.
- `TransitionManager.js` (module `Transitions`): the entry window, the exit window or the resting state, and `isVisible`.
- `TransformManager.js` (module `Transforms`): per-type transforms, where the last active transform of each type wins.
- `LifecycleManager.js` (module `Lifecycle`): the class `LifecycleManager`. It keeps the object registry, the scroll progress and the scroll-lock window as fields that its methods update.

How each kind of code is modelled:

- Scripts that fill a dict or grow a string in a loop are methods with loops. Each is proved equal to a specification function (for example `ConvertContent.EmitJs`, `ConvertSegments.AddSegments`, `GenerateConfig.GenerateSceneConfig`, `MarkdownParser.ParseMarkdownContent`, `Transforms.GetActiveTransforms`).
- The properties the code promises are lemmas about those functions.
- The pure interpolation and transition code is functions and lemmas.

## Model

| member | source | states |
|---|---|---|
| Strings.Trim | src/content/convert_content.py:14 | `strip()` / `trim()`: never longer than its input |
| Strings.TrimSpec | src/content/convert_content.py:26-27 | the result is the slice of the text between its leading and trailing whitespace; both cut ends are whitespace and the kept text neither starts nor ends with whitespace |
| Strings.TrimEmptyIffBlank | src/content/convert_content_2.py:22 | `segment.strip()` is empty exactly when the piece is all whitespace |
| Strings.TrimIdempotent | src/utils/markdownParser.js:15 | trimming an already trimmed text changes nothing |
| Strings.IndexOf | src/content/convert_content_2.py:20 | the first occurrence of a separator at or after `i`, with no occurrence before it, or the end of the text |
| Strings.Split | src/content/convert_content_2.py:20 | a literal split always yields at least one piece |
| Strings.JoinSplit | src/utils/markdownParser.js:16 | joining the pieces of a split with the same separator gives back the text |
| Strings.SplitPiecesFree | src/content/convert_content_2.py:34 | no piece of a split on `[segment]` contains the marker |
| Strings.Escape | src/content/convert_content.py:39 | doubling backslashes never shortens the text |
| Strings.UnescapeEscape | src/content/convert_content.py:51 | reading `\\` back as one backslash recovers the escaped text exactly |
| Strings.EscapeNoBackslash | src/content/convert_content.py:39 | text without backslashes is written unchanged |
| Strings.NatStr | src/content/convert_content.py:26 | the decimal rendering of `i` in `f'header-{i}'` is a non-empty digit string |
| Strings.ParseNatStr | src/content/convert_content_2.py:44 | `int()` of a rendered number gives the number back |
| Strings.NatStrInjective | src/content/convert_content.py:26-27 | distinct section numbers give distinct key spellings |
| PyRegex.LineEnd | src/content/convert_content.py:12 | the end of the line holding `i`: the next newline or the end, with no newline before it |
| PyRegex.SkipNewlines | src/content/convert_content.py:17 | greedy `\n+`: the first non-newline at or after `i`, all newlines before it |
| PyRegex.FirstStop | src/content/convert_content.py:22 | lazy `[\s\S]+?` stops at the first index where `(?=\n## \|$)` holds |
| PyRegex.MatchBody | src/content/convert_content.py:22 | `\n+([\s\S]+?)(?=\n## \|$)` at a line end: a non-empty body ending at the first lookahead; no match exactly when no newline follows, or a single final newline is all that is left |
| PyRegex.TitleIndex | src/content/convert_content.py:12 | the MULTILINE search for `^# (.+)$` stops at a `# ` line with at least one character after the marker, or reports none |
| PyRegex.TitleIndexSpec | src/content/convert_content.py:12 | that line starts a line and no earlier line is a title line |
| PyRegex.TitleFromSpec | src/content/convert_content.py:12-14 | the title is the rest of the first `# ` line, wherever it is in the text; no title means no line qualifies |
| PyRegex.TitleBody | src/content/convert_content.py:17-19 | the title body exists only when the text starts with `# `, and is never empty |
| PyRegex.SectionsFrom | src/content/convert_content.py:22 | every found section has a non-empty single-line heading and a non-empty body |
| PyRegex.SectionBodiesStopAtNextHeading | src/content/convert_content.py:22 | no section body contains `\n## ` after its first character |
| PyRegex.BodyHasNoStop | src/content/convert_content.py:22 | one matched body contains no `\n## ` after its first character |
| PyRegex.HeadingWithoutBodyAbsorbsNext | src/content/convert_content.py:22 | `## A` directly followed by `## B` gives one section whose body is `## B` and its text |
| PyRegex.TitleBodyAbsorbsFirstSection | src/content/convert_content.py:17 | with no text between the title and the first `## `, the title body is that whole section |
| PyRegex.Match | src/content/convert_content.py:12-22 | the three searches together; a title body implies the text opens with `# ` |
| ConvertContent.KeyNameInjective | src/content/convert_content.py:14-27 | different keys of `output` are spelled differently |
| ConvertContent.Stripped | src/content/convert_content.py:25-27 | each stored section is its heading and body, both stripped, one per section, in order |
| ConvertContent.SectionMapAt | src/content/convert_content.py:25-27 | after the loop the dict holds the title keys unchanged and exactly `header-i`/`description-i` for i = 1..n, holding section i's stripped heading and body |
| ConvertContent.OutputMapAt | src/content/convert_content.py:9-27 | `output` holds `title` iff a title was found, `description-title-1` iff a title body was found, and both keys of every section; each with its stripped text |
| ConvertContent.TitleDescriptionNeedsLeadingTitle | src/content/convert_content.py:17-19 | `description-title-1` exists only when the document starts with the `# ` line |
| ConvertContent.BuildOutput | src/content/convert_content.py:9-27 | the method fills exactly that dict |
| ConvertContent.SectionEntryAt | src/content/convert_content.py:43-52 | the section part of the literal holds section i's header at 2(i-1) in double quotes and its description right after it in backticks |
| ConvertContent.TitleEntryAt | src/content/convert_content.py:33-40 | the title entries are the found title keys with their dict values, in that order |
| ConvertContent.SectionsPartAt | src/content/convert_content.py:43-52 | an entry after the title entries is a section key of the dict, with its value, at its key's place |
| ConvertContent.SectionPartAt | src/content/convert_content.py:43-52 | the same for the document's literal |
| ConvertContent.TitlePartAt | src/content/convert_content.py:33-40 | an entry of the title part is a title key of the dict, with its value |
| ConvertContent.EntryAt | src/content/convert_content.py:33-52 | every entry of the literal is a dict entry, quoted by its kind, at its place in the order title, description-title-1, header-1, description-1, ... |
| ConvertContent.KeyWritten | src/content/convert_content.py:43-52 | every key of the dict is written, at its place |
| ConvertContent.TitleKeyWritten | src/content/convert_content.py:33-40 | a found title key is written among the title entries |
| ConvertContent.SectionKeyWritten | src/content/convert_content.py:43-52 | section i's keys are written at 2(i-1) and 2(i-1)+1 after the title entries |
| ConvertContent.EntriesListOutput | src/content/convert_content.py:30-52 | the literal lists the dict exactly: every entry is the dict's, every key is written, no key twice |
| ConvertContent.DescriptionRoundTrip | src/content/convert_content.py:38-40 | undoing the backslash doubling of a backtick value recovers the stripped title body or section body it came from (only that doubling: a JavaScript reading of the literal also interprets `` ` `` and `${`) |
| ConvertContent.TitleText | src/content/convert_content.py:33-40 | the title lines are the `title` line then the `description-title-1` line, each only when found |
| ConvertContent.SectionText | src/content/convert_content.py:47-52 | one more section appends its header line and its description line |
| ConvertContent.SectionKeysAt | src/content/convert_content.py:26-27 | both keys of section i hold its stripped heading and body |
| ConvertContent.EmitStep | src/content/convert_content.py:43-52 | in one turn of the loop both keys are present, and the literal grows by their two lines |
| ConvertContent.EmitTitleLines | src/content/convert_content.py:33-40 | the method writes the title lines of the literal |
| ConvertContent.EmitSectionLines | src/content/convert_content.py:43-52 | the loop writes every section's two lines after the title lines, in order |
| ConvertContent.EmitJs | src/content/convert_content.py:30-58 | the literal is the prefix, the entries in order and the two static `⌃` entries with `};` |
| ConvertContent.ConvertMdToJs | src/content/convert_content.py:3-58 | the script's output for a document is its `sceneContent` literal |
| ConvertSegments.KeyIndexOfName | src/content/convert_content_2.py:44 | `int(x.split('-')[1])` on a key gives its number |
| ConvertSegments.DigitsDashFree | src/content/convert_content_2.py:44 | a rendered number contains no `-`, so the split has exactly two parts |
| ConvertSegments.KeyNameInjective | src/content/convert_content_2.py:15-37 | different keys are spelled differently |
| ConvertSegments.RunAppend | src/content/convert_content_2.py:12-38 | storing two runs of units is storing the first, then the second |
| ConvertSegments.PieceStep | src/content/convert_content_2.py:21-24 | a piece blank after stripping changes nothing and takes no number; any other piece goes, stripped, to `segment-<counter>` and the counter advances |
| ConvertSegments.RunAt | src/content/convert_content_2.py:12-38 | in the final dict, `segment-k` exists for exactly k below the count of non-blank pieces and holds the k-th one in document order; `header-i` holds the last heading read while i pieces had been stored; the counter is the number of pieces |
| ConvertSegments.HeadingAtMost | src/content/convert_content_2.py:31 | no heading is numbered beyond the counter |
| ConvertSegments.HeadingWithoutSegmentsIsReplaced | src/content/convert_content_2.py:31-38 | a heading whose section stores no piece is overwritten by the next heading |
| ConvertSegments.HeadingSharesNumberWithNextSegment | src/content/convert_content_2.py:30-38 | after any prefix of units, a heading followed by a segment puts both under the counter's value, so a heading takes the number of the first segment stored after it |
| ConvertSegments.MaxIn | src/content/convert_content_2.py:44 | `max` of a non-empty set is an element and bounds every element |
| ConvertSegments.MaxIndex | src/content/convert_content_2.py:44 | the largest key number is some key's number and bounds every key's |
| ConvertSegments.Dense | src/content/convert_content_2.py:12-38 | every index from 0 to the largest has a header or a segment |
| ConvertSegments.RunEmpty | src/content/convert_content_2.py:44 | the dict is empty, so `max` raises, exactly when the document yields no title, no piece and no section |
| ConvertSegments.LinesTextAppend | src/content/convert_content_2.py:44-53 | the text of two runs of lines is the first's text followed by the second's |
| ConvertSegments.LineAt | src/content/convert_content_2.py:44-53 | every written line is a dict entry with its value, and a segment line has its comma exactly when its index is below the largest |
| ConvertSegments.LinesSorted | src/content/convert_content_2.py:44-47 | lines appear by increasing index, header before segment, so no key is written twice |
| ConvertSegments.LinesComplete | src/content/convert_content_2.py:44-50 | every dict entry with a smaller index is written |
| ConvertSegments.LiteralWritesEveryEntry | src/content/convert_content_2.py:44-50 | the literal writes every entry of the dict |
| ConvertSegments.OnlyLastSegmentUnterminated | src/content/convert_content_2.py:52-53 | only the segment with the largest index lacks the trailing `,\n\n` |
| ConvertSegments.LinesAtText | src/content/convert_content_2.py:45-53 | the lines of one index spell what one turn appends |
| ConvertSegments.LinesStep | src/content/convert_content_2.py:44-53 | one turn of the loop appends the lines of its index |
| ConvertSegments.AddSegments | src/content/convert_content_2.py:34-38 | the method stores the non-blank pieces of a body in order |
| ConvertSegments.AddSection | src/content/convert_content_2.py:30-38 | a section stores its stripped heading at the counter, then its pieces |
| ConvertSegments.SectionUnitsStep | src/content/convert_content_2.py:30 | one more section adds its heading and its pieces |
| ConvertSegments.AddTitle | src/content/convert_content_2.py:12-24 | the title goes to `header-0`, then the pieces of the title body |
| ConvertSegments.BuildOutput | src/content/convert_content_2.py:9-38 | the dict and counter after the whole document |
| ConvertSegments.ReadIndex | src/content/convert_content_2.py:44 | reading the number of a key of the dict gives its number |
| ConvertSegments.MaxKeyIndex | src/content/convert_content_2.py:44 | None exactly for the empty dict, otherwise the largest key number |
| ConvertSegments.EmitLines | src/content/convert_content_2.py:44-53 | the loop writes the lines for indices 0 to the largest |
| ConvertSegments.EmitSegmentsJs | src/content/convert_content_2.py:41-55 | the literal for the dict, or None where `max` raises |
| ConvertSegments.ConvertMdToJs | src/content/convert_content_2.py:3-55 | the script's output for a document, None exactly when it yields no unit |
| GenerateConfig.TotalScenes | src/content/generate_config.py:24 | the scene count is at least 1 |
| GenerateConfig.SceneDurationPositive | src/content/generate_config.py:25 | `1 / total_scenes` lies in (0, 1] |
| GenerateConfig.AddTitleScenes | src/content/generate_config.py:31-60 | the title record, then `description-title`, only with a title, over [0, D] |
| GenerateConfig.SceneConfig | src/content/generate_config.py:64-95 | the header record, then the description record, both over [i·D, (i+1)·D] |
| GenerateConfig.NumberedStep | src/content/generate_config.py:63 | one turn of the loop appends the records of scene i |
| GenerateConfig.GenerateSceneConfig | src/content/generate_config.py:19-101 | the method returns the config list of the content map |
| GenerateConfig.NumberedAt | src/content/generate_config.py:63-95 | every numbered record is the header or description record of a scene in 1..T-1 |
| GenerateConfig.NumberedComplete | src/content/generate_config.py:63-95 | every present `header-i` and `description-i` with 1 ≤ i < T has its record |
| GenerateConfig.NumberedSorted | src/content/generate_config.py:63-95 | records run by start time; of two starting together the header comes first |
| GenerateConfig.SceneRecordsShape | src/content/generate_config.py:67-95 | a scene's records start at i/T, header first |
| GenerateConfig.TimeValue | src/content/generate_config.py:74-77 | i/T is `i * SCENE_DURATION`, lies in [0, 1] for i ≤ T, and T/T is 1 |
| GenerateConfig.ConfigRecordBounds | src/content/generate_config.py:30-95 | every record lasts one scene, ends by T/T, and carries its own key's content unchanged |
| GenerateConfig.ConfigSorted | src/content/generate_config.py:30-95 | start times (`entry_from.at`, as the value i·(1/T)) never decrease along the whole returned list; all share the denominator T |
| GenerateConfig.TitleSceneAtZero | src/content/generate_config.py:30-95 | a record starts at 0 exactly when it is `title` or `description-title`; every other record starts at a later scene |
| GenerateConfig.ScenesContiguous | src/content/generate_config.py:74-93 | in the returned list, every record of scene i+1 starts exactly where every record of scene i ends |
| GenerateConfig.HeaderAndDescriptionSimultaneous | src/content/generate_config.py:74-93 | a header and its description share one interval |
| GenerateConfig.TitleFirst | src/content/generate_config.py:31-44 | with a title, the first record is the `titleText` title over [0, D] |
| GenerateConfig.ConfigIds | src/content/generate_config.py:30-95 | every record id is `title`, `description-title`, or `header-i`/`description-i` with 1 ≤ i < T |
| GenerateConfig.TitleDescriptionOneNeverScheduled | src/content/generate_config.py:47 | `description-title-1` is never scheduled |
| GenerateConfig.HeaderZeroNeverScheduled | src/content/generate_config.py:63 | `header-0` is never scheduled |
| MarkdownParser.NextBoundary | src/utils/markdownParser.js:4 | the next index where `(?=^#{1,2} .*$)` holds, with none before it |
| MarkdownParser.SectionsFrom | src/utils/markdownParser.js:4 | the split from a cut yields at least one piece |
| MarkdownParser.Sections | src/utils/markdownParser.js:4 | the split always yields at least one piece |
| MarkdownParser.InnerBoundary | src/utils/markdownParser.js:4 | a heading line inside a piece is one in the text |
| MarkdownParser.MarkerNotCut | src/utils/markdownParser.js:4 | no cut falls inside a heading marker |
| MarkdownParser.SectionsFromConcat | src/utils/markdownParser.js:4 | the pieces from a cut concatenate to the rest of the text |
| MarkdownParser.FirstPieceMarked | src/utils/markdownParser.js:4 | a piece that starts at a cut starts with its marker |
| MarkdownParser.SectionsFromUncut | src/utils/markdownParser.js:4 | no piece contains a further cut |
| MarkdownParser.SectionsFromMarked | src/utils/markdownParser.js:4 | pieces after the first start with a marker; pieces before the last end a line |
| MarkdownParser.SectionsSpec | src/utils/markdownParser.js:4 | the split concatenates to the text; every piece after the first starts with `# ` or `## ` at a line start; no piece contains another such line |
| MarkdownParser.DeeperHeadingNoBoundary | src/utils/markdownParser.js:4 | a `###` line is no cut |
| MarkdownParser.HeadingLine | src/utils/markdownParser.js:11 | a match has level 1 or 2 with its marker, and its group 2 has no line terminator |
| MarkdownParser.ParseSectionSpec | src/utils/markdownParser.js:10-16 | a section parses iff the first line of its trimmed text is a heading; the content is the trimmed text after that line |
| MarkdownParser.CarriageReturnHeadingIgnored | src/utils/markdownParser.js:11 | a heading line ending in `\r` does not match |
| MarkdownParser.CarriageReturnLoneHeadingKept | src/utils/markdownParser.js:10-16 | in a CRLF file a heading with nothing under it loses its `\r\n` to the trim and is kept |
| MarkdownParser.CarriageReturnHeadingWithBodyIgnored | src/utils/markdownParser.js:10-13 | in a CRLF file a heading followed by a further line keeps its `\r`, so the piece is ignored |
| MarkdownParser.Lower | src/utils/markdownParser.js:19 | lower-casing keeps the length, turns each ASCII capital into its own small letter and keeps every other character |
| MarkdownParser.DropRun | src/utils/markdownParser.js:19 | skipping a run outside `[a-z0-9]` stops at a class character or the end |
| MarkdownParser.SlugClean | src/utils/markdownParser.js:19 | an id holds only `[a-z0-9]` and single dashes |
| MarkdownParser.SlugOfClean | src/utils/markdownParser.js:19 | a clean text is its own id |
| MarkdownParser.SlugIdempotent | src/utils/markdownParser.js:19 | slugging twice changes nothing |
| MarkdownParser.SlugKeepsAlnums | src/utils/markdownParser.js:19 | the id keeps every class character, in order, and adds none |
| MarkdownParser.SlugRun | src/utils/markdownParser.js:19 | each maximal run outside `[a-z0-9]` becomes exactly one `-`: a run between a text ending in the class and one starting in it slugs to the two slugs joined by one dash |
| MarkdownParser.TitlesCollide | src/utils/markdownParser.js:19 | `A B` and `a-b` both get id `a-b` |
| MarkdownParser.KeysDistinct | src/utils/markdownParser.js:29-35 | header keys of different ids differ, as do description keys; no header key is a description key |
| MarkdownParser.StoreAt | src/utils/markdownParser.js:28-39 | one section writes `header-<id>` with its level's type and title, and `description-<id>` only for non-empty content; other keys are unchanged |
| MarkdownParser.FoldKeys | src/utils/markdownParser.js:9-41 | a key is in the map iff some parsed section writes it |
| MarkdownParser.FoldLastWriter | src/utils/markdownParser.js:9-41 | the last section writing a key decides its value |
| MarkdownParser.ContentMapKeys | src/utils/markdownParser.js:9-41 | a key is in the content map iff some section of the text writes it |
| MarkdownParser.LastWriterWins | src/utils/markdownParser.js:29-39 | sections with the same id overwrite earlier entries; a description stays until a later non-empty one |
| MarkdownParser.NonHeadingIgnored | src/utils/markdownParser.js:11-13 | a piece whose trimmed text does not start with a heading marker adds nothing |
| MarkdownParser.ParseMarkdownContent | src/utils/markdownParser.js:1-45 | the method builds the content map of the split text |
| Interpolation.Clamp | src/utils/interpolation.js:19-21 | in [lo, hi] when lo ≤ hi; the value itself when in range; lo below, hi above; hi when lo > hi |
| Interpolation.LerpBounds | src/utils/interpolation.js:8-10 | `lerp` is `start` for p ≤ 0, `end` for p ≥ 1, and between the two always |
| Interpolation.LerpAffine | src/utils/interpolation.js:8-10 | on [0, 1] lerp moves `end - start` per unit of progress |
| Interpolation.CalculateProgress | src/utils/interpolation.js:30-33 | in [0, 1], and 1 when start = end |
| Interpolation.ProgressInRange | src/utils/interpolation.js:32 | for start < end: 0 at or before start, 1 at or after end, the exact fraction in between |
| Interpolation.LerpPositionEnds | src/utils/interpolation.js:42-47 | both coordinates start at `start`, end at `end`, and stay in the box they span |
| Interpolation.Linear | src/utils/interpolation.js:51 | easing with LINEAR changes no lerp |
| Transitions.CalculateTransition | src/core/transitions/TransitionManager.js:10-51 | the opacity is always in [0, 1] |
| Transitions.EntryPhase | src/core/transitions/TransitionManager.js:15-28 | in the entry window opacity is the elapsed share; invisible at the entry point at the start, at rest and opaque at the end |
| Transitions.ExitPhase | src/core/transitions/TransitionManager.js:31-44 | in the exit window alone opacity is the share still to come; opaque at rest at the start, transparent at the exit point at the end |
| Transitions.EntryWins | src/core/transitions/TransitionManager.js:15-31 | where both windows hold, the exit point plays no part |
| Transitions.Resting | src/core/transitions/TransitionManager.js:47-50 | outside both windows the object rests at its position, fully opaque |
| Transitions.TransitionPositionBounded | src/core/transitions/TransitionManager.js:25-41 | a transition's position stays in the box of its two end points |
| Transitions.VisibleWhileMoving | src/core/transitions/TransitionManager.js:10-74 | for a transition whose entry window opens first and ends first, an object inside its entry or exit window is visible |
| Transitions.HiddenYetOpaque | src/core/transitions/TransitionManager.js:10-74 | wherever `isVisible` hides such an object, `calculateTransition` rests it at its position fully opaque |
| Transitions.VisibleStretch | src/core/transitions/TransitionManager.js:59-74 | between two visible moments the object stays visible |
| Transitions.VisibleWithoutExit | src/core/transitions/TransitionManager.js:63-73 | with no exit, or one without duration, visible exactly from the entry on |
| Transforms.CalculateTransform | src/core/transforms/TransformManager.js:10-42 | null exactly for an unknown type; otherwise the result's type is the transform's |
| Transforms.TransformEnds | src/core/transforms/TransformManager.js:11-37 | the identity at or before the window's start, the target at or after its end |
| Transforms.ScaleBetween | src/core/transforms/TransformManager.js:19-22 | a scale stays between 1 and `scale_to` |
| Transforms.GetActiveTransforms | src/core/transforms/TransformManager.js:48-67 | the method computes the active-transform map of the list |
| Transforms.LastActive | src/core/transforms/TransformManager.js:54-64 | the last transform of a type active at p, and none after it; or none at all |
| Transforms.ActiveTransformsAt | src/core/transforms/TransformManager.js:54-66 | a type is in the result exactly when a transform of it is active, with the last such one's value |
| Transforms.UnknownIgnored | src/core/transforms/TransformManager.js:58-62 | a transform of unknown type changes nothing |
| Lifecycle.VisibleInSpec | src/core/lifecycle/LifecycleManager.js:104-115 | the visible list holds exactly the visible entries with their states |
| Lifecycle.NoneVisibleWhenHidden | src/core/lifecycle/LifecycleManager.js:104-115 | with every object hidden the list is empty |
| Lifecycle.UpdateAllAt | src/core/lifecycle/LifecycleManager.js:63-79 | recomputing keeps config and `visible`, takes the transforms, and keeps opacity in [0, 1] |
| Lifecycle.HiddenPreserved | src/core/lifecycle/LifecycleManager.js:17-126 | registration, recomputing and forcing keep every object hidden |
| Lifecycle.ForceAllTransparent | src/core/lifecycle/LifecycleManager.js:117-126 | after forcing hidden objects, every opacity is 0 |
| Lifecycle.SomeStep | src/core/lifecycle/LifecycleManager.js:88-90 | one more key recomputed updates exactly that entry |
| Lifecycle.SomeAll | src/core/lifecycle/LifecycleManager.js:87-91 | once every key is visited, all objects are recomputed |
| Lifecycle.LifecycleManager.constructor | src/core/lifecycle/LifecycleManager.js:5-11 | an empty registry at progress 0, unlocked |
| Lifecycle.LifecycleManager.RegisterObject | src/core/lifecycle/LifecycleManager.js:17-27 | stores a fresh state, so `getObjectState` then gives the configured position at opacity 0, no transforms, hidden, and every other id's state is unchanged; a new id is appended to the order, a known one replaced in place |
| Lifecycle.LifecycleManager.GetObjectState | src/core/lifecycle/LifecycleManager.js:97-99 | the state of a registered id, none for an unknown one; `RegisterObject` and `UpdateObject` state their effect through it |
| Lifecycle.LifecycleManager.UpdateObject | src/core/lifecycle/LifecycleManager.js:56-82 | an unknown id returns none and changes nothing; a known one is recomputed and its new state returned; afterwards `getObjectState(id)` gives exactly the returned value |
| Lifecycle.LifecycleManager.UpdateAllObjects | src/core/lifecycle/LifecycleManager.js:87-91 | every object is recomputed, nothing else changes |
| Lifecycle.LifecycleManager.UpdateProgress | src/core/lifecycle/LifecycleManager.js:33-49 | records the progress; locked exactly for progress in the closed window [0.9, 0.98], where it recomputes only when moving back; elsewhere unlocks and recomputes all |
| Lifecycle.LifecycleManager.LockWindow | src/core/lifecycle/LifecycleManager.js:128-130 | `shouldLockScroll` holds on one closed stretch of progress that contains 0.9 and 0.98 but neither 0 nor 1 |
| Lifecycle.LifecycleManager.GetVisibleObjects | src/core/lifecycle/LifecycleManager.js:104-115 | the visible entries in registration order |
| Lifecycle.LifecycleManager.ForceUpdateObject | src/core/lifecycle/LifecycleManager.js:120-124 | one object recomputed and made transparent when not visible |
| Lifecycle.LifecycleManager.ForceUpdateStates | src/core/lifecycle/LifecycleManager.js:117-126 | records the progress, recomputes and cleans every object; afterwards every invisible object has opacity 0 |

## Left out

- File I/O: reading `content.md` and writing `contentForExport*.js` and `generated_config.json`. Documents and content maps are parameters and the literals are return values.
- `read_js_content` (its regex extraction and Python `eval` of JavaScript text). `generate_scene_config` takes the content map as its argument.
- `console.log` debugging output in `markdownParser.js` and `LifecycleManager.js`.
- IEEE-754 arithmetic. Progress, positions and opacities are exact reals. Scene times are kept as fractions i/T (`GenerateConfig.Time`), tied to `i * SCENE_DURATION` by `TimeValue`. Facts such as T·(1/T) = 1 hold in the model, not necessarily in doubles.
- JavaScript `undefined`/NaN. A missing `duration` is modelled as a window that never holds (NaN compares false). `NaN`/`undefined` positions and a missing `scale_to` are not modelled.
- Transforms.CalculateTransform: requires a duration. The source also tolerates a missing one, giving NaN progress; but `getActiveTransforms` only calls it for active transforms, and those have a duration.
- Transitions.VisibleWhileMoving: a missing exit duration makes `at + duration` NaN, so the "after exit" test is false. The model gets this through `Option`, not through NaN.
- MarkdownParser.Lower: only ASCII capitals are lowered. JavaScript's full Unicode `toLowerCase` (for example U+0130 or the Kelvin sign U+212A) is not modelled. Strings are sequences of characters, not UTF-16 code units.
- ConvertSegments.KeyIndex: parses plain digit strings only, which is stricter than Python's `int()` (signs, underscores, surrounding whitespace). Every key the script creates is a plain numeral (`KeyIndexOfName`).
- Python dict and JavaScript object key order are not modelled as such. The emitted text follows the scripts' explicit index loops. The `LifecycleManager`'s `Map` insertion order is the `order` field.
- JavaScript's `transformations?.length` test on a missing list: the list is always present in the model, and an empty one gives the empty map.
- The concurrency and the rendering that call the scroll engine (scroll handlers, three.js, d3) are not part of this model.

Behaviours of the code that the model keeps on purpose:

- Both Python converters search `^# .+\n+([\s\S]+?)(?=\n## |$)` without MULTILINE, so the title body exists only when the document starts with `# `. With no text between the title and the first section, the greedy `\n+` lets the body swallow that whole section (`TitleBodyAbsorbsFirstSection`).
- In the segment scheme, that absorbed section's segments are numbered with the title body's pieces. The section is also found again by the section search, so the numbering differs from a reading where each section starts fresh. The model follows the code.
- The paired scheme writes `description-title-1`, but `generate_config.py` looks up `description-title`; the text under the title is never scheduled (`TitleDescriptionOneNeverScheduled`).
- `updateObject` never sets `visible`, so `getVisibleObjects` is always empty and `forceUpdateStates` makes every object transparent (`HiddenPreserved`, `NoneVisibleWhenHidden`, `ForceAllTransparent`).
- The converters write text into JavaScript literals without JavaScript escaping. Only backslashes in the backtick descriptions are doubled. A `` ` `` or `${` in a description, or a `"` or `\` in a title or header (convert_content.py:35, :48), does not read back as the original text. `DescriptionRoundTrip` states the backslash round trip only.
- `isVisible` and `calculateTransition` disagree before the entry and after the exit: the object is reported hidden while it rests fully opaque (`HiddenYetOpaque`).
- `markdownParser.js` splits lines on `\n` only, but trims each piece first. In a CRLF document a heading followed by a further line in its piece keeps its `\r` and is ignored; a heading with nothing under it loses the `\r\n` to the trim and is kept (`CarriageReturnHeadingIgnored`, `CarriageReturnHeadingWithBodyIgnored`, `CarriageReturnLoneHeadingKept`). Sections whose titles slug alike overwrite each other (`TitlesCollide`, `LastWriterWins`).
