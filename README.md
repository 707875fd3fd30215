# cv-parser outline engines in Dafny

cv-parser turns the text lines of a CV, as pdfminer extracts them, into an
outline of sections. The repository holds two versions of that engine, and
this project models both. Each line is given as a record: the line's text, its
mean glyph size, the top and left edges of its text container, and whether it
carries any glyphs at all.

* **The arbitrary-depth engine** is `process_text_with_pdfminer` in
  `src/main.py`. Its first pass counts how often each line size occurs. It then
  groups the sizes greedily, largest first, into groups whose sizes lie within
  0.5 of the group's first size. The groups seen more than once get depths
  1, 2, … from the largest down. A line's depth is the depth of the nearest
  such size, and 1 when there is none. The second pass drives a builder whose
  state is:
  - a map from depth to the open section at that depth;
  - a buffer of body text;
  - the tree under a depth-0 root titled `CV/Resume`.

  The first depth-1 line becomes the identity line, the root's first child. A
  line opens a section when it has at most five words, starts with an
  upper-case character, does not end in '.', and has no digit among its first
  two characters. Any
  other line waits in the buffer, which is flushed as one block into the
  deepest open section.
* **The flat engine** is `process_text_with_pdfminer` and `extract_raw_text` in
  `main.py`. It reads the texts page by page in reading order: a stable sort by
  descending top, then ascending left. It records each text's size in a table
  keyed by text and takes the mean of the table. A text is a heading when it
  is all upper-case, or when it is large, at most two words long and not
  sentence-like. The builder makes the first text a section of its own. It
  then makes one depth-1 section per heading, each holding at most one depth-2
  block of the body text that follows it. The block of the first heading also
  holds the text between the first text and that heading, which waits in the
  buffer until then.

The modules follow the two files:

* `Text` (text.dfy) holds the string primitives both engines use:
  - `str.strip`, `str.split` and `" ".join`;
  - `isspace`, `isupper` and `isdigit`;
  - the `^Page \d+ of \d+$` footer filter.
* `Layout` (layout.dfy) holds the line record and page flattening.
* `FontSizes` (sizes.dfy) holds the size histogram, the grouping, the depth
  ranking and `get_depth`.
* `Outline` (outline.dfy) holds the heading test, the builder class
  `OutlineBuilder` and the driver `BuildOutline`. It also defines `OutlineOf`,
  the whole engine as one function of the document.
* `Reading` (reading.dfy) holds `extract_raw_text` and the reading-order sort.
* `Flat` (flat.dfy) holds the size table, the average, `is_header` and the
  flat section builder.

Both engines work by mutation, and the model keeps that form:
* `OutlineBuilder` is a class whose methods update the arena of sections, the
  open-section map and the buffer.
* The grouping, histogram, reading-order and section loops are methods with
  loop invariants.

Each method is proved equal to a specification function:
* `CollectSizes` to `SeenSizes` and `FreqOf`;
* `GroupSizes` to `GroupAll`, and its loop body `AddSize` to `AddToGroups`;
* `OutlineBuilder.Step` to `StepState`, and `OutlineBuilder.FeedAll`, the second pass, to `Run`;
* `BuildOutline` to `OutlineOf`;
* `ExtractRawText` to `ReadingOrder`;
* `BuildSections` to `FlatOutline`.

The source's promises are then proved as lemmas about those functions.

## Model

| member | source | states |
|---|---|---|
| Text.Strip | src/main.py:118 | the stripped text is no longer than the input and has no whitespace at either end |
| Text.StripEmptyIff | src/main.py:119 | a line is empty after stripping exactly when it consists only of whitespace |
| Text.Split | src/main.py:128 | str.split() yields only non-empty words without whitespace inside |
| Text.SplitJoin | main.py:72 | splitting the single-space join of words gives back exactly those words |
| Text.WordCountJoin | src/main.py:128 | the word count of a single-space join of k words is k |
| Text.JoinTrimmed | src/main.py:92-95 | joining non-empty stripped texts with single spaces gives a non-empty text that strip leaves unchanged, so the flush never sees a blank buffer |
| Text.FooterShape | src/main.py:119 | the footer filter `Text.IsFooter` holds exactly for the texts "Page <digits> of <digits>" |
| FontSizes.GlyphLinesZero | src/main.py:53-60 | no size is collected exactly when no line carries a glyph |
| FontSizes.SeenSizes | src/main.py:47-57 | the frequency dict's keys in insertion order are distinct and are exactly the sizes of the lines that carry glyphs |
| FontSizes.FreqOf | src/main.py:57 | each size's frequency is its number of lines |
| FontSizes.FreqStep | src/main.py:57 | a line bumps its own size's frequency by one when it carries glyphs and changes nothing otherwise |
| FontSizes.SumFreqSeen | src/main.py:55-57 | the frequencies add up to the number of collected sizes |
| FontSizes.CollectSizes | src/main.py:47-57 | the first-pass loop yields exactly the dict's key order, the frequency dict and the count of collected sizes |
| FontSizes.SortDesc | src/main.py:64 | sorted(..., reverse=True) of distinct sizes is strictly descending and a permutation of its input |
| FontSizes.SortDescSorted | src/main.py:75-78 | re-sorting an already descending list changes nothing |
| FontSizes.SumFreqPermutation | src/main.py:64 | the total frequency does not depend on the order in which the sizes are visited |
| FontSizes.FirstFit | src/main.py:66-70 | the chosen group is the first whose size is strictly within 0.5, and every earlier group is at least 0.5 away |
| FontSizes.GroupAll | src/main.py:63-72 | the first-fit grouping of the visited sizes is empty exactly when no size is visited, and never has more groups than sizes |
| FontSizes.FindGroup | src/main.py:66-70 | the inner scan with its early break returns exactly the first-fit index |
| FontSizes.AddSize | src/main.py:65-72 | one pass of the grouping loop adds the size's frequency to its first-fit group, or opens a new group at the end |
| FontSizes.GroupSizes | src/main.py:63-72 | the grouping loop yields exactly the first-fit grouping of the visited sizes |
| FontSizes.GroupAllSeparated | src/main.py:64-72 | sizes visited in descending order give group sizes that are descending and pairwise at least 0.5 apart |
| FontSizes.FirstFitIsLast | src/main.py:66-70 | with descending visits only the newest group can take a size |
| FontSizes.WindowOfNext | src/main.py:66-70 | a size falls in a group's window exactly when that group is its first fit |
| FontSizes.GroupAllCounts | src/main.py:63-72 | each group's count is the total frequency of the sizes at most its own size and less than 0.5 below it |
| FontSizes.GroupAllCovers | src/main.py:63-72 | every visited size lies in the window of some group |
| FontSizes.GroupAllConserves | src/main.py:63-72 | the group counts add up to the total frequency of the visited sizes |
| FontSizes.AddConserves | src/main.py:67-72 | adding a size's frequency to a group, or opening a new group, adds exactly that frequency to the total |
| FontSizes.Significant | src/main.py:75-78 | the significant sizes are exactly the groups counted more than once |
| FontSizes.SignificantSeparated | src/main.py:75-79 | the significant sizes are descending and pairwise at least 0.5 apart, so depth 1 is the largest and depths run 1..n |
| FontSizes.GroupsOf | src/main.py:63-72 | the groups of a document have sizes at least 0.5 apart, largest first, and there are none exactly when no line carries glyphs |
| FontSizes.SigOf | src/main.py:75-79 | the ranked sizes are exactly the sizes of the groups counted more than once, in group order, so the sort changes nothing; they are at least 0.5 apart, largest first |
| FontSizes.SizePass | src/main.py:47-79 | for a document: the group counts add up to the collected sizes; the groups are at least 0.5 apart; each group's size is a seen size with a positive count; every line with glyphs falls in a group's window; the ranked sizes are exactly the groups counted more than once, already sorted and spread apart |
| FontSizes.ClassifySizes | src/main.py:47-79 | the size pass computes the collected count, the groups and the ranked sizes of the document |
| FontSizes.FirstNearest | src/main.py:85 | min() returns a size at minimal distance, and the first one on ties |
| FontSizes.NearestDepth | src/main.py:81-85 | get_depth is 1 without significant sizes; otherwise it is in 1..n, names a size at minimal distance, and no shallower depth is as close |
| Outline.IsSectionHeading | src/main.py:127-132 | a heading has one to five words, and its first word starts with the heading's upper-case first character |
| Outline.HeadingWordBound | src/main.py:127-132 | a heading has at most five words, and a line of six or more words is never a heading |
| Outline.Below | src/main.py:150 | the surviving open sections are exactly those strictly shallower than the heading, unchanged |
| Outline.Reopen | src/main.py:150-169 | after a heading of depth d no open depth exceeds d, d names the new section, and shallower depths are open exactly as before, on the same sections |
| Outline.MaxBelow | src/main.py:163 | the parent depth is the greatest open depth below d, or 0 when there is none |
| Outline.AttachKeeps | src/main.py:144-169 | attaching a heading keeps the arena's invariants; a parent is always strictly shallower than the new section; a detached heading has no shallower open section |
| Outline.FlushKeeps | src/main.py:87-106 | flushing keeps the arena's invariants, its length and the root |
| Outline.IdentityKeeps | src/main.py:135-141 | the identity line becomes the root's first child, childless and never opened |
| Outline.StepState | src/main.py:134-172 | one admitted line never shrinks the arena |
| Outline.StepFits | src/main.py:134-172 | every step of the builder keeps the arena's invariants |
| Outline.RunFits | src/main.py:108-172 | the whole second pass keeps the arena's invariants |
| Outline.FinishFits | src/main.py:174-176 | the final flush keeps the arena's invariants |
| Outline.TreeWellNested | src/main.py:153-167 | in the returned tree every section's children are strictly deeper sections with admitted headings, or non-empty blocks one level deeper |
| Outline.RootShape | src/main.py:135-141 | once the root has children, its first child is a depth-1 section with no content |
| Outline.TreeOf | src/main.py:153-167 | a node read off the arena is a section with its entry's depth and heading and at most one child per item; each block child comes from a body item and each section child from a reference to a later entry with that depth and heading |
| Outline.ChildrenOf | src/main.py:161-167 | the children of a list of items: at most one per item, blocks from body items, sections from references to later entries; references to entries outside the arena are dropped |
| Outline.OutlineOf | src/main.py:39-60 | whatever the document, the engine returns a depth-0 section titled CV/Resume |
| Outline.OutlineShape | src/main.py:39-178 | the outline is a depth-0 CV/Resume root; it is well nested; it is empty when no line carries glyphs; its first child, when it has one, is the childless identity line |
| Outline.OutlineBuilder.Flush | src/main.py:87-106 | the buffer is always emptied; its joined text becomes a block one level below the section open at the given depth, and is dropped when none is open there |
| Outline.OutlineBuilder.Attach | src/main.py:150-169 | deeper and equal sections are closed; the new section is appended to the root at depth 1, else to the deepest shallower open section or nowhere; it is then opened at d |
| Outline.OutlineBuilder.OpenSection | src/main.py:144-169 | a heading flushes into the deepest open section only when one is open, and otherwise keeps the buffer; it then attaches and opens the new section |
| Outline.OutlineBuilder.TakeIdentity | src/main.py:135-141 | the identity line is appended to the root; the open map and the buffer are unchanged |
| Outline.OutlineBuilder.Hold | src/main.py:170-172 | a non-heading line is appended to the buffer and nothing else changes |
| Outline.OutlineBuilder.Step | src/main.py:134-172 | one admitted line moves the builder to exactly `StepState` of its state: the identity line while the root is empty, else a heading or a buffered text |
| Outline.OutlineBuilder.Feed | src/main.py:113-124 | lines without glyphs, blank lines and footers are skipped; the others step at their depth |
| Outline.OutlineBuilder.FeedAll | src/main.py:109-172 | a fresh builder fed every line in document order ends in exactly `Run` of those lines: one `LineStep` per line, nothing else |
| Outline.OutlineBuilder.Finish | src/main.py:174-176 | leftover body text goes to the deepest open section, and is left unused when none is open |
| Outline.BuildOutline | src/main.py:34-178 | the engine returns exactly `OutlineOf` of the document: the tree read off the arena after the size pass, one step per admitted line and the final flush |
| Reading.Sort | main.py:143 | the reading-order sort is a permutation of its input |
| Reading.SortOrdered | main.py:143 | the sorted elements are in descending top, then ascending left order |
| Reading.SortStable | main.py:143 | elements that share a position keep their relative order |
| Reading.InsertOrdered | main.py:143 | inserting into an ordered list keeps it ordered |
| Reading.Placements | main.py:132-140 | only stripped, non-empty texts that are not footers are placed |
| Reading.ReadingOrderKept | main.py:138-140 | every text in the reading sequence is non-empty, stripped and not a footer |
| Reading.TextsPermutation | main.py:143-147 | the texts read from a permuted element list are a permutation of the original texts |
| Reading.PageTexts | main.py:128-147 | the last page contributes its texts in sorted order, and they are a permutation of that page's kept texts |
| Reading.PlacePage | main.py:130-140 | the element-collecting loop yields exactly the placements of the page |
| Reading.AppendTexts | main.py:146-147 | the append loop adds the elements' texts in order |
| Reading.ExtractRawText | main.py:124-149 | extract_raw_text returns the pages' sorted texts, concatenated in page order |
| Reading.ReadingOrder | main.py:143-147 | the reading sequence holds at most one text per extracted line |
| Flat.TableKeys | main.py:46-57 | the size table's keys in insertion order are distinct |
| Flat.Table | main.py:46-57 | the table's keys are exactly the texts listed in insertion order |
| Flat.TableDomain | main.py:46-57 | a text is in the size table exactly when some line with glyphs has it as its stripped, non-empty, non-footer text |
| Flat.LastRecordingWins | main.py:57 | a duplicated text keeps the size of its last recording |
| Flat.CollectTextSizes | main.py:46-57 | the table-building loop yields exactly the table and its key order |
| Flat.Mean | main.py:63 | the average lies between the smallest and the largest recorded sizes |
| Flat.MeanBetween | main.py:63 | a value whose product with the number of texts is the sum of their sizes lies between the smallest and the largest size |
| Flat.IsHeaderFlat | main.py:65-75 | a heading is all upper-case, or is a recorded text at least 0.7 above the average with at most two words; a text missing from the table is never a mixed-case heading |
| Flat.AllCapsIsHeader | main.py:69 | an all upper-case text is a heading whatever its size, length or punctuation |
| Flat.MixedCaseHeader | main.py:67-75 | any other heading is in the table at least 0.7 above the average, has at most two words, and does not end in '.' or ',' |
| Flat.ShortLargeIsHeader | main.py:67-75 | one or two words, recorded at least 0.7 above the average, without a trailing '.' or ',' form a heading |
| Flat.HeadsExact | main.py:92 | the heading positions are exactly the texts after the first that pass the heading test |
| Flat.FlatOutline | main.py:77-122 | no texts give no sections; otherwise the first text is a section without content, and there are never more sections than texts |
| Flat.FlatShape | main.py:77-122 | the output is the first text as a section without content, then one depth-1 section per heading in order, each with at most one depth-2 block |
| Flat.NoHeadingDropsBody | main.py:109-120 | with no heading after the first text, the output is that text alone and the body is dropped |
| Flat.FlatKeepsEveryText | main.py:82-120 | once there is a heading, the texts after the first are, in order, the texts carried to the first heading, then each heading followed by its own body; the first heading's block joins the carried texts with its body, and every later heading's block joins the texts up to the next heading or the end |
| Flat.SectionStep | main.py:92-111 | one loop pass keeps the sections, the open section and the buffer equal to those the heading positions so far determine |
| Flat.BuildSections | main.py:77-122 | the section loop returns exactly `FlatOutline` of the texts, the sections the heading positions determine |
| Flat.ProcessFlat | main.py:34-122 | no recorded text gives no sections; otherwise the result is the flat outline of the reading-order texts with the table and its mean |

## Left out

- The FastAPI application, the CORS middleware, the rate limiter, the HTTP endpoints and their error handling. This is transport code without logic of its own.
- pdfminer's `extract_pages`, `seek(0)` and JSON serialisation.
  - The model takes the pages as an already-extracted sequence of line records.
  - A line's size is a given exact real: the floating-point `mean` of glyph sizes is not modelled.
  - The flat engine's average is the exact real mean of the table's values.
- The source's nested page/container/line loops become one loop over the flattened lines of the document. The container position becomes a field of each line.
- Reading.ExtractRawText: Python's in-place `list.sort` is modelled as a pure stable insertion sort, `Reading.Sort`, on the sequence of elements. Its result is the same; the in-place update of the list is not modelled.
- Python's Unicode character classes: `isspace`, `isupper`, `isdigit` and `\d` are modelled on ASCII only.
- Outline.OutlineBuilder.Flush: leaves out the branch for a buffer whose joined text is blank. Every buffered text is non-empty and stripped, so that branch cannot run, as `Text.JoinTrimmed` shows. The specification function `Outline.FlushNodes` keeps the branch.
- Outline.OutlineBuilder: the source links sections by aliasing dicts, so a child appended to an open section appears in the tree at once. The model keeps an arena of entries linked by index and reads the tree off it with `Outline.TreeOf`.
  - A section attached nowhere stays in the arena but is unreachable from the root, like the source's unattached dict.
- The "content" key: a section without that key is modelled as a section with empty content.
  - The flat engine's first section and a heading section with no body are such sections.
- A heading with no open shallower section is registered as open but attached nowhere (src/main.py:163-169). It is not attached to the root.
- The arbitrary-depth heading test has four conditions only: at most five words, an upper-case first character, no trailing '.', and no digit among the first two characters (src/main.py:127-132). So "BSc Computer Science" is a heading.
