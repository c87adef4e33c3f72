# SEOAgent issue pipeline, modelled in Dafny

The SEOAgent backend takes a Lighthouse SEO report and the page's HTML. It
returns the failing audits as line ranges of that HTML, ready for an LLM to
rewrite. This project models the deterministic heart of that pipeline and
proves what each stage promises:

- **Audit normaliser** (`LHRTool.parse_lhr_json`, module `LhrParser`).
  - Failing audits become flat issue records: one per item, or a single
    placeholder when the audit has no items.
  - Each record carries the node, link, code and source-location
    descriptors its item provides, and starts "unmatched".
- **Locator** (`matcher.py`, modules `LineIndex`, `TagPatterns` and
  `Matcher`).
  - Line-start index; offset-to-line conversion by binary search; the
    ±80-line search window.
  - Descent along a Lighthouse node path, tolerating up to two skipped
    siblings.
  - Mapping an element to a text span: first the snippet's first
    occurrence, else a start tag found by its key attributes, then a
    same-tag, depth-counted scan for its close tag.
  - The ordered fallback chain of `match_single_issue`, and `match_issues`
    over a whole report. Each step is a function (`NodeSpanOf`,
    `LinkSpanOf`, `DocumentSpanOf`, `CodeSpan`). `IssueSpanOf` tries them in
    order and stops at the first that raises or finds a span. Each method
    of the chain is proved to compute its function.
  - The regular expressions are written out as "first match at or after a
    position" functions over `seq<char>`.
- **Interval merger** (`issue_merger.py`, module `IssueMerger`).
  - Sorts by start line and greedily merges overlapping records, keeping
    the first longest snippet and synthesising a combined title.
  - Orders the result bottom-up.
  - The insertion variant merges positive ranges only, passing negative
    and zero ranges through.
- **Range grouper** (`result_processor.py`, module `ResultProcessor`).
  - Groups located issues under `"start-end"` keys and merges ranges that
    overlap or touch.
  - Orders the ranges by end line, descending, and slices each range's
    lines out of the page.
  - Builds the summary, the LLM input and the reshaped output of
    `transform_matched_result`.
- **Caption clean-up** (`ImageCaptioner.generate_short_caption`, module
  `Caption`): strip, drop one filler prefix, capitalise, punctuate.

Shared modules:

- `Wrappers`: `Option` and `Result`.
- `Issues`: JSON values and the issue record.
- `Text`: Python's string operations on ASCII: `strip`, `lower`, `find`,
  `split`, `join`, `int()` and `str()` of integers.
- `Sorting`: Python's stable `sorted`/`list.sort` as a stable insertion
  sort.

The following Python exceptions become `Failure` values, not
preconditions:

- the `TypeError` of a non-string snippet;
- the `IndexError` of a source line far outside the line index;
- the `ValueError` of a path index that does not read as an integer;
- the `AttributeError` of a path or a link text that is not a string;
- the `ValueError` of a key that does not read as two integers;
- the `TypeError` of comparing a missing line number.

Other exceptions come from input shapes the datatypes cannot hold; they are
listed under "## Left out".

`sort_ranges_by_size` does not sort by size, whatever its name and
docstring say. It sorts by the end line, descending
(backend/app/core/result_processor.py:96-97), and so does the model
(`ResultProcessor.SortedRangesOrder`).

The repository's test expectations for the dummy data
(backend/tests/test_dummy_processor.py:27-31) disagree with the code and
with the expectations the code prints (backend/app/core/result_processor.py:385-388).
The model follows the code (`ResultProcessor.DummyMerge`).

## Model

| member | source | states |
|---|---|---|
| LhrParser.ParseLhrJson | backend/app/core/lhr_parser.py:13-96 | the output score is the report's `seoScore` unchanged; the issues are those of the failing audits in audit order; every one is unmatched |
| LhrParser.AppendItems | backend/app/core/lhr_parser.py:49-94 | the item loop appends exactly one issue per item, in item order, after the issues already collected |
| LhrParser.ItemIssues | backend/app/core/lhr_parser.py:49-94 | an audit with n items yields exactly n issues |
| LhrParser.ReportIssuesUnmatched | backend/app/core/lhr_parser.py:42-46 | every emitted issue is "unmatched" with no HTML and no lines |
| LhrParser.AuditIssueOrigin | backend/app/core/lhr_parser.py:21-94 | an audit emits issues only when it is failing; each issue is the placeholder when the audit has no items, else the issue of the item at the same position |
| LhrParser.AuditIssuesCount | backend/app/core/lhr_parser.py:23-47 | a passing or unscored audit emits nothing; a failing one emits one issue without items, else one per item |
| LhrParser.PlaceholderShape | backend/app/core/lhr_parser.py:33-47 | a failing audit without items emits exactly one placeholder, with node, url, link text, code and source location all empty |
| LhrParser.AuditItemsInOrder | backend/app/core/lhr_parser.py:49-94 | the k-th issue of a failing audit comes from its k-th item and carries the audit's id and title |
| LhrParser.ItemDescriptors | backend/app/core/lhr_parser.py:64-92 | node is set iff the item's node is an object, copying exactly selector, path, snippet, nodeLabel and lhId; url and link text are `href` and `text` when present, else null; code iff `source` is a string; source location iff `url` is a string and one of line, column or original is present |
| LhrParser.IssuesFromFailingAudits | backend/app/core/lhr_parser.py:21-27 | every emitted issue carries the id and title of some failing audit |
| LineIndex.LineStarts | backend/app/core/matcher.py:10-16 | the index starts with 0, is strictly increasing and stays within the text |
| LineIndex.BuildLineIndex | backend/app/core/matcher.py:10-16 | the append loop builds that index, with one entry more than the text has newlines |
| LineIndex.LineStartsShape | backend/app/core/matcher.py:10-16 | the index has newline count + 1 entries; every later entry follows a `\n`; every position after a `\n` is an entry |
| LineIndex.BisectRight | backend/app/core/matcher.py:18-21 | `bisect_right`: everything before the result is at most the value, everything from it on is greater |
| LineIndex.OffsetToLine | backend/app/core/matcher.py:18-21 | `bisect_right` over the line starts: the result counts the line starts at or before the offset, which is the 1-based line; it is at least 1 for an offset at or after the first line start |
| LineIndex.OffsetToLineMonotone | backend/app/core/matcher.py:18-21 | a later offset never has an earlier line |
| LineIndex.OffsetToLineCountsNewlines | backend/app/core/matcher.py:10-21 | the line of an offset is 1 + the number of newlines before it |
| LineIndex.SliceToLines | backend/app/core/matcher.py:23-24 | a slice with start ≤ end maps to a start line ≤ end line, within the index |
| LineIndex.PyIndex | backend/app/core/matcher.py:42 | Python list indexing: defined exactly for −n ≤ i < n, and the element itself for 0 ≤ i < n |
| LineIndex.FindWindowShape | backend/app/core/matcher.py:37-42 | without a preferred line the window is the whole text; for a line p in the index it runs from the start of line max(1, p−80) to the start of line min(n, p+80) and contains line p; it raises exactly when p is far enough outside the index |
| TagPatterns.SkipSpaces | backend/app/core/matcher.py:33 | `\s*` stops at the first non-blank or the end |
| TagPatterns.OpenAt | backend/app/core/matcher.py:131 | a match of `<\s*tag\b` starts at `<` |
| TagPatterns.CloseAt | backend/app/core/matcher.py:132 | a match of `</\s*tag\s*>` starts at `</` and ends at `>` |
| TagPatterns.QuoteAt | backend/app/core/matcher.py:33 | `\bk\s*=\s*['"]` at a position: the quote that opens the value comes after the name and is `'` or `"` |
| TagPatterns.LastAttr | backend/app/core/matcher.py:33 | a lookahead that succeeds settles on an occurrence of the attribute between the end of the tag name and the tag's `>` |
| TagPatterns.LastAttrFinds | backend/app/core/matcher.py:33 | any occurrence of the attribute in that range makes the lookahead succeed, at that occurrence or a later one |
| TagPatterns.Group1 | backend/app/core/matcher.py:33 | group 1 is the quote that opens the first attribute's value; it is set exactly when the first lookahead succeeds |
| TagPatterns.GtFrom | backend/app/core/matcher.py:34 | the `>` that `[^>]*>` runs to lies at or after its start |
| TagPatterns.GtFromFirst | backend/app/core/matcher.py:34 | that `>` is the first one: no `>` from the start comes before it |
| TagPatterns.TagEndAt | backend/app/core/matcher.py:29-34 | `<tag\b[^>]*>` at a position: runs from `<`, past the tag name, to a `>` |
| TagPatterns.TagEndsAtFirstGt | backend/app/core/matcher.py:29-34 | the tag ends at the first `>` after its name |
| TagPatterns.StartTagAt | backend/app/core/matcher.py:26-35 | a start-tag match runs from `<` to the first `>` after the tag name; with no attributes it is the bare tag match |
| TagPatterns.StartTagAttrs | backend/app/core/matcher.py:30-34 | a start tag matched with attributes has group 1 set, and every attribute, the first included, is written before the `>` with its value closed by group 1's quote (`\1`) |
| TagPatterns.LookaheadsGiveAll | backend/app/core/matcher.py:30-33 | lookaheads that hold make every attribute close on group 1's quote |
| TagPatterns.FirstAttrKeepsGroup1 | backend/app/core/matcher.py:33 | the first attribute's lookahead also succeeds once group 1 holds the quote it captured |
| TagPatterns.StartTagAtIntended | backend/app/core/matcher.py:26-28 | the documented "order-insensitive" pattern, with each value closed on its own quote: a match is a tag match, and with no attributes it is the bare tag match |
| TagPatterns.IntendedOrderInsensitive | backend/app/core/matcher.py:26-28 | the documented pattern does not depend on the order of the attributes |
| TagPatterns.OneAttrAsIntended | backend/app/core/matcher.py:30-34 | with at most one attribute the pattern as written is the documented one |
| TagPatterns.MixedQuotesMissed | backend/app/core/matcher.py:30-34 | as written, `<a b="x" c='y'>` with attributes c then b is not matched, because b's value must close on `'`; the documented pattern matches it (finding 2) |
| TagPatterns.HeadCloseAt | backend/app/core/matcher.py:254 | a match of `</head\s*>` starts at `<` and ends at `>` |
| TagPatterns.Search | backend/app/core/matcher.py:119-121 | `pattern.search`: the first position at or after the start where the pattern matches, or none when it matches nowhere |
| TagPatterns.SearchFindsMatch | backend/app/core/matcher.py:119-123 | a search finds a match no later than any position where the pattern matches |
| TagPatterns.SearchIsFirstMatch | backend/app/core/matcher.py:253-254 | the search from the start of the text finds position `j` exactly when the pattern matches at `j` and nowhere before |
| TagPatterns.Upto | backend/app/core/matcher.py:119 | the end bound of a windowed search is a prefix of the text, of exactly that length when it lies inside it |
| TagPatterns.TagEndInPrefix | backend/app/core/matcher.py:119-121 | a tag end found in a prefix of the text is the same in the whole text |
| TagPatterns.StartTagInPrefix | backend/app/core/matcher.py:118-121 | when no key name or value holds `>`, a start tag found inside the window is the same match in the whole text |
| TagPatterns.WindowMatchInText | backend/app/core/matcher.py:118-121 | a start tag found inside the window ends at the same `>` in the whole text; when no key name or value holds `>`, it is a whole-text match too, so the whole-text search finds something |
| Matcher.ElementsOf | backend/app/core/matcher.py:57-58 | only element children are kept, so never more than there are children |
| Matcher.FirstByTag | backend/app/core/matcher.py:75 | a found element has the tag looked for |
| Matcher.FirstWithTag | backend/app/core/matcher.py:90-92 | the first candidate whose lower-cased tag matches, and none before it does; none when no candidate matches |
| Matcher.Window3 | backend/app/core/matcher.py:90 | `kids[idx: idx+3]`: one to three consecutive children from `idx` on, fewer only at the end |
| Matcher.StepAsWritten | backend/app/core/matcher.py:86-95 | one descent step as written takes `kids[idx]` when its tag matches, else the first of `kids[idx..idx+2]` that matches provided it has children (`if not alt`), else nothing |
| Matcher.StepAsWrittenAgrees | backend/app/core/matcher.py:86-95 | the step as written equals the presence-test step except that it drops a childless alternative |
| Matcher.Step | backend/app/core/matcher.py:86-95 | the step with `if alt is None`: the first of `kids[idx..idx+2]` whose tag matches, with none before it matching; nothing exactly when none of them matches |
| Matcher.Descend | backend/app/core/matcher.py:82-95 | a level of `by_path` as written: it fails exactly when the index does not read as an integer; a found child lies within three of the index and has the wanted tag |
| Matcher.PathTarget | backend/app/core/matcher.py:60-97 | an empty path yields nothing, a non-string path fails, and an odd number of parts yields nothing |
| Matcher.PathStart | backend/app/core/matcher.py:72-78 | a found start element has the path's first tag; the root is chosen whenever its own tag matches |
| Matcher.DescendStep | backend/app/core/matcher.py:82-95 | the loop body, with its `if not alt` test, computes that level |
| Matcher.FirstFitting | backend/app/core/matcher.py:89-92 | the inner loop finds the first fitting candidate of the window |
| Matcher.ByPath | backend/app/core/matcher.py:60-97 | the while loop computes the path target |
| Matcher.WalkEndsOnLastTag | backend/app/core/matcher.py:80-97 | a walk as written (childless alternatives rejected) that ends on an element ends on one with the path's last tag |
| Matcher.PathTargetTag | backend/app/core/matcher.py:60-97 | an element `by_path` as written finds by a path of two or more steps has the path's last tag |
| Matcher.ChildlessAlternativeRejected | backend/app/core/matcher.py:87-95 | as written, a childless matching sibling is rejected, while the intended step accepts it (finding 1) |
| Matcher.KeyAttrs | backend/app/core/matcher.py:112-115 | exactly the listed attribute names the element sets, with their values |
| Matcher.Searcher | backend/app/core/matcher.py:131-137 | a compiled pattern's search as a function of the position; each match lies at or after it |
| Matcher.CloseScan | backend/app/core/matcher.py:133-147 | the depth-counted scan returns an end strictly after its start and within the text; it terminates because the position strictly grows |
| Matcher.MatchingCloseEnd | backend/app/core/matcher.py:131-147 | the close-tag loop computes that scan, depth starting at 1 |
| Matcher.StartTagFound | backend/app/core/matcher.py:117-123 | the start tag is the first match inside the window around the source line, else the first in the whole text; it ends at the first `>` after its tag name; it is a whole-text match when no key name or value holds `>`; nothing is found only when the whole-text search finds nothing, and, with no `>` in the keys, exactly then; without a source line it is the whole-text search; the window's `IndexError` is the only failure |
| Matcher.FindStartTag | backend/app/core/matcher.py:117-123 | the loop-free search computes `StartTagFound`, and states the same facts about its result |
| Matcher.SpanEnd | backend/app/core/matcher.py:127-147 | the span ends at the start tag for a void or self-closing tag, else at the matching close tag, or at the start tag again when none is left |
| Matcher.EndOfElement | backend/app/core/matcher.py:127-147 | the void check and the close-tag loop compute that end |
| Matcher.SnippetStep | backend/app/core/matcher.py:194-199 | `if snippet: raw.find(snippet)`: a truthy non-string snippet fails, and exactly then; a span is found exactly when the snippet occurs |
| Matcher.ElemSpanOf | backend/app/core/matcher.py:109-147 | the element's span starts at the start tag `StartTagFound` settles on for the element's lower-cased tag, key attributes and source line, and lies inside the text; it fails exactly when the source line has no window |
| Matcher.ElemOffsetsOf | backend/app/core/matcher.py:99-147 | the snippet's first occurrence when it occurs, the snippet's `TypeError` when it is not a string, else `ElemSpanOf`; every span lies inside the text |
| Matcher.ElemSpan | backend/app/core/matcher.py:109-147 | computes `ElemSpanOf`: a found span starts where `StartTagFound` puts the start tag (a start-tag match of the whole text when no key value holds `>`) and ends where the void check or the depth scan puts it; nothing is found only when no start tag matches, and exactly then with no `>` in the keys; only the window's `IndexError` fails |
| Matcher.MapElemToOffsets | backend/app/core/matcher.py:99-147 | computes `ElemOffsetsOf`: a snippet found in the text gives its first occurrence; a non-string snippet fails; otherwise the element's own span, from a start tag of the element (a whole-text start-tag match when no key value holds `>`); every span lies inside the text |
| Matcher.Located | backend/app/core/matcher.py:185-191 | a located issue is "matched" with `raw[s:e]` and the 1-based lines of both ends, start ≤ end, every other field kept |
| Matcher.NodeElementOf | backend/app/core/matcher.py:169-178 | an element found by a selector that has candidates is one of them; without a selector an element is found only by a path |
| Matcher.NodeElement | backend/app/core/matcher.py:169-178 | computes `NodeElementOf`: the first selector candidate when there is one, else the path target when there is a path |
| Matcher.NodeSpanOf | backend/app/core/matcher.py:169-206 | steps 1-4: `ElemOffsetsOf` of the element of steps 1-2, then, if it raised nothing and found nothing, `SnippetStep`; a failure of the path walk ends the chain; every span lies inside the text |
| Matcher.NodeSpanSnippet | backend/app/core/matcher.py:180-206 | for steps 1-4 a found snippet gives its first occurrence, a non-string snippet fails, no span means no occurrence, and with neither selector nor path only the snippet search is made |
| Matcher.NodeSpanElement | backend/app/core/matcher.py:169-192 | with no snippet found, steps 1-4 give the `ElemSpanOf` of the element of steps 1-2, and a found span starts on a start tag of that element's tag |
| Matcher.NodeSpan | backend/app/core/matcher.py:169-206 | computes `NodeSpanOf`; when steps 1-2 find an element and no snippet is found or fails, the span is that element's `ElemSpanOf`; a found snippet gives its first occurrence; the element found by selector, or else by path, gives a span at a tag of its name, a start-tag match of it when no key value holds `>`; with neither selector nor path only the snippet search is tried |
| Matcher.HrefTargets | backend/app/core/matcher.py:214-215 | exactly the anchors whose `href` is the issue's url: every kept anchor has it and every anchor with it is kept; empty exactly when none has it; the first kept is the first anchor with it |
| Matcher.HrefTargetsAppend | backend/app/core/matcher.py:214-215 | the comprehension keeps document order: filtering a concatenation concatenates the filtered parts |
| Matcher.LinkFilter | backend/app/core/matcher.py:211-213 | exactly the anchors with the url whose text fits the link text: every kept anchor fits and every fitting anchor is kept; the first kept is the first fitting anchor |
| Matcher.LinkFilterAppend | backend/app/core/matcher.py:213 | the link-text comprehension keeps document order |
| Matcher.LinkTargets | backend/app/core/matcher.py:211-213 | without an exception it is `LinkFilter`: anchors whose `href` matches and, with a link text, whose normalised text matches too; with no link text it is `HrefTargets`; failure exactly when a matching anchor meets a non-string link text |
| Matcher.LinkStepFails | backend/app/core/matcher.py:211-213 | one more anchor in front: the comprehension raises exactly when some anchor has the url and the link text is truthy but not a string |
| Matcher.LinkStepFilter | backend/app/core/matcher.py:211-213 | one more anchor in front: an outcome without exception is still `LinkFilter` |
| Matcher.LinkStepHref | backend/app/core/matcher.py:213 | one more anchor in front: with a falsy link text the outcome is still `HrefTargets` |
| Matcher.LinkCandidates | backend/app/core/matcher.py:213-215 | the anchors with the url and the link text when there are any, else all anchors with the url; it fails exactly when the link-text comprehension does; no anchor with the url gives none |
| Matcher.LinkSpanOf | backend/app/core/matcher.py:209-228 | step 5: with a truthy url, `ElemOffsetsOf` (no snippet) of the first of `LinkCandidates`, so of the first anchor with the url and the link text, else the first with the url; nothing when there is none; every span lies inside the text |
| Matcher.LinkSpan | backend/app/core/matcher.py:209-228 | computes `LinkSpanOf`; no url gives nothing; a found span starts at a tag of an anchor with that href, a start-tag match of it when no key value holds `>`; no such anchor gives nothing |
| Matcher.HeadSpan | backend/app/core/matcher.py:253-256 | a found `<head>` slice starts at a `<head>` start tag and ends at a `>`; it is absent when either the start tag or the close tag is missing |
| Matcher.HeadSpanFirst | backend/app/core/matcher.py:253-256 | the slice runs from the first `<head…>` match to the end of the first `</head>` match, and is present exactly when that close match starts after the open match |
| Matcher.DocumentSpanOf | backend/app/core/matcher.py:231-264 | step 6: for "document-title" `ElemOffsetsOf` of the first `head > title` element, and when that raises nothing and finds nothing, or for "meta-description", the `<head>` slice; nothing for other audits; every span lies inside the text |
| Matcher.DocumentSpan | backend/app/core/matcher.py:231-264 | computes `DocumentSpanOf`; only the two document-level audits use this fallback; the meta-description audit, and the document-title audit on a page without `head > title`, give the `<head>` slice |
| Matcher.CodeSpan | backend/app/core/matcher.py:267-270 | the code's first occurrence in the text, found whenever it occurs |
| Matcher.SnippetSpan | backend/app/core/matcher.py:195-198 | the snippet's first occurrence: `raw[s:e]` is the snippet |
| Matcher.FallbackSpan | backend/app/core/matcher.py:209-279 | the outcome of `LinkSpanOf`, else of `DocumentSpanOf`, else `CodeSpan`, each tried only when the ones before raised nothing and found nothing; without a url and outside the document audits, it is the code search; for a missing meta description it is the `<head>` slice |
| Matcher.IssueSpanOf | backend/app/core/matcher.py:161-279 | the first outcome among `NodeSpanOf`, `LinkSpanOf`, `DocumentSpanOf` and `CodeSpan` that is a failure or a span, in that order; every span lies inside the text |
| Matcher.SnippetFirst | backend/app/core/matcher.py:180-206 | a snippet found in the text decides the chain: unless a step raises, the span is its first occurrence |
| Matcher.IssueSpan | backend/app/core/matcher.py:161-279 | computes `IssueSpanOf`; a found snippet wins; a non-string snippet fails; without node and url the document and code fallbacks decide |
| Matcher.MatchedIssue | backend/app/core/matcher.py:151-282 | the chain fails exactly when `IssueSpanOf` fails; the issue comes back unchanged when it finds no span, and located at the span when it finds one |
| Matcher.MatchedIssueFrom | backend/app/core/matcher.py:151-282 | a matched issue is unchanged or located, and located at its snippet's first occurrence when that is found |
| Matcher.MatchSingleIssue | backend/app/core/matcher.py:151-282 | computes `MatchedIssue`; the issue comes back unchanged or located at a slice of the text; the snippet's first occurrence wins; the code and `<head>` fallbacks locate as stated |
| Matcher.MatchIssues | backend/app/core/matcher.py:284-299 | the score is copied; the issues keep their count and order, issue `i` becoming `MatchedIssue` of issue `i`, each unchanged or located; the call fails exactly when some issue's chain fails |
| Matcher.AllMatchedFrom | backend/app/core/matcher.py:284-299 | over a whole list, every matched issue is unchanged or located, and located at its snippet when that is found |
| IssueMerger.OverlapSymmetric | backend/app/core/issue_merger.py:69-75 | overlap is symmetric; [10,12] and [13,15] do not overlap; for well-formed ranges overlap means max start ≤ min end |
| IssueMerger.Step | backend/app/core/issue_merger.py:39-57 | a step adds at most one group and never leaves the groups empty |
| IssueMerger.Scan | backend/app/core/issue_merger.py:28-57 | the scan has no group exactly before the first record and never more groups than records |
| IssueMerger.FinalizeAll | backend/app/core/issue_merger.py:59-61 | every group is finalised in place |
| IssueMerger.MergeOverlappingIssues | backend/app/core/issue_merger.py:9-66 | the method computes the merge; there are never more outputs than inputs, and the output is empty exactly when the input is |
| IssueMerger.MergeSorted | backend/app/core/issue_merger.py:25-61 | the loop over the sorted records computes the finalised scan |
| IssueMerger.StepPending | backend/app/core/issue_merger.py:39-57 | a record overlapping the pending group is absorbed, else the group is closed and the record opens a new one |
| IssueMerger.StepChain | backend/app/core/issue_merger.py:28-57 | in start order, the closed groups stay ordered and apart |
| IssueMerger.StepWidens | backend/app/core/issue_merger.py:40-44 | groups only widen, and the new record lies inside the pending group |
| IssueMerger.ScanChain | backend/app/core/issue_merger.py:23-57 | after sorting, the groups are ordered and pairwise non-overlapping |
| IssueMerger.ScanCovers | backend/app/core/issue_merger.py:28-61 | every record seen lies inside some group |
| IssueMerger.Cuts | backend/app/core/issue_merger.py:48-57 | the positions where groups open are increasing, the first at 0 |
| IssueMerger.StepRuns | backend/app/core/issue_merger.py:38-57 | each group is exactly the merge of one run of consecutive records |
| IssueMerger.ScanIsRuns | backend/app/core/issue_merger.py:28-57 | the scan splits the records into consecutive runs, one per group |
| IssueMerger.BuildSpan | backend/app/core/issue_merger.py:40-44 | a merged group spans all its records, with the start of one of them and the end of one of them |
| IssueMerger.BuildHtml | backend/app/core/issue_merger.py:45-47 | a merged group keeps the first longest snippet of its run |
| IssueMerger.BuildDescriptions | backend/app/core/issue_merger.py:31-44 | a group keeps its first record's title and lists every record's title, in order |
| IssueMerger.SortedWellFormed | backend/app/core/issue_merger.py:23 | sorting keeps every range well formed |
| IssueMerger.MergeIsReversedScan | backend/app/core/issue_merger.py:23-64 | sorting by end line, descending, reverses the ordered groups |
| IssueMerger.ReversedChainOrdered | backend/app/core/issue_merger.py:63-64 | reversed, the finalised groups come bottom-up, each ending before the previous one starts |
| IssueMerger.MergeOrdered | backend/app/core/issue_merger.py:9-66 | the merged records are well formed, sorted by end line descending and pairwise non-overlapping |
| IssueMerger.MergeCovers | backend/app/core/issue_merger.py:9-66 | every input range lies inside some merged range |
| IssueMerger.MergeCoversOnce | backend/app/core/issue_merger.py:9-66 | no input range lies inside two merged ranges |
| IssueMerger.MergeOfRuns | backend/app/core/issue_merger.py:9-66 | the merged records are, bottom-up, the merges of consecutive runs of the sorted input, covering all of it |
| IssueMerger.TitleRepeated | backend/app/core/issue_merger.py:86-89 | several equal titles give "t (multiple locations)" |
| IssueMerger.TitleMixed | backend/app/core/issue_merger.py:86-93 | differing titles give "Multiple issues: ", the unique titles joined by "; " when at most three, else ending in " and N total" |
| IssueMerger.CombinedTitleShape | backend/app/core/issue_merger.py:90-93 | the combined-title rule for two or more unique titles, whatever their order |
| IssueMerger.FinalTitleCases | backend/app/core/issue_merger.py:80-93 | one description gives itself; several give the combined title of their unique values; all equal gives "(multiple locations)" |
| IssueMerger.MatchedOnly | backend/app/core/issue_merger.py:139 | exactly the matched issues are kept |
| IssueMerger.NormalizeAll | backend/app/core/issue_merger.py:142-151 | one record per issue, in order, or the comparison error exactly when some issue lacks a line number or its HTML (which Python does not always reject; see "## Left out") |
| IssueMerger.Filter | backend/app/core/issue_merger.py:154-159 | a comprehension keeps exactly the records satisfying its condition |
| IssueMerger.TransformToSimpleIssuesWithInsertions | backend/app/core/issue_merger.py:124-167 | the method computes the merged positives, then the negatives, then the zeros |
| IssueMerger.NormalizeIssues | backend/app/core/issue_merger.py:142-151 | the normalisation loop computes those records |
| IssueMerger.WithInsertionsFails | backend/app/core/issue_merger.py:139-155 | the variant fails exactly when a matched issue lacks a line number or its HTML (see "## Left out" for the one case Python lets through) |
| IssueMerger.MergeLength | backend/app/core/issue_merger.py:9-66 | merging never adds records |
| IssueMerger.InsertionsParts | backend/app/core/issue_merger.py:153-165 | the output begins with the merged positives, followed by exactly the records with a negative line or both lines zero |
| IssueMerger.ZeroStartDropped | backend/app/core/issue_merger.py:154-159 | a matched record on lines 0 to 5 fits no class and is dropped |
| IssueMerger.NormalizedSpans | backend/app/core/issue_merger.py:139-151 | issues the matcher located normalise to well-formed records, one for each |
| IssueMerger.InsertionsCover | backend/app/core/issue_merger.py:153-165 | every positive record lies inside a merged one, and the merged ones are ordered bottom-up |
| IssueMerger.WithInsertionsCovers | backend/app/core/issue_merger.py:124-167 | for located issues the variant succeeds and covers every positive range |
| IssueMerger.TransformAsWrittenLosesLines | backend/app/core/issue_merger.py:103-121 | as written, two located issues raise `KeyError` and one comes back on lines 0-0; normalised first, they keep their lines (finding 3) |
| IssueMerger.TransformSingle | backend/app/core/issue_merger.py:103-121 | corrected, a single located issue comes back on its own lines |
| IssueMerger.MergeSingle | backend/app/core/issue_merger.py:19-61 | a single record merges into one record with its own lines |
| IssueMerger.TransformCovers | backend/app/core/issue_merger.py:103-121 | corrected, every located issue's range lies inside an output range, and the outputs are ordered bottom-up and apart |
| ResultProcessor.ParseKey | backend/app/core/result_processor.py:49 | a key reads as two non-negative integers, or raises `ValueError` |
| ResultProcessor.KeyRoundTrip | backend/app/core/result_processor.py:27-50 | the key written for non-negative lines reads back as those lines |
| ResultProcessor.KeyParsesIffNonNegative | backend/app/core/result_processor.py:27-50 | a written key reads back exactly when both lines are non-negative |
| ResultProcessor.KeyInjective | backend/app/core/result_processor.py:73-77 | two ranges get the same key exactly when they are equal |
| ResultProcessor.Grouped | backend/app/core/result_processor.py:11-35 | the groups' keys are the located issues' keys, each once, in first-seen order |
| ResultProcessor.ExtractLineRanges | backend/app/core/result_processor.py:11-35 | the loop computes those groups |
| ResultProcessor.GroupedShape | backend/app/core/result_processor.py:16-35 | keys are distinct; no group is empty; a group holds only located issues with its key; every located issue is in the group of its key |
| ResultProcessor.GroupedTotal | backend/app/core/result_processor.py:16-35 | grouping keeps every located issue: the groups hold as many issues as there are located issues |
| ResultProcessor.StepSpans | backend/app/core/result_processor.py:59-68 | a step adds at most one range |
| ResultProcessor.Fold | backend/app/core/result_processor.py:57-71 | the loop keeps at least one range and never more than it has seen |
| ResultProcessor.DummyMerge | backend/app/core/result_processor.py:301-388 | the dummy ranges 10-16, 13-20, 25-30, 28-35, 40-45, 50-60 and 55-58 merge into 10-20, 25-35, 40-45 and 50-60 |
| ResultProcessor.NestedRangesMerge | backend/app/core/result_processor.py:55-71 | 10-20 and 13-14 merge into 10-20 |
| ResultProcessor.MergeOverlappingRanges | backend/app/core/result_processor.py:38-79 | the method computes the merge; an empty dictionary gives an empty one |
| ResultProcessor.ReadRanges | backend/app/core/result_processor.py:47-50 | the key-reading loop reads every key or raises |
| ResultProcessor.MergeSortedSpans | backend/app/core/result_processor.py:56-71 | the merge loop over the sorted ranges computes the fold |
| ResultProcessor.Rebuild | backend/app/core/result_processor.py:73-77 | the dictionary is rebuilt from the merged ranges |
| ResultProcessor.FoldSeparated | backend/app/core/result_processor.py:56-71 | consecutive merged ranges are apart: each next start is more than the previous end + 1 |
| ResultProcessor.FoldCovers | backend/app/core/result_processor.py:56-71 | every range seen lies inside some merged range |
| ResultProcessor.FoldWellFormed | backend/app/core/result_processor.py:56-71 | merged ranges stay well formed |
| ResultProcessor.FoldTotal | backend/app/core/result_processor.py:64 | the merged ranges hold as many issues as the ranges read (which ones: `FoldRuns`) |
| ResultProcessor.FoldRuns | backend/app/core/result_processor.py:57-71 | the sorted ranges split into consecutive runs, one per merged range; a merged range starts where its run starts, contains every range of its run, and its issues are the runs' issue lists concatenated in start order |
| ResultProcessor.RunsExact | backend/app/core/result_processor.py:57-71 | with the merged ranges apart, a sorted input range lies inside a merged range exactly when it belongs to that range's run |
| ResultProcessor.MergeRangesShape | backend/app/core/result_processor.py:38-79 | with readable keys of well-formed ranges the merge succeeds, each merged range keyed once, well formed, apart and non-negative |
| ResultProcessor.MergeRangesTotal | backend/app/core/result_processor.py:55-71 | the merged dictionary holds as many issues as the input |
| ResultProcessor.MergeRangesCovers | backend/app/core/result_processor.py:53-71 | every input range lies inside a merged range |
| ResultProcessor.MergeRangesCoversOnce | backend/app/core/result_processor.py:53-71 | no input range lies inside two merged ranges |
| ResultProcessor.MergeRangesRuns | backend/app/core/result_processor.py:53-71 | each merged range's issues are, in start order, the concatenated issue lists of exactly the input ranges that lie inside it |
| ResultProcessor.SortRangesBySize | backend/app/core/result_processor.py:82-100 | the method computes the sort of the ranges |
| ResultProcessor.SortedRangesOrder | backend/app/core/result_processor.py:89-100 | the result is a permutation of the entries, sorted by end line descending, not by size |
| ResultProcessor.SortMergedReverses | backend/app/core/result_processor.py:82-100 | on merged ranges the sort is exactly the reversal |
| ResultProcessor.SectionLines | backend/app/core/result_processor.py:110-119 | a range inside the page gets exactly its lines, end − start + 1 of them |
| ResultProcessor.Annotate | backend/app/core/result_processor.py:122-124 | one annotated issue for each issue of the range |
| ResultProcessor.AddRawHtmlContext | backend/app/core/result_processor.py:103-126 | the method computes the annotated ranges |
| ResultProcessor.WriteSections | backend/app/core/result_processor.py:112-124 | the loop annotates every entry with its section |
| ResultProcessor.WriteSection | backend/app/core/result_processor.py:122-124 | the inner loop annotates every issue |
| ResultProcessor.ContextKeeps | backend/app/core/result_processor.py:103-126 | keys, counts and all other fields are kept; with a page, every issue gets its range's key and its range's lines of the page, sliced as `lines[start-1:end]` and joined by `\n` |
| ResultProcessor.RankedShape | backend/app/core/result_processor.py:136-142 | for located issues, grouping, merging and sorting succeed and give the merged ranges bottom-up |
| ResultProcessor.RankedCovers | backend/app/core/result_processor.py:136-142 | every located issue's range lies inside a merged range |
| ResultProcessor.RankedCoversOnce | backend/app/core/result_processor.py:136-142 | and inside only one |
| ResultProcessor.RankedTotal | backend/app/core/result_processor.py:136-142 | the ranges hold as many issues as there are located issues (which ones: `RankedMembers`, `RankedPlacement`) |
| ResultProcessor.RankedMembers | backend/app/core/result_processor.py:136-142 | every issue of a merged range is a located input issue whose own lines lie inside that range |
| ResultProcessor.RankedPlacement | backend/app/core/result_processor.py:136-142 | a located input issue is in a merged range exactly when its own lines lie inside it |
| ResultProcessor.IssuesByEnd | backend/app/core/result_processor.py:148-149 | one entry per range |
| ResultProcessor.ProcessMatchedResults | backend/app/core/result_processor.py:129-158 | the method computes the processed result |
| ResultProcessor.SortEachGroup | backend/app/core/result_processor.py:148-149 | the loop sorts every range's issues |
| ResultProcessor.ProcessShape | backend/app/core/result_processor.py:129-158 | one entry per merged range, bottom-up and keyed by it; the summary counts ranges and located issues |
| ResultProcessor.ProcessTotals | backend/app/core/result_processor.py:151-157 | the summary's totals are the number of merged ranges and of located issues |
| ResultProcessor.ProcessIssueOrder | backend/app/core/result_processor.py:147-149 | within each range the issues are sorted by end line, descending |
| ResultProcessor.IssuesByEndOrdered | backend/app/core/result_processor.py:148-149 | sorting leaves every range's issues in descending end order |
| ResultProcessor.IssuesByEndMembers | backend/app/core/result_processor.py:148-149 | sorting keeps each range's key and only its own issues |
| ResultProcessor.ContextSortKeeps | backend/app/core/result_processor.py:144-149 | adding context and sorting keep one entry per range; each issue of an entry is one of that range's issues with only its HTML and key set, and each of that range's issues appears so |
| ResultProcessor.ProcessPlacement | backend/app/core/result_processor.py:136-149 | every issue of a processed range is a located input issue whose own lines lie inside that merged range, and every located input issue appears in the range its lines lie inside |
| ResultProcessor.ProcessSections | backend/app/core/result_processor.py:136-149 | every issue carries its range's key and that range's page section, and is a located input issue whose own lines lie inside that range |
| ResultProcessor.ProcessKeys | backend/app/core/result_processor.py:129-158 | every key reads back as its merged range |
| ResultProcessor.Collect | backend/app/core/result_processor.py:167-192 | one record per range |
| ResultProcessor.GetLineRangesForLlm | backend/app/core/result_processor.py:161-194 | the method computes the LLM records |
| ResultProcessor.CollectRecords | backend/app/core/result_processor.py:167-192 | the loop computes them, or the first error |
| ResultProcessor.LlmRangesOf | backend/app/core/result_processor.py:168-192 | each record carries its key, its start and end, line count end − start + 1, its issue count and one copy per issue |
| ResultProcessor.LlmOfProcessed | backend/app/core/result_processor.py:161-194 | on processed results the records succeed, bottom-up, each with a line count of at least 1 |
| ResultProcessor.KeyPartIgnoresExtraParts | backend/app/core/result_processor.py:169-176 | reading a part of a key ignores extra parts, where unpacking the whole key raises |
| ResultProcessor.ReshapedAll | backend/app/core/result_processor.py:260-293 | one output per range |
| ResultProcessor.TransformMatchedResult | backend/app/core/result_processor.py:197-298 | the method computes the reshaped ranges |
| ResultProcessor.ReshapeAll | backend/app/core/result_processor.py:260-293 | the outer loop reshapes every range |
| ResultProcessor.ReshapeRange | backend/app/core/result_processor.py:261-292 | one range is reshaped |
| ResultProcessor.FilterIssues | backend/app/core/result_processor.py:273-284 | the inner loop keeps the title, HTML and lines of each issue, in order |
| ResultProcessor.ReshapedFields | backend/app/core/result_processor.py:261-292 | each output carries its range's lines, its issue count and its page section |
| ResultProcessor.ReshapedOrder | backend/app/core/result_processor.py:283-284 | each output's issues are sorted by end line, descending |
| ResultProcessor.TransformShape | backend/app/core/result_processor.py:197-298 | one output per merged range, bottom-up, well formed and apart, each counting its issues |
| ResultProcessor.TransformIssueOrder | backend/app/core/result_processor.py:283-284 | every output's issues are in descending end order |
| ResultProcessor.TransformCovers | backend/app/core/result_processor.py:229-298 | every located issue lies inside an output range |
| ResultProcessor.TransformCoversOnce | backend/app/core/result_processor.py:229-298 | and inside only one |
| ResultProcessor.TransformTotal | backend/app/core/result_processor.py:229-298 | the outputs' issue counts add up to the located issues |
| ResultProcessor.TransformPlacement | backend/app/core/result_processor.py:229-293 | every issue of an output keeps the fields of a located input issue whose own lines lie inside that output's range, and every located input issue is kept in the output its lines lie inside |
| ResultProcessor.TransformSections | backend/app/core/result_processor.py:229-293 | an output inside the page holds exactly its lines of the page, and each of its issues keeps the fields of a located input issue whose own lines lie inside it |
| Sorting.SortBySorted | backend/app/core/issue_merger.py:23 | `sorted` orders by the key |
| Sorting.SortByStable | backend/app/core/result_processor.py:53 | `sorted` keeps equal keys in input order |
| Sorting.SortByDescSorted | backend/app/core/result_processor.py:97 | `reverse=True` orders by descending key |
| Text.IntRoundTrip | backend/app/core/result_processor.py:47-50 | `int(str(i)) == i` |
| Text.SplitJoin | backend/app/core/result_processor.py:110-119 | splitting lines joined by `\n` gives the lines back |
| Caption.FirstPrefix | backend/app/core/image_captioner.py:184-187 | the first filler in list order the lower-cased caption starts with, and none before it |
| Caption.DropFirst | backend/app/core/image_captioner.py:184-187 | the caption loses exactly that first filler (by `StartsLower`, `caption.lower().startswith(prefix)`), or stays unchanged when it starts with none |
| Caption.DropPrefix | backend/app/core/image_captioner.py:176-187 | over the six listed fillers: unchanged exactly when the lower-cased caption starts with none of them, else without the first one it starts with |
| Caption.Capitalize | backend/app/core/image_captioner.py:190 | the first character is upper-cased and the rest kept |
| Caption.Punctuate | backend/app/core/image_captioner.py:193-194 | a non-empty result ends in `.`, `!` or `?`; a `.` is added only when none of them was last |
| Caption.ShortCaption | backend/app/core/image_captioner.py:168-196 | a missing or empty caption comes back unchanged |
| Caption.DropFirstNonEmpty | backend/app/core/image_captioner.py:172-187 | dropping a blank-terminated filler from a caption not ending in a blank never empties it |
| Caption.DropPrefixNonEmpty | backend/app/core/image_captioner.py:172-187 | a stripped, non-empty caption stays non-empty after prefix removal |
| Caption.ShortCaptionEnds | backend/app/core/image_captioner.py:170-196 | a caption with a non-blank character comes out non-empty and ending like a sentence; one of blanks only comes out empty |
| Caption.ShortCaptionKeepsRest | backend/app/core/image_captioner.py:172-194 | after the prefix, only the first character changes and at most a `.` is added |
| Caption.PunctuateIdempotent | backend/app/core/image_captioner.py:193-194 | punctuating twice changes nothing more |
| Caption.OnePrefixOnly | backend/app/core/image_captioner.py:184-187 | only one filler is removed: the `break` leaves a second one in place |

## Left out

- Parsing HTML (`lxml.html.fromstring`), `cssselect`, `xpath`, `sourceline` and `text_content` are inputs. The page's root element, the candidate lists a CSS selector yields, and each element's tag, attributes, source line and text are given, not computed.
- Regular expressions are modelled for the patterns the matcher builds, on ASCII: `\b`, `\s` and the `re.I` case folding treat non-ASCII letters as Python does only where ASCII and Unicode agree.
- `str.lower()`, `str.upper()` and `int()` are modelled on ASCII. Unicode case mappings that change length (`'ß'.upper()`) and Unicode digits or underscores in `int()` are not; the keys `int()` reads here are written by `str()` of integers.
- In-place mutation and aliasing are modelled on values. This covers `issue.update` in the matcher, `current_issues.extend` in the range merge, the writes of `add_raw_html_context` and the in-place `issues.sort`. The model does not capture that the caller's dictionaries change too, or that a merged range's list is the first input range's list.
- `IssueMerger.FinalTitleCases`: `list(set(descriptions))` has a hash-dependent order. The model picks the first-occurrence order (`Dedup`), and the title lemmas are stated for any duplicate-free enumeration of the titles.
- `IssueMerger.Normalize`: a matched issue whose HTML is `None` is treated as failing. Python fails on a missing HTML only when `len` meets it, during a merge. For the matcher's own output this cannot happen, because a matched issue always has HTML.
- IssueMerger.Normalize, IssueMerger.NormalizeAll, IssueMerger.WithInsertionsFails: a matched issue with a negative start line and a `None` end line is treated as failing. In Python the three filters (backend/app/core/issue_merger.py:155-159) short-circuit before comparing the `None`, so it passes through as an insertion hint with no end line, which a `Record` cannot hold. Python raises only for a `None` start line, or a start line ≥ 0 with a `None` end line. The matcher never produces either shape, because it sets both lines of every matched issue.
- Printing and logging in `transform_matched_result`, `create_dummy_matched_result` and `test_dummy_data` are left out. The dummy data is stated with its ranges as given and its issues as parameters (`ResultProcessor.DummyMerge`).
- `ResultProcessor.NestedRangesMerge` and `ResultProcessor.DummyMerge` are stated on the merge loop over the sorted ranges, not on whole dictionaries with written keys. `ResultProcessor.KeyRoundTrip` connects the two.
- `ResultProcessor.TransformShape` and the other whole-pipeline lemmas assume that every located issue has start ≤ end, which the matcher guarantees (`Matcher.Located`). For other inputs only the functions themselves, including their `ValueError` paths, are modelled.
- Input shapes the datatypes exclude, so their exceptions are not modelled:
  - `audits`, an audit or its `details` that is not a dict (an `AttributeError`), and a non-numeric `score` (a `TypeError` at `score >= 1`), backend/app/core/lhr_parser.py:17-27;
  - a JSON-null `title`: `audit.get("title", "")` returns `None`, and the model reads it as `""`;
  - an empty or blank document, on which `html.fromstring` raises (backend/app/core/matcher.py:49): a `Page` always has a root;
  - an empty or invalid first path tag, such as the path "1,,0,IMG", on which `xpath` raises (backend/app/core/matcher.py:75): `Matcher.FirstByTag` finds nothing instead;
  - a truthy `items` that is not a list (backend/app/core/lhr_parser.py:29, 49): a dict or string iterates into values that are not dicts, on which `it.get` raises `AttributeError`, and a number raises `TypeError` at `for it in items`; `items` is a list of items or absent;
  - an item that is not a dict, on which `it.get("node")` raises `AttributeError` (backend/app/core/lhr_parser.py:65): an item is a map from keys to JSON values;
  - a truthy `node` that is not a dict, which raises on `.get` (backend/app/core/matcher.py:162-163): an issue's node is a `NodeInfo` or absent.
- FindStartTag, StartTagFound, ElemSpan, ElemSpanOf, MapElemToOffsets, NodeSpan, NodeSpanElement, LinkSpan: the match found inside the window is promised to be a start-tag match of the whole text only when no key attribute name or value holds `>`. Otherwise a lookahead can see past the window's end in the whole text, and these members promise only that the match ends at the first `>` after the tag name.
- Step: it is the corrected step (`if alt is None`), proved beside finding 1; the walk (`Matcher.Descend`, `Matcher.ByPath`) uses `Matcher.StepAsWritten`, the step as written.
- The captioning model, image download, torch and PIL are left out. The caption the model produced is the parameter of `Caption.ShortCaption`.

## Findings

| source | as written | input that shows it | evidently intended | confidence | as-written member | corrected member |
|---|---|---|---|---|---|---|
| backend/app/core/matcher.py:93 | `if not alt` tests the lxml element's truth value, which is its number of children, so a matching sibling without children is rejected | path step `0,IMG` where child 0 is a childless `<head>` and child 1 a childless `<img>` | accept any matching sibling (`if alt is None`) | not executed | Matcher.ChildlessAlternativeRejected | Matcher.Step |
| backend/app/core/matcher.py:33 | every lookahead closes its value with `\1`, which is always group 1, the quote of the first attribute's value; an element whose key attributes use different quotes is not found by its start tag, contrary to the "order-insensitive attrs" docstring | `<a b="x" c='y'>` searched with attributes c then b | close each value on its own quote (a named or numbered group per lookahead) | not executed | TagPatterns.MixedQuotesMissed | TagPatterns.StartTagAtIntended |
| backend/app/core/issue_merger.py:113-121 | matcher issues go to the merger unnormalised; they lack `start_line`, `end_line` and `raw_html`, so two matched issues raise `KeyError` and one comes back on lines 0-0 | two matched issues on lines 3-4 and 10-12 | normalise as the insertion variant does (lines 142-151), then merge | not executed | IssueMerger.TransformAsWrittenLosesLines | IssueMerger.TransformCovers |
