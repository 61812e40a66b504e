# ai_commit_generator — a Dafny model of the diff-to-prompt pipeline and of `insert_number`

This project models two parts of the repository:

- The pipeline in `ai-commit-generator/commit_message_generator.py` that turns a unified diff into the values
  written into the commit-message prompt:
  - `clean_diff` deletes the binary-file sections and cuts the text to 100 lines;
  - `summarize_diff` scans the lines with a "current file" cursor and builds an
    insertion-ordered dict from path to counters, file type and declaration-like added lines;
  - `is_important_file` filters paths through an optional ignore matcher and a fixed list of patterns;
  - `generate_commit_message` aggregates the per-file summaries into totals, a set of file types,
    the important files and their key changes;
  - `_format_key_changes` renders the key changes, with at most five bullets per file;
  - a missing branch or ticket is shown as "N/A" on the `Branch:` and `Ticket:` lines, while the footer
    instruction writes the ticket raw.
- `insert_number` in `a.py`, which inserts a number into a list in place, in front of the first strictly
  greater element. The script's driver inserts the stream 5, 3, 8, 1, 2, 7 into an empty list.

Modules:

| module | file | models |
|---|---|---|
| `Options` | options.dfy | Python's `None` / value |
| `PyStrings` | py_strings.dfy | `split('\n')`, `split()`, `lstrip(chars)`, `strip()`, `join`, `startswith`, `endswith`, `in` |
| `DiffCleaner` | diff_cleaner.dfy | `clean_diff` |
| `DiffSummarizer` | diff_summarizer.dfy | `summarize_diff` and the dict it builds |
| `ImportanceFilter` | importance_filter.dfy | `is_important_file` |
| `PromptBuilder` | prompt_builder.dfy | `_format_key_changes` and the aggregation in `generate_commit_message` |
| `SortedInsert` | sorted_insert.dfy | `insert_number` and the stream in `a.py` |

How the model is built:

- **Strings.** Strings are `seq<char>`. Whitespace is Python's `str.isspace` set, which `split()`, `strip()`
  and the regular-expression class `\s` share.
- **The dict.** A dict is `Files(keys, entries)`: the map, plus the order in which keys were first inserted.
  `Put` keeps an existing key in its place.
- **`summarize_diff`.**
  - It is a method with the source's loop. The loop is proved equal to a fold `Scan` of one step per
    classified line.
  - `Scan` is then proved equal to a reference written over line indices (`Agrees`):
    - the keys are the distinct paths of the valid headers, in order of first appearance;
    - the entry of a path counts the lines between its last valid header and the next valid header.
- **`_format_key_changes` and `insert_number`.** Both are methods with the source's loops. They are proved
  equal to the functions `FormattedKeyChanges` and `Inserted`, and the source's promises are lemmas about those
  functions.
- **Comprehensions.** `DiffSummarizer.ClassifyAll`, `PromptBuilder.Blocks` and `PromptBuilder.Items` only apply
  a function to each element. They have no rows of their own: what they contribute is stated by `ScanAgrees`,
  `KeyChangeLinesAt` and `SummaryFiles`.
- **Regular expressions.** Each fixed expression is a predicate written out:
  - the binary-section pattern of `clean_diff` is recognised at each position, left to right, and its matches
    are deleted;
  - the ignore patterns become suffix and substring tests, where `$` also matches before a final newline;
  - the declaration pattern becomes "'+', whitespace, then a keyword".

Where the code and its description disagree, the model follows the code:

- The file type is the text after the last '.' with its case kept. It is not lower-cased.
- `lstrip('b/')` removes every leading 'b' and '/' character, not the prefix `b/`. So `b/bar.py` is recorded as
  `ar.py` (`DiffSummarizer.StripsPathLetters`).
- A header counts only when it starts with `diff --git` and has at least four whitespace-separated tokens.
  The model does not check that the line names two paths.
- The declaration test has no word boundary, so `+define x` counts as a `def` line
  (`DiffSummarizer.KeywordWithoutBoundary`).
- The footer instruction interpolates `ticket_number` without the `or 'N/A'` of the `Ticket:` line. A missing
  ticket is written "None" there, so the prompt asks for `Refs: #None`, and an empty one gives `Refs: #`
  (`PromptBuilder.Interpolated`, `PromptBuilder.TicketForms`).
- A binary-file section is deleted only when its "Binary files" line ends with '\n'. A diff made of one such
  section cleans to the empty text (`DiffCleaner.CleanBinaryOnly`).

## Model

| member | source | states |
|---|---|---|
| `PyStrings.SplitOn` | ai-commit-generator/commit_message_generator.py:28 | `diff.split('\n')` gives at least one piece, and no piece holds the separator |
| `PyStrings.JoinSplit` | ai-commit-generator/commit_message_generator.py:79-82 | joining the pieces of a split with the separator gives back the text |
| `PyStrings.SplitJoin` | ai-commit-generator/commit_message_generator.py:79-81 | splitting a join of separator-free pieces gives back the pieces |
| `PyStrings.JoinAppend` | ai-commit-generator/commit_message_generator.py:81 | joining one more piece appends the separator and that piece |
| `PyStrings.WordsShape` | ai-commit-generator/commit_message_generator.py:31 | every token of `split()` is non-empty and free of whitespace |
| `PyStrings.WordLengthOf` | ai-commit-generator/commit_message_generator.py:31 | a run of non-whitespace characters ended by whitespace or by the end of the text is read as one token |
| `PyStrings.WordsCons` | ai-commit-generator/commit_message_generator.py:31 | `split()` of a text that starts with a word gives that word first |
| `PyStrings.WordsSpace` | ai-commit-generator/commit_message_generator.py:31 | `split()` skips leading whitespace |
| `PyStrings.LastOfWords` | ai-commit-generator/commit_message_generator.py:31-33 | `parts[-1]` of `split()` is the last run of non-whitespace characters, read from the right |
| `PyStrings.LStripCharsShape` | ai-commit-generator/commit_message_generator.py:33 | `lstrip(chars)` leaves the suffix after the longest prefix made of characters of the set |
| `PyStrings.LStripSpaceShape` | ai-commit-generator/commit_message_generator.py:44 | `lstrip()` leaves the suffix after the leading whitespace, starting with a non-space |
| `PyStrings.RStripSpaceShape` | ai-commit-generator/commit_message_generator.py:44 | `rstrip()` leaves the prefix before the trailing whitespace, ending with a non-space |
| `DiffCleaner.FindNewline` | ai-commit-generator/commit_message_generator.py:76 | `.*\n` runs to the first newline: the index found holds '\n' and none comes before it |
| `DiffCleaner.BinarySectionLength` | ai-commit-generator/commit_message_generator.py:76 | a match holds at least the two literal texts and two newlines, and fits in the text |
| `DiffCleaner.BinarySectionSound` | ai-commit-generator/commit_message_generator.py:76 | what the matcher finds is a header line then a "Binary files" line, each ended by '\n' |
| `DiffCleaner.BinarySectionComplete` | ai-commit-generator/commit_message_generator.py:76 | every such two-line text at the start of a string is exactly what the matcher finds |
| `DiffCleaner.SectionParts` | ai-commit-generator/commit_message_generator.py:76 | a word of the pattern's language splits into a header line and a marker line |
| `DiffCleaner.RemoveBinarySections` | ai-commit-generator/commit_message_generator.py:76 | `re.sub` never makes the text longer |
| `DiffCleaner.RemoveKeepsPrefix` | ai-commit-generator/commit_message_generator.py:76 | text before the first match is copied unchanged |
| `DiffCleaner.RemoveDropsSection` | ai-commit-generator/commit_message_generator.py:76 | a match is deleted as a whole and the scan resumes after it |
| `DiffCleaner.RemoveWithoutSections` | ai-commit-generator/commit_message_generator.py:76 | a text with no match anywhere is returned unchanged |
| `DiffCleaner.CleanDiff` | ai-commit-generator/commit_message_generator.py:73-82 | `clean_diff`: binary-section removal, then the 100-line cut; specified by `CleanDiffLines`, `CleanDiffBounded` and `CleanBinaryOnly` |
| `DiffCleaner.CleanDiffLines` | ai-commit-generator/commit_message_generator.py:79-82 | after binary removal, a text of more than 100 lines becomes its first 100 lines plus the marker line; any other text is returned unchanged |
| `DiffCleaner.CleanDiffBounded` | ai-commit-generator/commit_message_generator.py:79-82 | the cleaned diff has at most 101 lines, and when it has 101 the last one is the marker |
| `DiffCleaner.CleanBinaryOnly` | ai-commit-generator/commit_message_generator.py:76-82 | a diff made of one binary-file section cleans to the empty text |
| `DiffSummarizer.Files.KeysDistinct` | ai-commit-generator/commit_message_generator.py:25 | a dict lists each key once |
| `DiffSummarizer.Files.Put` | ai-commit-generator/commit_message_generator.py:34 | `d[k] = v` keeps the dict well formed; a new key goes last and an existing key keeps its place |
| `DiffSummarizer.HeaderKey` | ai-commit-generator/commit_message_generator.py:31-33 | the path of a header, `parts[-1].lstrip('b/')`; specified by `ClassifyHeader` and `StripsPathLetters` |
| `DiffSummarizer.FileType` | ai-commit-generator/commit_message_generator.py:37 | the file type of a path; specified by `FileTypeShape` |
| `DiffSummarizer.IsDeclaration` | ai-commit-generator/commit_message_generator.py:43 | the declaration regular expression; specified by `DeclarationRegex` and `KeywordWithoutBoundary` |
| `DiffSummarizer.CleanChange` | ai-commit-generator/commit_message_generator.py:44 | `line.lstrip('+').strip()`; specified by `DeclarationClean` |
| `DiffSummarizer.Classify` | ai-commit-generator/commit_message_generator.py:29-48 | which branch of the loop body a line takes, whatever the scan state; specified by `ClassifyHeader`, `ClassifyChange` and `RecordedChangeSpec` |
| `DiffSummarizer.Step` | ai-commit-generator/commit_message_generator.py:28-48 | one iteration of the loop on a classified line; specified by `StepInv`, the four step unfoldings below and `ScanAgrees` |
| `DiffSummarizer.Scan` | ai-commit-generator/commit_message_generator.py:25-50 | the loop keeps the dict well formed and the cursor among its keys |
| `DiffSummarizer.StepInv` | ai-commit-generator/commit_message_generator.py:28-48 | one iteration keeps the dict well formed and the cursor among its keys |
| `DiffSummarizer.ScanSnoc` | ai-commit-generator/commit_message_generator.py:28 | the loop processes the lines in order, one iteration per line |
| `DiffSummarizer.HeaderStep` | ai-commit-generator/commit_message_generator.py:29-39 | unfolding of `Step` for a header line: a header with at least four tokens sets a fresh entry and moves the cursor to it; a shorter one changes nothing, so the cursor stays on the previous file |
| `DiffSummarizer.AdditionStep` | ai-commit-generator/commit_message_generator.py:40-46 | unfolding of `Step` for an added line: while a file is tracked, one more addition and its important change, if any, recorded |
| `DiffSummarizer.DeletionStep` | ai-commit-generator/commit_message_generator.py:47-48 | unfolding of `Step` for a removed line: while a file is tracked, one more deletion |
| `DiffSummarizer.IgnoredStep` | ai-commit-generator/commit_message_generator.py:40-48 | unfolding of `Step` for any other line, or any line while no file is tracked: nothing changes |
| `DiffSummarizer.ScanLine` | ai-commit-generator/commit_message_generator.py:29-48 | the loop body, branch by branch, performs one step of the scan |
| `DiffSummarizer.ScanHeader` | ai-commit-generator/commit_message_generator.py:29-39 | the header branch performs the scan's step for that line |
| `DiffSummarizer.ScanAddition` | ai-commit-generator/commit_message_generator.py:40-46 | the addition branch performs the scan's step for that line |
| `DiffSummarizer.ScanDeletion` | ai-commit-generator/commit_message_generator.py:47-48 | the deletion branch performs the scan's step for that line |
| `DiffSummarizer.SummarizeDiff` | ai-commit-generator/commit_message_generator.py:23-50 | `summarize_diff` returns the scan's dict, and that dict is well formed |
| `DiffSummarizer.LastHeaderOf` | ai-commit-generator/commit_message_generator.py:29-34 | the last valid header of a path lies among the lines seen |
| `DiffSummarizer.LastHeaderOfSpec` | ai-commit-generator/commit_message_generator.py:29-34 | the header found is for that path and no later header is; nothing is found only when the path has no header |
| `DiffSummarizer.LastHeader` | ai-commit-generator/commit_message_generator.py:29-33 | the last valid header of any path is a valid header among the lines seen |
| `DiffSummarizer.LastHeaderSpec` | ai-commit-generator/commit_message_generator.py:29-33 | no valid header follows the one found; nothing is found only when there is none |
| `DiffSummarizer.NextHeader` | ai-commit-generator/commit_message_generator.py:29-33 | the next valid header lies between the start and the end of the lines seen |
| `DiffSummarizer.NextHeaderSpec` | ai-commit-generator/commit_message_generator.py:29-33 | the next valid header is one, or it is the end, and no valid header is skipped |
| `DiffSummarizer.TallyCounts` | ai-commit-generator/commit_message_generator.py:34-48 | counting a section line by line counts its added and removed lines and lists its important changes in order |
| `DiffSummarizer.ExpectedCounts` | ai-commit-generator/commit_message_generator.py:34-48 | the entry of a non-empty path holds the counts and important changes of the section after its last valid header, up to the next one |
| `DiffSummarizer.ExpectedType` | ai-commit-generator/commit_message_generator.py:37 | every expected entry carries the file type of its path |
| `DiffSummarizer.DedupMembers` | ai-commit-generator/commit_message_generator.py:34 | the keys of the reference are exactly the header paths |
| `DiffSummarizer.DedupDistinct` | ai-commit-generator/commit_message_generator.py:34 | the keys of the reference are distinct |
| `DiffSummarizer.ScanAgrees` | ai-commit-generator/commit_message_generator.py:25-48 | after any number of lines, the scan's dict and cursor agree with the reference |
| `DiffSummarizer.SummarizeAgrees` | ai-commit-generator/commit_message_generator.py:23-50 | the keys are the distinct valid-header paths in order of first appearance; a path has an entry exactly when it has a valid header; a non-empty path's entry tallies the section after its last valid header, so a repeated header resets it; the empty path's entry is never counted into |
| `DiffSummarizer.SummarizeTypes` | ai-commit-generator/commit_message_generator.py:37 | every entry of the summary carries the file type of its path |
| `DiffSummarizer.SummarizeNoHeaders` | ai-commit-generator/commit_message_generator.py:25-48 | without a valid header the dict is empty, so lines before the first header are never counted |
| `DiffSummarizer.ClassifyHeader` | ai-commit-generator/commit_message_generator.py:29-33 | a line names a file exactly when it is a valid header; the path is the last token with its leading 'b' and '/' characters removed |
| `DiffSummarizer.StripsPathLetters` | ai-commit-generator/commit_message_generator.py:33 | `b/bar.py` is recorded as `ar.py` |
| `DiffSummarizer.ClassifyChange` | ai-commit-generator/commit_message_generator.py:40-48 | a line is an addition exactly when it starts with '+' but not "+++", and a deletion exactly when it starts with '-' but not "---" |
| `DiffSummarizer.KeywordStart` | ai-commit-generator/commit_message_generator.py:43 | a keyword-led text starts with that keyword's non-space characters |
| `DiffSummarizer.LStripSpaceAt` | ai-commit-generator/commit_message_generator.py:43-44 | `lstrip()` stops at the first non-whitespace character |
| `DiffSummarizer.DeclarationRegex` | ai-commit-generator/commit_message_generator.py:43 | the declaration test holds exactly when the line is '+', whitespace, then a keyword |
| `DiffSummarizer.DeclarationClean` | ai-commit-generator/commit_message_generator.py:44-45 | a declaration line cleans to a non-empty text that starts with its keyword, so the `if clean_line` guard never rejects one |
| `DiffSummarizer.RecordedChangeSpec` | ai-commit-generator/commit_message_generator.py:43-46 | an added line records a change exactly when it is a declaration line, and it records the cleaned line |
| `DiffSummarizer.KeywordWithoutBoundary` | ai-commit-generator/commit_message_generator.py:43 | `+define x` counts as a `def` line |
| `DiffSummarizer.FileTypeShape` | ai-commit-generator/commit_message_generator.py:37 | the file type is the text after the last '.', case kept, or "unknown" when there is no '.' |
| `DiffSummarizer.ExampleHeaderWords` | ai-commit-generator/commit_message_generator.py:31 | `diff --git a/foo.py b/foo.py` splits into four tokens |
| `DiffSummarizer.ExampleHeaderLine` | ai-commit-generator/commit_message_generator.py:29-33 | the header `diff --git a/foo.py b/foo.py` names `foo.py` |
| `DiffSummarizer.ExampleAddedLine` | ai-commit-generator/commit_message_generator.py:40-46 | `+def handler():` is an addition that records `def handler():` |
| `DiffSummarizer.ExampleRemovedLine` | ai-commit-generator/commit_message_generator.py:47 | `-def old():` is a deletion |
| `DiffSummarizer.ExampleType` | ai-commit-generator/commit_message_generator.py:37 | `foo.py` has file type "py" |
| `DiffSummarizer.ScanExample` | ai-commit-generator/commit_message_generator.py:28-48 | the three classified lines of the example leave one entry for `foo.py` with one addition, one deletion and one important change |
| `DiffSummarizer.SummarizeExample` | ai-commit-generator/commit_message_generator.py:23-50 | the diff of that header, `+def handler():` and `-def old():` summarises to `{foo.py: 1 addition, 1 deletion, type "py", ["def handler():"]}` |
| `ImportanceFilter.IsImportantFile` | ai-commit-generator/commit_message_generator.py:56-71 | `is_important_file`; specified by `ImportantIff` and the examples below it |
| `ImportanceFilter.AnyFoundExists` | ai-commit-generator/commit_message_generator.py:68 | `any(...)` over the patterns holds exactly when some pattern is found |
| `ImportanceFilter.IgnoreListIsIgnoredName` | ai-commit-generator/commit_message_generator.py:62-68 | the pattern list is found in a name exactly when one of the nine conditions holds |
| `ImportanceFilter.ImportantIff` | ai-commit-generator/commit_message_generator.py:56-71 | a file is important exactly when the matcher, if any, does not accept it and no ignore pattern is found in it; no name makes it fail |
| `ImportanceFilter.VendoredNotImportant` | ai-commit-generator/commit_message_generator.py:62-69 | a path starting with `node_modules/`, `vendor/` or `.git/` is never important |
| `ImportanceFilter.LockFileNotImportant` | ai-commit-generator/commit_message_generator.py:62-69 | a `yarn.lock` in any directory is never important |
| `ImportanceFilter.SourceFileImportant` | ai-commit-generator/commit_message_generator.py:56-71 | `app.py` with no matcher is important |
| `PromptBuilder.FormattedKeyChanges` | ai-commit-generator/commit_message_generator.py:14-21 | the text `_format_key_changes` returns; specified by `FileBlockShape`, `KeyChangeLinesAt`, `FormattedEmptyIff`, and by the loop of `FormatKeyChanges` |
| `PromptBuilder.FormatKeyChanges` | ai-commit-generator/commit_message_generator.py:14-21 | the loop renders the key changes as `FormattedKeyChanges` |
| `PromptBuilder.ExtendBullets` | ai-commit-generator/commit_message_generator.py:20 | the `extend` adds one bullet for each of the first five changes, in order |
| `PromptBuilder.FileBlockShape` | ai-commit-generator/commit_message_generator.py:18-20 | a file with changes gives its name line then `min(5, len)` bullets in order; a file without changes gives nothing |
| `PromptBuilder.KeyChangeLinesAt` | ai-commit-generator/commit_message_generator.py:17-20 | each file's lines sit between those of the files before it and those after it |
| `PromptBuilder.KeyChangeLinesAppend` | ai-commit-generator/commit_message_generator.py:17-20 | rendering distributes over concatenation of the items |
| `PromptBuilder.KeyChangeLinesLast` | ai-commit-generator/commit_message_generator.py:17-20 | the rendering of a non-empty list ends with the block of its last file |
| `PromptBuilder.NoLinesIffEmpty` | ai-commit-generator/commit_message_generator.py:17-20 | no line is rendered exactly when every list is empty |
| `PromptBuilder.LinesNonEmpty` | ai-commit-generator/commit_message_generator.py:19-20 | no rendered line is empty |
| `PromptBuilder.FormattedEmptyIff` | ai-commit-generator/commit_message_generator.py:14-21 | the text is empty exactly when no file has a change, so an empty dict gives "" |
| `PromptBuilder.NonEmptyOnlyMembers` | ai-commit-generator/commit_message_generator.py:108-112 | the filter keeps exactly the items with a non-empty list |
| `PromptBuilder.NonEmptyOnlyLast` | ai-commit-generator/commit_message_generator.py:108-112 | after filtering, the rendering still ends with the last file's block, which is empty when its list is |
| `PromptBuilder.DropEmptyLists` | ai-commit-generator/commit_message_generator.py:108-112 | dropping the items with empty lists does not change the rendering |
| `PromptBuilder.Filter` | ai-commit-generator/commit_message_generator.py:95-99 | the comprehension keeps exactly the elements the predicate accepts |
| `PromptBuilder.BuildSummary` | ai-commit-generator/commit_message_generator.py:95-113 | the `ChangeSummary`; specified by `FileCount`, `SummaryTotals`, `SummaryFiles`, `KeyChangesRendering` and `SummaryTypes` |
| `PromptBuilder.FileCount` | ai-commit-generator/commit_message_generator.py:103 | `total_files` is the number of keys |
| `PromptBuilder.TotalBounds` | ai-commit-generator/commit_message_generator.py:104-105 | a sum is at least each file's count, and it is zero exactly when every count is |
| `PromptBuilder.TotalAppend` | ai-commit-generator/commit_message_generator.py:104-105 | the sum over two runs of keys is the sum of their sums |
| `PromptBuilder.TotalAt` | ai-commit-generator/commit_message_generator.py:104-105 | each file's count enters the sum exactly once, between the sums over the files before and after it |
| `PromptBuilder.SummaryTotals` | ai-commit-generator/commit_message_generator.py:104-105 | each file's additions and deletions are at most the totals, and a total is zero exactly when every file's count is |
| `PromptBuilder.FilterDistinct` | ai-commit-generator/commit_message_generator.py:95-107 | filtering distinct keys gives distinct keys |
| `PromptBuilder.FilterOrder` | ai-commit-generator/commit_message_generator.py:95-107 | filtering keeps the elements in their order |
| `PromptBuilder.SummaryFiles` | ai-commit-generator/commit_message_generator.py:95-113 | the important files are exactly the accepted keys, each once, in insertion order; the key changes are exactly the important files with a non-empty list, paired with that list |
| `PromptBuilder.KeyChangesRendering` | ai-commit-generator/commit_message_generator.py:108-116 | leaving out the files without changes before rendering makes no difference to the text |
| `PromptBuilder.SummaryTypes` | ai-commit-generator/commit_message_generator.py:106 | the file types are exactly the types of the summarised paths |
| `PromptBuilder.OrNotAvailable` | ai-commit-generator/commit_message_generator.py:121-122 | a missing or empty branch or ticket shows as "N/A", and any other value shows as itself |
| `PromptBuilder.Interpolated` | ai-commit-generator/commit_message_generator.py:165 | the raw `{ticket_number}` of the footer instruction: a missing ticket is written "None", any string, the empty one included, as itself |
| `PromptBuilder.TicketForms` | ai-commit-generator/commit_message_generator.py:121-165 | the "N/A" form and the raw form of the ticket agree exactly when a non-empty ticket is given |
| `PromptBuilder.EnumerateTypes` | ai-commit-generator/commit_message_generator.py:117 | iterating over the set lists each type exactly once |
| `PromptBuilder.JoinContains` | ai-commit-generator/commit_message_generator.py:117 | a join contains each of its parts |
| `PromptBuilder.FileTypesTextNames` | ai-commit-generator/commit_message_generator.py:117 | every type is named in the text, and an empty set shows "unknown" |
| `PromptBuilder.Fields` | ai-commit-generator/commit_message_generator.py:119-165 | the values written into the prompt; specified by `PromptContext`, `NoFilesFields`, `BinaryOnlyFields` and `TicketForms` |
| `PromptBuilder.PromptContext` | ai-commit-generator/commit_message_generator.py:84-165 | the fields are cleaned, summarised, aggregated and formatted; the types are listed in an order that names each exactly once |
| `PromptBuilder.NoFilesFields` | ai-commit-generator/commit_message_generator.py:95-117 | a diff that names no file gives zero counts, "unknown" types and no key changes |
| `PromptBuilder.BinaryOnlyFields` | ai-commit-generator/commit_message_generator.py:76-117 | a diff made of one binary-file section gives zero counts, "unknown" types and no key changes |
| `SortedInsert.IntList.constructor` | a.py:9 | the list starts empty |
| `SortedInsert.FirstGreater` | a.py:3-4 | the position found is the first element strictly greater than `num`, or the length when there is none |
| `SortedInsert.Inserted` | a.py:1-7 | insertion adds exactly one element |
| `SortedInsert.InsertedSplit` | a.py:3-7 | insertion puts `num` in front of the first strictly greater element |
| `SortedInsert.FirstGreaterIs` | a.py:3-4 | the first strictly greater element is unique |
| `SortedInsert.InsertNumber` | a.py:1-7 | the loop changes the list in place to the insertion of `num` |
| `SortedInsert.InsertedSorted` | a.py:1-7 | a non-decreasing list stays non-decreasing |
| `SortedInsert.InsertedElements` | a.py:3-7 | the length grows by exactly one, and the elements gain exactly `num` |
| `SortedInsert.InsertedPlace` | a.py:3-6 | `num` lands at the first greater index; earlier elements are unchanged and later ones shift right by one |
| `SortedInsert.EqualStayBefore` | a.py:3-6 | in a sorted list, the elements equal to `num` stay in front of it |
| `SortedInsert.AppendWhenLargest` | a.py:7 | when no element is greater, the empty list included, `num` is appended |
| `SortedInsert.InsertStream` | a.py:9-13 | the driver loop leaves the list holding the insertion of the whole stream |
| `SortedInsert.InsertAllSnoc` | a.py:12-13 | the stream is inserted one number at a time, in order |
| `SortedInsert.InsertAllSorted` | a.py:9-13 | inserting any stream into an empty list gives a sorted list |
| `SortedInsert.InsertAllElements` | a.py:9-13 | the final list holds exactly the numbers of the stream |
| `SortedInsert.ScriptSteps` | a.py:10-14 | each insertion of the script gives the list the script prints |
| `SortedInsert.Script` | a.py:9-14 | 5, 3, 8, 1, 2, 7 inserted in turn leave the list as 1, 2, 3, 5, 7, 8 |

## Left out

- The language-model adapters, `language_model_factory.py` and the call to `send_message`: these are foreign SDK
  calls and network I/O.
- `get_gitignore_spec` and the gitignore glob semantics: they live in a library that is not shown. The ignore matcher is a parameter
  `Option<string -> bool>`, and `None` means there are no ignore rules.
- The instruction text of the prompt template around the interpolated fields: `PromptContext` returns the
  values written into it (the branch and ticket in their "N/A" form, the raw ticket of the `Refs: #` footer
  instruction, the counts, the file types and the key changes), not the rendered text.
- PromptBuilder.EnumerateTypes: Python's set iteration order is not specified, so the method may list the
  types in any order that names each exactly once. `PromptContext` returns the order it used.
- `main.py`, `scripts/install_hook.py`, `setup.py` and the root `commit_message_generator.py`: these are
  processes, files, console I/O and packaging.
- The `print` in the loop of `a.py`: it is console output. `ScriptSteps` states each list the script prints.
- General regular-expression semantics: only the fixed patterns of the source are modelled, each as an
  explicit predicate.
- Python's list aliasing: `IntList` holds its elements as a sequence that the method reassigns, which models the
  in-place update of the caller's list.
