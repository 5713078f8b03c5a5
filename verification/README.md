# Grading hand-copied numeric messages: a verified model

The pipeline grades a hand-copied numeric message against a reference copy. Such a message is a
grid of 4-digit groups: 10 groups per line, 10 lines per segment, usually 3 segments, with a few
header lines above the grid. The model covers three stages:

- **Parsing.** Lines of text become a header and a list of groups. Each group carries its
  coordinates: segment, line, position and a 0-based global index.
  - `MessageParser` is the general parser. It reads the lines recognised from a submission, or
    the cleaned lines of a reference file.
  - `MessageParserV2` parses a reference text file in the standard 10-groups-per-line layout.
- **Comparison.** `Comparator` aligns the two grids by global index and reports every missing,
  mismatched and extra group, sorted by index. Values are compared after a normalisation that
  repairs common OCR look-alikes (`O` for `0`, `l` for `1`, …). A tolerant wrapper can also
  normalise the submitted values before comparing.
- **Scoring.** `Scorer` deducts a fixed amount per error, floored at 0, or a per-kind amount
  (an extra group costs half a point). It buckets the score into grades A to F and selects a
  feedback sentence.

Files:

- `wrappers.dfy`: `Option`.
- `config.dfy`: the layout and scoring constants.
- `models.dfy`: the value types `MessageHeader`, `MessageGroup`, `MessageContent`, `ErrorKind`
  and `ErrorDetail`.
- `text.dfy`: ASCII character classes, stripping, splitting and joining, and decimal printing.
- `parser.dfy`, `parser_v2.dfy`, `comparator.dfy`, `scorer.dfy`: the three stages.

The source builds its lists in loops with running counters. Those loops are Dafny methods with
loop invariants. Each method is proved against a specification function (`DigitGroups`,
`HeaderLines`, `EmitRows`, `Placed`, `IndexMap`, `ErrorAt`, `KindCountsOf`, …). The properties
the pipeline relies on are lemmas about those functions.

## Model

| member | source | states |
|---|---|---|
| `MessageParser.ExtractDigitGroups` | backend/app/message_parser.py:79-106 | the groups are the chunks of the text's digits: every non-digit becomes a blank, the blanks are dropped, the digits are cut into runs of 4, and a short last run is padded with `?` |
| `MessageParser.CleanLine` | backend/app/message_parser.py:92 | replacing every character that is neither a digit nor whitespace by a blank keeps the length, keeps each digit in place and leaves only whitespace elsewhere |
| `MessageParser.CleanedLineDigits` | backend/app/message_parser.py:92-95 | removing the whitespace from the cleaned line leaves exactly the digits of the text, in order |
| `MessageParser.DigitGroups` | backend/app/message_parser.py:98-104 | every group has exactly 4 characters |
| `MessageParser.PadGroup` | backend/app/message_parser.py:102-104 | a partial group keeps its digits and is filled up to 4 characters with `?` |
| `MessageParser.DigitGroupsCount` | backend/app/message_parser.py:98-104 | the number of groups is the digit count divided by 4, rounded up |
| `MessageParser.OnlyLastGroupPadded` | backend/app/message_parser.py:100-104 | every group except the last consists of digits only, so only the last can hold `?` |
| `MessageParser.GroupsRestoreDigits` | backend/app/message_parser.py:98-104 | concatenating the groups and deleting `?` gives back the digits, in order |
| `MessageParser.ScanEnd` | backend/app/message_parser.py:37 | header detection looks at the first 5 lines, or at all of them when there are fewer |
| `MessageParser.FirstRejectedFrom` | backend/app/message_parser.py:37-72 | the scan stops at the first scanned line that is non-blank and not eligible as header |
| `MessageParser.NonBlankLines` | backend/app/message_parser.py:38-55 | the collected header lines are non-blank, and there are no more of them than lines scanned |
| `MessageParser.LastNonBlankEnd` | backend/app/message_parser.py:56 | the header end index is 0 or lies just past a non-blank line |
| `MessageParser.HeaderEnd` | backend/app/message_parser.py:34-56 | the header end index is at most 5, at most the number of lines, and not past the line where the scan stopped |
| `MessageParser.HeaderLines` | backend/app/message_parser.py:55-74 | the header holds at most 5 lines |
| `MessageParser.FindKeyword` | backend/app/message_parser.py:43-47 | the keyword search reports true exactly when the line contains one of 组, 时间, 日期, 报文, 号, 第 |
| `MessageParser.ScanHeaderLine` | backend/app/message_parser.py:38-72 | one step of the scan: a rejected line changes nothing; an accepted line extends the header lines and the end index, and keeps the group count and timestamp equal to the last match among the header lines |
| `MessageParser.ParseHeader` | backend/app/message_parser.py:22-77 | the header lines are `HeaderLines` and the end index is `HeaderEnd` of the lines, and the group count and timestamp come from the last header line that yields one |
| `MessageParser.FirstLinesAreHeader` | backend/app/message_parser.py:54 | a non-blank line at index 0, 1 or 2 always lands in the header, whatever its keywords or digit density |
| `MessageParser.LaterHeaderLines` | backend/app/message_parser.py:44-54 | a non-blank line at index 3 or 4, reached by the scan, passes if and only if it holds a keyword and yields fewer than 5 groups |
| `MessageParser.ScanVerdict` | backend/app/message_parser.py:37-72 | every scanned line before the stopping point passed, in both directions |
| `MessageParser.LastMatchWins` | backend/app/message_parser.py:58-70 | a found group count or timestamp comes from some header line, and no later header line yields one, so earlier matches are overwritten |
| `MessageParser.DigitRunEnd` | backend/app/message_parser.py:60 | the run of digits starting at a position ends at the first non-digit |
| `MessageParser.SpaceRunEnd` | backend/app/message_parser.py:60 | the run of whitespace starting at a position ends at the first non-whitespace character |
| `MessageParser.SearchGroupCount` | backend/app/message_parser.py:60-62 | a result is a non-empty run of digits that stands in the line at or after the start, followed by optional whitespace and 组 |
| `MessageParser.MatchRuns` | backend/app/message_parser.py:60 | in a match, the digits end where the run of digits ends and 组 stands where the whitespace ends, so `\d+` matches the whole run |
| `MessageParser.SearchGroupCountLeftmost` | backend/app/message_parser.py:60-62 | when the first match at or after the start begins at `a`, the search yields exactly the digits of that match |
| `MessageParser.SearchGroupCountFinds` | backend/app/message_parser.py:60-61 | the search finds a match whenever one starts at or after the start |
| `MessageParser.DeclaredGroupCount` | backend/app/message_parser.py:59-62 | a declared group count is a non-empty string of digits that some match of `digits, whitespace, 组` in the line captures |
| `MessageParser.DeclaredGroupCountLeftmost` | backend/app/message_parser.py:59-62 | a line holding a match declares the digits of its leftmost match as the group count |
| `MessageParser.DeclaredGroupCountFinds` | backend/app/message_parser.py:59-62 | a line holding a match always declares a group count |
| `MessageParser.Take` | backend/app/message_parser.py:137 | at most the first 10 groups of a line are kept, as a prefix |
| `MessageParser.LineRows` | backend/app/message_parser.py:125-137 | a line contributes at most one row, of 3 to 10 groups |
| `MessageParser.DataRows` | backend/app/message_parser.py:124-137 | every data row holds 3 to 10 groups, and there are no more rows than lines |
| `MessageParser.EmitRow` | backend/app/message_parser.py:137-146 | one group is emitted per kept value |
| `MessageParser.EmitRows` | backend/app/message_parser.py:119-152 | as many groups are emitted as there are kept values |
| `MessageParser.EmitRowsAt` | backend/app/message_parser.py:137-152 | the value at position p of data row j gets segment j/10+1, line j%10+1, position p+1 and global index equal to the number of values before it |
| `MessageParser.EmitRowsShape` | backend/app/message_parser.py:120-152 | the emitted global indices are exactly 0..n-1 in order, each value is kept, the line stays in 1..10, the segment is at least 1 and the position is in 1..10 |
| `MessageParser.RowCounterStep` | backend/app/message_parser.py:149-152 | advancing the line counter, wrapping it to 1 and bumping the segment past line 10, is the same as counting one more data row |
| `MessageParser.KeptGroups` | backend/app/message_parser.py:125-137 | a blank line or a line with fewer than 3 groups yields nothing; any other line yields its first 10 groups |
| `MessageParser.AppendLineGroups` | backend/app/message_parser.py:137-146 | the kept values are appended with positions 1..k and consecutive global indices |
| `MessageParser.ParseBodyLine` | backend/app/message_parser.py:124-152 | one line of the body loop: a skipped line advances no counter; a data line appends its row and advances the line and segment counters |
| `MessageParser.ParseBody` | backend/app/message_parser.py:108-155 | the body is the emitted data rows of the lines from the start index on, with contiguous global indices and coordinates in range |
| `MessageParser.ParseMessage` | backend/app/message_parser.py:157-177 | the raw text is the lines joined by newlines, the header is the parsed header, and the groups are the body parsed from the header end |
| `MessageParser.RawTextSplitsBack` | backend/app/message_parser.py:168 | when no line holds a newline, splitting the raw text at newlines gives the lines back |
| `MessageParser.ReferenceLines` | backend/app/message_parser.py:193 | cleaning a reference file never adds lines |
| `MessageParser.ReferenceLinesClean` | backend/app/message_parser.py:193 | every kept reference line is non-blank and already stripped |
| `MessageParser.ParseReferenceTxt` | backend/app/message_parser.py:179-195 | a reference file is parsed as the message made of its stripped, non-blank lines |
| `MessageParser.ReferenceFirstLinesAreHeader` | backend/app/message_parser.py:193-195 | the first three kept lines of a reference file are always header, even when they are data lines |
| `MessageParserV2.FullChunks` | backend/app/message_parser.py:255-257 | every chunk has exactly 4 characters, and the chunks of a string of digits are digits |
| `MessageParserV2.FullChunksAt` | backend/app/message_parser.py:255-257 | there are \|d\|/4 chunks, and chunk c is the slice at 4c..4c+4 |
| `MessageParserV2.FullChunksCover` | backend/app/message_parser.py:255-257 | the chunks concatenated are a prefix of the digits, and fewer than 4 digits are dropped at the end |
| `MessageParserV2.Place` | backend/app/message_parser.py:258-275 | the group at global index gi keeps its index and value, with position, line and segment in range |
| `MessageParserV2.PlaceCoordinates` | backend/app/message_parser.py:258-275 | the coordinates read back as the global index: ((segment-1)·10 + line-1)·10 + position-1 = gi |
| `MessageParserV2.PlaceInjective` | backend/app/message_parser.py:258-275 | distinct global indices get distinct coordinates |
| `MessageParserV2.Placed` | backend/app/message_parser.py:255-268 | one group is placed per value |
| `MessageParserV2.CoordinatesClosedForm` | backend/app/message_parser.py:258-275 | the running counters after n groups are segment n/100+1, line (n/10)%10+1 and position n%10+1 |
| `MessageParserV2.DenseFrom` | backend/app/message_parser.py:225-230 | the header scan stops at the first of the first 5 lines that holds at least 30 digits |
| `MessageParserV2.DenseFromFirst` | backend/app/message_parser.py:225-231 | every line before the stopping point holds fewer than 30 digits |
| `MessageParserV2.FirstDense` | backend/app/message_parser.py:225 | the header scan looks at no more than the first 5 lines |
| `MessageParserV2.BodyStart` | backend/app/message_parser.py:223-230 | the body start index is within the lines |
| `MessageParserV2.TxtLines` | backend/app/message_parser.py:219 | splitting the stripped text on newlines gives at least one line |
| `MessageParserV2.TxtLinesRejoin` | backend/app/message_parser.py:219 | joining the lines back at newlines gives the stripped text |
| `MessageParserV2.ParseTxtHeader` | backend/app/message_parser.py:222-238 | the header lines are the lines before the first dense one, the group count is the last declared count among them, and no timestamp is read |
| `MessageParserV2.LineValues` | backend/app/message_parser.py:247-257 | every value read from a line is exactly 4 characters long and all of them are digits |
| `MessageParserV2.TxtValues` | backend/app/message_parser.py:246-257 | every value read from the lines is exactly 4 characters long and all of them are digits |
| `MessageParserV2.BodyValues` | backend/app/message_parser.py:246-257 | every body value is exactly 4 characters long and all of them are digits |
| `MessageParserV2.PlaceNext` | backend/app/message_parser.py:258-275 | placing one more value appends its group and advances the counters to those of the next index |
| `MessageParserV2.AppendChunks` | backend/app/message_parser.py:255-275 | all full chunks of a line's digits are placed in order, and the counters follow the index |
| `MessageParserV2.ParseTxtLine` | backend/app/message_parser.py:247-275 | a line places the full chunks of its digits; a blank line places nothing |
| `MessageParserV2.ParseTxtBody` | backend/app/message_parser.py:242-275 | the body is the placed values of the lines from the body start |
| `MessageParserV2.ParseTxtFile` | backend/app/message_parser.py:207-280 | the raw text is kept as read, the header is the parsed header, and the groups are the body values placed by global index |
| `MessageParserV2.PlacedShape` | backend/app/message_parser.py:242-275 | for values of 4 digits each, the global indices are 0..n-1, every value is 4 characters long and all digits, position = gi%10+1, line = (gi/10)%10+1 and segment = gi/100+1 |
| `MessageParserV2.NoDenseLineRereadsHeader` | backend/app/message_parser.py:223-231 | when none of the first 5 lines is dense, the body starts at line 0, so the header lines are parsed again as body |
| `MessageParserV2.TxtHeaderLinesSparse` | backend/app/message_parser.py:228-231 | every header line holds fewer than 30 digits |
| `MessageParserV2.FlattenUniform` | backend/app/message_parser.py:255-257 | rows of exactly 10 values flatten so that value p of row j sits at index 10j+p |
| `MessageParserV2.ParsersAgreeOnFullRows` | backend/app/message_parser.py:258-275 | on rows of exactly 10 groups both body parsers assign the same coordinates to every group |
| `Comparator.Correct` | backend/app/comparator.py:108-127 | a table character becomes a digit and any other character is kept; the result is never a table key |
| `Comparator.MapChars` | backend/app/comparator.py:122-127 | the mapping keeps the length and corrects each character in place |
| `Comparator.Normalize` | backend/app/comparator.py:99-129 | the normalised value holds no space and none of the 11 table keys |
| `Comparator.NormalizeShape` | backend/app/comparator.py:105-127 | the normalised value has no whitespace at either end, and it is the stripped, space-free value corrected character by character |
| `Comparator.NormalizeFixed` | backend/app/comparator.py:105-127 | a value with no edge whitespace, no space and no table key is its own normalisation |
| `Comparator.NormalizeIdempotent` | backend/app/comparator.py:99-129 | normalising twice is normalising once |
| `Comparator.NormalizePlain` | backend/app/comparator.py:105-127 | a value without whitespace is normalised by the character map alone |
| `Comparator.LookalikesMatch` | backend/app/comparator.py:105-127 | two whitespace-free values of the same length whose characters correct alike normalise to the same value |
| `Comparator.OcrLookalikeMatches` | backend/app/comparator.py:59 | `O123` and `0123` normalise to the same value, so even the exact comparison reports no mismatch |
| `Comparator.IndexMap` | backend/app/comparator.py:34-35 | the map's keys are exactly the global indices of the groups, and each key maps to a group with that index |
| `Comparator.IndexMapLastWins` | backend/app/comparator.py:34-35 | when several groups share an index, the last one is kept |
| `Comparator.ErrorIndicesExact` | backend/app/comparator.py:38-89 | an error is reported at exactly the indices of the error set: below the total only where the reference has a group, from the total on only where the submission has one |
| `Comparator.ErrorAtCarriesIndex` | backend/app/comparator.py:47-87 | in maps keyed by global index, the error reported at an index carries that index |
| `Comparator.Insert` | backend/app/comparator.py:92 | inserting adds one element, at the front or after the old first element |
| `Comparator.InsertPermutes` | backend/app/comparator.py:92 | inserting adds exactly that element to the multiset |
| `Comparator.InsertSorted` | backend/app/comparator.py:92 | inserting into an index-sorted list keeps it sorted |
| `Comparator.InsertMembers` | backend/app/comparator.py:92 | the members after insertion are the old members and the new element |
| `Comparator.InsertIndices` | backend/app/comparator.py:92 | inserting adds the new element's index to the index set |
| `Comparator.InsertStrict` | backend/app/comparator.py:92 | inserting an error with a new index into a strictly sorted list keeps it strictly sorted |
| `Comparator.SortByIndex` | backend/app/comparator.py:92 | sorting keeps the length |
| `Comparator.SortSortsAndPermutes` | backend/app/comparator.py:92 | the sorted list is in ascending index order and is a permutation of the input |
| `Comparator.SortDistinctStrict` | backend/app/comparator.py:92 | errors with distinct indices sort into strictly ascending order with the same indices |
| `Comparator.Compare` | backend/app/comparator.py:15-97 | the total is the reference group count, the error count is the list length, and the errors are the diff: one per error index, each as `ErrorAt` defines it, strictly ascending by index |
| `Comparator.CheckIndex` | backend/app/comparator.py:38-74 | one step of the reference walk appends the missing or mismatch error at that index, if any, and keeps the found errors reported, distinct and complete up to the index |
| `Comparator.AppendReported` | backend/app/comparator.py:56-89 | appending a reported error with a new index keeps the list reported and distinct, and adds that index |
| `Comparator.CheckExtra` | backend/app/comparator.py:77-89 | one step of the extras walk appends an extra error exactly when the submitted index is at or past the total |
| `Comparator.NormalizedGroups` | backend/app/comparator.py:150-160 | each corrected group keeps its coordinates and index, and its value is the normalised value |
| `Comparator.NormalizeGroups` | backend/app/comparator.py:150-160 | the loop builds exactly the corrected groups |
| `Comparator.CompareWithTolerance` | backend/app/comparator.py:131-170 | the result is the diff of the reference with the corrected submission in tolerant mode, and with the submission as given otherwise |
| `Comparator.SameIndicesAligned` | backend/app/comparator.py:92 | two strictly sorted lists with the same index set have the same length and the same index at every position |
| `Comparator.TailIndices` | backend/app/comparator.py:92 | dropping the first element of a strictly sorted list drops exactly its index |
| `Comparator.DiffUnique` | backend/app/comparator.py:77-92 | the diff is unique, so the order in which the extras are visited does not matter |
| `Comparator.IndexMapNormalized` | backend/app/comparator.py:150-160 | indexing the corrected groups gives the same keys as indexing the originals, with normalised values |
| `Comparator.ToleranceSameVerdicts` | backend/app/comparator.py:148-170 | at every index, correcting the submission first changes neither whether an error is reported nor its kind, coordinates or correct value; only the recorded submitted value becomes normalised |
| `Comparator.ToleranceModesAgree` | backend/app/comparator.py:148-170 | both modes report the same number of errors with the same index and kind at every position, differing only in the submitted value |
| `Comparator.SelfErrorFree` | backend/app/comparator.py:38-89 | a grid indexed 0..n-1 yields no error at any index when compared with itself |
| `Comparator.SelfCompareClean` | backend/app/comparator.py:38-92 | comparing a grid indexed 0..n-1 with itself yields an empty error list |
| `Scorer.AtLeastZero` | backend/app/scorer.py:47 | the floor is non-negative, not below its argument, and is either 0 or the argument |
| `Scorer.TimesIsProduct` | backend/app/scorer.py:44 | summing the deduction once per error is multiplying it by the error count |
| `Scorer.TimesAdd` | backend/app/scorer.py:84-89 | the deductions for two counts add up to the deduction for their sum |
| `Scorer.TimesMonotone` | backend/app/scorer.py:44 | with a non-negative deduction, more errors never deduct less |
| `Scorer.TimesRate` | backend/app/scorer.py:84-86 | a larger per-error amount never deducts less |
| `Scorer.CalculateScore` | backend/app/scorer.py:28-56 | the score is never negative, and it is either 0 or the total minus the error count times the deduction |
| `Scorer.ScoreNonIncreasing` | backend/app/scorer.py:43-47 | with a non-negative deduction, more errors never score higher, whatever total group count is passed |
| `Scorer.DefaultScoreThreeErrors` | backend/app/scorer.py:43-47 | with the defaults of 100 points and 1 point per error, 3 errors score 97 |
| `Scorer.CountOf` | backend/app/scorer.py:78-80 | a kind is counted at most once per error |
| `Scorer.CountsBounded` | backend/app/scorer.py:72-80 | the three counts add up to at most the number of errors, and to exactly that number when no error has an unknown kind |
| `Scorer.CountKinds` | backend/app/scorer.py:72-80 | the counting loop yields the mismatch, missing and extra counts of the errors |
| `Scorer.Breakdown` | backend/app/scorer.py:83-98 | the breakdown keeps the total score and the counts, the total deduction is the sum of the three deductions, and the final score is the larger of 0 and the total minus the total deduction |
| `Scorer.BreakdownDeductions` | backend/app/scorer.py:83-87 | mismatch and missing deduct their count times the per-error deduction, and extra deducts its count times 0.5 |
| `Scorer.CalculateScoreByType` | backend/app/scorer.py:58-98 | the result is the breakdown of the counted kinds; the counts add up to at most the number of errors and the final score is non-negative |
| `Scorer.DeductionIsPerErrorCost` | backend/app/scorer.py:83-89 | the total deduction is the sum over the errors of each one's cost: the per-error deduction for mismatch and missing, 0.5 for extra, nothing for an unknown kind |
| `Scorer.ByTypeMatchesFlat` | backend/app/scorer.py:83-90 | when every error is a mismatch or missing group, the score by kind equals the flat score |
| `Scorer.NoExtras` | backend/app/scorer.py:78-80 | errors of kinds other than extra count no extra |
| `Scorer.ByTypeNotBelowFlat` | backend/app/scorer.py:83-90 | when the per-error deduction is at least 0.5, the score by kind is never below the flat score |
| `Scorer.FloorMonotone` | backend/app/scorer.py:90 | the floor at 0 is monotone |
| `Scorer.GetGrade` | backend/app/scorer.py:100-119 | the grade is A if and only if the score is at least 90, and F if and only if it is below 60 |
| `Scorer.GradeIsBestReached` | backend/app/scorer.py:110-119 | a score reaches the threshold of its grade and no threshold of a better grade, with inclusive thresholds 90, 80, 70 and 60 |
| `Scorer.GradeMonotone` | backend/app/scorer.py:110-119 | a higher score never gets a worse grade |
| `Scorer.GetFeedback` | backend/app/scorer.py:144-145 | with no error the feedback is the perfect message, whatever the score |
| `Scorer.FeedbackHeads` | backend/app/scorer.py:134-145 | the five grade sentences and the perfect message are non-empty and begin with distinct characters |
| `Scorer.FeedbackWithErrors` | backend/app/scorer.py:142-147 | with errors present the feedback starts with the sentence of the score's grade; a positive count follows in decimal between `（共发现 ` and ` 处错误）` |
| `Scorer.FeedbackReadsBack` | backend/app/scorer.py:132-147 | with errors present, the feedback determines both the grade and the error count |
| `Scorer.FeedbackPerfectOnlyWithoutErrors` | backend/app/scorer.py:144-147 | the perfect message is returned if and only if there is no error |

## Left out

- OCR of scanned pages, PDF report generation, the HTTP endpoints and the review orchestration
  are not part of this model. They do image processing, file and network I/O, and keep state
  across requests.
- File reads are left out. `ParseReferenceTxt` takes the lines as read, and `ParseTxtFile` takes
  the whole text as read.
- Logging is left out.
- The timestamp pattern of the general parser's header scan is a parameter `findTimestamp`. The
  model proves that the last header line with a match wins, whatever the pattern matches.
- Digits and whitespace are ASCII only. Python's `\d`, `\s`, `split()` and `strip()` also accept
  other Unicode digits and spaces.
- Scores are exact reals, not binary floating point.
  - `Scorer.CalculateScore` writes the count times the deduction as a repeated sum (`Times`).
    `Scorer.TimesIsProduct` proves it equal to the product.
  - Python's `max(0, …)` returns the integer 0 where the model returns the real 0.0.
- `Scorer.CalculateScore`: the `total_groups` argument is accepted and ignored, as in the source.
- The `error_type` string is the datatype `ErrorKind`. `Mismatch`, `Missing` and `Extra` stand for
  `"mismatch"`, `"missing"` and `"extra"`. `Other(name)` stands for any other name, which the score
  by kind ignores. A value `Other("mismatch")` is outside this representation.
- `Comparator.Compare` sorts with the stable insertion sort `SortByIndex`, a value-level stand-in
  for the in-place `list.sort`. The model also walks the extras in an arbitrary order instead of
  the dictionary's insertion order. Both are irrelevant to the result: `Comparator.DiffUnique`
  proves the diff is unique.
- `Scorer.GetFeedback`: its contract states only the perfect-message case.
  `Scorer.FeedbackWithErrors` states the other case: the sentence of the score's grade followed
  by the error count. `Scorer.FeedbackReadsBack` shows that this feedback determines the grade
  and the count.
- The grade bucketing is modelled, but its result is a datatype `Grade` rather than a
  one-letter string.

The `allow_ocr_correction` flag of `compare_with_tolerance` (backend/app/comparator.py:131-170)
suggests that without it an OCR look-alike such as `O123` against `0123` would be reported as a
mismatch. It is not: `compare` normalises both values itself (backend/app/comparator.py:59), so
neither mode reports it, and the flag only changes which submitted text is recorded. The model
follows the code: `Comparator.OcrLookalikeMatches` and `Comparator.ToleranceModesAgree`.
