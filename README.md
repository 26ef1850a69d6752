# Teacher-report handlers of the vPrec bot, in Dafny

The vPrec Telegram bot takes spreadsheets about teachers and answers with
short reports. This project models the logic of four of its handlers:

- **Homework check.** It reads the sheet under one of three header layouts.
  It finds the teacher, "получено" (issued) and "проверено" (checked)
  columns by keyword, or by position using the first data row. It lists the
  teachers who checked less than 70% of the issued work, worst first.
- **Attendance.** It finds the teacher and attendance columns. The last
  header that matches a keyword wins. It cleans every value and reads a
  fraction in [0, 1] as a percentage. It lists the teachers below 40%,
  lowest first.
- **Lesson topics.** It picks the topic column in three steps. It checks
  every stripped topic against the pattern "Урок № N. Тема: …". It
  numbers each malformed topic with its spreadsheet row. It packs the
  report into messages of at most 4000 characters.
- **AI assistant.** It reads the records back from a quoted homework report.
  It answers "who checked least", "top five" and "how many" itself. Any
  other question becomes a prompt for the language model. It caps the
  model's reply, and it caps the workbook text sent with an uploaded
  spreadsheet.

One file per module:

- `wrappers.dfy` (`Option`)
- `strings.dfy` (Python string operations, number parsing and `:.1f`)
- `sheets.dfy` (cells)
- `sorting.dfy` (Python's stable `sort`/`sorted` and `min`)
- `homework_check.dfy`
- `attendance.dfy`
- `lessons.dfy`
- `ai_handler.dfy`

The loops of the handlers are methods, each proved equal to a function of
its input:

- the header-layout loop;
- the positional fallback;
- the row filters;
- the topic classification;
- the message packing;
- the record extraction;
- the prompt builder.

The properties are proved as lemmas about those functions.

The outside world enters each handler as a parameter:

- `pd.read_excel`: a function from a header layout to `Option<Sheet>`, or the
  sheet itself; `None` means the read raised.
- The language model: a function from prompt to `Option<string>`; `None` means
  the call raised.
- `escape_markdown`: a function from string to string.

Percentages are exact `real`s.

## Model

| member | source | states |
|---|---|---|
| HomeworkCheck.ColToStrTrimmed | vPrec/handlers/homework_check_handler.py:49-52 | a header label, tuple or not, comes out stripped |
| HomeworkCheck.KeptLevelsTrimmed | vPrec/handlers/homework_check_handler.py:50-51 | every level kept from a tuple label is stripped and non-empty |
| HomeworkCheck.ColToStrOneLevel | vPrec/handlers/homework_check_handler.py:49-52 | a one-level tuple label reads like the plain label |
| HomeworkCheck.LowerLabels | vPrec/handlers/homework_check_handler.py:54 | one lower-cased label per column |
| HomeworkCheck.ChooseSheet | vPrec/handlers/homework_check_handler.py:40-58 | the layout loop keeps exactly the sheet `PickSheet` describes |
| HomeworkCheck.PickSheetFirstRecognised | vPrec/handlers/homework_check_handler.py:41-56 | the first layout, in the order [0,1], default, 1, whose headers contain "получ" and "провер" is kept |
| HomeworkCheck.PickFromFirstRecognised | vPrec/handlers/homework_check_handler.py:41-56 | from any point of the loop, the next recognised layout is the one kept |
| HomeworkCheck.PickFromUnrecognised | vPrec/handlers/homework_check_handler.py:41-58 | with no layout recognised, the loop keeps the last readable sheet, or the one it started with |
| HomeworkCheck.PickSheetUnrecognised | vPrec/handlers/homework_check_handler.py:41-61 | with no layout recognised, the last readable one is kept; nothing is kept when none could be read |
| HomeworkCheck.LastReadable | vPrec/handlers/homework_check_handler.py:41-58 | the position of a readable layout with no readable layout after it |
| HomeworkCheck.FirstWith | vPrec/handlers/homework_check_handler.py:65-67 | the first header containing a keyword, or none when no header does |
| HomeworkCheck.Positives | vPrec/handlers/homework_check_handler.py:70-73 | exactly the columns of a range whose first-row value is a number above zero, in increasing order |
| HomeworkCheck.FallbackFromPicks | vPrec/handlers/homework_check_handler.py:70-80 | the scan from any column gives a resolved role back unchanged and fills issued and checked from the positive columns, in order |
| HomeworkCheck.FallbackPicks | vPrec/handlers/homework_check_handler.py:69-80 | a resolved role is never overwritten; an unresolved issued takes the first positive column from 1 on, an unresolved checked the next one |
| HomeworkCheck.PositionalFallback | vPrec/handlers/homework_check_handler.py:69-80 | the fallback loop, stopping at the checked assignment, computes `Fallback` |
| HomeworkCheck.Truncate | vPrec/handlers/homework_check_handler.py:105 | `int()` of a float truncates toward zero |
| HomeworkCheck.CollectProblems | vPrec/handlers/homework_check_handler.py:92-107 | the row loop yields `ProblemRows`, skipping rows without aborting |
| HomeworkCheck.RowProblemIff | vPrec/handlers/homework_check_handler.py:94-105 | a row is listed iff it has a non-blank name, issued parses above 0, checked parses and checked/issued*100 < 70; the entry holds those values |
| HomeworkCheck.ProblemRowsComplete | vPrec/handlers/homework_check_handler.py:93-105 | every qualifying row is listed |
| HomeworkCheck.ProblemRowsSound | vPrec/handlers/homework_check_handler.py:93-105 | every listed entry comes from a qualifying row |
| HomeworkCheck.ReportContents | vPrec/handlers/homework_check_handler.py:102-109 | the report lists the qualifying rows as a permutation, sorted ascending by percentage, ties in row order, all below 70 |
| HomeworkCheck.ReportShape | vPrec/handlers/homework_check_handler.py:111-116 | title, then a count line equal to the number of items and one line per item, or the all-clear line exactly when the list is empty |
| HomeworkCheck.SampleLines | vPrec/handlers/homework_check_handler.py:83-85 | the error names at most twelve headers |
| HomeworkCheck.NotFoundListsHeaders | vPrec/handlers/homework_check_handler.py:82-85 | the error lists the first twelve (or fewer) lower-cased headers, each as "i: header" with its 0-based index |
| HomeworkCheck.ProcessHomeworkCheck | vPrec/handlers/homework_check_handler.py:38-119 | the handler's steps give exactly `HomeworkOutcome` |
| Attendance.LastWith | vPrec/handlers/attendance_handler.py:28-33 | the last column whose lower-cased label contains a keyword, or none |
| Attendance.FindColumns | vPrec/handlers/attendance_handler.py:28-33 | the header loop, with no break, leaves each role on its last matching column; one column may take both roles |
| Attendance.ColumnRoles | vPrec/handlers/attendance_handler.py:35-38 | teacher falls back to column 0, attendance to column 1 when there are two columns, else 0 |
| Attendance.KeepNumeric | vPrec/handlers/attendance_handler.py:41 | only digits, ',', '.', '%' and '-' survive the filter |
| Attendance.CleanEach | vPrec/handlers/attendance_handler.py:40-42 | cleaned text holds only digits, '.' and '-' |
| Attendance.CleanIsCleanEach | vPrec/handlers/attendance_handler.py:40-42 | the four-stage chain equals a single per-character pass |
| Attendance.CleanAppend | vPrec/handlers/attendance_handler.py:40-42 | cleaning distributes over concatenation |
| Attendance.CleanEachDigits | vPrec/handlers/attendance_handler.py:41-42 | a digit string is left unchanged |
| Attendance.CleanEachDropsText | vPrec/handlers/attendance_handler.py:41 | text without numeric characters cleans to nothing |
| Attendance.CleanDecorated | vPrec/handlers/attendance_handler.py:40-42 | "text 12,5 % text" cleans to "12.5" |
| Attendance.ValueOfDecimal | vPrec/handlers/attendance_handler.py:40-43 | a plain decimal "w.f" reads as the value it denotes |
| Attendance.ValueOfDecorated | vPrec/handlers/attendance_handler.py:40-43 | such a cell reads as the decimal 12.5 |
| Attendance.ValueOf | vPrec/handlers/attendance_handler.py:40-43 | an empty cell ("nan") gives no value |
| Attendance.Normalise | vPrec/handlers/attendance_handler.py:57-58 | a value in [0, 1] is multiplied by 100; any other value is kept |
| Attendance.NormaliseBelowThreshold | vPrec/handlers/attendance_handler.py:56-60 | below 40 after normalising iff a fraction below 0.4, a negative, or a value in (1, 40) |
| Attendance.FractionReadsAsPercent | vPrec/handlers/attendance_handler.py:40-58 | "0.35" reads as 0.35 and is shown as 35% |
| Attendance.PercentStaysPercent | vPrec/handlers/attendance_handler.py:40-58 | "55.0" stays 55 |
| Attendance.CollectLow | vPrec/handlers/attendance_handler.py:45-63 | the row loop yields `LowRows` |
| Attendance.RowEntryIff | vPrec/handlers/attendance_handler.py:47-61 | a row is listed iff its name cell is not missing and its normalised value is below 40; the entry holds the stripped name and that value |
| Attendance.LowRowsComplete | vPrec/handlers/attendance_handler.py:46-61 | every qualifying row is listed |
| Attendance.LowRowsSound | vPrec/handlers/attendance_handler.py:46-61 | every listed entry comes from a qualifying row |
| Attendance.ReportContents | vPrec/handlers/attendance_handler.py:60-65 | the report lists the qualifying rows as a permutation, ascending, ties in row order, all below 40 |
| Attendance.ReportShape | vPrec/handlers/attendance_handler.py:67-73 | title, then count line and one line per entry, or the all-clear line exactly when none is listed |
| Attendance.ProcessAttendance | vPrec/handlers/attendance_handler.py:17-76 | the handler's steps give exactly `AttendanceOutcome` |
| Lessons.FirstExact | vPrec/handlers/lessons_handler.py:24-25 | the column labelled exactly "Тема урока", if any |
| Lessons.FirstMentioning | vPrec/handlers/lessons_handler.py:27-30 | the first string label containing "тема" ignoring case, if any |
| Lessons.FirstFilled | vPrec/handlers/lessons_handler.py:31-36 | the first column holding a non-NaN cell, if any |
| Lessons.TopicColumnChoice | vPrec/handlers/lessons_handler.py:23-40 | the exact "Тема урока" label wins, then the first label mentioning "тема", then the first filled column (`FirstFilled`); no column is found iff none passes any step |
| Lessons.Topics | vPrec/handlers/lessons_handler.py:42 | one stripped text per row, "nan" for an empty cell |
| Lessons.WellFormedComplete | vPrec/handlers/lessons_handler.py:47-54 | every text built from the pattern's pieces (Урок, spaces, №, digits, optional '.', Тема, ':', a non-newline character) is accepted |
| Lessons.WellFormedSound | vPrec/handlers/lessons_handler.py:47-54 | every accepted text splits into those pieces |
| Lessons.TopicExamples | vPrec/handlers/lessons_handler.py:47 | "Урок № 5. Тема: Дроби" is accepted, "Тема: Дроби" is not |
| Lessons.Classify | vPrec/handlers/lessons_handler.py:49-58 | the loop yields the correct and the incorrect topics |
| Lessons.Partition | vPrec/handlers/lessons_handler.py:52-58 | the two counts add up to the number of topics; the correct topics are exactly the well-formed ones, each as often as it occurs |
| Lessons.IncorrectEntries | vPrec/handlers/lessons_handler.py:52-58 | each flagged topic is malformed and carries its row, index+2 |
| Lessons.IncorrectAscending | vPrec/handlers/lessons_handler.py:52-58 | the rows of the flagged topics strictly increase |
| Lessons.IncorrectComplete | vPrec/handlers/lessons_handler.py:52-58 | every malformed topic is flagged with its row |
| Lessons.IncorrectRows | vPrec/handlers/lessons_handler.py:52-58 | each flagged topic is malformed and carries row index+2, rows increase, and no malformed topic is missed |
| Lessons.HeadLines | vPrec/handlers/lessons_handler.py:60-66 | the report starts with five lines |
| Lessons.SummaryCapped | vPrec/handlers/lessons_handler.py:68-73 | the summary lists the first min(100, n) malformed topics and adds "... и ещё n-100" exactly when n > 100 |
| Lessons.PackChunks | vPrec/handlers/lessons_handler.py:89-101 | the packing loop sends exactly `PackFrom` |
| Lessons.PackConcat | vPrec/handlers/lessons_handler.py:89-101 | the chunks concatenate to the header plus every line with its newline, in order |
| Lessons.PackNonBlank | vPrec/handlers/lessons_handler.py:89-101 | when the header and every line hold a visible character, no chunk sent is blank |
| Lessons.PackFirst | vPrec/handlers/lessons_handler.py:89-97 | the first chunk begins with the text under way |
| Lessons.PackBound | vPrec/handlers/lessons_handler.py:89-101 | a chunk over 4000 characters is the header alone or a single line with its newline |
| Lessons.PackGreedy | vPrec/handlers/lessons_handler.py:91-95 | a chunk is cut only when the next line would push it past 4000 |
| Lessons.Escaped | vPrec/handlers/lessons_handler.py:93-100 | each chunk is escaped on its own |
| Lessons.EscapeEach | vPrec/handlers/lessons_handler.py:93-100 | the sending loop escapes the chunks one by one, in order, giving `Escaped` |
| Lessons.ChunksCarryEverything | vPrec/handlers/lessons_handler.py:85-101 | with malformed topics, the chunks carry the five-line header and every item exactly once, in row order and uncapped; none is blank; an oversize chunk is a single piece |
| Lessons.ProcessLessons | vPrec/handlers/lessons_handler.py:19-101 | the handler's steps give exactly `LessonsOutcome` |
| Sorting.SortByPermutes | vPrec/handlers/homework_check_handler.py:109 | sorting keeps every element with its multiplicity |
| Sorting.SortBySorted | vPrec/handlers/homework_check_handler.py:109 | sorting puts keys in ascending order |
| Sorting.SortByStable | vPrec/handlers/attendance_handler.py:65 | elements with equal keys keep their relative order |
| Sorting.SortByNegatedDescends | vPrec/handlers/ai_handler.py:81 | sorting by the negated key gives descending keys, as `reverse=True` does |
| Sorting.FirstMin | vPrec/handlers/ai_handler.py:75 | `min` with a key: the first position holding the least key |
| Strings.StripEmptyIffBlank | vPrec/handlers/ai_handler.py:44-45 | a stripped text is empty iff the text is all whitespace |
| Strings.StripHasNoEdgeSpace | vPrec/handlers/ai_handler.py:64 | a stripped text neither starts nor ends with whitespace |
| Strings.ContainsIff | vPrec/handlers/ai_handler.py:74 | `w in q` iff `w` occurs at some position of `q` |
| Strings.NatToStringRoundTrip | vPrec/handlers/ai_handler.py:65-66 | `int(str(n)) == n` |
| Strings.ParseUnsignedDigits | vPrec/handlers/ai_handler.py:65-66 | a digit run parses as its integer |
| Strings.ParseUnsignedDecimal | vPrec/handlers/ai_handler.py:67 | "w.f" parses as the decimal it denotes |
| Strings.ParseFormatTenths | vPrec/handlers/ai_handler.py:67 | a value printed with one decimal reads back as exactly the tenths shown |
| Strings.FormatOneDecimalReadsBack | vPrec/handlers/homework_check_handler.py:114 | a percentage printed with `:.1f` reads back within 0.05 |
| Strings.ReplaceCharAbsent | vPrec/handlers/ai_handler.py:67 | replacing a character that is absent changes nothing |
| AiAssistant.ToRecord | vPrec/handlers/ai_handler.py:63-70 | a match converts iff its percentage text does; the record has the stripped name, the integer counts and a percentage ≥ 0 |
| AiAssistant.CollectRecords | vPrec/handlers/ai_handler.py:61-70 | the extraction loop yields `Records` of the matches, skipping the ones that fail |
| AiAssistant.RecordsAppend | vPrec/handlers/ai_handler.py:61-70 | records of consecutive matches come out in text order |
| AiAssistant.SkipsUnconvertible | vPrec/handlers/ai_handler.py:62-70 | a match whose percentage fails to convert is dropped and extraction goes on |
| AiAssistant.RecordsOfMatches | vPrec/handlers/ai_handler.py:61-70 | every record comes from a match and every converting match gives its record |
| AiAssistant.BackOff | vPrec/handlers/ai_handler.py:57 | backtracking `\s*` before the name: a match found ends after a '%' of the text, past the start |
| AiAssistant.MatchEndsAtPercent | vPrec/handlers/ai_handler.py:57 | a match ends right after a '%' of the text |
| AiAssistant.MatchHasPercent | vPrec/handlers/ai_handler.py:57 | a line start that matches has a '%' after it |
| AiAssistant.NoPercentNoMatch | vPrec/handlers/ai_handler.py:57-61 | a text without '%' yields no match at all |
| AiAssistant.NumberNeedsDigit | vPrec/handlers/ai_handler.py:57 | a count group matches iff a digit follows the spaces |
| AiAssistant.NonDigitCountsRejected | vPrec/handlers/ai_handler.py:57 | a non-digit where the issued or the checked count belongs fails the pattern |
| AiAssistant.BulletLineMatch | vPrec/handlers/ai_handler.py:57 | "• name:" followed by the counts is matched with that name, the bullet taken |
| AiAssistant.ItemLineReadsBack | vPrec/handlers/ai_handler.py:56-68 | a report line (homework_check_handler.py:114) with a name free of ':' and newline and without edge spaces is matched whole and yields its name, issued, checked and the printed percentage |
| AiAssistant.ShownRecord | vPrec/handlers/ai_handler.py:63-68 | the match of such a line converts to exactly the record the line shows |
| AiAssistant.ItemLinesReadBack | vPrec/handlers/ai_handler.py:56-70 | report lines joined by newlines give one record per line, in order |
| AiAssistant.ColonLineNoMatch | vPrec/handlers/ai_handler.py:57 | a line "text:" not followed by "получено" matches nothing |
| AiAssistant.PlainLineNoMatch | vPrec/handlers/ai_handler.py:57 | a line without a colon matches nothing |
| AiAssistant.TitleNoMatch | vPrec/handlers/ai_handler.py:57 | the report's title line matches nothing |
| AiAssistant.CountLineNoMatch | vPrec/handlers/ai_handler.py:57 | the report's count line matches nothing |
| AiAssistant.AllClearNoMatch | vPrec/handlers/ai_handler.py:57 | the all-clear line matches nothing |
| AiAssistant.ReportReadsBack | vPrec/handlers/ai_handler.py:56-70 | the whole homework report, quoted back, yields exactly its listed teachers in report order; the all-clear report yields none |
| AiAssistant.Shown | vPrec/handlers/homework_check_handler.py:114 | the record a report line shows: same name and counts, percentage within 0.05 of the exact one |
| AiAssistant.Dispatch | vPrec/handlers/ai_handler.py:72-93 | "least" keywords win, then "top", then "сколько" with "преподав", as iffs; least gives the first record of minimum percentage, top the `TopFive` of the records, count the number of records, otherwise the prompt |
| AiAssistant.TopFiveIsTop | vPrec/handlers/ai_handler.py:80-83 | the top answer has min(5, n) records, descending, drawn from the records, none left out above one shown |
| AiAssistant.DescendingPrefix | vPrec/handlers/ai_handler.py:81-83 | a prefix of a descending list is descending and outranks the rest |
| AiAssistant.BuildPrompt | vPrec/handlers/ai_handler.py:90-93 | the prompt is two title lines, the first min(50, n) records and the question, joined by newlines |
| AiAssistant.Quoted | vPrec/handlers/ai_handler.py:52-53 | the quoted text is the message text when non-empty, else its caption; none when both are empty |
| AiAssistant.QuotedOf | vPrec/handlers/ai_handler.py:49-53 | a question quotes text only when it replies to a message holding non-empty text or caption |
| AiAssistant.Compose | vPrec/handlers/ai_handler.py:52-97 | without a quote the question is the prompt; a quote without records gives the context prompt; otherwise the dispatch on its records |
| AiAssistant.CapReply | vPrec/handlers/ai_handler.py:33-35 | a reply over 4000 characters becomes its first 3980 and "...", length 3983; a shorter one is unchanged |
| AiAssistant.Delivered | vPrec/handlers/ai_handler.py:101-113 | a failed call is an error, exactly an empty reply is reported as empty, any other reply is sent as `CapReply` of it, at most 4000 characters |
| AiAssistant.Respond | vPrec/handlers/ai_handler.py:72-113 | a prompt goes to the AI and its reply is delivered; a least, top or count answer is sent as its own text (`WorstText`, `TopText`, `CountText`), never asking again |
| AiAssistant.AnswerQuoted | vPrec/handlers/ai_handler.py:52-113 | with a quoted message, collecting, dispatching and prompting give exactly `Respond` of `Compose` |
| AiAssistant.QueryOutcome | vPrec/handlers/ai_handler.py:43-97 | a missing or blank question is rejected before anything else; a question quoting nothing goes to the AI as it is |
| AiAssistant.ProcessQuery | vPrec/handlers/ai_handler.py:43-113 | the handler's steps give exactly `QueryOutcome` |
| AiAssistant.LowerEndsWith | vPrec/handlers/ai_handler.py:123 | the lower-cased name ends with a lower-case suffix iff the name ends with it, ignoring case |
| AiAssistant.SpreadsheetIgnoresCase | vPrec/handlers/ai_handler.py:122-125 | a file is accepted iff its name ends with ".xls" or ".xlsx", ignoring case |
| AiAssistant.SheetParts | vPrec/handlers/ai_handler.py:140-147 | each sheet contributes its "--- sheet: name ---" line, then its CSV |
| AiAssistant.Snippet | vPrec/handlers/ai_handler.py:152-153 | content over 15000 characters becomes its first 14800 and "\n... (сокращено)"; shorter content is unchanged |
| AiAssistant.FileOutcome | vPrec/handlers/ai_handler.py:116-125 | no document asks for one; the file is refused iff its name, or "file" when it has none, is not a spreadsheet |

## Left out

- Transport: sending and editing Telegram messages, `report_store.py`, menus,
  keyboards, `context.user_data` and logging. Only what is sent is modelled.
- `_call_mistral` and the `asyncio` executor: the model call is a parameter
  returning `Option<string>`.
- Downloading and deleting the temporary file: reading the workbook is a
  parameter.
- `pd.read_excel` and `to_csv` internals: a sheet is given as labels plus
  rows of cells, and a workbook as sheet names plus CSV text.
- Duplicate column labels are not modelled: a column is addressed by its
  position.
- `pd.to_numeric` and `float()` are a simplified decimal grammar: an optional
  sign, digits with at most one '.', and at least one digit. Exponents, "inf",
  "nan" and surrounding spaces are not accepted.
- `escape_markdown` is a parameter.
- Python floats are exact `real`s: cell numbers, the checked/issued×100 ratio and
  the ×100 normalisation of a fraction are computed exactly. A value within double
  rounding of 40 or 70 can be classified differently: "0.39999999999999999999"
  rounds to the double 0.4 and is not listed by the attendance handler, while the
  model lists it.
- `:.1f` is modelled as round-half-up of the exact value. IEEE binary rounding
  on ties is not modelled.
- `str.lower()` is modelled for ASCII and Cyrillic letters only.
- `\d` and `[0-9]` are ASCII digits.
- `\s` and `str.isspace()` are the Unicode whitespace characters.
- The texts of the error messages are kept only where a property depends on
  them.
- AiAssistant.ItemLineReadsBack: it covers names without ':', newline or edge
  whitespace, and non-negative counts and percentage. A name holding ':' is
  cut at the colon by the pattern, and a negative count cannot match
  `[0-9]+`.
- AiAssistant.Shown: the percentage read back is the one printed (one
  decimal), not the exact ratio.

Where the code and its documentation differ, the model follows the code:

- In the lesson handler, the third fallback picks the first column with any
  non-NaN cell. It does not pick the first with a non-empty stripped value.
- In the lesson handler, empty topic cells become the text "nan" and count as
  malformed.
- With malformed topics, the 100-capped summary is built but not sent. The
  messages carry the first five report lines and every malformed topic.
- In the attendance handler, a name that is blank after stripping is still
  listed; only a missing name is skipped.
- In the homework handler, a re-read at line 61 happens only when no layout
  could be read. It repeats a read that already failed, so the handler ends
  in its generic error.
- In the extractor's pattern, the `\s*` around the fields may be empty and
  may span newlines. The matcher runs over the whole text, with `^` at every
  line start, as `re.MULTILINE` does.
