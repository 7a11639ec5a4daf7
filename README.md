# School behaviour dashboard — a verified model of its data logic

`detention_dashboard_app.py` is a Streamlit page. It loads two tables from an
uploaded file or a link: detentions and on-call incidents. It normalises their
column labels, parses their dates, and shows headline counts and grouped
breakdowns. This project models the logic behind those figures in Dafny and
proves what it promises:

- **Loader** (`loader.dfy`): which reader a file name or a link would be handed
  to, and the rewrite of a Google Sheets edit link into its CSV export link.
- **Tables** (`tables.dfy`): a data frame as column labels plus rows of cells.
  A cell is missing, text, or a timestamp. The module also covers `rename`,
  `to_datetime(..., errors='coerce')` over one column, and a mutable `Frame`
  class for the in-place assignments.
- **Normalizer** (`normalizer.dfy`): `prepare_detentions` and `prepare_oncall`.
  Each is a method over a `Frame`, proved against a function on values
  (`NormalizeDetentions`, `NormalizeOncall`) whose properties are proved as
  lemmas.
- **Grouping** (`grouping.dfy`): `mask.sum()`, `groupby(...).agg(... 'count' ...)`
  with missing keys dropped and keys sorted ascending, and `value_counts()`.
- **Dashboard** (`dashboard.dfy`): the numbers computed in
  `render_detentions_dashboard` and `render_oncall_dashboard`. Rates are kept
  as numerator and denominator.
- **Text** (`text.dfy`) and **Wrappers** (`wrappers.dfy`): the Python string
  operations the code relies on, and `Option`.

Date parsing is a parameter `parse: string -> Option<Moment>`. `None` stands
for a value that does not parse and is coerced to `NaT`. Python's `str.strip()`
removes exactly the characters of `str.isspace`, and `IsSpace` lists them.

Four behaviours of the code shape the figures:

- `groupby` uses the pandas default `dropna=True`, so rows with a missing Year
  belong to no Year group. `value_counts()` drops missing values by its own
  default, so incidents with a missing Type are not counted.
- An empty table shows no figures at all, because `df.empty` returns early.
- A group's rate is divided without a guard, so a group with no issued
  detentions has no rate (`GroupRate` is `None`).
- The daily `Issued` counts rows with a date *and* a student, not every row
  with a date.

## Model

| member | source | states |
|---|---|---|
| Loader.FileFormatByExtension | detention_dashboard_app.py:42-54 | An upload is read as CSV exactly when its lower-case extension is `csv`, as Excel exactly when it is `xlsx` or `xls`, and refused otherwise. |
| Loader.FileFormatIgnoresCase | detention_dashboard_app.py:42-47 | No file loads nothing; names that agree after lower-casing get the same reader. |
| Loader.FileFormatExamples | detention_dashboard_app.py:46-54 | `report.pdf` is refused and `Detentions.CSV` is read as CSV. |
| Loader.IsExcelName | detention_dashboard_app.py:49 | A lower-cased name is an Excel name when it ends in `.xlsx` or `.xls`. |
| Loader.LoadFromFile | detention_dashboard_app.py:42-54 | No file loads nothing and a named file always gets an outcome; a chosen reader is handed the uploaded file itself. |
| Loader.EndsWithExtension | detention_dashboard_app.py:47-49 | For a dot-free `e`, `endswith("." + e)` holds exactly when the text after the last dot is `e`. |
| Loader.LowerNameByExtension | detention_dashboard_app.py:47-49 | The three suffix tests, restated as tests of the extension. |
| Loader.LastIndexOf | detention_dashboard_app.py:47-49 | Gives the last position of a character, or `None` when the character is absent. |
| Loader.BeforeSlashOfBeforeMarker | detention_dashboard_app.py:78 | Cutting at `/d/` and then at `/` is the same as cutting at `/`. |
| Loader.SheetIdIsSegment | detention_dashboard_app.py:78-81 | Without `/d/` there is no id (the caught `IndexError`); otherwise the id is the text after the first `/d/` up to the next `/`, and contains no `/`. |
| Loader.SheetId | detention_dashboard_app.py:78 | There is no id exactly when the link has no `/d/`, the case in which taking piece 1 raises `IndexError`. |
| Text.BeforeIs | detention_dashboard_app.py:78 | Cutting `a + "/" + b` at its first `/`, where `a` holds no `/`, gives `a`. |
| Text.BeforeCharAbsent | detention_dashboard_app.py:78 | The text before the first occurrence of a character does not contain it. |
| Loader.SheetsLinkRewrite | detention_dashboard_app.py:74-81 | A link mentioning `docs.google.com`, `/edit` and `/d/` becomes the export link of its id; any other link is kept unchanged. |
| Loader.RewriteSheetsLink | detention_dashboard_app.py:76-81 | A link is changed only when it mentions `docs.google.com`, `/edit` and `/d/`, and then it becomes the export link of its id. |
| Loader.ExportUrl | detention_dashboard_app.py:79 | The CSV export link of the sheet with the given id. |
| Loader.ExportUrlIsCsv | detention_dashboard_app.py:79-87 | An export link is always read as CSV. |
| Loader.ReaderFor | detention_dashboard_app.py:83-87 | The link is handed to a reader as it is: Excel exactly when its lower case ends in `.xlsx` or `.xls`, CSV otherwise. |
| Loader.LoadFromUrl | detention_dashboard_app.py:71-87 | An empty link loads nothing, and any other link is handed to a reader; a link is never refused. |
| Loader.UrlFormatByExtension | detention_dashboard_app.py:71-87 | A non-empty link is read as Excel exactly when its rewritten, lower-cased extension is `xlsx` or `xls`, and as CSV otherwise. |
| Loader.SheetsLinkIsCsv | detention_dashboard_app.py:71-87 | A stripped Sheets edit link with a `/d/` is fetched as CSV from the export link of its id. |
| Loader.SheetsPrefixMarker | detention_dashboard_app.py:78 | The first `/d/` of `https://docs.google.com/spreadsheets/d/` is the one at its end. |
| Loader.EditLinkMentions | detention_dashboard_app.py:76 | An edit link mentions `docs.google.com` and `/edit`. |
| Loader.EditLinkMarker | detention_dashboard_app.py:78 | The first `/d/` of an edit link is the one just before the document id. |
| Loader.SheetsEditLinkExport | detention_dashboard_app.py:71-87 | `https://docs.google.com/spreadsheets/d/<id>/edit<tail>`, for an id without `/` and a tail not ending in white space, is fetched as CSV from `https://docs.google.com/spreadsheets/d/<id>/export?format=csv`; `ABC123` with `#gid=0` is one instance. |
| Text.IsSpace | detention_dashboard_app.py:74 | The characters Python's `str.isspace` accepts: tab to carriage return, the four separators U+001C-U+001F, space, U+0085, U+00A0, U+1680, U+2000-U+200A, U+2028, U+2029, U+202F, U+205F and U+3000. |
| Text.TrimLeft | detention_dashboard_app.py:112 | Removes exactly the longest prefix of characters passing the test: the result is a suffix of the input, every removed character passes, and the result does not start with one that does. |
| Text.TrimRight | detention_dashboard_app.py:112 | Removes exactly the longest suffix of characters passing the test, symmetrically. |
| Text.Strip | detention_dashboard_app.py:74 | The result is a piece of the input with only white space (`str.isspace`) around it, and it neither starts nor ends with white space; a string that already does not is returned unchanged. |
| Text.TrimsLeaveAround | detention_dashboard_app.py:74 | What the two trims keep stands in the input with only removed characters before and after it. |
| Text.TrimsKeepEnds | detention_dashboard_app.py:74 | What the two trims keep starts and ends with a kept character, and a string that already does is kept whole. |
| Text.StripPadded | detention_dashboard_app.py:112 | One space on each side of a stripped, non-empty label is removed. |
| Text.IndexOf | detention_dashboard_app.py:76 | Gives the first occurrence of the substring, or `None` exactly when it occurs nowhere. |
| Text.OccursIn | detention_dashboard_app.py:76 | The middle piece of a concatenation occurs in it where the first piece ends. |
| Text.OccursExtend | detention_dashboard_app.py:76 | An occurrence stays at its position when text is appended. |
| Text.IndexOfIs | detention_dashboard_app.py:78 | An occurrence with no earlier one is the position `find` returns. |
| Text.IndexOfPrefix | detention_dashboard_app.py:78 | Appending text after the first occurrence does not move it. |
| Text.EndsWith | detention_dashboard_app.py:47-49 | `s.endswith(p)`: `p` is no longer than `s` and is its final piece. |
| Text.Split | detention_dashboard_app.py:78 | There are at least two pieces exactly when the separator occurs; the first piece is the text before its first occurrence. |
| Text.SplitSecond | detention_dashboard_app.py:78 | The second piece is the first piece of the text after the first separator. |
| Text.Before | detention_dashboard_app.py:78 | Gives the prefix of the string up to the first occurrence of the separator, or the whole string when it does not occur. |
| Text.SplitFirstIsBefore | detention_dashboard_app.py:78 | The first piece of `split` is the text before the first separator. |
| Text.LowerChar | detention_dashboard_app.py:117 | An ASCII capital becomes the letter 32 code points later, a lower-case letter; every other character is kept. |
| Text.Lower | detention_dashboard_app.py:117 | Has the input's length. |
| Text.LowerAt | detention_dashboard_app.py:117 | Character i of the lower-cased string is character i lower-cased. |
| Text.LowerWithoutCapitals | detention_dashboard_app.py:46 | A name holding no ASCII capital is its own lower case. |
| Text.LowerIsLowerCase | detention_dashboard_app.py:117 | The result holds no ASCII capital, and lower-casing it again changes nothing. |
| Text.ContainsOccurs | detention_dashboard_app.py:117 | Python's `in` test holds exactly when the substring occurs at some position. |
| Text.LexLeTotal | detention_dashboard_app.py:171 | Python's string order compares any two Year values. |
| Text.LexLeAntisymmetric | detention_dashboard_app.py:171 | Two strings each ordered before the other are equal. |
| Text.LexLeTransitive | detention_dashboard_app.py:171 | The string order that sorts the Year keys is transitive. |
| Tables.IndexOfName | detention_dashboard_app.py:122-123 | Gives the first position of a label, or `None` exactly when the label is absent. |
| Tables.RenameLabel | detention_dashboard_app.py:113 | A label that is a key of the map becomes its value; any other label is kept. |
| Tables.Renamed | detention_dashboard_app.py:113 | Renames every label by the map and keeps the number of labels. |
| Tables.Table.IsEmpty | detention_dashboard_app.py:152 | `df.empty`: the table has no rows or no columns. |
| Tables.Table.Column | detention_dashboard_app.py:159 | `df[name]`: the cells of the first column labelled `name`, one per row. |
| Tables.ParseCell | detention_dashboard_app.py:123 | Text that parses becomes that timestamp and text that does not becomes missing (`errors="coerce"`); missing cells and timestamps are kept. |
| Tables.ParseColumn | detention_dashboard_app.py:123 | Each cell of the column becomes its coerced value, and every other cell is unchanged. |
| Tables.ParseColumnSettles | detention_dashboard_app.py:123 | After parsing, the column holds no text, and parsing it again changes nothing. |
| Tables.Frame.Rename | detention_dashboard_app.py:113 | Gives a new frame with every label that is a key relabelled, the same rows, and the input frame untouched. |
| Normalizer.StripAll | detention_dashboard_app.py:112 | Keeps the number of labels; label `i` becomes label `i` stripped. |
| Normalizer.IsAttendanceCandidate | detention_dashboard_app.py:117 | A label is a candidate when its lower case contains `attendance`. |
| Normalizer.AttendanceCandidates | detention_dashboard_app.py:117 | The candidates are exactly the labels whose lower case contains `attendance`. |
| Tables.FirstWhere | detention_dashboard_app.py:117-118 | For any label test: the position of the first label it accepts, with no earlier label accepted, or `None` when it accepts no label. |
| Normalizer.FirstCandidate | detention_dashboard_app.py:117-118 | Gives the position of the first label mentioning `attendance`, or `None` when no label does. |
| Normalizer.CandidatesHeadIsFirst | detention_dashboard_app.py:117-118 | The candidate list is empty exactly when there is no candidate; otherwise its head is the first candidate. |
| Normalizer.AttendanceFallback | detention_dashboard_app.py:115-119 | With `Detention Attendance` present the labels are kept. Otherwise each label is kept or becomes `Detention Attendance`, and only a candidate can change. |
| Normalizer.DetentionColumns | detention_dashboard_app.py:112-119 | Keeps the number of labels. Every label comes out stripped, as its stripped form under the detentions map or as `Detention Attendance`. |
| Normalizer.DetentionRenameOnlyRegForm | detention_dashboard_app.py:99-110 | The detentions map changes only `Reg. Form`, into `Reg Form`. |
| Normalizer.DetentionRenameSettled | detention_dashboard_app.py:99-113 | Renaming a stripped label gives a stripped label that is a fixed point of the map. |
| Normalizer.RenamedKeepsStripped | detention_dashboard_app.py:113 | Renaming stripped labels with stripped values keeps them stripped. |
| Normalizer.AttendanceFallbackSpec | detention_dashboard_app.py:115-119 | With `Detention Attendance` present or no candidate, the labels are returned as they were. Otherwise the first candidate, and every label equal to it, becomes `Detention Attendance`, and every other label is unchanged. |
| Normalizer.FallbackWithoutCandidate | detention_dashboard_app.py:115-119 | When no label mentions `attendance`, the fallback returns the labels unchanged. |
| Normalizer.AttendanceFallbackDistinct | detention_dashboard_app.py:115-119 | With distinct labels, the fallback changes exactly the first candidate. |
| Normalizer.DetentionColumnsIgnoreSpace | detention_dashboard_app.py:112 | Labels that differ only in surrounding white space normalise alike. |
| Normalizer.RenamedIsCanonical | detention_dashboard_app.py:112-113 | After strip and rename, every label is stripped and left alone by the map. |
| Normalizer.FallbackKeepsCanonical | detention_dashboard_app.py:115-119 | The attendance fallback keeps labels stripped and left alone by the map. |
| Normalizer.CanonicalSettled | detention_dashboard_app.py:112-113 | Strip and rename leave such labels as they are. |
| Normalizer.FallbackIdempotent | detention_dashboard_app.py:115-119 | A second fallback changes nothing, since the first one supplied `Detention Attendance` or found no candidate. |
| Normalizer.DetentionColumnsIdempotent | detention_dashboard_app.py:112-119 | Normalising the detentions labels twice is normalising them once. |
| Normalizer.OncallRenameExact | detention_dashboard_app.py:132-143 | The on-call map renames exactly `Date/Time`, `Reported by`, `Students involved` and `Assigned to`, and keeps every other label. |
| Normalizer.OncallRenameNeedsExactLabel | detention_dashboard_app.py:143 | A label with white space at either end is never renamed. |
| Normalizer.OncallColumns | detention_dashboard_app.py:132-143 | Keeps the number of labels; a label that is a key of the on-call map becomes its value, and any other label, a padded one included, is kept. |
| Normalizer.OncallColumnsIdempotent | detention_dashboard_app.py:132-143 | The on-call rename keeps the number of labels and is idempotent. |
| Normalizer.YearLabelSettled | detention_dashboard_app.py:99-119 | `Year` is already a canonical detentions label. |
| Normalizer.PaddedDetentionLabel | detention_dashboard_app.py:112-113 | ` Year ` becomes `Year` for detentions. |
| Normalizer.PaddedOncallLabel | detention_dashboard_app.py:143 | `Date/Time ` is kept as it is, while `Date/Time` becomes `DateTime`. |
| Normalizer.ParseDateColumns | detention_dashboard_app.py:121-123 | Parsing the listed columns keeps the table's shape. |
| Normalizer.ParseDateColumnsStep | detention_dashboard_app.py:121-123 | Each iteration parses its column if the column is present. |
| Normalizer.ParseDateColumnsSpec | detention_dashboard_app.py:121-123 | Every listed column that is present holds the coerced original cells, and every unlisted column is unchanged. |
| Normalizer.ParseDateColumnsSettled | detention_dashboard_app.py:121-123 | Parsing columns that are already parsed changes nothing. |
| Normalizer.ParseDateColumnsParsed | detention_dashboard_app.py:121-123 | After parsing, no listed column that is present holds text. |
| Normalizer.NormalizeDetentions | detention_dashboard_app.py:93-124 | The prepared detentions table is well formed and has the same number of rows. |
| Normalizer.NormalizeOncall | detention_dashboard_app.py:127-146 | The prepared on-call table is well formed and has the same number of rows. |
| Normalizer.NormalizeDetentionsIdempotent | detention_dashboard_app.py:93-124 | Preparing a prepared detentions table gives the same table. |
| Normalizer.NormalizeOncallIdempotent | detention_dashboard_app.py:127-146 | Preparing a prepared on-call table gives the same table. |
| Normalizer.PrepareDetentions | detention_dashboard_app.py:93-124 | The caller's frame is left with stripped labels and the same rows. The returned, new frame holds `NormalizeDetentions` of the input. |
| Normalizer.FallBackToAttendance | detention_dashboard_app.py:115-119 | Returns the frame itself or a new frame whose labels are the attendance fallback of the frame's labels, with the same rows. |
| Normalizer.ParseDates | detention_dashboard_app.py:121-123 | The date loop keeps the frame's labels and replaces its rows with those rows after parsing each listed column that is present. |
| Normalizer.PrepareOncall | detention_dashboard_app.py:127-146 | The returned, new frame holds `NormalizeOncall` of the input, and the input is not changed. |
| Grouping.Count | detention_dashboard_app.py:159 | `sum()` of a mask is at most its length, and is zero exactly when no flag is set. |
| Grouping.CountMonotone | detention_dashboard_app.py:159 | A mask implied row by row by another counts no more than it. |
| Grouping.Tally | detention_dashboard_app.py:172 | A group's count is at most the mask's total. |
| Grouping.Flagged | detention_dashboard_app.py:172 | The flagged rows with a key are at most the flagged rows. |
| Grouping.TallyInEmpty | detention_dashboard_app.py:172 | No keys tally nothing. |
| Grouping.TallyInAdd | detention_dashboard_app.py:172 | Adding a new key adds that key's tally. |
| Grouping.TallyInAll | detention_dashboard_app.py:171-172 | Tallying a set that holds every key counts every flagged row with a key. |
| Grouping.TallyPositive | detention_dashboard_app.py:235 | A key that occurs on a flagged row has a positive tally. |
| Grouping.TallySplit | detention_dashboard_app.py:172 | A key's tally under a mask plus its tally under the negated mask is the key's number of rows. |
| Grouping.SumTalliesIsTallyIn | detention_dashboard_app.py:171-172 | Summing the tallies of distinct keys tallies their set. |
| Grouping.SumTalliesCover | detention_dashboard_app.py:171-172 | Summed over distinct keys covering every key, tallies count every flagged row with a key. |
| Grouping.InsertKey | detention_dashboard_app.py:171 | Inserting a key into a strictly ascending list keeps it strictly ascending, and the members are the old ones plus the key. |
| Grouping.GroupKeys | detention_dashboard_app.py:171 | The group keys are strictly ascending (so each occurs once), and are exactly the present keys; missing keys are dropped. |
| Grouping.GroupTalliesSum | detention_dashboard_app.py:171-172 | Summed over all groups, an aggregate counts every flagged row with a present key. |
| Grouping.InsertByCount | detention_dashboard_app.py:235 | Inserting a bucket keeps the counts non-increasing and adds exactly that bucket. The length grows by one and the total by its count. |
| Grouping.InsertByCountDistinct | detention_dashboard_app.py:235 | Inserting a bucket whose key is new into buckets with distinct keys keeps the keys distinct. |
| Grouping.SortByCount | detention_dashboard_app.py:235 | The sorted buckets are the same buckets, with the same length and total, and their counts do not increase. |
| Grouping.SortByCountDistinct | detention_dashboard_app.py:235 | Sorting buckets with distinct keys keeps them distinct. |
| Grouping.Buckets | detention_dashboard_app.py:235 | Bucket `i` holds key `i` and that key's tally. |
| Grouping.SumCountsOfBuckets | detention_dashboard_app.py:235 | The buckets' counts add up to the keys' tallies. |
| Grouping.BucketsMembers | detention_dashboard_app.py:235 | A bucket is present exactly when its key is present and its count is that key's tally. |
| Grouping.BucketsPositive | detention_dashboard_app.py:235 | Counting every row, each present key's bucket counts at least one. |
| Grouping.FlaggedIsCount | detention_dashboard_app.py:172 | The flagged rows with a key are the count of one combined mask. |
| Grouping.ValueCountsSpec | detention_dashboard_app.py:235 | Each present value appears once, with its number of rows; that number is at least one; the counts do not increase and add up to the rows with a value. |
| Grouping.ValueCounts | detention_dashboard_app.py:235 | The counts do not increase, and every counted value occurs in the column. |
| Dashboard.Mask | detention_dashboard_app.py:159 | Flag `i` is the test applied to cell `i`. |
| Dashboard.CountIf | detention_dashboard_app.py:159 | A count of matching cells is at most the number of cells. |
| Dashboard.NonNull | detention_dashboard_app.py:172 | What `'count'` counts: a cell that is not missing. |
| Dashboard.IsPresentLoose | detention_dashboard_app.py:159 | The test holds exactly when the cell is text whose lower case contains `present` somewhere. |
| Dashboard.IsPresentExact | detention_dashboard_app.py:172 | A cell passes exactly when it is the text `Present`, and a passing cell also passes the loose test. |
| Dashboard.IsResolved | detention_dashboard_app.py:226 | The test holds exactly when the cell is text containing `Resolved`, case-sensitively. |
| Dashboard.IsUnresolved | detention_dashboard_app.py:227 | The test holds exactly when the cell is text containing `Unresolved`, case-sensitively. |
| Dashboard.ExactCountWithinLoose | detention_dashboard_app.py:159 | Fewer cells are exactly `Present` than contain `present` in any case. |
| Dashboard.TextKeys | detention_dashboard_app.py:171 | A row has a key exactly when its cell is text, and that key is the text. |
| Dashboard.TextKeysPresent | detention_dashboard_app.py:171 | A value is a present key exactly when some cell holds that text. |
| Dashboard.DayKeys | detention_dashboard_app.py:195-197 | A row has a key exactly when its cell is a timestamp, and that key is the timestamp's day. |
| Dashboard.DayKeysPresent | detention_dashboard_app.py:195-197 | A day is a present key exactly when some cell holds a timestamp on that day. |
| Dashboard.KeyOrders | detention_dashboard_app.py:171 | String order and day order are total orders. |
| Dashboard.DetentionHeadline | detention_dashboard_app.py:156-162 | The total is the number of rows. Attended is at most the total, is 0 without the attendance column, and otherwise counts the cells containing `present` in any case. The rate is attended over total, lies between 0 and 1, and is 0 (as 0 over 1) when there are no rows. |
| Dashboard.Breakdown | detention_dashboard_app.py:170-174 | One group per present key, ascending. `Issued` is the rows in the group with a student; `Attended` is the rows in the group marked exactly `Present`. |
| Dashboard.GroupRate | detention_dashboard_app.py:175 | A group has a rate exactly when something was issued, and the rate is attended over issued. |
| Dashboard.GroupKeysOf | detention_dashboard_app.py:171 | Position `i` holds group `i`'s key. |
| Dashboard.GroupSumsAreTallies | detention_dashboard_app.py:172-174 | Groups carrying the tallies of their keys add up, over Issued and over Attended, to the sums of those tallies. |
| Dashboard.BreakdownSums | detention_dashboard_app.py:159 | Summed over the groups, `Issued` counts rows with a key and a student, and `Attended` counts rows with a key marked `Present`. That sum is at most the headline's attended count. |
| Dashboard.IssuedSkipsMissingStudents | detention_dashboard_app.py:172 | A group's `Issued` plus its rows without a student is the group's number of rows. |
| Dashboard.DetentionDashboard | detention_dashboard_app.py:149-215 | Nothing is shown exactly when the table is empty. Otherwise the headline is shown with at least one row; the Year breakdown exists exactly when `Year` does, and the daily breakdown exactly when `Issued Date` does. The Year breakdown is `Breakdown` of the Year text keys, and the daily breakdown is `Breakdown` of the issue days, both over `Student` and `Detention Attendance`. |
| Dashboard.YearGroupsWithinHeadline | detention_dashboard_app.py:159 | The Year groups' exact `Present` counts add up to no more than the headline's attended count. Their `Issued` adds up to the rows with a Year and a student. |
| Dashboard.DailyGroupsWithinHeadline | detention_dashboard_app.py:159 | The same bound holds for the daily groups. Their `Issued` adds up to the rows with an issue timestamp and a student. |
| Dashboard.YearGroupKeys | detention_dashboard_app.py:169-175 | The Year groups' keys are the text values of `Year`, strictly ascending, once each. |
| Dashboard.DailyGroupKeys | detention_dashboard_app.py:193-200 | The daily groups' keys are the days of the issue timestamps, strictly ascending, once each. |
| Dashboard.PreparedIssueDatesHaveKeys | detention_dashboard_app.py:121-123 | After preparation, a row leaves the daily groups exactly when its issue date is missing or did not parse. |
| Dashboard.LoneYearSevenGroup | detention_dashboard_app.py:170-174 | A Year 7 row with no student, marked `Present`, makes the single group with 0 issued and 1 attended. |
| Dashboard.AttendedCanExceedIssued | detention_dashboard_app.py:172 | A one-row table shows a Year group with more attended than issued, and no rate. |
| Dashboard.OncallCounts | detention_dashboard_app.py:225-227 | Resolved and unresolved are each at most the total. They count the statuses containing `Resolved` and `Unresolved`, case-sensitively. |
| Dashboard.OncallDashboard | detention_dashboard_app.py:218-274 | Nothing is shown exactly when the table is empty. Otherwise the headline is shown with at least one row; the type counts exist exactly when `Type` does, and the daily counts exactly when `DateTime` does. The type counts are `ValueCounts` of the Type text keys, and the daily counts are `OncallDaily` of `DateTime`. |
| Dashboard.UnresolvedIsNotResolved | detention_dashboard_app.py:226-227 | The test is case-sensitive: `Unresolved` is counted as unresolved and not as resolved. |
| Dashboard.ResolvedIsNotUnresolved | detention_dashboard_app.py:226-227 | `Resolved` is counted as resolved and not as unresolved. |
| Dashboard.MixedStatusCountsTwice | detention_dashboard_app.py:226-227 | A status holding `Unresolved` and, after it, `Resolved` is counted in both figures, whatever text surrounds them. |
| Dashboard.TypeCountsSpec | detention_dashboard_app.py:234-235 | Each type appears once, with its number of incidents, which is at least one. The counts do not increase and add up to the rows with a type. |
| Dashboard.OncallDailySpec | detention_dashboard_app.py:253-260 | The days are strictly ascending; every timestamp's day has a bucket and every bucket is the day of some timestamp. Each count is the number of non-missing cells on that day, at least one, and the counts add up to the rows with a timestamp. |
| Dashboard.OncallDaily | detention_dashboard_app.py:254-259 | A bucket is present exactly when its key is the day of some timestamp and its count is the number of non-missing cells on that day. |
| Dashboard.OncallDailyMembers | detention_dashboard_app.py:253-260 | Each daily bucket is the day of some timestamp and counts at least one row. |
| Dashboard.PreparedOncallDailyCountsDates | detention_dashboard_app.py:144-145 | After preparation, the daily counts add up to the non-missing `DateTime` cells. |
| Dashboard.EmptyShowsNothing | detention_dashboard_app.py:152-154 | An empty table shows nothing on either dashboard. |

## Left out

- Rendering: headers, metrics, expanders, warnings, error messages and the altair charts are not modelled; the model returns the figures they display.
- Reading: `pd.read_csv`, `pd.read_excel` and the network fetch are not modelled. A load is the reader it would call and its argument. An exception raised while reading, which the source reports and turns into `None`, is not modelled either. For example, the link `"   "` strips to `""`, and the model dispatches that to CSV.
- `main` is not modelled; it only prefers the uploaded file over the link and calls the steps in order. The upload widget's `type=` filter is not modelled either; `LoadFromFile` still refuses other names as the function does.
- Date parsing: `pd.to_datetime` is the parameter `parse`, applied cell by cell. One `parse` serves both detention date columns and the on-call `DateTime` column. pandas infers a format for each column from its values, so the same text can parse differently in two columns; that is not modelled.
- Rates: the floating-point values and their `.1%` formatting; a rate is a numerator and a denominator. `NaN` versus `inf` for a group with no issued detentions is not distinguished: both are `None`.
- Duplicate column labels and non-string labels, for which pandas selects or strips differently, are not modelled. Column lookup takes the first match.
- Dashboard.DetentionDashboard: the `KeyError` raised when `Student` or `Detention Attendance` is missing beside `Year` or `Issued Date` is not modelled. Instead the call requires those columns (`DetentionColumnsSuffice`).
- Dashboard.OncallDashboard: the `KeyError` for a missing `Status` column is not modelled; the call requires that column (`OncallColumnsSuffice`). Neither is the `AttributeError` of the `.str` accessor on a column holding no strings at all.
- Dashboard.TextKeys: a timestamp read into the Year or Type column, as `read_excel` can produce from a date-formatted spreadsheet cell, counts as no key here; pandas would group it. Cells of those columns are modelled as text.
- Year order: Year values are compared as strings, the way pandas sorts an object column holding text. Years read as numbers would sort numerically, and that is not modelled.
- Text.Lower: lower-cases ASCII letters only. Non-ASCII case mappings and the regular-expression case folding of `contains(..., case=False)` are not modelled; for example, `ſ` would match `s` there.
- Grouping.SortByCount: states that the result has the same members, length and total as its input, not multiset equality. For buckets with distinct keys, as in `value_counts`, that makes it a permutation.
- Grouping.ValueCounts: among equal counts, the model orders types by ascending key. pandas does not promise an order for ties.
- The `if total_detentions else 0` guard of the detentions rate (line 162) cannot fire on the dashboard, since an empty table returns earlier; the headline's contract states its value all the same.
