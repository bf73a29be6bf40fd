# Household ledger: statement import, spending analytics, tagging

A Dafny model of the logic inside the page components of a small household-ledger web app. Two people, "papa" and "mama", upload their credit-card statements. They tag each transaction as papa's, mama's or shared. They then look at spending per month and per category.

The model covers three pieces:

- **Statement import** (the upload page):
  - `parseCsv` reads a card-statement CSV. It finds the header line by its marker `ご利用先など` and decodes every quoted data line after it. Lines that fail are skipped.
  - A `20YYMM` pattern in the file name gives the statement's year and month.
  - Two guards run before an upload.
  - The parsed rows are cut into insert batches of 500.
  - Each row becomes an insert record whose tag is `shared`.
  - The batches are inserted one after another, stopping at the first failure.
- **Analytics** (the analytics page):
  - Rows are grouped by their statement's `YYYY-MM` key into totals with papa / mama / shared parts. The groups are sorted by key.
  - The newest month is selected by default, and the selected month's entry is looked up.
  - The selected month's rows are broken down by category, largest total first.
- **Tagging** (the transactions page):
  - A tag change is shown at once and rolled back when the backend refuses it.
  - A tag filter selects what the list shows.
  - The list shows the total of what it displays.

Modules, one per file:

| file | module | contents |
|---|---|---|
| `wrappers.dfy` | `Wrappers` | `Option` for JavaScript's `null` / `undefined` |
| `text.dfy` | `Text` | JavaScript string operations: `trim`, `split(/\r?\n/)`, `includes`, `replace`, `String(n)`, `padStart`, `<` |
| `ledger.dfy` | `Ledger` | the `Tag` type |
| `seqs.dfy` | `Seqs` | generic sequence and multiset facts the proofs use |
| `statement_csv.dfy` | `StatementCsv` | `parseCsv` |
| `upload.dfy` | `Upload` | file name, upload guards, batches, payload, batch insert |
| `month_key.dfy` | `MonthKeys` | the `YYYY-MM` key and its order |
| `grouping.dfy` | `Grouping` | the `Map` group-by shared by both aggregations, with its reference sums |
| `bucket_sort.dfy` | `BucketSort` | the stable sort of `Array.prototype.sort` for the two comparators used |
| `analytics.dfy` | `Analytics` | the monthly series, default and selected month, category breakdown |
| `transactions.dfy` | `Transactions` | tag change with rollback, tag filter, filtered total |

The model rests on a few design choices:

- JavaScript's `Map` keeps keys in insertion order. It is modelled as a list of (key, totals) buckets: a new key is appended and an existing one is updated in place.
- Each group-by is paired with independent reference definitions. `RowKeys` is the set of keys the rows carry. `SumWhere` is the sum of contributions filed under a key. The lemmas show the buckets agree with them exactly.
- `Array.prototype.sort` is stable. It is modelled by an insertion sort. For the month series the keys are distinct, and `AscendingUnique` shows that any strictly ascending list with the same contents is the same list. The result therefore does not depend on which stable sort is used.
- `JSON.parse`, `Number(...)` and `new Date(...).toISOString()` are function-valued parameters of type `Conversions`. `None` stands for throwing or `NaN`.
- The backend's answers are inputs:
  - the outcome of a tag update is an `Option<string>` error;
  - the outcome of each insert batch is an entry of `failures`.

## Model

| member | source | states |
|---|---|---|
| Text.Trim | src/app/upload/page.tsx:53 | the result is the slice of the input between its leading and trailing white space; it is empty exactly when the input is all white space, and otherwise starts and ends with non-space |
| Text.TrimIdempotent | src/app/upload/page.tsx:53 | trimming a trimmed line changes nothing |
| Text.TrimDropsCr | src/app/upload/page.tsx:52-53 | the `\r` a CRLF line end leaves on a piece is gone after the trim: trimming with or without it gives the same line |
| Text.SplitLines | src/app/upload/page.tsx:52 | splitting on `\r?\n` gives one piece more than there are `\n`, and no piece contains `\n` |
| Text.SplitJoinRoundTrip | src/app/upload/page.tsx:52 | joining pieces without line breaks (and without a trailing `\r`) by `\n` and splitting again gives the pieces back |
| Text.JoinSplitRoundTrip | src/app/upload/page.tsx:52 | for a text without `\r`, joining its pieces by `\n` gives the text back |
| Text.DropLeading | src/app/upload/page.tsx:71 | `replace(/^"/, "")` drops exactly one leading quote when there is one and otherwise returns the text unchanged |
| Text.RemoveAll | src/app/upload/page.tsx:73 | `replace(/,/g, "")` leaves no comma and keeps every other character with its multiplicity |
| Text.RemoveAllAppend | src/app/upload/page.tsx:73 | removing commas from joined texts is removing them from each part, so the kept characters stay in their order |
| Text.LessTransitive | src/app/analytics/page.tsx:109 | the string `<` used by the month sort is transitive |
| Text.LessTotal | src/app/analytics/page.tsx:109 | any two different strings are ordered by `<` one way or the other |
| Text.NatToDecimal | src/app/analytics/page.tsx:96 | `String(n)` is a non-empty run of digits with no leading zero |
| Text.PadStart | src/app/analytics/page.tsx:96 | `padStart` keeps the text as its suffix, reaches the width when shorter, and fills only with the fill character |
| StatementCsv.Lines | src/app/upload/page.tsx:51-54 | every kept line is non-empty and already trimmed, and there are at most as many as the text has line breaks plus one |
| StatementCsv.NonBlankTrimmedPieceByPiece | src/app/upload/page.tsx:53-54 | the blank-line filter is the pieces' trimmed texts, blanks dropped, in order |
| StatementCsv.NonBlankTrimmedAppend | src/app/upload/page.tsx:53-54 | the kept lines of two runs of pieces are those of the first run followed by those of the second |
| StatementCsv.NonBlankTrimmedKeeps | src/app/upload/page.tsx:53-54 | pieces that are already trimmed and non-empty are all kept unchanged |
| StatementCsv.LinesOfOneLine | src/app/upload/page.tsx:51-54 | a text without a line break is the single line of its trimmed text, or no line when blank |
| StatementCsv.LinesOfJoin | src/app/upload/page.tsx:51-54 | the lines of pieces joined by `\n` are the pieces trimmed, blank ones dropped, in order; a piece may end in `\r`, so CRLF files give the same lines as LF files |
| StatementCsv.NonBlankTrimmedAllKept | src/app/upload/page.tsx:53-54 | when no piece is blank, every piece is kept, trimmed, at its own position |
| StatementCsv.HeaderIndex | src/app/upload/page.tsx:56-59 | `findIndex` gives the first line containing the marker, and gives none exactly when no line contains it |
| StatementCsv.DateField | src/app/upload/page.tsx:71 | the date text is column 2 trimmed, with one leading quote removed when there is one: trimmed column 2 is the date text itself when it does not start with a quote, and a quote followed by the date text when it does |
| StatementCsv.AmountField | src/app/upload/page.tsx:73 | the amount text is column 4, else column 8 when present and non-empty, else `"0"` |
| StatementCsv.ParseLine | src/app/upload/page.tsx:65-87 | an unquoted line, an undecodable line or one with fewer than five columns yields nothing; a row is emitted exactly when the line is quoted, decodes to at least five columns, has a non-empty date text and merchant, a non-zero amount and a convertible date; its merchant is the trimmed column 3, its amount the conversion of the comma-free amount text, its category column 1, and its date the first ten characters of the converted date |
| StatementCsv.ParseDataLines | src/app/upload/page.tsx:61-90 | the rows of the data lines number at most the lines, and every row is well formed |
| StatementCsv.RowsComeFromLines | src/app/upload/page.tsx:64-84 | every emitted row is the row of some data line |
| StatementCsv.ParseDataLinesAppend | src/app/upload/page.tsx:64-88 | the rows of two runs of lines are the rows of the first run followed by those of the second, so output order follows line order |
| StatementCsv.SkippedLineDropped | src/app/upload/page.tsx:65-87 | a line that fails any check is dropped, and the lines around it are still read |
| StatementCsv.AllAcceptedKeepsEveryLine | src/app/upload/page.tsx:64-84 | when every line is accepted there is one row per line, row k from line k |
| StatementCsv.ParseStatementLines | src/app/upload/page.tsx:56-64 | no header means no rows; otherwise the rows number fewer than the lines from the header on |
| StatementCsv.HeaderSelectsFollowingLines | src/app/upload/page.tsx:56-61 | the lines before the first header, and the header itself, contribute nothing; only the lines after it are read |
| StatementCsv.MissingAmountRejected | src/app/upload/page.tsx:73-75 | with columns 4 and 8 empty the amount falls back to `"0"`, which `!amount` rejects |
| StatementCsv.ParseCsv | src/app/upload/page.tsx:50-91 | empty text yields no rows, there are at most as many rows as line breaks, and every row is well formed |
| StatementCsv.ParseCsvWithoutHeader | src/app/upload/page.tsx:56-59 | a text of lines (LF or CRLF ends) none of which contains the marker once trimmed yields no rows |
| StatementCsv.ParseCsvStatement | src/app/upload/page.tsx:50-91 | a text of preamble lines, a header line and data lines, with LF or CRLF ends, yields the rows of the non-blank data lines, trimmed, in order |
| StatementCsv.StatementRowPerDataLine | src/app/upload/page.tsx:50-91 | when every data line is non-blank and accepted once trimmed, there is one row per data line, row k from data line k trimmed |
| StatementCsv.AcceptedDataLines | src/app/upload/page.tsx:64-88 | non-blank data lines that are all accepted once trimmed give one row each, row k from line k |
| Upload.YearMonthAt | src/app/upload/page.tsx:128-131 | a match gives a year in 2000-2099 and a month in 0-99, and the six matched characters are exactly the digits that year and padded month print as |
| Upload.FirstMatchFrom | src/app/upload/page.tsx:128 | the search finds the leftmost position where the pattern matches, and none exactly when there is no match |
| Upload.FilenameYearMonth | src/app/upload/page.tsx:128-132 | a name yields a year and month exactly when the pattern occurs in it, and the values are those of the leftmost occurrence |
| Upload.FilenameRoundTrip | src/app/upload/page.tsx:128-132 | a name starting with a year of 2000-2099 and its two-digit padded month gives that year and month back |
| Upload.FilenameRoundTripAfterPrefix | src/app/upload/page.tsx:128-132 | the same holds when the period follows any text without a `2` |
| Upload.LeftmostMatchWins | src/app/upload/page.tsx:128 | matches may overlap and the leftmost wins: `20202501.csv` gives year 2020 and month 25 |
| Upload.ChooseFile | src/app/upload/page.tsx:119-138 | choosing a file records it, replaces the rows by its parse, and takes year and month from its name when the name carries them; otherwise year and month keep their values |
| Upload.CheckUpload | src/app/upload/page.tsx:143-150 | the missing-file-or-period error is shown exactly when the file, the year or the month is absent or zero; the no-rows error exactly when all three are present and non-zero and there are no rows; otherwise the upload proceeds |
| Upload.NamedFileMakesFormReady | src/app/upload/page.tsx:128-150 | a file whose name carries a non-zero month and whose text yields rows passes both guards; month `00` is stopped by the first guard |
| Upload.MakeBatches | src/app/upload/page.tsx:195-199 | joining the batches gives the rows back; there are ceil(n / 500) batches, each non-empty and of at most 500 rows, batch k being rows 500k up to 500(k+1) |
| Upload.Payload | src/app/upload/page.tsx:202-210 | one insert record per row, tagged shared, with description and raw merchant both the merchant and the amount and posting date copied |
| Upload.PayloadAppend | src/app/upload/page.tsx:202-210 | the payload of joined batches is the joined payloads |
| Upload.FirstFailure | src/app/upload/page.tsx:212-220 | the first failing batch, and none exactly when every batch succeeds |
| Upload.InsertBatches | src/app/upload/page.tsx:201-221 | when no batch fails the whole payload is inserted with no error; otherwise exactly the batches before the first failure are inserted and the error carries that failure's message |
| Upload.FlattenBatchPrefix | src/app/upload/page.tsx:195-199 | the first k batches hold exactly the first 500k rows (all rows once k reaches the end) |
| Upload.UploadRows | src/app/upload/page.tsx:195-221 | when none of the batches fails, the payload of all rows is inserted and no error is shown; when batch k is the first to fail, batch k exists (500k is below the row count), exactly the payload of the first 500k rows is inserted and the error carries batch k's message; every record is tagged shared |
| MonthKeys.LessIsNumeric | src/app/analytics/page.tsx:109 | on digit strings of one length, `<` agrees with numeric order |
| MonthKeys.MonthKeyReadsBack | src/app/analytics/page.tsx:96 | for a four-digit year and a month below 100 the key is seven characters: four digits denoting the year, a dash, two digits denoting the month |
| MonthKeys.KeyOrderIsChronological | src/app/analytics/page.tsx:96-109 | for four-digit years and months below 100, `<` on keys is year-then-month order |
| MonthKeys.KeyDeterminesMonth | src/app/analytics/page.tsx:96 | in that range, two rows share a key exactly when they share year and month |
| Grouping.Contribution | src/app/analytics/page.tsx:97-105 | a row adds its amount, null as 0, to the total and to exactly one part: papa, mama, or shared for any other tag, null included |
| Grouping.StatementKeyPresent | src/app/analytics/page.tsx:94-95 | a row has a key exactly when it has a first statement |
| Grouping.SameStatementKey | src/app/analytics/page.tsx:94-96 | rows whose first statements have four-digit years and months below 100 share a key exactly when those statements share year and month |
| Grouping.CategoryName | src/app/analytics/page.tsx:157 | the category label is the first category's name when there is one and it is non-empty, and `未分類` otherwise; it is never empty |
| Grouping.Accumulate | src/app/analytics/page.tsx:98-105 | a new key is appended at the end with the row's contribution; for an existing key every bucket keeps its place and the buckets of other keys are unchanged |
| Grouping.AccumulateKeys | src/app/analytics/page.tsx:98-100 | accumulating adds exactly the row's key to the key set |
| Grouping.AccumulateDistinct | src/app/analytics/page.tsx:98-100 | accumulating keeps every key once |
| Grouping.AccumulateLookup | src/app/analytics/page.tsx:101-105 | accumulating changes the totals of the row's key only, by its contribution |
| Grouping.GroupRows | src/app/analytics/page.tsx:93-106 | the buckets have distinct keys and each total is the sum of its three parts |
| Grouping.GroupRowsKeys | src/app/analytics/page.tsx:93-100 | the buckets' keys are exactly the keys the rows carry; rows without a key are ignored |
| Grouping.GroupRowsLookup | src/app/analytics/page.tsx:93-106 | each bucket holds the reference sum of the rows filed under its key |
| Grouping.GroupRowsTotal | src/app/analytics/page.tsx:93-106 | all buckets together hold the sum of every row that has a key |
| Grouping.SumWherePermutation | src/app/analytics/page.tsx:93-106 | the sums do not depend on the order of the rows |
| Grouping.RowKeysPermutation | src/app/analytics/page.tsx:93-96 | the keys do not depend on the order of the rows |
| BucketSort.NotBeforeTransitive | src/app/analytics/page.tsx:171 | both comparators are consistent: not-before is transitive |
| BucketSort.Sort | src/app/analytics/page.tsx:108-110 | the sort permutes its input and leaves it sorted by the comparator |
| BucketSort.SortKeepsMap | src/app/analytics/page.tsx:108-110 | sorting keeps the key set, distinct keys and each key's totals |
| BucketSort.SortKeepsTotal | src/app/analytics/page.tsx:108-110 | sorting keeps the grand total |
| BucketSort.SortStable | src/app/analytics/page.tsx:171 | buckets with equal totals keep their relative order |
| BucketSort.AscendingUnique | src/app/analytics/page.tsx:108-110 | two strictly ascending bucket lists with the same keys and totals are equal |
| Analytics.MonthlyData | src/app/analytics/page.tsx:88-110 | one entry per dated month, strictly ascending by key, each holding the reference sum of that month's rows with total = papa + mama + shared |
| Analytics.MonthlyOrderIndependent | src/app/analytics/page.tsx:88-110 | the series depends only on which rows were returned, not on their order |
| Analytics.KeyedByMonthAmounts | src/app/analytics/page.tsx:93-106 | the rows with a statement add up to the dated amounts of each tag class |
| Analytics.MonthlyGrandTotal | src/app/analytics/page.tsx:93-106 | across all months the totals are the amounts of rows with a statement; papa, mama and shared are those of rows so tagged, shared including null |
| Analytics.DefaultSelectedMonth | src/app/analytics/page.tsx:113 | with months present exactly the last entry's key is selected, a key of the series; without months the selection is unchanged |
| Analytics.DefaultIsLatestMonth | src/app/analytics/page.tsx:108-113 | the default selection is the greatest month key the rows carry |
| Analytics.SelectedMonthData | src/app/analytics/page.tsx:139-142 | `find` returns an entry of the series with the selected key, and none exactly when nothing is selected or the key is absent |
| Analytics.SelectedAgreesWithLookup | src/app/analytics/page.tsx:140 | the entry found holds what the series holds under that key |
| Analytics.SelectedMonthSummary | src/app/analytics/page.tsx:139-142 | a month is found exactly when some row carries it, and its entry is the sum over exactly that month's rows |
| Analytics.CategoryData | src/app/analytics/page.tsx:144-171 | nothing without a selection (null or empty); otherwise one bucket per category of the selected month, non-increasing by total, each the reference sum of its rows |
| Analytics.CategoryTiesKeepFirstSeenOrder | src/app/analytics/page.tsx:171 | categories with equal totals stay in first-seen order |
| Analytics.CategoriesCoverMonth | src/app/analytics/page.tsx:151-168 | a row is filed under some category of a month exactly when it belongs to that month, so the category sums of a month add up to the month's sum |
| Analytics.CategoryTotalsMatchMonth | src/app/analytics/page.tsx:144-171 | the categories of a month add up to that month's entry in the series |
| Analytics.OtherMonthsIgnored | src/app/analytics/page.tsx:152-155 | a row of another month, or one without a statement, does not change the breakdown |
| Analytics.ThreeTagsOneMonth | src/app/analytics/page.tsx:93-110 | a papa 1000, mama 2000 and shared 500 row of one month give the single entry 3500 = 1000 + 2000 + 500 |
| Transactions.Retag | src/app/transactions/page.tsx:106-108 | same length and order; a row with the id gets the tag and keeps every other field; any other row is unchanged |
| Transactions.RetagIdempotent | src/app/transactions/page.tsx:107 | setting the same tag twice is setting it once |
| Transactions.RetagLastWins | src/app/transactions/page.tsx:107 | of two tag changes to one transaction the later one stands |
| Transactions.RetagCommutes | src/app/transactions/page.tsx:107 | tag changes to different transactions commute |
| Transactions.RetagAbsent | src/app/transactions/page.tsx:107 | a change to an id not in the list changes nothing |
| Transactions.BeginTagChange | src/app/transactions/page.tsx:105-108 | the snapshot is the list before the change, and the list shown is the retagged one |
| Transactions.CompleteTagChange | src/app/transactions/page.tsx:109-116 | on success the state stays; on refusal the snapshot is restored and the message shown |
| Transactions.HandleTagChange | src/app/transactions/page.tsx:104-117 | without interleaving, success leaves the retagged list and refusal the original list with the error |
| Transactions.RefusedChangeRestores | src/app/transactions/page.tsx:104-117 | a refused change leaves the page as it was apart from the error |
| Transactions.Filtered | src/app/transactions/page.tsx:119-122 | `all` shows the list unchanged; a tag shows exactly the rows with that tag |
| Transactions.FilteredAppend | src/app/transactions/page.tsx:119-122 | filtering keeps the list order |
| Transactions.FilteredTotal | src/app/transactions/page.tsx:124-127 | the loop computes the sum of the amounts of the filtered rows, a missing amount as 0 |
| Transactions.FiltersPartition | src/app/transactions/page.tsx:119-127 | the three tag filters split the list: their counts and totals add up to those of `all` |
| Transactions.RetagKeepsTotal | src/app/transactions/page.tsx:106-127 | a tag change never changes the unfiltered total |

## Left out

- All backend calls are left out because they are foreign I/O. This covers:
  - authentication and the household lookup with its fallback insert;
  - the delete-then-insert of the statement record;
  - the transaction update;
  - the comment fetch and insert;
  - the transactions page's statement list and statement selection.

  Their answers enter the model only as the `outcome` of a tag change and the `failures` of the insert batches.
- React state, effects and rendering are left out as presentation. So are the messages that only report counts, `toLocaleString`, the charts and the upload preview total.
- Transactions.HandleTagChange: interleavings of overlapping tag changes are not modelled. Each change is taken to complete before the next begins. With overlapping changes, a refused change restores a snapshot that can undo another change that succeeded.
- `JSON.parse`, `Number(...)` and `new Date(...).toISOString()` are parameters, not re-derived. The date is the first ten characters of whatever the date conversion returns.
- StatementCsv.ParseLine: the decoded line is a list of strings. A line whose array holds a non-string value (a number, a boolean, `null`) is treated as not decoding, so the model skips it. The page reads some such lines anyway, and the model drops those rows:
  - a non-string value in a column the page never reads: columns 0, 5 to 7 and 9 and up, and column 8 whenever column 4 is a non-empty string, because `||` stops at column 4;
  - `null` in column 1, which `?? ""` turns into an empty category, or a number or boolean there, which becomes the category as it is;
  - `null`, `0` or `false` in column 4 when column 8 holds a string amount, because `||` passes over a falsy value.

  The page skips the other cases too, as the model does:
  - a non-zero number or `true` in column 4 makes `replace` throw;
  - so does a number or boolean in column 8 when column 8 is the one read;
  - a number or boolean in column 2 or 3 makes `trim` throw;
  - `null` in column 2 or 3 leaves the date or merchant empty.
- Upload.ChooseFile: the file's text enters the model already decoded. `f.text()` always decodes as UTF-8, so a Shift-JIS card export loses the header marker and the page finds no rows. Character decoding is not modelled.
- Transactions.FiltersPartition: the tag is never null in the model, as the transactions page declares it. The `user_tag` column can hold null, though, and the analytics page allows for that. A row with a null tag is listed under `all` but under none of the three tag filters. The partition is not promised for such rows.
- The date conversion's time-zone behaviour is not modelled. `new Date(s)` reads a date that is not in ISO form (such as `2025/01/05`) as local time, and `toISOString()` prints it in UTC. East of UTC such a date comes out one day early: at UTC+9, `2025/01/05` becomes `2025-01-04`. The model passes the conversion in as a parameter and does not capture this shift.
- Amounts are integers (yen). JavaScript's floating-point numbers, fractional amounts and `NaN` arithmetic are not modelled.
- Text.Less: it compares code points where JavaScript compares UTF-16 code units. The two agree on the ASCII keys that are compared.
- MonthKeys.KeyOrderIsChronological: it is stated for four-digit years and months 0-99 only. Outside that range, string order and date order can differ.
- Upload.MakeBatches: it is stated for any element type; the page applies it to parsed rows.
- The statement metadata insert (year, month, source, file name) is left out because it is a backend call.
