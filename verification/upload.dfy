/** The upload page around `parseCsv`: the year and month taken from the
    file name, the checks before an upload, the cutting of the rows into
    insert batches, the insert payload, and the sequential insert that stops
    at the first failing batch. */
module Upload {
  import opened Wrappers
  import opened Text
  import opened Ledger
  import opened StatementCsv
  import opened Seqs

  /* ---------------------------------------------------------------------
     Year and month from the file name: `name.match(/(20\d{2})(\d{2})/)`.
     --------------------------------------------------------------------- */

  datatype YearMonth = YearMonth(year: int, month: int)

  /** `\d` without the `u` flag: an ASCII digit. */
  predicate IsDigit(c: char) {
    '0' <= c <= '9'
  }

  function DigitValue(c: char): (d: nat)
    requires IsDigit(c)
    ensures d < 10
  {
    c as int - '0' as int
  }

  /** The pattern `20\d{2}\d{2}` occurs in `name` at index `i`. */
  predicate MatchesAt(name: string, i: int) {
    && 0 <= i && i + 6 <= |name|
    && name[i] == '2' && name[i + 1] == '0'
    && IsDigit(name[i + 2]) && IsDigit(name[i + 3])
    && IsDigit(name[i + 4]) && IsDigit(name[i + 5])
  }

  /** `Number(match[1])` and `Number(match[2])` for the match at `i`. */
  function YearMonthAt(name: string, i: int): (r: YearMonth)
    requires MatchesAt(name, i)
    ensures 2000 <= r.year <= 2099
    ensures 0 <= r.month <= 99
    ensures name[i..i + 6] == PeriodDigits(r.year, r.month)
  {
    var a, b := DigitValue(name[i + 2]), DigitValue(name[i + 3]);
    var c, d := DigitValue(name[i + 4]), DigitValue(name[i + 5]);
    DigitsReadBack(name[i + 2]);
    DigitsReadBack(name[i + 3]);
    DigitsReadBack(name[i + 4]);
    DigitsReadBack(name[i + 5]);
    TwoDigitNumber(20 * 10 + a, b);
    TwoDigitNumber(20, a);
    TwoDigitNumber(c, d);
    YearMonth(2000 + 10 * a + b, 10 * c + d)
  }

  /** A digit prints back as itself. */
  lemma DigitsReadBack(c: char)
    requires IsDigit(c)
    ensures DigitChar(DigitValue(c)) == c
  {
  }

  /** The last digit and the rest of `10 * q + d`. */
  lemma TwoDigitNumber(q: nat, d: nat)
    requires d < 10
    ensures (10 * q + d) / 10 == q && (10 * q + d) % 10 == d
  {
  }

  /** The leftmost match at or after index `from`. */
  function FirstMatchFrom(name: string, from: nat): (r: Option<nat>)
    ensures r.None? ==> forall j :: from <= j ==> !MatchesAt(name, j)
    ensures r.Some? ==> from <= r.value && MatchesAt(name, r.value)
    ensures r.Some? ==> forall j :: from <= j < r.value ==> !MatchesAt(name, j)
    decreases |name| - from
  {
    if from + 6 > |name| then None
    else if MatchesAt(name, from) then Some(from)
    else FirstMatchFrom(name, from + 1)
  }

  /** The year and month a file name announces, from its leftmost match.
      The month is not range-checked: `"202513"` gives month 13. */
  function FilenameYearMonth(name: string): (r: Option<YearMonth>)
    ensures r.None? <==> forall i :: !MatchesAt(name, i)
    ensures r.Some? ==> 2000 <= r.value.year <= 2099 && 0 <= r.value.month <= 99
    ensures r.Some? ==> exists i :: && MatchesAt(name, i)
                                    && (forall j :: 0 <= j < i ==> !MatchesAt(name, j))
                                    && r.value == YearMonthAt(name, i)
  {
    match FirstMatchFrom(name, 0)
    case None => None
    case Some(i) => Some(YearMonthAt(name, i))
  }

  lemma DigitRoundTrip(d: nat)
    requires d < 10
    ensures IsDigit(DigitChar(d)) && DigitValue(DigitChar(d)) == d
  {
  }

  /** The four digits of a year of this century. */
  lemma {:induction false} CenturyYearDigits(y: int)
    requires 2000 <= y <= 2099
    ensures NatToDecimal(y) == ['2', '0', DigitChar(y / 10 % 10), DigitChar(y % 10)]
  {
    assert NatToDecimal(20) == ['2', '0'] by {
      assert NatToDecimal(2) == ['2'];
    }
    assert (y / 10) / 10 == 20;
    assert NatToDecimal(y / 10) == NatToDecimal(20) + [DigitChar(y / 10 % 10)];
  }

  /** Two digits of a month below 100, zero-padded. */
  lemma TwoDigits(m: int)
    requires 0 <= m <= 99
    ensures PadStart(NatToDecimal(m), 2, '0') == [DigitChar(m / 10), DigitChar(m % 10)]
  {
    if m < 10 {
      var c := DigitChar(m);
      assert NatToDecimal(m) == [c];
      assert PadStart([c], 2, '0') == ['0', c];
      assert DigitChar(0) == '0';
    } else {
      var s := NatToDecimal(m / 10) + [DigitChar(m % 10)];
      assert NatToDecimal(m / 10) == [DigitChar(m / 10)];
      assert NatToDecimal(m) == s;
      assert |s| == 2;
    }
  }

  lemma MatchAtStart(name: string)
    requires MatchesAt(name, 0)
    ensures FilenameYearMonth(name) == Some(YearMonthAt(name, 0))
  {
    assert FirstMatchFrom(name, 0) == Some(0);
  }

  /** A name starting with `20` and four more digits matches at 0. */
  lemma DigitsAtStart(va: nat, vb: nat, vc: nat, vd: nat, suffix: string)
    requires va < 10 && vb < 10 && vc < 10 && vd < 10
    ensures var name := ['2', '0', DigitChar(va), DigitChar(vb), DigitChar(vc), DigitChar(vd)] + suffix;
            && MatchesAt(name, 0)
            && YearMonthAt(name, 0) == YearMonth(2000 + 10 * va + vb, 10 * vc + vd)
  {
    DigitRoundTrip(va);
    DigitRoundTrip(vb);
    DigitRoundTrip(vc);
    DigitRoundTrip(vd);
  }

  /** The six characters a year of this century and a padded month print as. */
  function PeriodDigits(y: int, m: int): string
    requires 2000 <= y <= 2099 && 0 <= m <= 99
  {
    ['2', '0', DigitChar(y / 10 % 10), DigitChar(y % 10), DigitChar(m / 10), DigitChar(m % 10)]
  }

  lemma PeriodText(y: int, m: int)
    requires 2000 <= y <= 2099 && 0 <= m <= 99
    ensures NatToDecimal(y) + PadStart(NatToDecimal(m), 2, '0') == PeriodDigits(y, m)
  {
    CenturyYearDigits(y);
    TwoDigits(m);
  }

  lemma CenturyArithmetic(y: int)
    requires 2000 <= y <= 2099
    ensures 2000 + 10 * (y / 10 % 10) + y % 10 == y
  {
    var q, r := y / 10, y % 10;
    assert y == 10 * q + r && 0 <= r < 10;
    assert 200 <= q <= 209;
    assert q == 10 * 20 + (q - 200) && 0 <= q - 200 < 10;
    assert q % 10 == q - 200;
  }

  /** The period digits at the front of a name are found and read back. */
  lemma PeriodDigitsMatch(y: int, m: int, suffix: string)
    requires 2000 <= y <= 2099 && 0 <= m <= 99
    ensures FilenameYearMonth(PeriodDigits(y, m) + suffix) == Some(YearMonth(y, m))
  {
    var name := PeriodDigits(y, m) + suffix;
    DigitsAtStart(y / 10 % 10, y % 10, m / 10, m % 10, suffix);
    CenturyArithmetic(y);
    MatchAtStart(name);
  }

  /** A file name that starts with the year's four digits and the padded
      month (as in `202501meisai.csv`) gives that year and month back. */
  lemma FilenameRoundTrip(y: int, m: int, suffix: string)
    requires 2000 <= y <= 2099 && 0 <= m <= 99
    ensures FilenameYearMonth(NatToDecimal(y) + PadStart(NatToDecimal(m), 2, '0') + suffix)
            == Some(YearMonth(y, m))
  {
    PeriodText(y, m);
    PeriodDigitsMatch(y, m, suffix);
  }

  /** The leftmost match is the first index from `from` on that matches. */
  lemma {:induction false} FirstMatchIs(name: string, from: nat, at: nat)
    requires from <= at && MatchesAt(name, at)
    requires forall j :: from <= j < at ==> !MatchesAt(name, j)
    ensures FirstMatchFrom(name, from) == Some(at)
    decreases at - from
  {
    if from < at {
      FirstMatchIs(name, from + 1, at);
    }
  }

  /** The period digits at the front of a text read back as the period. */
  lemma PeriodDigitsRead(y: int, m: int, rest: string)
    requires 2000 <= y <= 2099 && 0 <= m <= 99
    ensures MatchesAt(PeriodDigits(y, m) + rest, 0)
    ensures YearMonthAt(PeriodDigits(y, m) + rest, 0) == YearMonth(y, m)
  {
    DigitsAtStart(y / 10 % 10, y % 10, m / 10, m % 10, rest);
    CenturyArithmetic(y);
  }

  /** A match reads the same wherever the text around it is placed. */
  lemma MatchAfterPrefix(prefix: string, rest: string)
    requires MatchesAt(rest, 0)
    ensures MatchesAt(prefix + rest, |prefix|)
    ensures YearMonthAt(prefix + rest, |prefix|) == YearMonthAt(rest, 0)
  {
    var name := prefix + rest;
    assert forall k :: 0 <= k < 6 ==> name[|prefix| + k] == rest[k];
  }

  /** A match right after a text without a `2` is the leftmost one. */
  lemma FirstMatchAfterPrefix(prefix: string, rest: string)
    requires forall k :: 0 <= k < |prefix| ==> prefix[k] != '2'
    requires MatchesAt(rest, 0)
    ensures FilenameYearMonth(prefix + rest) == Some(YearMonthAt(rest, 0))
  {
    var name := prefix + rest;
    MatchAfterPrefix(prefix, rest);
    assert forall j :: 0 <= j < |prefix| ==> !MatchesAt(name, j) by {
      assert forall j :: 0 <= j < |prefix| ==> name[j] == prefix[j];
    }
    FirstMatchIs(name, 0, |prefix|);
  }

  /** The period may follow any text without a `2` (as in
      `meisai_202501.csv`): the year and month still come back. */
  lemma FilenameRoundTripAfterPrefix(prefix: string, y: int, m: int, suffix: string)
    requires forall k :: 0 <= k < |prefix| ==> prefix[k] != '2'
    requires 2000 <= y <= 2099 && 0 <= m <= 99
    ensures FilenameYearMonth(prefix + NatToDecimal(y) + PadStart(NatToDecimal(m), 2, '0') + suffix)
            == Some(YearMonth(y, m))
  {
    RegroupMiddle(prefix, NatToDecimal(y), PadStart(NatToDecimal(m), 2, '0'), suffix);
    PeriodText(y, m);
    var rest := PeriodDigits(y, m) + suffix;
    PeriodDigitsRead(y, m, suffix);
    FirstMatchAfterPrefix(prefix, rest);
  }

  /** Matches may overlap and the leftmost one wins: in `20202501.csv` the
      pattern is found at index 0, giving year 2020 and month 25, not
      year 2025 and month 01. */
  lemma LeftmostMatchWins()
    ensures FilenameYearMonth("20202501.csv") == Some(YearMonth(2020, 25))
  {
    MatchAtStart("20202501.csv");
  }

  /* ---------------------------------------------------------------------
     The form: choosing a file and the checks before an upload.
     --------------------------------------------------------------------- */

  /** A file picked in the file input. */
  datatype ChosenFile = ChosenFile(name: string, text: string)

  /** The page state the upload depends on. `year` and `month` are also
      editable by hand, so they keep earlier values when the file name
      carries none. */
  datatype UploadForm = UploadForm(
    file: Option<ChosenFile>,
    year: Option<int>,
    month: Option<int>,
    rows: seq<ParsedRow>)

  /** `handleFileChange`: records the file, clears the rows, and when a file
      was chosen takes the year and month from its name (if it carries
      them) and parses its text. */
  function ChooseFile(form: UploadForm, f: Option<ChosenFile>, conv: Conversions): (r: UploadForm)
    ensures r.file == f
    ensures f.None? ==> r.rows == [] && r.year == form.year && r.month == form.month
    ensures f.Some? ==> r.rows == ParseCsv(f.value.text, conv)
    ensures f.Some? && FilenameYearMonth(f.value.name).None? ==>
              r.year == form.year && r.month == form.month
    ensures f.Some? && FilenameYearMonth(f.value.name).Some? ==>
              && r.year == Some(FilenameYearMonth(f.value.name).value.year)
              && r.month == Some(FilenameYearMonth(f.value.name).value.month)
  {
    var cleared := form.(file := f, rows := []);
    match f
    case None => cleared
    case Some(chosen) =>
      var dated := match FilenameYearMonth(chosen.name)
        case Some(ym) => cleared.(year := Some(ym.year), month := Some(ym.month))
        case None => cleared;
      dated.(rows := ParseCsv(chosen.text, conv))
  }

  datatype UploadError =
    | MissingFileOrPeriod   // no file, or year or month empty or zero
    | NoValidRows           // the statement yielded no rows

  /** The two guards at the top of `handleUpload`, in order; `None` lets
      the upload proceed. JavaScript's `!year` is true for an absent or
      zero value. */
  function CheckUpload(form: UploadForm): (r: Option<UploadError>)
    ensures r.None? <==> && form.file.Some?
                         && form.year.Some? && form.year.value != 0
                         && form.month.Some? && form.month.value != 0
                         && |form.rows| > 0
    ensures r == Some(MissingFileOrPeriod) <==> || form.file.None?
                                                || form.year.None? || form.year.value == 0
                                                || form.month.None? || form.month.value == 0
    ensures r == Some(NoValidRows) <==> && form.file.Some?
                                        && form.year.Some? && form.year.value != 0
                                        && form.month.Some? && form.month.value != 0
                                        && |form.rows| == 0
  {
    if form.file.None? || form.year.GetOr(0) == 0 || form.month.GetOr(0) == 0 then
      Some(MissingFileOrPeriod)
    else if |form.rows| == 0 then
      Some(NoValidRows)
    else
      None
  }

  /** Choosing a file whose name carries a non-zero month and whose text
      yields rows leaves the form ready to upload; month `00` in the name is
      accepted by the match but stopped by the guard. */
  lemma NamedFileMakesFormReady(form: UploadForm, f: ChosenFile, conv: Conversions)
    requires FilenameYearMonth(f.name).Some?
    requires |ParseCsv(f.text, conv)| > 0
    ensures FilenameYearMonth(f.name).value.month != 0 ==>
              CheckUpload(ChooseFile(form, Some(f), conv)).None?
    ensures FilenameYearMonth(f.name).value.month == 0 ==>
              CheckUpload(ChooseFile(form, Some(f), conv)) == Some(MissingFileOrPeriod)
  {
  }

  /* ---------------------------------------------------------------------
     Batches of at most 500 rows.
     --------------------------------------------------------------------- */

  const BatchSize: nat := 500

  function Min(a: int, b: int): int {
    if a <= b then a else b
  }

  /** The batches joined back together. */
  function Flatten<T>(bs: seq<seq<T>>): seq<T> {
    if |bs| == 0 then [] else bs[0] + Flatten(bs[1..])
  }

  lemma {:induction false} FlattenAppend<T>(bs: seq<seq<T>>, b: seq<T>)
    ensures Flatten(bs + [b]) == Flatten(bs) + b
  {
    if |bs| == 0 {
      assert bs + [b] == [b];
      assert Flatten([b]) == b + Flatten([b][1..]);
    } else {
      assert (bs + [b])[1..] == bs[1..] + [b];
      FlattenAppend(bs[1..], b);
    }
  }

  /** The `for (i = 0; i < n; i += batchSize)` loop over `slice(i, i + batchSize)`. */
  method MakeBatches<T>(rows: seq<T>) returns (batches: seq<seq<T>>)
    ensures Flatten(batches) == rows
    ensures |batches| == (|rows| + BatchSize - 1) / BatchSize
    ensures forall k :: 0 <= k < |batches| ==> 0 < |batches[k]| <= BatchSize
    ensures forall k :: 0 <= k < |batches| ==>
              batches[k] == rows[k * BatchSize..Min((k + 1) * BatchSize, |rows|)]
  {
    batches := [];
    var i := 0;
    while i < |rows|
      invariant i == |batches| * BatchSize
      invariant i < |rows| + BatchSize
      invariant Flatten(batches) == rows[..Min(i, |rows|)]
      invariant forall k :: 0 <= k < |batches| ==> 0 < |batches[k]| <= BatchSize
      invariant forall k :: 0 <= k < |batches| ==>
                  batches[k] == rows[k * BatchSize..Min((k + 1) * BatchSize, |rows|)]
    {
      var batch := rows[i..Min(i + BatchSize, |rows|)];
      FlattenAppend(batches, batch);
      assert rows[..Min(i + BatchSize, |rows|)] == rows[..i] + batch;
      batches := batches + [batch];
      i := i + BatchSize;
    }
    assert rows[..Min(i, |rows|)] == rows;
  }

  /* ---------------------------------------------------------------------
     The insert payload and the sequential insert.
     --------------------------------------------------------------------- */

  /** One row of the `transactions` insert. */
  datatype TransactionInsert = TransactionInsert(
    statementId: string,
    householdId: string,
    postingDate: string,
    amount: int,
    description: string,
    rawMerchant: string,
    userTag: Tag)

  /** The `batch.map(row => ({ ... }))` payload: every new transaction
      starts out shared. */
  function Payload(batch: seq<ParsedRow>, statementId: string, householdId: string): (r: seq<TransactionInsert>)
    ensures |r| == |batch|
    ensures forall k :: 0 <= k < |r| ==>
              && r[k].userTag == Shared
              && r[k].description == batch[k].merchant
              && r[k].rawMerchant == batch[k].merchant
              && r[k].amount == batch[k].amount
              && r[k].postingDate == batch[k].date
              && r[k].statementId == statementId
              && r[k].householdId == householdId
  {
    seq(|batch|, k requires 0 <= k < |batch| =>
      TransactionInsert(statementId, householdId, batch[k].date, batch[k].amount,
                        batch[k].merchant, batch[k].merchant, Shared))
  }

  /** The payload of joined batches is the joined payloads. */
  lemma PayloadAppend(a: seq<ParsedRow>, b: seq<ParsedRow>, statementId: string, householdId: string)
    ensures Payload(a + b, statementId, householdId)
            == Payload(a, statementId, householdId) + Payload(b, statementId, householdId)
  {
  }

  /** Prefix of the user-facing message when a batch insert fails
      ("failed to register statement lines: "). */
  const InsertFailurePrefix: string := "明細行の登録に失敗しました: "

  /** What the sequential insert leaves behind: the rows inserted before it
      stopped, and the error shown, if any. */
  datatype InsertReport = InsertReport(inserted: seq<TransactionInsert>, error: Option<string>)

  /** The index of the first failing batch among the first `n`, if any. */
  function FirstFailure(failures: seq<Option<string>>, n: nat): (r: Option<nat>)
    requires n <= |failures|
    ensures r.None? <==> forall k :: 0 <= k < n ==> failures[k].None?
    ensures r.Some? ==> r.value < n && failures[r.value].Some?
    ensures r.Some? ==> forall k :: 0 <= k < r.value ==> failures[k].None?
  {
    if n == 0 then None
    else match FirstFailure(failures, n - 1)
      case Some(k) => Some(k)
      case None => if failures[n - 1].Some? then Some(n - 1) else None
  }

  /** Joining the first `k` batches gives a prefix of joining them all. */
  lemma {:induction false} FlattenSplit<T>(bs: seq<seq<T>>, k: nat)
    requires k <= |bs|
    ensures Flatten(bs) == Flatten(bs[..k]) + Flatten(bs[k..])
  {
    if k > 0 {
      assert bs[..k][0] == bs[0];
      assert bs[..k][1..] == bs[1..][..k - 1];
      assert bs[k..] == bs[1..][k - 1..];
      FlattenSplit(bs[1..], k - 1);
    }
  }

  /** The `for (const batch of batches)` insert loop. `failures[k]` is the
      backend's error message for batch `k`, or `None` when it succeeds. The
      loop stops at the first failure; the batches before it stay inserted. */
  method InsertBatches(batches: seq<seq<ParsedRow>>, statementId: string, householdId: string,
                       failures: seq<Option<string>>) returns (report: InsertReport)
    requires |failures| >= |batches|
    ensures FirstFailure(failures, |batches|).None? ==>
              report == InsertReport(Payload(Flatten(batches), statementId, householdId), None)
    ensures FirstFailure(failures, |batches|).Some? ==>
              var k := FirstFailure(failures, |batches|).value;
              report == InsertReport(Payload(Flatten(batches[..k]), statementId, householdId),
                                     Some(InsertFailurePrefix + failures[k].value))
    ensures report.inserted <= Payload(Flatten(batches), statementId, householdId)
  {
    var inserted := [];
    var i := 0;
    while i < |batches|
      invariant 0 <= i <= |batches|
      invariant forall j :: 0 <= j < i ==> failures[j].None?
      invariant inserted == Payload(Flatten(batches[..i]), statementId, householdId)
    {
      match failures[i]
      case Some(message) =>
        FlattenSplit(batches, i);
        PayloadAppend(Flatten(batches[..i]), Flatten(batches[i..]), statementId, householdId);
        return InsertReport(inserted, Some(InsertFailurePrefix + message));
      case None =>
        assert batches[..i + 1] == batches[..i] + [batches[i]];
        FlattenAppend(batches[..i], batches[i]);
        PayloadAppend(Flatten(batches[..i]), batches[i], statementId, householdId);
        inserted := inserted + Payload(batches[i], statementId, householdId);
        i := i + 1;
    }
    assert batches[..i] == batches;
    report := InsertReport(inserted, None);
  }

  /** A batch index below the batch count starts inside the rows. */
  lemma BatchStartsInside(n: nat, j: nat)
    requires j < (n + BatchSize - 1) / BatchSize
    ensures j * BatchSize < n
  {
  }

  /** The first `k` batches of `MakeBatches` hold the first `k * BatchSize`
      rows (all of them once `k` reaches the end). */
  lemma {:induction false} FlattenBatchPrefix<T>(rows: seq<T>, batches: seq<seq<T>>, k: nat)
    requires k <= |batches| == (|rows| + BatchSize - 1) / BatchSize
    requires forall j :: 0 <= j < |batches| ==>
               batches[j] == rows[j * BatchSize..Min((j + 1) * BatchSize, |rows|)]
    ensures Flatten(batches[..k]) == rows[..Min(k * BatchSize, |rows|)]
  {
    if k == 0 {
      assert batches[..0] == [];
    } else {
      FlattenBatchPrefix(rows, batches, k - 1);
      BatchStartsInside(|rows|, k - 1);
      assert batches[..k] == batches[..k - 1] + [batches[k - 1]];
      FlattenAppend(batches[..k - 1], batches[k - 1]);
      var lo, hi := (k - 1) * BatchSize, Min(k * BatchSize, |rows|);
      assert rows[..hi] == rows[..lo] + rows[lo..hi];
    }
  }

  /** Uploading the parsed rows: cut into batches, then inserted batch by
      batch. When every batch succeeds, exactly the payload of all rows is
      inserted; when batch `k` is the first to fail, the payload of the rows
      of the batches before it, and the failure message is shown. */
  method UploadRows(rows: seq<ParsedRow>, statementId: string, householdId: string,
                    failures: seq<Option<string>>) returns (report: InsertReport)
    requires |failures| >= (|rows| + BatchSize - 1) / BatchSize
    ensures report.inserted <= Payload(rows, statementId, householdId)
    ensures report.error.None? ==> report.inserted == Payload(rows, statementId, householdId)
    ensures (forall k :: 0 <= k < |failures| ==> failures[k].None?) ==> report.error.None?
    ensures report.error.Some? ==> exists k :: 0 <= k < |failures| && failures[k].Some?
    ensures forall k :: 0 <= k < |report.inserted| ==> report.inserted[k].userTag == Shared
    ensures FirstFailure(failures, (|rows| + BatchSize - 1) / BatchSize).None? ==>
              report == InsertReport(Payload(rows, statementId, householdId), None)
    ensures FirstFailure(failures, (|rows| + BatchSize - 1) / BatchSize).Some? ==>
              var k := FirstFailure(failures, (|rows| + BatchSize - 1) / BatchSize).value;
              && k * BatchSize < |rows|
              && report == InsertReport(Payload(rows[..k * BatchSize], statementId, householdId),
                                        Some(InsertFailurePrefix + failures[k].value))
  {
    var batches := MakeBatches(rows);
    report := InsertBatches(batches, statementId, householdId, failures);
    var first := FirstFailure(failures, |batches|);
    if first.Some? {
      FlattenBatchPrefix(rows, batches, first.value);
      BatchStartsInside(|rows|, first.value);
    }
  }
}
