/** The card-statement CSV reader of the upload page (`parseCsv`).

    The statement export has a header line containing a fixed marker,
    followed by data lines whose fields are double-quoted and
    comma-separated. Each data line is decoded by wrapping it in brackets
    and parsing it as a JSON array of strings. */
module StatementCsv {
  import opened Wrappers
  import opened Text

  /** One statement line as the parser emits it. */
  datatype ParsedRow = ParsedRow(date: string, merchant: string, amount: int, categoryRaw: string)

  /** The library conversions the parser calls but this model does not
      re-derive. `None` stands for the conversion failing: `JSON.parse`
      throwing, `Number` giving `NaN`, `new Date(s).toISOString()` throwing
      on an invalid date. */
  datatype Conversions = Conversions(
    parseJsonArray: string -> Option<seq<string>>,
    toNumber: string -> Option<int>,
    toIsoString: string -> Option<string>)

  /** The text that identifies the header line ("place of use, etc."). */
  const HeaderMarker: string := "ご利用先など"

  /** Records with fewer columns are dropped. */
  const MinColumns: nat := 5

  /** Length of the `YYYY-MM-DD` prefix kept from an ISO timestamp. */
  const IsoDateLength: nat := 10

  /** What every emitted row satisfies: a non-empty trimmed merchant, a
      non-zero amount and at most a `YYYY-MM-DD` date. */
  predicate WellFormed(row: ParsedRow) {
    && row.merchant != [] && Trim(row.merchant) == row.merchant
    && row.amount != 0
    && |row.date| <= IsoDateLength
  }

  /** The trimmed, non-empty lines among `pieces`, in order. */
  function NonBlankTrimmed(pieces: seq<string>): (r: seq<string>)
    ensures |r| <= |pieces|
    ensures forall k :: 0 <= k < |r| ==> r[k] != [] && Trim(r[k]) == r[k]
  {
    if |pieces| == 0 then []
    else
      var t := Trim(pieces[0]);
      var rest := NonBlankTrimmed(pieces[1..]);
      if t == [] then rest
      else
        TrimIdempotent(pieces[0]);
        [t] + rest
  }

  /** `text.split(/\r?\n/).map(trim).filter(non-empty)`. */
  function Lines(text: string): (r: seq<string>)
    ensures |r| <= 1 + Count(text, '\n')
    ensures forall k :: 0 <= k < |r| ==> r[k] != [] && Trim(r[k]) == r[k]
  {
    NonBlankTrimmed(SplitLines(text))
  }

  /** `lines.findIndex(line => line.includes(HeaderMarker))`, `None` for -1. */
  function HeaderIndex(lines: seq<string>): (r: Option<nat>)
    ensures r.None? <==> forall k :: 0 <= k < |lines| ==> !Contains(lines[k], HeaderMarker)
    ensures r.Some? ==> r.value < |lines| && Contains(lines[r.value], HeaderMarker)
    ensures r.Some? ==> forall k :: 0 <= k < r.value ==> !Contains(lines[k], HeaderMarker)
  {
    if |lines| == 0 then None
    else if Contains(lines[0], HeaderMarker) then Some(0)
    else match HeaderIndex(lines[1..])
      case None => None
      case Some(i) => Some(i + 1)
  }

  /** `cols[4] || cols[8] || "0"`: column 4, else column 8 when it exists,
      else `"0"`; an empty string counts as absent. */
  function AmountField(cols: seq<string>): (r: string)
    requires |cols| >= MinColumns
    ensures r != []
    ensures cols[4] != [] ==> r == cols[4]
    ensures cols[4] == [] && |cols| > 8 && cols[8] != [] ==> r == cols[8]
    ensures cols[4] == [] && (|cols| <= 8 || cols[8] == []) ==> r == "0"
  {
    if cols[4] != [] then cols[4]
    else if |cols| > 8 && cols[8] != [] then cols[8]
    else "0"
  }

  /** `cols[2]?.trim().replace(/^"/, "")`. */
  function DateField(cols: seq<string>): (r: string)
    requires |cols| >= MinColumns
    ensures Trim(cols[2]) == r || Trim(cols[2]) == "\"" + r
    ensures !StartsWith(Trim(cols[2]), '"') ==> r == Trim(cols[2])
    ensures StartsWith(Trim(cols[2]), '"') ==> Trim(cols[2]) == "\"" + r
  {
    DropLeading(Trim(cols[2]), '"')
  }

  /** The amount after removing thousands separators and converting. */
  function AmountValue(cols: seq<string>, conv: Conversions): Option<int>
    requires |cols| >= MinColumns
  {
    conv.toNumber(RemoveAll(AmountField(cols), ','))
  }

  /** The body of the loop over data lines: the row one line yields, or
      `None` when the line is skipped (`continue` or the `catch`). */
  function ParseLine(line: string, conv: Conversions): (r: Option<ParsedRow>)
    ensures !StartsWith(line, '"') ==> r.None?
    ensures conv.parseJsonArray("[" + line + "]").None? ==> r.None?
    ensures (conv.parseJsonArray("[" + line + "]").Some? &&
             |conv.parseJsonArray("[" + line + "]").value| < MinColumns) ==> r.None?
    ensures r.Some? ==>
              var cols := conv.parseJsonArray("[" + line + "]").value;
              && StartsWith(line, '"')
              && |cols| >= MinColumns
              && DateField(cols) != []
              && r.value.merchant == Trim(cols[3])
              && AmountValue(cols, conv) == Some(r.value.amount)
              && r.value.categoryRaw == cols[1]
              && conv.toIsoString(DateField(cols)).Some?
              && var iso := conv.toIsoString(DateField(cols)).value;
                 r.value.date == iso[..if |iso| <= IsoDateLength then |iso| else IsoDateLength]
    ensures r.Some? ==> WellFormed(r.value)
    ensures (&& StartsWith(line, '"')
             && conv.parseJsonArray("[" + line + "]").Some?
             && |conv.parseJsonArray("[" + line + "]").value| >= MinColumns
             && var cols := conv.parseJsonArray("[" + line + "]").value;
                && DateField(cols) != []
                && Trim(cols[3]) != []
                && AmountValue(cols, conv).Some? && AmountValue(cols, conv).value != 0
                && conv.toIsoString(DateField(cols)).Some?)
            ==> r.Some?
  {
    if !StartsWith(line, '"') then None
    else match conv.parseJsonArray("[" + line + "]")
      case None => None
      case Some(cols) =>
        if |cols| < MinColumns then None
        else
          var dateStr := DateField(cols);
          var merchant := Trim(cols[3]);
          var amount := AmountValue(cols, conv);
          TrimIdempotent(cols[3]);
          if dateStr == [] || merchant == [] || amount.None? || amount.value == 0 then None
          else match conv.toIsoString(dateStr)
            case None => None
            case Some(iso) =>
              var date := if |iso| <= IsoDateLength then iso else iso[..IsoDateLength];
              // `cols[1] ?? ""` never falls back: there are at least five columns.
              Some(ParsedRow(date, merchant, amount.value, cols[1]))
  }

  /** What one data line adds to the output: its row, or nothing. */
  function Emitted(line: string, conv: Conversions): (r: seq<ParsedRow>)
    ensures |r| <= 1
    ensures r == [] <==> ParseLine(line, conv).None?
    ensures r != [] ==> r[0] == ParseLine(line, conv).value
  {
    match ParseLine(line, conv)
    case Some(row) => [row]
    case None => []
  }

  /** The loop over data lines: each accepted line contributes its row, in order. */
  function ParseDataLines(ls: seq<string>, conv: Conversions): (r: seq<ParsedRow>)
    ensures |r| <= |ls|
    ensures forall row :: row in r ==> WellFormed(row)
  {
    if |ls| == 0 then [] else Emitted(ls[0], conv) + ParseDataLines(ls[1..], conv)
  }

  /** Every emitted row is the row of one of the data lines. */
  lemma {:induction false} RowsComeFromLines(ls: seq<string>, conv: Conversions, row: ParsedRow)
    requires row in ParseDataLines(ls, conv)
    ensures exists k :: 0 <= k < |ls| && ParseLine(ls[k], conv) == Some(row)
  {
    var first := Emitted(ls[0], conv);
    if row in first {
      assert ParseLine(ls[0], conv) == Some(row);
    } else {
      var tail := ls[1..];
      assert row in ParseDataLines(tail, conv);
      RowsComeFromLines(tail, conv, row);
      var j :| 0 <= j < |tail| && ParseLine(tail[j], conv) == Some(row);
      assert ParseLine(ls[j + 1], conv) == Some(row) by {
        assert tail[j] == ls[j + 1];
      }
    }
  }

  /** `parseCsv` on already split lines: nothing without a header line,
      otherwise the rows of the lines strictly after the first header. */
  function ParseStatementLines(lines: seq<string>, conv: Conversions): (r: seq<ParsedRow>)
    ensures HeaderIndex(lines).None? ==> r == []
    ensures HeaderIndex(lines).Some? ==> |r| < |lines| - HeaderIndex(lines).value
    ensures forall row :: row in r ==> WellFormed(row)
  {
    match HeaderIndex(lines)
    case None => []
    case Some(h) => ParseDataLines(lines[h + 1..], conv)
  }

  /** `parseCsv(text)`. */
  function ParseCsv(text: string, conv: Conversions): (r: seq<ParsedRow>)
    ensures text == [] ==> r == []
    ensures |r| <= Count(text, '\n')
    ensures forall row :: row in r ==> WellFormed(row)
  {
    var lines := Lines(text);
    assert text == [] ==> lines == [] by {
      if text == [] {
        assert SplitLines(text) == [""];
      }
    }
    var r := ParseStatementLines(lines, conv);
    r
  }

  /** The rows of two runs of lines are the rows of each, in order: a
      skipped line never disturbs its neighbours. */
  lemma {:induction false} ParseDataLinesAppend(a: seq<string>, b: seq<string>, conv: Conversions)
    ensures ParseDataLines(a + b, conv) == ParseDataLines(a, conv) + ParseDataLines(b, conv)
  {
    if |a| == 0 {
      assert a + b == b;
    } else {
      assert (a + b)[0] == a[0];
      assert (a + b)[1..] == a[1..] + b;
      calc {
        ParseDataLines(a + b, conv);
        Emitted(a[0], conv) + ParseDataLines(a[1..] + b, conv);
        { ParseDataLinesAppend(a[1..], b, conv); }
        Emitted(a[0], conv) + (ParseDataLines(a[1..], conv) + ParseDataLines(b, conv));
      }
    }
  }

  /** A line that fails (not quoted, undecodable, too short, missing a
      field, zero or non-numeric amount, invalid date) is dropped and the
      lines around it are still read. */
  lemma SkippedLineDropped(a: seq<string>, line: string, b: seq<string>, conv: Conversions)
    requires ParseLine(line, conv).None?
    ensures ParseDataLines(a + [line] + b, conv) == ParseDataLines(a, conv) + ParseDataLines(b, conv)
  {
    ParseDataLinesAppend(a + [line], b, conv);
    ParseDataLinesAppend(a, [line], conv);
    assert ParseDataLines([line], conv) == [] by {
      assert [line][1..] == [];
      assert ParseDataLines([line][1..], conv) == [];
    }
    assert ParseDataLines(a + [line], conv) == ParseDataLines(a, conv);
  }

  /** When every data line is accepted there is one row per line, row `k`
      coming from line `k`. */
  lemma {:induction false} AllAcceptedKeepsEveryLine(ls: seq<string>, conv: Conversions)
    requires forall k :: 0 <= k < |ls| ==> ParseLine(ls[k], conv).Some?
    ensures |ParseDataLines(ls, conv)| == |ls|
    ensures forall k :: 0 <= k < |ls| ==> ParseDataLines(ls, conv)[k] == ParseLine(ls[k], conv).value
  {
    if |ls| > 0 {
      AllAcceptedKeepsEveryLine(ls[1..], conv);
    }
  }

  /** Only the lines strictly after the first header line are read: the
      lines before it and the header itself contribute nothing. */
  lemma HeaderSelectsFollowingLines(pre: seq<string>, header: string, post: seq<string>, conv: Conversions)
    requires forall k :: 0 <= k < |pre| ==> !Contains(pre[k], HeaderMarker)
    requires Contains(header, HeaderMarker)
    ensures ParseStatementLines(pre + [header] + post, conv) == ParseDataLines(post, conv)
  {
    var lines := pre + [header] + post;
    assert lines[|pre|] == header;
    assert forall k :: 0 <= k < |pre| ==> lines[k] == pre[k];
    assert HeaderIndex(lines) == Some(|pre|);
    assert lines[|pre| + 1..] == post;
  }

  /** Without `cols[4]` and `cols[8]` the amount falls back to `"0"`, which
      `!amount` rejects: given that `Number("0")` is 0, such a line yields no row. */
  lemma MissingAmountRejected(line: string, conv: Conversions)
    requires conv.toNumber("0") == Some(0)
    requires conv.parseJsonArray("[" + line + "]").Some?
    requires var cols := conv.parseJsonArray("[" + line + "]").value;
             |cols| >= MinColumns && cols[4] == [] && (|cols| <= 8 || cols[8] == [])
    ensures ParseLine(line, conv).None?
  {
    var cols := conv.parseJsonArray("[" + line + "]").value;
    assert RemoveAll("0", ',') == "0";
  }

  /** What one piece contributes to the lines: its trimmed text, unless blank. */
  function KeptLine(p: string): seq<string> {
    var t := Trim(p);
    if t == [] then [] else [t]
  }

  /** The lines of `pieces` assembled piece by piece. */
  function KeptLines(pieces: seq<string>): seq<string> {
    if |pieces| == 0 then [] else KeptLine(pieces[0]) + KeptLines(pieces[1..])
  }

  /** The reference assembly splits over concatenation. */
  lemma {:induction false} KeptLinesAppend(a: seq<string>, b: seq<string>)
    ensures KeptLines(a + b) == KeptLines(a) + KeptLines(b)
  {
    if |a| == 0 {
      assert a + b == b;
    } else {
      assert (a + b)[0] == a[0];
      assert (a + b)[1..] == a[1..] + b;
      KeptLinesAppend(a[1..], b);
    }
  }

  /** The blank-line filter keeps each piece's contribution in order. */
  lemma {:induction false} NonBlankTrimmedPieceByPiece(pieces: seq<string>)
    ensures NonBlankTrimmed(pieces) == KeptLines(pieces)
  {
    if |pieces| > 0 {
      NonBlankTrimmedPieceByPiece(pieces[1..]);
    }
  }

  /** Filtering blank lines works line by line: the kept lines of two runs
      are the kept lines of each, in order. */
  lemma NonBlankTrimmedAppend(a: seq<string>, b: seq<string>)
    ensures NonBlankTrimmed(a + b) == NonBlankTrimmed(a) + NonBlankTrimmed(b)
  {
    NonBlankTrimmedPieceByPiece(a + b);
    NonBlankTrimmedPieceByPiece(a);
    NonBlankTrimmedPieceByPiece(b);
    KeptLinesAppend(a, b);
  }

  /** One piece keeps its trimmed text unless that is blank. */
  lemma NonBlankTrimmedOne(p: string)
    ensures NonBlankTrimmed([p]) == if Trim(p) == [] then [] else [Trim(p)]
  {
    assert [p][1..] == [];
  }

  /** Lines that are already trimmed and non-empty all survive, unchanged. */
  lemma {:induction false} NonBlankTrimmedKeeps(pieces: seq<string>)
    requires forall k :: 0 <= k < |pieces| ==> pieces[k] != [] && Trim(pieces[k]) == pieces[k]
    ensures NonBlankTrimmed(pieces) == pieces
  {
    if |pieces| > 0 {
      NonBlankTrimmedKeeps(pieces[1..]);
      assert pieces == [pieces[0]] + pieces[1..];
    }
  }

  /** A text without a line break is one line: its trimmed text, or no line
      at all when it is blank. */
  lemma LinesOfOneLine(p: string)
    requires '\n' !in p
    ensures Lines(p) == if Trim(p) == [] then [] else [Trim(p)]
  {
    assert IndexOf(p, '\n').None?;
    NonBlankTrimmedOne(p);
  }

  /** The lines of a text assembled from pieces without line breaks are the
      trimmed non-blank pieces, in order. A piece may end in `'\r'`: the
      split leaves it there or drops it, and the trim removes it either way,
      so a file with CRLF line ends has the same lines as one with LF. */
  lemma {:induction false} LinesOfJoin(pieces: seq<string>)
    requires |pieces| >= 1
    requires forall k :: 0 <= k < |pieces| ==> '\n' !in pieces[k]
    ensures Lines(JoinLines(pieces)) == NonBlankTrimmed(pieces)
  {
    var p := pieces[0];
    if |pieces| == 1 {
      LinesOfOneLine(p);
      NonBlankTrimmedOne(p);
      assert pieces == [p];
    } else {
      var tail := pieces[1..];
      var d := DropTrailingCr(p);
      assert JoinLines(pieces) == p + "\n" + JoinLines(tail);
      SplitFirstBreak(p, JoinLines(tail));
      NonBlankTrimmedAppend([d], SplitLines(JoinLines(tail)));
      LinesOfJoin(tail);
      TrimDropsCr(p);
      NonBlankTrimmedOne(d);
      NonBlankTrimmedOne(p);
      NonBlankTrimmedAppend([p], tail);
      assert pieces == [p] + tail;
    }
  }

  /** When no piece is blank every piece survives the filter, trimmed. */
  lemma {:induction false} NonBlankTrimmedAllKept(pieces: seq<string>)
    requires forall k :: 0 <= k < |pieces| ==> Trim(pieces[k]) != []
    ensures |NonBlankTrimmed(pieces)| == |pieces|
    ensures forall k :: 0 <= k < |pieces| ==> NonBlankTrimmed(pieces)[k] == Trim(pieces[k])
  {
    if |pieces| > 0 {
      NonBlankTrimmedAllKept(pieces[1..]);
      assert Trim(pieces[0]) != [];
    }
  }

  /** Every line the reference assembly keeps is some piece trimmed. */
  lemma {:induction false} MarkerFreeKept(pieces: seq<string>)
    requires forall k :: 0 <= k < |pieces| ==> !Contains(Trim(pieces[k]), HeaderMarker)
    ensures forall line :: line in KeptLines(pieces) ==> !Contains(line, HeaderMarker)
  {
    if |pieces| > 0 {
      MarkerFreeKept(pieces[1..]);
      assert forall line :: line in KeptLine(pieces[0]) ==> line == Trim(pieces[0]);
    }
  }

  /** No kept line contains the marker when no trimmed piece does. */
  lemma MarkerFreeLines(pieces: seq<string>)
    requires forall k :: 0 <= k < |pieces| ==> !Contains(Trim(pieces[k]), HeaderMarker)
    ensures HeaderIndex(NonBlankTrimmed(pieces)).None?
  {
    NonBlankTrimmedPieceByPiece(pieces);
    MarkerFreeKept(pieces);
    var lines := NonBlankTrimmed(pieces);
    assert forall k :: 0 <= k < |lines| ==> lines[k] in lines;
  }

  /** A statement file without a header line yields no rows at all. */
  lemma ParseCsvWithoutHeader(pieces: seq<string>, conv: Conversions)
    requires |pieces| >= 1
    requires forall k :: 0 <= k < |pieces| ==> '\n' !in pieces[k]
    requires forall k :: 0 <= k < |pieces| ==> !Contains(Trim(pieces[k]), HeaderMarker)
    ensures ParseCsv(JoinLines(pieces), conv) == []
  {
    LinesOfJoin(pieces);
    MarkerFreeLines(pieces);
  }

  /** A statement file of preamble lines, a header line and data lines:
      the rows are those of the non-blank data lines, trimmed, in order. */
  lemma ParseCsvStatement(pre: seq<string>, header: string, data: seq<string>, conv: Conversions)
    requires forall k :: 0 <= k < |pre| ==> '\n' !in pre[k]
    requires '\n' !in header
    requires forall k :: 0 <= k < |data| ==> '\n' !in data[k]
    requires forall k :: 0 <= k < |pre| ==> !Contains(Trim(pre[k]), HeaderMarker)
    requires Contains(Trim(header), HeaderMarker)
    ensures ParseCsv(JoinLines(pre + [header] + data), conv) == ParseDataLines(NonBlankTrimmed(data), conv)
  {
    var pieces := pre + [header] + data;
    assert forall k :: 0 <= k < |pieces| ==> '\n' !in pieces[k] by {
      forall k | 0 <= k < |pieces|
        ensures '\n' !in pieces[k]
      {
        if k < |pre| {
          assert pieces[k] == pre[k];
        } else if k > |pre| {
          assert pieces[k] == data[k - |pre| - 1];
        }
      }
    }
    LinesOfJoin(pieces);
    NonBlankTrimmedAppend(pre + [header], data);
    NonBlankTrimmedAppend(pre, [header]);
    NonBlankTrimmedOne(header);
    assert Trim(header) != [];
    MarkerFreeLines(pre);
    var before := NonBlankTrimmed(pre);
    assert forall k :: 0 <= k < |before| ==> !Contains(before[k], HeaderMarker);
    assert Lines(JoinLines(pieces)) == before + [Trim(header)] + NonBlankTrimmed(data);
    HeaderSelectsFollowingLines(before, Trim(header), NonBlankTrimmed(data), conv);
  }

  /** When every data line is non-blank and accepted once trimmed, the file
      yields exactly one row per data line, row `k` from data line `k`. */
  lemma StatementRowPerDataLine(pre: seq<string>, header: string, data: seq<string>, conv: Conversions)
    requires forall k :: 0 <= k < |pre| ==> '\n' !in pre[k]
    requires '\n' !in header
    requires forall k :: 0 <= k < |data| ==> '\n' !in data[k]
    requires forall k :: 0 <= k < |pre| ==> !Contains(Trim(pre[k]), HeaderMarker)
    requires Contains(Trim(header), HeaderMarker)
    requires forall k :: 0 <= k < |data| ==> Trim(data[k]) != []
    requires forall k :: 0 <= k < |data| ==> ParseLine(Trim(data[k]), conv).Some?
    ensures |ParseCsv(JoinLines(pre + [header] + data), conv)| == |data|
    ensures forall k :: 0 <= k < |data| ==>
              ParseCsv(JoinLines(pre + [header] + data), conv)[k] == ParseLine(Trim(data[k]), conv).value
  {
    ParseCsvStatement(pre, header, data, conv);
    AcceptedDataLines(data, conv);
  }

  /** Data lines that are all non-blank and accepted once trimmed give one
      row each, in order. */
  lemma AcceptedDataLines(data: seq<string>, conv: Conversions)
    requires forall k :: 0 <= k < |data| ==> Trim(data[k]) != []
    requires forall k :: 0 <= k < |data| ==> ParseLine(Trim(data[k]), conv).Some?
    ensures |ParseDataLines(NonBlankTrimmed(data), conv)| == |data|
    ensures forall k :: 0 <= k < |data| ==>
              ParseDataLines(NonBlankTrimmed(data), conv)[k] == ParseLine(Trim(data[k]), conv).value
  {
    var lines := NonBlankTrimmed(data);
    NonBlankTrimmedAllKept(data);
    forall k | 0 <= k < |lines|
      ensures ParseLine(lines[k], conv).Some?
    {
      assert lines[k] == Trim(data[k]);
    }
    AllAcceptedKeepsEveryLine(lines, conv);
  }
}
