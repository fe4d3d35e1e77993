/**
 * The import dialog of the to-do list: the quoted CSV line parser, the CSV and JSON
 * readers with their validation, the choice between them, and the checks on an uploaded file.
 */
module ImportDialog {
  import opened Wrappers
  import opened Text
  import opened Seqs

  // ---------------------------------------------------------------------------------------------
  // The CSV line parser

  /** Adds `p` to the front of the first field. */
  function Prepend(p: string, fs: seq<string>): (r: seq<string>)
    requires |fs| >= 1
    ensures |r| == |fs| && r[0] == p + fs[0] && r[1..] == fs[1..]
  {
    [p + fs[0]] + fs[1..]
  }

  lemma PrependPrepend(a: string, b: string, fs: seq<string>)
    requires |fs| >= 1
    ensures Prepend(a, Prepend(b, fs)) == Prepend(a + b, fs)
  {
    assert a + (b + fs[0]) == (a + b) + fs[0];
  }

  lemma PrependEmpty(fs: seq<string>)
    requires |fs| >= 1
    ensures Prepend("", fs) == fs
  {
    assert "" + fs[0] == fs[0];
  }

  /**
   * The fields of the rest `s` of a line, when the scan is inside quotes or not.
   * Inside quotes a doubled quote stands for one quote; any other quote switches the state
   * and is dropped; a comma outside quotes ends a field; every other character is kept.
   */
  function Fields(s: string, inQuotes: bool): (r: seq<string>)
    ensures |r| >= 1
    decreases |s|
  {
    if |s| == 0 then [""]
    else if s[0] == '"' then
      if inQuotes && |s| >= 2 && s[1] == '"' then Prepend("\"", Fields(s[2..], true))
      else Fields(s[1..], !inQuotes)
    else if s[0] == ',' && !inQuotes then [""] + Fields(s[1..], false)
    else Prepend([s[0]], Fields(s[1..], inQuotes))
  }

  /** The number of commas of `s` that lie outside quotes, the state starting at `inQuotes`. */
  function FieldBreaks(s: string, inQuotes: bool): nat
    decreases |s|
  {
    if |s| == 0 then 0
    else if s[0] == '"' then
      if inQuotes && |s| >= 2 && s[1] == '"' then FieldBreaks(s[2..], true)
      else FieldBreaks(s[1..], !inQuotes)
    else if s[0] == ',' && !inQuotes then 1 + FieldBreaks(s[1..], false)
    else FieldBreaks(s[1..], inQuotes)
  }

  /** A line has one more field than it has commas outside quotes. */
  lemma {:induction false} FieldCount(s: string, inQuotes: bool)
    ensures |Fields(s, inQuotes)| == FieldBreaks(s, inQuotes) + 1
    decreases |s|
  {
    if |s| > 0 {
      if s[0] == '"' {
        if inQuotes && |s| >= 2 && s[1] == '"' {
          FieldCount(s[2..], true);
        } else {
          FieldCount(s[1..], !inQuotes);
        }
      } else if s[0] == ',' && !inQuotes {
        FieldCount(s[1..], false);
      } else {
        FieldCount(s[1..], inQuotes);
      }
    }
  }

  lemma StepEscapedQuote(line: string, i: nat, current: string)
    requires i + 1 < |line| && line[i] == '"' && line[i + 1] == '"'
    ensures Prepend(current, Fields(line[i..], true))
         == Prepend(current + "\"", Fields(line[i + 2..], true))
  {
    assert line[i..][2..] == line[i + 2..];
    PrependPrepend(current, "\"", Fields(line[i + 2..], true));
  }

  lemma StepToggle(line: string, i: nat, current: string, inQuotes: bool)
    requires i < |line| && line[i] == '"'
    requires !(inQuotes && i + 1 < |line| && line[i + 1] == '"')
    ensures Prepend(current, Fields(line[i..], inQuotes))
         == Prepend(current, Fields(line[i + 1..], !inQuotes))
  {
    assert line[i..][1..] == line[i + 1..];
  }

  lemma StepComma(result: seq<string>, line: string, i: nat, current: string)
    requires i < |line| && line[i] == ','
    ensures result + Prepend(current, Fields(line[i..], false))
         == (result + [current]) + Prepend("", Fields(line[i + 1..], false))
  {
    assert line[i..][1..] == line[i + 1..];
    var rest := Fields(line[i + 1..], false);
    assert ([""] + rest)[0] == "" && ([""] + rest)[1..] == rest;
    assert current + "" == current;
    PrependEmpty(rest);
    assert result + ([current] + rest) == (result + [current]) + rest;
  }

  lemma StepKeep(line: string, i: nat, current: string, inQuotes: bool)
    requires i < |line| && line[i] != '"' && !(line[i] == ',' && !inQuotes)
    ensures Prepend(current, Fields(line[i..], inQuotes))
         == Prepend(current + [line[i]], Fields(line[i + 1..], inQuotes))
  {
    assert line[i..][1..] == line[i + 1..];
    PrependPrepend(current, [line[i]], Fields(line[i + 1..], inQuotes));
  }

  /** `parseCSVLine`: one pass over the line, keeping the current field and the quote state. */
  method ParseCsvLine(line: string) returns (result: seq<string>)
    ensures result == Fields(line, false)
  {
    result := [];
    var current := "";
    var inQuotes := false;
    var i := 0;
    assert line[i..] == line;
    PrependEmpty(Fields(line, false));
    while i < |line|
      invariant 0 <= i <= |line|
      invariant result + Prepend(current, Fields(line[i..], inQuotes)) == Fields(line, false)
      decreases |line| - i
    {
      var c := line[i];
      if c == '"' {
        if inQuotes && i + 1 < |line| && line[i + 1] == '"' {
          StepEscapedQuote(line, i, current);
          current := current + "\"";
          i := i + 2;
        } else {
          StepToggle(line, i, current, inQuotes);
          inQuotes := !inQuotes;
          i := i + 1;
        }
      } else if c == ',' && !inQuotes {
        StepComma(result, line, i, current);
        result := result + [current];
        current := "";
        i := i + 1;
      } else {
        StepKeep(line, i, current, inQuotes);
        current := current + [c];
        i := i + 1;
      }
    }
    assert line[i..] == "";
    assert current + "" == current;
    result := result + [current];
  }

  /** A line without quote characters is split at every comma. */
  lemma {:induction false} NoQuotesIsSplit(s: string)
    requires '"' !in s
    ensures Fields(s, false) == Split(s, ',')
    decreases |s|
  {
    if |s| > 0 {
      assert '"' !in s[1..] by {
        forall k | 0 <= k < |s[1..]| ensures s[1..][k] != '"' {
          assert s[1..][k] == s[k + 1];
        }
      }
      NoQuotesIsSplit(s[1..]);
    }
  }

  /** Doubles every quote character, as a writer of CSV does inside a quoted field. */
  function Escape(x: string): (r: string)
    ensures |r| >= |x|
    decreases |x|
  {
    if |x| == 0 then ""
    else if x[0] == '"' then "\"\"" + Escape(x[1..])
    else [x[0]] + Escape(x[1..])
  }

  /** A field wrapped in quotes, with its inner quotes doubled. */
  function Quote(x: string): string
  {
    "\"" + Escape(x) + "\""
  }

  /** Inside quotes, an escaped text followed by the closing quote yields exactly that text. */
  lemma {:induction false} EscapedThenClose(x: string, rest: string)
    requires rest == "" || rest[0] != '"'
    ensures Fields(Escape(x) + "\"" + rest, true) == Prepend(x, Fields(rest, false))
    decreases |x|
  {
    var s := Escape(x) + "\"" + rest;
    if |x| == 0 {
      assert s == "\"" + rest;
      assert s[1..] == rest;
      PrependEmpty(Fields(rest, false));
    } else if x[0] == '"' {
      EscapedThenClose(x[1..], rest);
      EscapedQuoteHead(x, rest);
      PrependPrepend("\"", x[1..], Fields(rest, false));
      assert "\"" + x[1..] == x;
    } else {
      EscapedThenClose(x[1..], rest);
      EscapedPlainHead(x, rest);
      PrependPrepend([x[0]], x[1..], Fields(rest, false));
      assert [x[0]] + x[1..] == x;
    }
  }

  /** An escaped text starting with a quote starts with the doubled quote. */
  lemma EscapedQuoteHead(x: string, rest: string)
    requires |x| > 0 && x[0] == '"'
    ensures var s := Escape(x) + "\"" + rest;
      |s| >= 2 && s[0] == '"' && s[1] == '"' && s[2..] == Escape(x[1..]) + "\"" + rest
  {
    var s := Escape(x) + "\"" + rest;
    assert s == "\"\"" + (Escape(x[1..]) + "\"" + rest);
  }

  /** An escaped text starting with any other character starts with that character. */
  lemma EscapedPlainHead(x: string, rest: string)
    requires |x| > 0 && x[0] != '"'
    ensures var s := Escape(x) + "\"" + rest;
      |s| >= 1 && s[0] == x[0] && s[1..] == Escape(x[1..]) + "\"" + rest
  {
    var s := Escape(x) + "\"" + rest;
    assert s == [x[0]] + (Escape(x[1..]) + "\"" + rest);
  }

  /** A quoted field reads back as the original text, whatever commas or quotes it holds. */
  lemma QuotedField(x: string, rest: string)
    requires rest == "" || rest[0] != '"'
    ensures Fields(Quote(x) + rest, false) == Prepend(x, Fields(rest, false))
  {
    var s := Quote(x) + rest;
    assert s == "\"" + (Escape(x) + "\"" + rest);
    assert s[1..] == Escape(x) + "\"" + rest;
    EscapedThenClose(x, rest);
  }

  function QuoteAll(xs: seq<string>): (r: seq<string>)
    ensures |r| == |xs|
    ensures forall k :: 0 <= k < |xs| ==> r[k] == Quote(xs[k])
  {
    if |xs| == 0 then [] else [Quote(xs[0])] + QuoteAll(xs[1..])
  }

  /** A line of quoted fields joined by commas parses back to the fields. */
  lemma {:induction false} QuotedLineRoundTrip(xs: seq<string>)
    requires |xs| >= 1
    ensures Fields(Join(QuoteAll(xs), ","), false) == xs
    decreases |xs|
  {
    if |xs| == 1 {
      assert Join(QuoteAll(xs), ",") == Quote(xs[0]) + "";
      QuotedField(xs[0], "");
      assert xs[0] + "" == xs[0];
      assert xs == [xs[0]];
    } else {
      var tail := Join(QuoteAll(xs[1..]), ",");
      assert QuoteAll(xs)[1..] == QuoteAll(xs[1..]);
      assert Join(QuoteAll(xs), ",") == Quote(xs[0]) + ("," + tail);
      QuotedField(xs[0], "," + tail);
      assert ("," + tail)[1..] == tail;
      QuotedLineRoundTrip(xs[1..]);
      assert Fields("," + tail, false) == [""] + xs[1..];
      assert xs[0] + "" == xs[0];
      assert [xs[0]] + xs[1..] == xs;
    }
  }

  // ---------------------------------------------------------------------------------------------
  // What an import produces

  /**
   * An object read from an import. An absent `id` is replaced by a fresh random identifier, and
   * an absent `addedAt` by the current time, when the object is stored; a CSV date is the ISO
   * text of its cell.
   */
  datatype Imported = Imported(
    id: Option<string>,
    name: string,
    ra: string,
    dec: string,
    magnitude: string,
    size: string,
    objectType: string,
    addedAt: Option<string>,
    completed: bool,
    completedAt: Option<string>,
    goalTime: Option<string>,
    notes: Option<string>)

  // ---------------------------------------------------------------------------------------------
  // The CSV reader

  /** The lines of the input that are not blank, in order. */
  function NonBlankLines(lines: seq<string>): (r: seq<string>)
    ensures |r| <= |lines|
    ensures forall k :: 0 <= k < |r| ==> Trim(r[k], JavaScript) != ""
    decreases |lines|
  {
    if |lines| == 0 then []
    else if Trim(lines[0], JavaScript) == "" then NonBlankLines(lines[1..])
    else [lines[0]] + NonBlankLines(lines[1..])
  }

  function CsvLines(data: string): seq<string>
  {
    NonBlankLines(Split(data, '\n'))
  }

  /** `findIndex`: the first index whose element satisfies `p`, or -1. */
  function FindFirst(hs: seq<string>, p: string -> bool): (k: int)
    ensures -1 <= k < |hs|
    ensures k == -1 <==> forall j :: 0 <= j < |hs| ==> !p(hs[j])
    ensures k >= 0 ==> p(hs[k]) && forall j :: 0 <= j < k ==> !p(hs[j])
    decreases |hs|
  {
    if |hs| == 0 then -1
    else if p(hs[0]) then 0
    else
      var k := FindFirst(hs[1..], p);
      if k == -1 then -1 else k + 1
  }

  /** The column of each known header, or -1. */
  datatype Columns = Columns(name: int, ra: int, dec: int, objectType: int, magnitude: int,
                             size: int, addedDate: int, completed: int, completionDate: int,
                             goalTime: int, notes: int)

  function Named(key: string): string -> bool
  {
    h => ToLower(h) == key
  }

  function Mentioning(key: string): string -> bool
  {
    h => Contains(ToLower(h), key)
  }

  function ColumnsOf(headers: seq<string>): Columns
  {
    Columns(FindFirst(headers, Named("name")), FindFirst(headers, Named("ra")),
            FindFirst(headers, Named("dec")), FindFirst(headers, Named("type")),
            FindFirst(headers, Named("magnitude")), FindFirst(headers, Named("size")),
            FindFirst(headers, Mentioning("added date")), FindFirst(headers, Named("completed")),
            FindFirst(headers, Mentioning("completion date")),
            FindFirst(headers, Mentioning("goal time")), FindFirst(headers, Named("notes")))
  }

  predicate HasRequiredColumns(cols: Columns)
  {
    cols.name != -1 && cols.ra != -1 && cols.dec != -1
  }

  /** `values[k]?.trim()`: a column that is missing, or past the end of the row, has no cell. */
  function Cell(values: seq<string>, k: int): (r: Option<string>)
    ensures r.Some? <==> 0 <= k < |values|
    ensures r.Some? ==> r.value == Trim(values[k], JavaScript)
  {
    if 0 <= k < |values| then Some(Trim(values[k], JavaScript)) else None
  }

  /**
   * `new Date(text).toISOString()`, a parameter of this model: the ISO text of the date that `text`
   * names, or `None` where the date is invalid and `toISOString` throws a RangeError.
   */
  type DateReader = string -> Option<string>

  /** The message of the RangeError that `toISOString` throws on an invalid date. */
  const InvalidTimeValue := "Invalid time value"

  /** What a date column gives a row: no date (a blank or missing cell), a date, or the RangeError. */
  datatype DateField = NoDate | Date(iso: string) | InvalidDate

  /** A date column: a blank or missing cell gives no date, any other cell is converted untrimmed. */
  function DateCell(values: seq<string>, k: int, toIso: DateReader): (r: DateField)
    ensures r.NoDate? <==> NonEmpty(Cell(values, k)).None?
    ensures r.Date? <==> 0 <= k < |values| && Trim(values[k], JavaScript) != "" && toIso(values[k]).Some?
    ensures r.Date? ==> Some(r.iso) == toIso(values[k])
    ensures r.InvalidDate? <==> 0 <= k < |values| && Trim(values[k], JavaScript) != "" && toIso(values[k]).None?
  {
    if NonEmpty(Cell(values, k)).None? then NoDate
    else match toIso(values[k])
         case None => InvalidDate
         case Some(iso) => Date(iso)
  }

  /** The date an object holds: absent unless the column gave a date. */
  function DateOf(f: DateField): Option<string>
  {
    if f.Date? then Some(f.iso) else None
  }

  /** The object a data row describes, or `None` for a row that is skipped. */
  function RowObject(cols: Columns, values: seq<string>, toIso: DateReader): Option<Imported>
  {
    if |values| < 3 then None
    else
      var name := NonEmpty(Cell(values, cols.name));
      var ra := NonEmpty(Cell(values, cols.ra));
      var dec := NonEmpty(Cell(values, cols.dec));
      if name.None? || ra.None? || dec.None? then None
      else
        var completed := Cell(values, cols.completed);
        Some(Imported(None, name.value, ra.value, dec.value,
                      NonEmpty(Cell(values, cols.magnitude)).GetOr("N/A"),
                      NonEmpty(Cell(values, cols.size)).GetOr("N/A"),
                      NonEmpty(Cell(values, cols.objectType)).GetOr("Unknown"),
                      DateOf(DateCell(values, cols.addedDate, toIso)),
                      completed.Some? && ToLower(completed.value) == "yes",
                      DateOf(DateCell(values, cols.completionDate, toIso)),
                      NonEmpty(Cell(values, cols.goalTime)),
                      NonEmpty(Cell(values, cols.notes))))
  }

  /** One of the row's date cells is not a valid date, so building its object throws. */
  predicate BadDates(cols: Columns, values: seq<string>, toIso: DateReader)
  {
    DateCell(values, cols.addedDate, toIso).InvalidDate? || DateCell(values, cols.completionDate, toIso).InvalidDate?
  }

  /** A data line that stops the import: a kept row with a date that does not read. */
  predicate Rejected(cols: Columns, line: string, toIso: DateReader)
  {
    Trim(line, JavaScript) != "" && RowObject(cols, Fields(line, false), toIso).Some? && BadDates(cols, Fields(line, false), toIso)
  }

  /** The outcome of one data line: nothing for a blank or skipped row, its object, or the RangeError. */
  function Kept(cols: Columns, line: string, toIso: DateReader): Result<seq<Imported>>
  {
    if Trim(line, JavaScript) == "" then Success([])
    else
      var values := Fields(line, false);
      match RowObject(cols, values, toIso)
      case None => Success([])
      case Some(o) => if BadDates(cols, values, toIso) then Failure(InvalidTimeValue) else Success([o])
  }

  /** The objects of the data lines, in order, skipped rows left out; the first bad date stops the import. */
  function Rows(cols: Columns, lines: seq<string>, toIso: DateReader): Result<seq<Imported>>
    decreases |lines|
  {
    if |lines| == 0 then Success([])
    else
      match Rows(cols, lines[..|lines| - 1], toIso)
      case Failure(e) => Failure(e)
      case Success(objects) =>
        match Kept(cols, lines[|lines| - 1], toIso)
        case Failure(e) => Failure(e)
        case Success(kept) => Success(objects + kept)
  }

  /** `parseCsvData` as a value. */
  function ParseCsv(data: string, toIso: DateReader): Result<seq<Imported>>
  {
    if Trim(data, JavaScript) == "" then Failure("No CSV data provided")
    else
      var lines := CsvLines(data);
      if |lines| < 2 then Failure("CSV must contain a header row and at least one data row")
      else
        var cols := ColumnsOf(Fields(lines[0], false));
        if !HasRequiredColumns(cols) then Failure("CSV must contain Name, RA, and Dec columns")
        else Rows(cols, lines[1..], toIso)
  }

  /** One turn of the row loop: a blank line or a skipped row adds nothing, a bad date throws. */
  method ReadRow(cols: Columns, line: string, toIso: DateReader) returns (kept: Result<seq<Imported>>)
    ensures kept == Kept(cols, line, toIso)
  {
    kept := Success([]);
    if Trim(line, JavaScript) != "" {
      var values := ParseCsvLine(line);
      var o := RowObject(cols, values, toIso);
      if o.Some? {
        if BadDates(cols, values, toIso) {
          kept := Failure(InvalidTimeValue);
        } else {
          kept := Success([o.value]);
        }
      }
    }
  }

  /** The loop over the data lines of `parseCsvData`; a throwing line ends it. */
  method ReadRows(cols: Columns, lines: seq<string>, toIso: DateReader) returns (r: Result<seq<Imported>>)
    ensures r == Rows(cols, lines, toIso)
  {
    var objects := [];
    var i := 0;
    while i < |lines|
      invariant 0 <= i <= |lines|
      invariant Rows(cols, lines[..i], toIso) == Success(objects)
      decreases |lines| - i
    {
      assert lines[..i + 1][..i] == lines[..i];
      var kept := ReadRow(cols, lines[i], toIso);
      if kept.Failure? {
        RowsFailureStays(cols, lines, toIso, i + 1);
        return kept;
      }
      objects := objects + kept.value;
      i := i + 1;
    }
    assert lines[..i] == lines;
    return Success(objects);
  }

  /** Once a prefix of the data lines has thrown, the whole import has thrown the same error. */
  lemma {:induction false} RowsFailureStays(cols: Columns, lines: seq<string>, toIso: DateReader, j: nat)
    requires j <= |lines| && Rows(cols, lines[..j], toIso).Failure?
    ensures Rows(cols, lines, toIso) == Rows(cols, lines[..j], toIso)
    decreases |lines|
  {
    if j < |lines| {
      var init := lines[..|lines| - 1];
      assert init[..j] == lines[..j];
      RowsFailureStays(cols, init, toIso, j);
    } else {
      assert lines[..j] == lines;
    }
  }

  /** Some data line is a kept row with a date that does not read. */
  predicate SomeRejected(cols: Columns, lines: seq<string>, toIso: DateReader)
  {
    Any(lines, line => Rejected(cols, line, toIso))
  }

  /** The data lines throw exactly when one of them is rejected, and then with the RangeError. */
  lemma {:induction false} RowsFailIff(cols: Columns, lines: seq<string>, toIso: DateReader)
    ensures Rows(cols, lines, toIso).Failure? <==> SomeRejected(cols, lines, toIso)
    ensures Rows(cols, lines, toIso).Failure? ==> Rows(cols, lines, toIso).error == InvalidTimeValue
    decreases |lines|
  {
    if |lines| > 0 {
      RowsFailIff(cols, lines[..|lines| - 1], toIso);
      KeptOutcome(cols, lines[|lines| - 1], toIso);
      AnySnoc(lines, line => Rejected(cols, line, toIso));
    }
  }

  /** Data lines that do not throw give no more objects than lines, each well formed. */
  lemma {:induction false} RowsWellFormed(cols: Columns, lines: seq<string>, toIso: DateReader)
    requires Rows(cols, lines, toIso).Success?
    ensures |Rows(cols, lines, toIso).value| <= |lines|
    ensures forall k :: 0 <= k < |Rows(cols, lines, toIso).value| ==> WellFormedCsvObject(Rows(cols, lines, toIso).value[k])
    decreases |lines|
  {
    if |lines| > 0 {
      RowsWellFormed(cols, lines[..|lines| - 1], toIso);
      KeptOutcome(cols, lines[|lines| - 1], toIso);
    }
  }

  /** One data line throws exactly when it is rejected; otherwise it gives at most one well-formed object. */
  lemma KeptOutcome(cols: Columns, line: string, toIso: DateReader)
    ensures Kept(cols, line, toIso).Failure? <==> Rejected(cols, line, toIso)
    ensures Kept(cols, line, toIso).Failure? ==> Kept(cols, line, toIso).error == InvalidTimeValue
    ensures Kept(cols, line, toIso).Success? ==>
      |Kept(cols, line, toIso).value| <= 1
      && forall k :: 0 <= k < |Kept(cols, line, toIso).value| ==> WellFormedCsvObject(Kept(cols, line, toIso).value[k])
  {
    if Trim(line, JavaScript) != "" && RowObject(cols, Fields(line, false), toIso).Some? {
      RowObjectWellFormed(cols, Fields(line, false), toIso);
    }
  }

  /** `parseCsvData`: the header is read once, then each data line in turn. */
  method ParseCsvData(data: string, toIso: DateReader) returns (r: Result<seq<Imported>>)
    ensures r == ParseCsv(data, toIso)
    ensures r.Success? ==> |r.value| < |CsvLines(data)|
    ensures r.Success? ==> forall k :: 0 <= k < |r.value| ==> WellFormedCsvObject(r.value[k])
  {
    if Trim(data, JavaScript) == "" {
      return Failure("No CSV data provided");
    }
    var lines := CsvLines(data);
    if |lines| < 2 {
      return Failure("CSV must contain a header row and at least one data row");
    }
    var headers := ParseCsvLine(lines[0]);
    var cols := ColumnsOf(headers);
    if !HasRequiredColumns(cols) {
      return Failure("CSV must contain Name, RA, and Dec columns");
    }
    r := ReadRows(cols, lines[1..], toIso);
    if r.Success? {
      RowsWellFormed(cols, lines[1..], toIso);
    }
  }

  /**
   * A CSV import fails exactly on blank input, on a missing data line, on a missing required column,
   * or on a kept data row with a date that does not read.
   */
  lemma ParseCsvFailures(data: string, toIso: DateReader)
    ensures ParseCsv(data, toIso).Failure? <==>
      Trim(data, JavaScript) == "" || |CsvLines(data)| < 2
      || !HasRequiredColumns(ColumnsOf(Fields(CsvLines(data)[0], false)))
      || SomeRejected(ColumnsOf(Fields(CsvLines(data)[0], false)), CsvLines(data)[1..], toIso)
  {
    if Trim(data, JavaScript) != "" && |CsvLines(data)| >= 2 {
      RowsFailIff(ColumnsOf(Fields(CsvLines(data)[0], false)), CsvLines(data)[1..], toIso);
    }
  }

  /** A row is kept exactly when it has at least three fields and its name, RA and Dec are not blank. */
  lemma RowKeptIff(cols: Columns, values: seq<string>, toIso: DateReader)
    ensures RowObject(cols, values, toIso).Some? <==>
      |values| >= 3
      && NonEmpty(Cell(values, cols.name)).Some?
      && NonEmpty(Cell(values, cols.ra)).Some?
      && NonEmpty(Cell(values, cols.dec)).Some?
  {
  }

  /** What every object of a CSV import holds: trimmed, non-blank coordinates and name, no id. */
  predicate WellFormedCsvObject(o: Imported)
  {
    o.id.None? && o.name != "" && o.ra != "" && o.dec != ""
    && IsTrimmed(o.name, JavaScript) && IsTrimmed(o.ra, JavaScript) && IsTrimmed(o.dec, JavaScript)
    && o.magnitude != "" && o.size != "" && o.objectType != ""
  }

  /** A date an object holds came from a non-blank cell that reads; an absent one from a blank or bad cell. */
  predicate DateFrom(values: seq<string>, k: int, toIso: DateReader, d: Option<string>)
  {
    && (d.Some? ==> 0 <= k < |values| && Trim(values[k], JavaScript) != "" && toIso(values[k]) == d)
    && (d.None? ==> NonEmpty(Cell(values, k)).None? || toIso(values[k]).None?)
  }

  /**
   * The fields of a kept row's object: the trimmed name, RA and Dec; the trimmed magnitude and
   * size, or "N/A" when blank or missing; the trimmed type, or "Unknown"; completed exactly when
   * the trimmed cell is "yes" in any case; the dates read from their cells; goal time and notes
   * present exactly when their cells are not blank.
   */
  predicate FromRow(cols: Columns, values: seq<string>, toIso: DateReader, o: Imported)
  {
    && Cell(values, cols.name) == Some(o.name)
    && Cell(values, cols.ra) == Some(o.ra)
    && Cell(values, cols.dec) == Some(o.dec)
    && (NonEmpty(Cell(values, cols.magnitude)).None? ==> o.magnitude == "N/A")
    && (NonEmpty(Cell(values, cols.magnitude)).Some? ==> Cell(values, cols.magnitude) == Some(o.magnitude))
    && (NonEmpty(Cell(values, cols.size)).None? ==> o.size == "N/A")
    && (NonEmpty(Cell(values, cols.size)).Some? ==> Cell(values, cols.size) == Some(o.size))
    && (NonEmpty(Cell(values, cols.objectType)).None? ==> o.objectType == "Unknown")
    && (NonEmpty(Cell(values, cols.objectType)).Some? ==> Cell(values, cols.objectType) == Some(o.objectType))
    && (o.completed <==> 0 <= cols.completed < |values| && ToLower(Trim(values[cols.completed], JavaScript)) == "yes")
    && DateFrom(values, cols.addedDate, toIso, o.addedAt)
    && DateFrom(values, cols.completionDate, toIso, o.completedAt)
    && o.goalTime == NonEmpty(Cell(values, cols.goalTime))
    && o.notes == NonEmpty(Cell(values, cols.notes))
  }

  lemma RowObjectWellFormed(cols: Columns, values: seq<string>, toIso: DateReader)
    requires RowObject(cols, values, toIso).Some?
    ensures WellFormedCsvObject(RowObject(cols, values, toIso).value)
    ensures FromRow(cols, values, toIso, RowObject(cols, values, toIso).value)
  {
  }

  /** Header matching ignores case: a header of `Name`, `RA` and `Dec` has the required columns. */
  lemma MixedCaseHeader()
    ensures HasRequiredColumns(ColumnsOf(["Name", "RA", "Dec"]))
  {
    var hs := ["Name", "RA", "Dec"];
    NamedIgnoresCase("Name", "name");
    NamedIgnoresCase("RA", "ra");
    NamedIgnoresCase("Dec", "dec");
    Found(hs, Named("name"), 0);
    Found(hs, Named("ra"), 1);
    Found(hs, Named("dec"), 2);
  }

  lemma NamedIgnoresCase(h: string, key: string)
    requires |h| == |key| && forall k :: 0 <= k < |h| ==> LowerChar(h[k]) == key[k]
    ensures Named(key)(h)
  {
    assert ToLower(h) == key;
  }

  lemma Found(hs: seq<string>, p: string -> bool, k: nat)
    requires k < |hs| && p(hs[k])
    ensures FindFirst(hs, p) != -1
  {
  }

  // ---------------------------------------------------------------------------------------------
  // The JSON reader

  /** One element of a parsed JSON array; `None` is a member that is absent or not text. */
  datatype JsonItem = JsonItem(
    id: Option<string>,
    name: Option<string>,
    ra: Option<string>,
    dec: Option<string>,
    magnitude: Option<string>,
    size: Option<string>,
    objectType: Option<string>,
    addedAt: Option<string>,
    completed: bool,
    completedAt: Option<string>,
    goalTime: Option<string>,
    notes: Option<string>)

  /** The outcome of `JSON.parse`, which is a parameter of this model. */
  datatype JsonParse = Malformed(message: string) | NotArray | Items(items: seq<JsonItem>)

  predicate HasRequired(item: JsonItem)
  {
    NonEmpty(item.name).Some? && NonEmpty(item.ra).Some? && NonEmpty(item.dec).Some?
  }

  function MissingFields(index: nat): string
  {
    "Item at index " + NatToString(index) + " is missing required fields (name, RA, Dec)"
  }

  /** The object of one item: an existing id is kept, absent optional fields take their defaults. */
  function ItemObject(item: JsonItem): (o: Imported)
    requires HasRequired(item)
    ensures o.name == item.name.value && o.ra == item.ra.value && o.dec == item.dec.value
    ensures o.id == NonEmpty(item.id)
  {
    Imported(NonEmpty(item.id), item.name.value, item.ra.value, item.dec.value,
             NonEmpty(item.magnitude).GetOr("N/A"), NonEmpty(item.size).GetOr("N/A"),
             NonEmpty(item.objectType).GetOr("Unknown"), NonEmpty(item.addedAt),
             item.completed, item.completedAt, item.goalTime, item.notes)
  }

  /** The objects of the items from index `from` on; the first incomplete item stops the import. */
  function ItemObjects(items: seq<JsonItem>, from: nat): (r: Result<seq<Imported>>)
    requires from <= |items|
    ensures r.Success? <==> forall j :: from <= j < |items| ==> HasRequired(items[j])
    ensures r.Success? ==>
              && |r.value| == |items| - from
              && forall j :: from <= j < |items| ==> r.value[j - from] == ItemObject(items[j])
    ensures r.Failure? ==>
              exists k :: && from <= k < |items| && !HasRequired(items[k])
                          && (forall j :: from <= j < k ==> HasRequired(items[j]))
                          && r.error == MissingFields(k)
    decreases |items| - from
  {
    if from == |items| then Success([])
    else if !HasRequired(items[from]) then Failure(MissingFields(from))
    else
      match ItemObjects(items, from + 1)
      case Failure(e) => Failure(e)
      case Success(rest) => Success([ItemObject(items[from])] + rest)
  }

  /** `parseJsonData`, the parser of JSON text given as `parse`. */
  function ParseJson(data: string, parse: string -> JsonParse): (r: Result<seq<Imported>>)
    ensures Trim(data, JavaScript) == "" ==> r == Failure("No JSON data provided")
    ensures r.Success? <==>
              && Trim(data, JavaScript) != ""
              && parse(data).Items?
              && forall j :: 0 <= j < |parse(data).items| ==> HasRequired(parse(data).items[j])
    ensures r.Success? ==> |r.value| == |parse(data).items|
  {
    if Trim(data, JavaScript) == "" then Failure("No JSON data provided")
    else
      match parse(data)
      case Malformed(m) => Failure(m)
      case NotArray => Failure("Invalid JSON format. Expected an array of objects.")
      case Items(items) => ItemObjects(items, 0)
  }

  // ---------------------------------------------------------------------------------------------
  // Choosing the reader, and the upload checks

  datatype ImportTab = FileTab | JsonTab | CsvTab
  datatype FileKind = JsonFile | CsvFile

  /**
   * `processImport`. On the file tab, `file` is the chosen file's text, or the error of reading it;
   * `fileKind` is the kind the upload check recorded.
   */
  function ProcessImport(tab: ImportTab, fileSelected: bool, file: Option<Result<string>>,
                         fileKind: Option<FileKind>, jsonText: string, csvText: string,
                         parse: string -> JsonParse, toIso: DateReader): (r: Result<seq<Imported>>)
    ensures r.Success? ==> |r.value| > 0
    ensures tab == JsonTab ==> (r.Success? <==> ParseJson(jsonText, parse).Success?
                                                && |ParseJson(jsonText, parse).value| > 0)
    ensures tab == CsvTab ==> (r.Success? <==> ParseCsv(csvText, toIso).Success?
                                               && |ParseCsv(csvText, toIso).value| > 0)
    ensures tab == FileTab && !(fileSelected && file.Some?) ==> r.Failure?
  {
    var read: Result<seq<Imported>> :=
      if tab == FileTab && fileSelected && file.Some? then
        match file.value
        case Failure(_) => Failure("Error reading file")
        case Success(content) =>
          match fileKind
          case Some(JsonFile) => ParseJson(content, parse)
          case Some(CsvFile) => ParseCsv(content, toIso)
          case None => Success([])
      else if tab == JsonTab then ParseJson(jsonText, parse)
      else if tab == CsvTab then ParseCsv(csvText, toIso)
      else Failure("Please select a file or enter data to import");
    if read.Failure? then read
    else if |read.value| == 0 then Failure("No valid objects found in the import data")
    else read
  }

  /** The dialog's upload state: whether a file is ready, its kind, and the message shown. */
  datatype UploadState = UploadState(fileSelected: bool, fileType: Option<FileKind>,
                                     validationError: Option<string>)

  const MaxUploadBytes: nat := 5 * 1024 * 1024

  /** `handleFileUpload`, given the chosen file's name and size, if any. */
  function HandleFileUpload(prev: UploadState, file: Option<(string, nat)>): (u: UploadState)
    ensures u.fileSelected <==>
              && file.Some?
              && file.value.1 <= MaxUploadBytes
              && (EndsWith(file.value.0, ".json") || EndsWith(file.value.0, ".csv"))
    ensures u.fileSelected ==>
              && u.validationError.None?
              && u.fileType.Some?
              && (u.fileType.value == JsonFile <==> EndsWith(file.value.0, ".json"))
    ensures file.Some? && !u.fileSelected ==> u.validationError.Some?
  {
    match file
    case None => UploadState(false, None, None)
    case Some((name, size)) =>
      if size > MaxUploadBytes then
        UploadState(false, prev.fileType, Some("File is too large. Maximum size is 5MB."))
      else if EndsWith(name, ".json") then UploadState(true, Some(JsonFile), None)
      else if EndsWith(name, ".csv") then UploadState(true, Some(CsvFile), None)
      else UploadState(false, None, Some("Unsupported file type. Please upload a JSON or CSV file."))
  }
}
