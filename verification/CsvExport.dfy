/**
  Streaming CSV export: the printer of `export_services.py` and a reader of the grammar of
  section 2 of RFC 4180 (with LF line ends), proved inverse to each other.
*/
module CsvExport {
  import opened Wrappers

  // ---- The printer ----

  predicate Dangerous(text: string) {
    text != "" && text[0] in "=+-@"
  }

  /** A text a spreadsheet would take for a formula. */
  predicate FormulaLike(text: string) {
    |text| > 0 && text[0] in {'=', '+', '-', '@'}
  }

  /** Keeps a spreadsheet from reading the text as a formula. */
  function Guarded(text: string): (guarded: string)
    ensures guarded == (if FormulaLike(text) then "'" + text else text) && !FormulaLike(guarded)
  {
    if Dangerous(text) then "'" + text else text
  }

  /** The text of a cell; an absent value prints as the empty text. */
  function Text(value: Option<string>): string {
    match value
    case None => ""
    case Some(text) => text
  }

  /** Every quote written twice. */
  function Doubled(text: string): string {
    if text == "" then ""
    else (if text[0] == '"' then "\"\"" else [text[0]]) + Doubled(text[1..])
  }

  function Field(value: Option<string>): string {
    "\"" + Doubled(Guarded(Text(value))) + "\""
  }

  function Joined(fields: seq<Option<string>>): string {
    if fields == [] then ""
    else if |fields| == 1 then Field(fields[0])
    else Field(fields[0]) + "," + Joined(fields[1..])
  }

  function Line(fields: seq<Option<string>>): string {
    Joined(fields) + "\n"
  }

  function Printed(rows: seq<seq<Option<string>>>): string {
    if rows == [] then "" else Line(rows[0]) + Printed(rows[1..])
  }

  /** What a reader should find in the cells of a row. */
  function Cells(fields: seq<Option<string>>): seq<string> {
    if fields == [] then [] else [Guarded(Text(fields[0]))] + Cells(fields[1..])
  }

  function AllCells(rows: seq<seq<Option<string>>>): seq<seq<string>> {
    if rows == [] then [] else [Cells(rows[0])] + AllCells(rows[1..])
  }

  // ---- The reader ----

  /** The rest of a quoted field after its opening quote, and the input behind its closing quote. */
  function ReadQuoted(s: string): (r: Option<(string, string)>)
    ensures r.Some? ==> |r.value.1| < |s|
  {
    if s == "" then None
    else if s[0] != '"' then
      match ReadQuoted(s[1..])
      case None => None
      case Some((text, rest)) => Some(([s[0]] + text, rest))
    else if |s| > 1 && s[1] == '"' then
      match ReadQuoted(s[2..])
      case None => None
      case Some((text, rest)) => Some(("\"" + text, rest))
    else Some(("", s[1..]))
  }

  /** An unquoted field: everything up to the next separator; it holds no quote. */
  function ReadPlain(s: string): (r: Option<(string, string)>)
    ensures r.Some? ==> |r.value.1| <= |s|
  {
    if s == "" || s[0] == ',' || s[0] == '\n' then Some(("", s))
    else if s[0] == '"' then None
    else match ReadPlain(s[1..])
      case None => None
      case Some((text, rest)) => Some(([s[0]] + text, rest))
  }

  function ReadField(s: string): (r: Option<(string, string)>)
    ensures r.Some? ==> |r.value.1| <= |s|
  {
    if s != "" && s[0] == '"' then ReadQuoted(s[1..]) else ReadPlain(s)
  }

  /** One record and the input behind its line end; the last record may lack the line end. */
  function ReadRecord(s: string): (r: Option<(seq<string>, string)>)
    requires s != ""
    ensures r.Some? ==> |r.value.1| < |s|
    decreases |s|
  {
    match ReadField(s)
    case None => None
    case Some((text, rest)) =>
      if rest == "" then Some(([text], ""))
      else if rest[0] == '\n' then Some(([text], rest[1..]))
      else if rest[0] != ',' then None
      else if |rest| == 1 then Some(([text, ""], ""))
      else match ReadRecord(rest[1..])
        case None => None
        case Some((texts, rest')) => Some(([text] + texts, rest'))
  }

  function Read(s: string): Option<seq<seq<string>>>
    decreases |s|
  {
    if s == "" then Some([])
    else match ReadRecord(s)
      case None => None
      case Some((record, rest)) =>
        match Read(rest)
        case None => None
        case Some(records) => Some([record] + records)
  }

  // ---- Printing and reading back ----

  lemma {:induction false} QuotedReadsBack(text: string, rest: string)
    requires rest == "" || rest[0] != '"'
    ensures ReadQuoted(Doubled(text) + "\"" + rest) == Some((text, rest))
  {
    if text == "" {
      assert (Doubled(text) + "\"" + rest)[1..] == rest;
    } else {
      QuotedReadsBack(text[1..], rest);
      assert [text[0]] + text[1..] == text;
      FirstCharacterReads(text, Doubled(text[1..]) + "\"" + rest);
      FirstIsPrinted(text, rest);
    }
  }

  lemma FirstIsPrinted(text: string, rest: string)
    requires text != ""
    ensures Doubled(text) + "\"" + rest == FirstPrinted(text) + (Doubled(text[1..]) + "\"" + rest)
  {
    assert Doubled(text) == FirstPrinted(text) + Doubled(text[1..]);
    Regroup(FirstPrinted(text), Doubled(text[1..]), "\"", rest);
  }

  lemma Regroup(a: string, b: string, c: string, d: string)
    ensures a + b + c + d == a + (b + c + d)
  {
  }

  /** How the first character of a non-empty text is printed. */
  function FirstPrinted(text: string): string
    requires text != ""
  {
    if text[0] == '"' then "\"\"" else [text[0]]
  }

  lemma FirstCharacterReads(text: string, tail: string)
    requires text != ""
    ensures ReadQuoted(FirstPrinted(text) + tail)
            == match ReadQuoted(tail) case None => None case Some((t, rest)) => Some(([text[0]] + t, rest))
  {
    var s := FirstPrinted(text) + tail;
    if text[0] == '"' {
      assert s == "\"\"" + tail && s[2..] == tail;
      assert [text[0]] == "\"";
    } else {
      assert s == [text[0]] + tail && s[1..] == tail;
    }
  }

  lemma FieldReadsBack(value: Option<string>, rest: string)
    requires rest == "" || rest[0] != '"'
    ensures ReadField(Field(value) + rest) == Some((Guarded(Text(value)), rest))
  {
    var quoted := Doubled(Guarded(Text(value))) + "\"" + rest;
    QuotedReadsBack(Guarded(Text(value)), rest);
    assert Field(value) + rest == "\"" + quoted;
    assert ("\"" + quoted)[1..] == quoted;
  }

  /** A field followed by a comma is the first of its record. */
  lemma RecordContinues(value: Option<string>, more: string)
    requires more != ""
    ensures var r := ReadRecord(Field(value) + "," + more);
            var r' := ReadRecord(more);
            r == if r'.None? then None else Some(([Guarded(Text(value))] + r'.value.0, r'.value.1))
  {
    var s, rest := Field(value) + "," + more, "," + more;
    assert s == Field(value) + rest;
    FieldReadsBack(value, rest);
    assert rest[1..] == more;
  }

  /** A field followed by the line end is the last of its record. */
  lemma RecordEnds(value: Option<string>, rest: string)
    ensures ReadRecord(Field(value) + "\n" + rest) == Some(([Guarded(Text(value))], rest))
  {
    var s, tail := Field(value) + "\n" + rest, "\n" + rest;
    assert s == Field(value) + tail;
    FieldReadsBack(value, tail);
    assert tail[1..] == rest;
  }

  lemma {:induction false} LineReadsBack(fields: seq<Option<string>>, rest: string)
    requires fields != []
    ensures ReadRecord(Line(fields) + rest) == Some((Cells(fields), rest))
  {
    var value := fields[0];
    if |fields| == 1 {
      RecordEnds(value, rest);
      assert Cells(fields) == [Guarded(Text(value))];
    } else {
      var more := Line(fields[1..]) + rest;
      assert Line(fields) + rest == Field(value) + "," + more;
      RecordContinues(value, more);
      LineReadsBack(fields[1..], rest);
    }
  }

  /** What a reader does find: a row without columns prints as an empty line and reads as one empty cell. */
  function Found(rows: seq<seq<Option<string>>>): (found: seq<seq<string>>)
    ensures |found| == |rows|
  {
    if rows == [] then [] else [if rows[0] == [] then [""] else Cells(rows[0])] + Found(rows[1..])
  }

  lemma {:induction false} PrintedReadsAsFound(rows: seq<seq<Option<string>>>)
    ensures Read(Printed(rows)) == Some(Found(rows))
  {
    if rows != [] {
      PrintedReadsAsFound(rows[1..]);
      if rows[0] == [] {
        EmptyLineReadsAsOneCell(Printed(rows[1..]));
      } else {
        LineReadsBack(rows[0], Printed(rows[1..]));
      }
    }
  }

  lemma {:induction false} FoundAll(rows: seq<seq<Option<string>>>)
    ensures Found(rows) == AllCells(rows) <==> forall i :: 0 <= i < |rows| ==> rows[i] != []
  {
    if rows != [] {
      FoundAll(rows[1..]);
      assert Found(rows)[0] != [] && Found(rows)[1..] == Found(rows[1..]) && AllCells(rows)[1..] == AllCells(rows[1..]);
      assert AllCells(rows)[0] == Cells(rows[0]);
      assert forall i :: 0 < i < |rows| ==> rows[i] == rows[1..][i - 1];
      if forall i :: 0 <= i < |rows| ==> rows[i] != [] {
        assert forall i :: 0 <= i < |rows[1..]| ==> rows[1..][i] == rows[i + 1];
      }
    }
  }

  /**
    Reading what was printed gives back exactly the rows, for any number of them and whatever their
    cells hold; only a row without columns is misread (as one empty cell).
  */
  lemma PrintedReadsBack(rows: seq<seq<Option<string>>>)
    ensures Read(Printed(rows)) == Some(AllCells(rows)) <==> forall i :: 0 <= i < |rows| ==> rows[i] != []
  {
    PrintedReadsAsFound(rows);
    FoundAll(rows);
  }

  lemma EmptyLineReadsAsOneCell(rest: string)
    ensures ReadRecord(Line([]) + rest) == Some(([""], rest))
  {
    assert Line([]) + rest == "\n" + rest;
    assert ("\n" + rest)[1..] == rest;
  }

  lemma {:induction false} NoGuardedCellIsFormula(fields: seq<Option<string>>)
    ensures forall j :: 0 <= j < |Cells(fields)| ==> !FormulaLike(Cells(fields)[j])
  {
    if fields != [] {
      NoGuardedCellIsFormula(fields[1..]);
    }
  }

  /** No cell a reader finds starts like a formula, whatever rows were printed. */
  lemma {:induction false} NoCellIsFormula(rows: seq<seq<Option<string>>>)
    ensures var read := Read(Printed(rows));
            && read.Some?
            && forall i, j :: 0 <= i < |read.value| && 0 <= j < |read.value[i]| ==> !FormulaLike(read.value[i][j])
  {
    PrintedReadsAsFound(rows);
    forall i, j | 0 <= i < |rows| && 0 <= j < |Found(rows)[i]| ensures !FormulaLike(Found(rows)[i][j]) {
      NoFoundCellIsFormula(rows, i, j);
    }
  }

  lemma {:induction false} NoFoundCellIsFormula(rows: seq<seq<Option<string>>>, i: nat, j: nat)
    requires i < |rows| && j < |Found(rows)[i]|
    ensures !FormulaLike(Found(rows)[i][j])
  {
    if i == 0 {
      NoGuardedCellIsFormula(rows[0]);
    } else {
      NoFoundCellIsFormula(rows[1..], i - 1, j);
    }
  }

  /**
    What printing loses: an absent value prints like the empty text, and a formula like its quoted form; any two
    other values print differently.
  */
  lemma SameFieldMeans(a: Option<string>, b: Option<string>)
    ensures Field(a) == Field(b)
       <==> || a == b
            || (a.None? && b == Some("")) || (b.None? && a == Some(""))
            || (a.Some? && b.Some? && QuotedForm(a.value, b.value))
            || (a.Some? && b.Some? && QuotedForm(b.value, a.value))
  {
    FieldReadsBack(a, "");
    FieldReadsBack(b, "");
    GuardedMeans(Text(a), Text(b));
  }

  /** `quoted` is a dangerous text behind the guard's quote. */
  predicate QuotedForm(text: string, quoted: string) {
    FormulaLike(text) && quoted == "'" + text
  }

  lemma GuardedMeans(a: string, b: string)
    ensures Guarded(a) == Guarded(b) <==> a == b || QuotedForm(a, b) || QuotedForm(b, a)
  {
    if FormulaLike(a) && FormulaLike(b) && Guarded(a) == Guarded(b) {
      assert ("'" + a)[1..] == a && ("'" + b)[1..] == b;
    }
  }

  // ---- The stream ----

  function Cell(row: map<string, Option<string>>, column: string): Option<string> {
    if column in row then row[column] else None
  }

  /** The row's value in a column, absent where it has none. */
  function ValueOf(row: map<string, Option<string>>, column: string): (value: Option<string>)
    ensures column !in row ==> value == None
    ensures column in row ==> value == row[column]
  {
    if column !in row.Keys then None else row[column]
  }

  function Record(row: map<string, Option<string>>, columns: seq<string>): (fields: seq<Option<string>>)
    ensures |fields| == |columns|
    ensures forall i :: 0 <= i < |columns| ==> fields[i] == ValueOf(row, columns[i])
  {
    seq(|columns|, i requires 0 <= i < |columns| => Cell(row, columns[i]))
  }

  function Header(headers: seq<string>): (fields: seq<Option<string>>)
    ensures |fields| == |headers| && forall i :: 0 <= i < |headers| ==> fields[i] == Some(headers[i])
  {
    seq(|headers|, i requires 0 <= i < |headers| => Some(headers[i]))
  }

  /** The number of rows a cap lets through. */
  function Taken(cap: int, n: nat): nat {
    if cap <= 0 then 0 else if cap < n then cap else n
  }

  function Exported(table: seq<map<string, Option<string>>>, columns: seq<string>, headers: seq<string>, cap: int)
    : (rows: seq<seq<Option<string>>>)
    ensures |rows| == 1 + Taken(cap, |table|)
  {
    [Header(headers)] + seq(Taken(cap, |table|), i requires 0 <= i < |table| => Record(table[i], columns))
  }

  function Concatenated(chunks: seq<string>): string {
    if chunks == [] then "" else Concatenated(chunks[..|chunks| - 1]) + chunks[|chunks| - 1]
  }

  lemma {:induction false} PrintedAppend(rows: seq<seq<Option<string>>>, row: seq<Option<string>>)
    ensures Printed(rows + [row]) == Printed(rows) + Line(row)
  {
    if rows == [] {
      assert Printed([row][1..]) == "";
    } else {
      PrintedAppend(rows[1..], row);
      assert (rows + [row])[1..] == rows[1..] + [row];
    }
  }

  lemma ExportedStep(table: seq<map<string, Option<string>>>, columns: seq<string>, headers: seq<string>, n: nat)
    requires n < |table|
    ensures Exported(table, columns, headers, n + 1)
            == Exported(table, columns, headers, n) + [Record(table[n], columns)]
  {
  }

  /** The generator: a header line, then one line a row until the cap is reached. */
  method ExportRows(table: seq<map<string, Option<string>>>, columns: seq<string>, headers: seq<string>,
                    maxRows: Option<int>, configuredMax: int)
    returns (chunks: seq<string>)
    ensures var cap := if maxRows.Some? then maxRows.value else configuredMax;
            && |chunks| == 1 + Taken(cap, |table|)
            && (forall i :: 0 <= i < |chunks| ==> chunks[i] == Line(Exported(table, columns, headers, cap)[i]))
            && Concatenated(chunks) == Printed(Exported(table, columns, headers, cap))
  {
    var cap := match maxRows case Some(m) => m case None => configuredMax;
    chunks := [Line(Header(headers))];
    var emitted := 0;
    ghost var done := [Header(headers)];
    assert Printed(done) == Line(Header(headers)) + Printed(done[1..]);
    while emitted < |table|
      invariant 0 <= emitted <= |table| && (emitted > 0 ==> emitted <= cap)
      invariant |chunks| == 1 + emitted
      invariant done == Exported(table, columns, headers, emitted)
      invariant forall i :: 0 <= i < |chunks| ==> chunks[i] == Line(done[i])
      invariant Concatenated(chunks) == Printed(done)
    {
      if emitted >= cap {
        break;
      }
      ExportedStep(table, columns, headers, emitted);
      var line := Line(Record(table[emitted], columns));
      assert (chunks + [line])[..|chunks|] == chunks;
      PrintedAppend(done, Record(table[emitted], columns));
      chunks := chunks + [line];
      done := done + [Record(table[emitted], columns)];
      emitted := emitted + 1;
    }
  }

  /** What a reader finds of a value: nothing of an absent one, a quote before a formula, else the text itself. */
  predicate ReadsAs(value: Option<string>, cell: string) {
    match value
    case None => cell == ""
    case Some(text) => cell == if FormulaLike(text) then "'" + text else text
  }

  lemma {:induction false} CellsAt(fields: seq<Option<string>>, j: nat)
    requires j < |fields|
    ensures |Cells(fields)| == |fields| && ReadsAs(fields[j], Cells(fields)[j])
  {
    if |fields| > 1 {
      CellsAt(fields[1..], if j > 0 then j - 1 else 0);
    }
  }

  lemma {:induction false} AllCellsAt(rows: seq<seq<Option<string>>>, i: nat)
    requires i < |rows|
    ensures |AllCells(rows)| == |rows| && AllCells(rows)[i] == Cells(rows[i])
  {
    if |rows| > 1 {
      AllCellsAt(rows[1..], if i > 0 then i - 1 else 0);
    }
  }

  /** The first rows up to a cap that is not below none. */
  function AtMost(cap: int, n: nat): (taken: nat)
    ensures taken <= n && (taken == n || taken == cap || (cap < 0 && taken == 0)) && (cap >= 0 ==> taken <= cap)
  {
    if 0 <= cap < n then cap else if cap < 0 then 0 else n
  }

  /**
    A reader of a whole export finds the headers and the first rows in order, up to the cap, each with the row's value
    of each column in its place.
  */
  lemma ExportReadsBack(table: seq<map<string, Option<string>>>, columns: seq<string>, headers: seq<string>, cap: int)
    requires columns != [] && headers != []
    ensures var read := Read(Printed(Exported(table, columns, headers, cap)));
            && read.Some? && |read.value| == 1 + AtMost(cap, |table|)
            && IsRow(read.value[0], headers, (header: string) => Some(header))
            && forall i :: 0 <= i < AtMost(cap, |table|) ==>
                 IsRow(read.value[1 + i], columns, (column: string) => ValueOf(table[i], column))
  {
    var rows := Exported(table, columns, headers, cap);
    PrintedReadsBack(rows);
    forall i | 0 <= i < |rows| ensures |AllCells(rows)| == |rows| && AllCells(rows)[i] == Cells(rows[i]) {
      AllCellsAt(rows, i);
    }
    RowReads(rows[0], headers, (header: string) => Some(header));
    forall i | 0 <= i < AtMost(cap, |table|)
      ensures IsRow(AllCells(rows)[1 + i], columns, (column: string) => ValueOf(table[i], column))
    {
      RowReads(rows[1 + i], columns, (column: string) => ValueOf(table[i], column));
    }
  }

  /** Cell by cell, the text of a column's value. */
  ghost predicate IsRow(cells: seq<string>, columns: seq<string>, value: string -> Option<string>) {
    |cells| == |columns| && forall j :: 0 <= j < |columns| ==> ReadsAs(value(columns[j]), cells[j])
  }

  lemma RowReads(fields: seq<Option<string>>, columns: seq<string>, value: string -> Option<string>)
    requires |fields| == |columns| > 0 && forall j :: 0 <= j < |columns| ==> fields[j] == value(columns[j])
    ensures IsRow(Cells(fields), columns, value)
  {
    forall j | 0 <= j < |columns| ensures |Cells(fields)| == |columns| && ReadsAs(value(columns[j]), Cells(fields)[j]) {
      CellsAt(fields, j);
    }
    CellsAt(fields, 0);
  }
}
