/** What CSV mode prints, .import reads back. */
module CsvRoundTrip {
  import opened CBytes
  import opened CreateTable
  import opened CsvReader
  import opened CsvImport
  import opened CsvFields
  import opened CsvFormat
  import opened CsvWriter

  /** The settings in force while printing. */
  datatype Style = Style(sep: Byte, rowSep: Bytes, nullValue: Bytes) {
    /** One separator byte, and a line break that .import turns into LF. */
    predicate Ok() {
      GoodSeparator(sep) && LineBreak()
    }

    predicate LineBreak() {
      rowSep == [LF] || rowSep == [CR, LF]
    }

    /** The nullValue setting has nothing in it that CSV would have to quote. */
    predicate PlainNull() {
      NulFree(nullValue) && CellOk(Bare(nullValue), sep)
    }
  }

  /** Values are C strings, or NULLs that print as a plain text. */
  predicate PrintableRow(row: Row, nCol: nat, st: Style) {
    |row| == nCol && forall j :: 0 <= j < nCol ==> if row[j].Some? then NulFree(row[j].value) else st.PlainNull()
  }

  predicate Printable(rows: seq<Row>, nCol: nat, st: Style) {
    forall i :: 0 <= i < |rows| ==> PrintableRow(rows[i], nCol, st)
  }

  /** What is left of a value once printed: NULL has become the nullValue text. */
  function Shown(v: Option<Bytes>, st: Style): Option<Bytes> {
    if v.Some? then v else Some(st.nullValue)
  }

  function ShownRow(row: Row, st: Style): Row {
    seq(|row|, j requires 0 <= j < |row| => Shown(row[j], st))
  }

  function ShownRows(rows: seq<Row>, st: Style): seq<Row> {
    seq(|rows|, i requires 0 <= i < |rows| => ShownRow(rows[i], st))
  }

  predicate HasNull(rows: seq<Row>) {
    exists i, j :: 0 <= i < |rows| && 0 <= j < |rows[i]| && rows[i][j] == None
  }

  function CellOf(v: Option<Bytes>, st: Style): Cell {
    match v
    case None => Bare(st.nullValue)
    case Some(z) => if NeedsQuotes(z, st.sep) then Quoted(z) else Bare(z)
  }

  function CellsOf(row: Row, st: Style): seq<Cell> {
    seq(|row|, j requires 0 <= j < |row| => CellOf(row[j], st))
  }

  function LineOf(row: Row, st: Style): Line {
    Line(CellsOf(row, st), |st.rowSep| == 2)
  }

  function LinesOf(rows: seq<Row>, st: Style): seq<Line> {
    seq(|rows|, i requires 0 <= i < |rows| => LineOf(rows[i], st))
  }

  /** The writer quotes whatever the format would not allow bare. */
  lemma WriterQuotesEnough(v: Option<Bytes>, st: Style)
    requires v.None? ==> st.PlainNull()
    ensures CellOk(CellOf(v, st), st.sep)
    ensures RenderCell(CellOf(v, st)) == ValueText(v, st.sep, st.nullValue)
    ensures Some(CellOf(v, st).text) == Shown(v, st)
  {
  }

  lemma {:induction false} RowIsRendered(row: Row, st: Style)
    requires PrintableRow(row, |row|, st)
    ensures ValuesText(row, st.sep, st.nullValue) == RenderCells(CellsOf(row, st), st.sep)
    decreases |row|
  {
    if row != [] {
      WriterQuotesEnough(row[0], st);
      if |row| > 1 {
        assert CellsOf(row, st)[1..] == CellsOf(row[1..], st);
        RowIsRendered(row[1..], st);
      }
    }
  }

  lemma LineIsRendered(row: Row, st: Style)
    requires st.LineBreak() && row != [] && PrintableRow(row, |row|, st)
    ensures RowText(row, st.sep, st.rowSep, st.nullValue) == RenderLine(LineOf(row, st), st.sep)
  {
    RowIsRendered(row, st);
  }

  lemma {:induction false} RowsAreRendered(rows: seq<Row>, nCol: nat, st: Style)
    requires st.LineBreak() && Printable(rows, nCol, st) && nCol >= 1
    ensures RowsText(rows, st.sep, st.rowSep, st.nullValue) == RenderLines(LinesOf(rows, st), st.sep)
    decreases |rows|
  {
    if rows != [] {
      assert PrintableRow(rows[0], nCol, st);
      hide RowText, RenderLine, LineOf, PrintableRow;
      LineIsRendered(rows[0], st);
      assert LinesOf(rows, st)[1..] == LinesOf(rows[1..], st);
      RowsAreRendered(rows[1..], nCol, st);
    }
  }

  lemma LineIsWellFormed(row: Row, st: Style)
    requires PrintableRow(row, |row|, st)
    ensures CellsOk(CellsOf(row, st), st.sep)
    ensures Fit(Texts(CellsOf(row, st)), |row|) == ShownRow(row, st)
  {
    TextsAt(CellsOf(row, st));
    forall j | 0 <= j < |row|
      ensures CellOk(CellsOf(row, st)[j], st.sep)
      ensures Bind(Texts(CellsOf(row, st))[j]) == Shown(row[j], st)
    {
      WriterQuotesEnough(row[j], st);
    }
  }

  lemma LinesAreWellFormed(rows: seq<Row>, nCol: nat, st: Style)
    requires Printable(rows, nCol, st) && nCol >= 1
    ensures DocumentOk(Document(LinesOf(rows, st), []), st.sep)
    ensures FitLines(LinesOf(rows, st), nCol) == ShownRows(rows, st)
  {
    if rows != [] {
      LineIsWellFormed(rows[0], st);
      LinesAreWellFormed(rows[1..], nCol, st);
      assert LinesOf(rows, st) == [LineOf(rows[0], st)] + LinesOf(rows[1..], st);
      assert ShownRows(rows, st) == [ShownRow(rows[0], st)] + ShownRows(rows[1..], st);
    }
  }

  /** Reading printed rows from any position where they make up the rest of the input. */
  lemma {:induction false} ReadsPrintedRows(s: Bytes, p: nat, rows: seq<Row>, nCol: nat, st: Style)
    requires st.Ok() && Printable(rows, nCol, st) && nCol >= 1
    requires HasAt(s, p, RowsText(rows, st.sep, st.rowSep, st.nullValue))
    requires p + |RowsText(rows, st.sep, st.rowSep, st.nullValue)| == |s|
    ensures ImportRows(s, p, nCol, st.sep, LF) == ShownRows(rows, st)
  {
    RowsAreRendered(rows, nCol, st);
    LinesAreWellFormed(rows, nCol, st);
    ImportsAllLines(s, p, LinesOf(rows, st), nCol, st.sep);
  }

  /** A value survives printing unless it is NULL. */
  lemma ShownIsSame(rows: seq<Row>, st: Style)
    ensures ShownRows(rows, st) == rows <==> !HasNull(rows)
  {
    if HasNull(rows) {
      var i, j :| 0 <= i < |rows| && 0 <= j < |rows[i]| && rows[i][j] == None;
      assert ShownRows(rows, st)[i][j] == Some(st.nullValue);
    } else {
      forall i | 0 <= i < |rows|
        ensures ShownRow(rows[i], st) == rows[i]
      {
      }
    }
  }

  /** Whole-table round trip: importing the printed bytes inserts the printed
      values, in order; these are the original rows if and only if there is no
      NULL among them. */
  lemma TableRoundTrip(names: seq<Bytes>, rows: seq<Row>, nCol: nat, st: Style)
    requires st.Ok() && Printable(rows, nCol, st) && nCol >= 1
    ensures ImportSeparators([st.sep], st.rowSep, true) == CsvImport.Ok((st.sep as int, LF as int))
    ensures var s := HeaderText(names, |rows|, false, st.sep, st.rowSep, st.nullValue)
                     + RowsText(rows, st.sep, st.rowSep, st.nullValue);
            && ImportFile(s, Existing(nCol), st.sep, LF) == CsvImport.Ok(Imported(None, ShownRows(rows, st)))
            && (ImportFile(s, Existing(nCol), st.sep, LF) == CsvImport.Ok(Imported(None, rows)) <==> !HasNull(rows))
  {
    SeparatorsAccepted(st);
    NoHeader(names, rows, st);
    hide HeaderText, RowsText, ImportRows, Printable, ImportSeparators, ShownRows, HasNull;
    ImportsPrintedRows(rows, nCol, st);
    ShownIsSame(rows, st);
  }

  lemma ImportsPrintedRows(rows: seq<Row>, nCol: nat, st: Style)
    requires st.Ok() && Printable(rows, nCol, st) && nCol >= 1
    ensures ImportRows(RowsText(rows, st.sep, st.rowSep, st.nullValue), 0, nCol, st.sep, LF) == ShownRows(rows, st)
  {
    hide RowsText, ImportRows, Printable;
    var s := RowsText(rows, st.sep, st.rowSep, st.nullValue);
    ReadsPrintedRows(s, 0, rows, nCol, st);
  }

  lemma SeparatorsAccepted(st: Style)
    requires st.Ok()
    ensures ImportSeparators([st.sep], st.rowSep, true) == CsvImport.Ok((st.sep as int, LF as int))
  {
  }

  lemma NoHeader(names: seq<Bytes>, rows: seq<Row>, st: Style)
    ensures var s := RowsText(rows, st.sep, st.rowSep, st.nullValue);
            HeaderText(names, |rows|, false, st.sep, st.rowSep, st.nullValue) + s == s
  {
    hide RowsText;
  }

  // ------------------------------------------------------------ separators beyond ASCII

  /** Any separator byte that printing and importing accept and that lets importing end. */
  predicate Usable(sep: Byte) {
    sep != NUL && ReadableSeparator(CharValue(sep))
  }

  /** With one column no separator is printed and none is needed. */
  lemma SingleColumn(rows: seq<Row>, st: Style)
    requires Usable(st.sep) && st.LineBreak() && Printable(rows, 1, st) && !HasNull(rows)
    ensures ImportRows(RowsText(rows, st.sep, st.rowSep, st.nullValue), 0, 1, CharValue(st.sep), LF) == rows
  {
    var s := RowsText(rows, st.sep, st.rowSep, st.nullValue);
    var lines := LinesOf(rows, st);
    RowsAreRendered(rows, 1, st);
    LinesAreWellFormed(rows, 1, st);
    ShownIsSame(rows, st);
    forall i | 0 <= i < |lines|
      ensures |lines[i].cells| == 1 && CellOk(lines[i].cells[0], CharValue(st.sep))
    {
      assert rows[i][0].Some?;
    }
    ImportsSingles(s, 0, lines, 1, st.sep, CharValue(st.sep));
  }

  lemma PrintsSomething(rows: seq<Row>, nCol: nat, st: Style)
    requires st.LineBreak() && Printable(rows, nCol, st) && nCol >= 1 && rows != []
    ensures RowsText(rows, st.sep, st.rowSep, st.nullValue) != []
  {
    assert rows[0] != [];
  }

  /** With more columns and a separator the reader cannot find, every row's second value is NULL. */
  lemma NotSeparated(rows: seq<Row>, nCol: nat, st: Style)
    requires st.LineBreak() && Printable(rows, nCol, st) && !HasNull(rows) && nCol >= 2 && rows != []
    requires CharValue(st.sep) < EOF
    ensures ImportRows(RowsText(rows, st.sep, st.rowSep, st.nullValue), 0, nCol, CharValue(st.sep), LF) != rows
  {
    var s := RowsText(rows, st.sep, st.rowSep, st.nullValue);
    PrintsSomething(rows, nCol, st);
    NeverSeparated(s, 0, CharValue(st.sep), LF);
    hide ReadRecord, RowsText;
    assert ImportRows(s, 0, nCol, CharValue(st.sep), LF)[0][1] == None;
    assert rows[0][1] != None;
  }

  /**
   * Which separators a table without NULLs survives: the reader compares signed chars with bytes, so exactly those
   * below 128, except where there is nothing to separate.
   */
  lemma SeparatorExactly(rows: seq<Row>, nCol: nat, st: Style)
    requires Usable(st.sep) && st.LineBreak() && Printable(rows, nCol, st) && nCol >= 1 && !HasNull(rows)
    ensures ImportSeparators([st.sep], st.rowSep, true) == CsvImport.Ok((CharValue(st.sep), LF as int))
    ensures var s := RowsText(rows, st.sep, st.rowSep, st.nullValue);
            ImportFile(s, Existing(nCol), CharValue(st.sep), LF) == CsvImport.Ok(Imported(None, rows))
            <==> st.sep < 128 || nCol == 1 || rows == []
  {
    hide Printable, HasNull, RowsText, ImportRows;
    if nCol == 1 {
      SingleColumn(rows, st);
    } else if st.sep < 128 {
      TableRoundTrip([], rows, nCol, st);
      NoHeader([], rows, st);
    } else if rows == [] {
      NothingPrinted(st);
    } else {
      NotSeparated(rows, nCol, st);
    }
  }

  lemma NothingPrinted(st: Style)
    ensures RowsText([], st.sep, st.rowSep, st.nullValue) == []
    ensures CharValue(st.sep) != EOF ==> forall nCol: nat :: ImportRows([], 0, nCol, CharValue(st.sep), LF) == []
  {
  }

  /** The separator 255 is the reader's end of file: there the loop that skips surplus fields reads on for ever. */
  lemma EofSeparatorNeverEnds(s: Bytes, row: int)
    ensures CharValue(255) == EOF && ReadField(s, |s|, CharValue(255), row) == FieldRead(None, CharValue(255), |s|)
  {
  }

  lemma NamesOfColumns(names: seq<Bytes>)
    requires forall i :: 0 <= i < |names| ==> NulFree(names[i])
    ensures Names(ColumnValues(names)) == names
  {
    if names != [] {
      assert ColumnValues(names)[1..] == ColumnValues(names[1..]);
      NamesOfColumns(names[1..]);
    }
  }

  lemma HeaderTexts(names: seq<Bytes>, st: Style)
    ensures Texts(CellsOf(ColumnValues(names), st)) == ColumnValues(names)
  {
    hide NeedsQuotes;
    TextsAt(CellsOf(ColumnValues(names), st));
  }

  /** The header line as a line of the grammar. */
  lemma HeaderLine(names: seq<Bytes>, st: Style)
    requires st.LineBreak() && names != [] && forall i :: 0 <= i < |names| ==> NulFree(names[i])
    ensures var line := LineOf(ColumnValues(names), st);
            && ValuesText(ColumnValues(names), st.sep, st.nullValue) + st.rowSep == RenderLine(line, st.sep)
            && line.cells != [] && CellsOk(line.cells, st.sep) && Texts(line.cells) == ColumnValues(names)
  {
    hide RenderLine, CellsOk, CellsOf, ValuesText, PrintableRow, NulFree;
    var row: Row := ColumnValues(names);
    LineIsRendered(row, st);
    LineIsWellFormed(row, st);
    HeaderTexts(names, st);
  }

  lemma HeaderIsRead(s: Bytes, names: seq<Bytes>, rest: Bytes, st: Style)
    requires st.Ok() && names != []
    requires forall i :: 0 <= i < |names| ==> NulFree(names[i])
    requires s == ValuesText(ColumnValues(names), st.sep, st.nullValue) + st.rowSep + rest
    ensures var r := ReadRecord(s, 0, st.sep, LF);
            r.fields == ColumnValues(names) && HasAt(s, r.next, rest) && r.next + |rest| == |s|
  {
    HeaderLine(names, st);
    hide ReadRecord, RenderLine, CellsOk, ValuesText, HasAt, NulFree, ColumnValues, LineOf, Texts;
    var line := LineOf(ColumnValues(names), st);
    HasAtSplit(s, 0, RenderLine(line, st.sep), rest);
    ReadsLine(s, 0, line, st.sep);
  }

  /** What printing with a header gives and importing it reads. */
  lemma HeaderAndRows(names: seq<Bytes>, rows: seq<Row>, nCol: nat, st: Style)
    requires st.Ok() && names != [] && rows != [] && Printable(rows, |names|, st)
    requires forall i :: 0 <= i < |names| ==> NulFree(names[i])
    ensures var s := HeaderText(names, |rows|, true, st.sep, st.rowSep, st.nullValue)
                     + RowsText(rows, st.sep, st.rowSep, st.nullValue);
            var header := ReadRecord(s, 0, st.sep, LF);
            && Names(header.fields) == names
            && ImportRows(s, header.next, nCol, st.sep, LF) == FitLines(LinesOf(rows, st), nCol)
  {
    var text := RowsText(rows, st.sep, st.rowSep, st.nullValue);
    var s := HeaderText(names, |rows|, true, st.sep, st.rowSep, st.nullValue) + text;
    hide RenderLines, ImportRows, FitLines, DocumentOk, LinesOf, RowsText, ValuesText, ReadRecord, Printable, NulFree;
    hide HasAt, ColumnValues, Names, ShownRows;
    HeaderIsRead(s, names, text, st);
    NamesOfColumns(names);
    RowsAreRendered(rows, |names|, st);
    LinesAreWellFormed(rows, |names|, st);
    ImportsAllLines(s, ReadRecord(s, 0, st.sep, LF).next, LinesOf(rows, st), nCol, st.sep);
  }

  /** With headers on, importing into a table that does not exist creates it with
      the printed names, and inserts the rows, if and only if there is a row, no
      name has a double quote and no two are the same to SQL. An empty result
      prints no header, and the import then fails on the empty file. */
  lemma {:induction false} HeaderRoundTrip(names: seq<Bytes>, rows: seq<Row>, st: Style, zTable: Bytes, sql: Sql)
    requires st.Ok() && names != [] && Printable(rows, |names|, st) && Knows(sql)
    requires forall i :: 0 <= i < |names| ==> NulFree(names[i])
    ensures var s := HeaderText(names, |rows|, true, st.sep, st.rowSep, st.nullValue)
                     + RowsText(rows, st.sep, st.rowSep, st.nullValue);
            var r := ImportFile(s, Missing(zTable, sql), st.sep, LF);
            && (rows == [] ==> r == Err(EmptyFile))
            && (r.Ok? && r.value.created == Some(names) <==> rows != [] && PlainNames(names) && DistinctNames(names))
            && (r.Ok? && r.value.created == Some(names) ==> r.value.rows == ShownRows(rows, st))
            && (rows != [] && PlainNames(names) && !DistinctNames(names) ==> r == Err(CreateFailed))
  {
    if rows == [] {
    } else {
      HeaderAndRows(names, rows, |names|, st);
      LinesAreWellFormed(rows, |names|, st);
      CreatedExactly(sql, zTable, names);
    }
    hide Created, Printable, Knows, PlainNames, DistinctNames, HeaderText, RowsText, ReadRecord, ImportRows, FitLines;
  }

  /** A name that holds the text between two columns: the table gets two, and every row a NULL it did not have. */
  lemma {:induction false} SplicedHeader(x: Bytes, y: Bytes, rows: seq<Row>, st: Style, zTable: Bytes, sql: Sql)
    requires st.Ok() && rows != [] && Printable(rows, 1, st) && Knows(sql)
    requires NulFree(x) && NulFree(y) && PlainNames([x, y]) && DistinctNames([x, y])
    ensures var names := [Spliced(x, y)];
            var s := HeaderText(names, |rows|, true, st.sep, st.rowSep, st.nullValue)
                     + RowsText(rows, st.sep, st.rowSep, st.nullValue);
            ImportFile(s, Missing(zTable, sql), st.sep, LF) ==
            CsvImport.Ok(Imported(Some([x, y]), WithNulls(rows, st)))
  {
    assert NulFree(Spliced(x, y));
    HeaderAndRows([Spliced(x, y)], rows, 2, st);
    SplicedNameSplits(sql, zTable, x, y);
    OneMoreColumn(rows, st);
    hide Created, Printable, Knows, PlainNames, HeaderText, RowsText, ReadRecord, ImportRows, FitLines, Spliced;
  }

  /** For every row of one column its shown value and a NULL. */
  function WithNulls(rows: seq<Row>, st: Style): seq<Row>
    requires Printable(rows, 1, st)
  {
    seq(|rows|, i requires 0 <= i < |rows| => [Shown(rows[i][0], st), None])
  }

  /** The one value of a row, and NULL for a second column. */
  lemma OneMoreValue(row: Row, st: Style)
    requires PrintableRow(row, 1, st)
    ensures Fit(Texts(CellsOf(row, st)), 2) == [Shown(row[0], st), None]
  {
    TextsAt(CellsOf(row, st));
    WriterQuotesEnough(row[0], st);
    hide Texts, NeedsQuotes;
    assert Bind(Texts(CellsOf(row, st))[0]) == Shown(row[0], st);
  }

  lemma {:induction false} OneMoreColumn(rows: seq<Row>, st: Style)
    requires Printable(rows, 1, st)
    ensures FitLines(LinesOf(rows, st), 2) == WithNulls(rows, st)
    decreases |rows|
  {
    if rows != [] {
      hide Texts, CellsOf, Fit, Shown;
      assert LinesOf(rows, st) == [LineOf(rows[0], st)] + LinesOf(rows[1..], st);
      OneMoreValue(rows[0], st);
      OneMoreColumn(rows[1..], st);
      assert WithNulls(rows, st) == [[Shown(rows[0][0], st), None]] + WithNulls(rows[1..], st);
    }
  }
}
