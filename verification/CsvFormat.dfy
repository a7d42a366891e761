/** Records in the form of section 2 of RFC 4180, and how the reader decodes them. */
module CsvFormat {
  import opened CBytes
  import opened CsvFields
  import opened CsvImport
  import opened CsvReader

  /** A field as written: enclosed in double quotes or not. */
  datatype Cell = Bare(text: Bytes) | Quoted(text: Bytes)

  /** A record with its line break, which is CRLF or a lone LF. */
  datatype Line = Line(cells: seq<Cell>, crlf: bool)

  /** Lines, then at most one last record without a line break (no cells for none). */
  datatype Document = Document(lines: seq<Line>, last: seq<Cell>)

  /** A separator of a C string that the reader, which compares signed chars with bytes, can find. */
  predicate GoodSeparator(sep: Byte) {
    sep != NUL && sep < 128 && ReadableSeparator(sep)
  }

  /** Any text may be quoted; a bare one has no separator, no line break, no leading quote. */
  predicate CellOk(c: Cell, sep: int) {
    c.Bare? ==>
      && (forall i :: 0 <= i < |c.text| ==> c.text[i] != sep && c.text[i] != CR && c.text[i] != LF)
      && (c.text != [] ==> c.text[0] != DQUOTE)
  }

  predicate CellsOk(cells: seq<Cell>, sep: int) {
    forall i :: 0 <= i < |cells| ==> CellOk(cells[i], sep)
  }

  predicate DocumentOk(d: Document, sep: Byte) {
    && CellsOk(d.last, sep)
    && forall i :: 0 <= i < |d.lines| ==> d.lines[i].cells != [] && CellsOk(d.lines[i].cells, sep)
  }

  function RenderCell(c: Cell): Bytes {
    match c
    case Bare(t) => t
    case Quoted(t) => [DQUOTE] + Doubled(t, DQUOTE) + [DQUOTE]
  }

  function RenderCells(cells: seq<Cell>, sep: Byte): Bytes {
    if cells == [] then []
    else if |cells| == 1 then RenderCell(cells[0])
    else RenderCell(cells[0]) + [sep] + RenderCells(cells[1..], sep)
  }

  function RenderLine(l: Line, sep: Byte): Bytes {
    RenderCells(l.cells, sep) + if l.crlf then [CR, LF] else [LF]
  }

  function RenderLines(lines: seq<Line>, sep: Byte): Bytes {
    if lines == [] then [] else RenderLine(lines[0], sep) + RenderLines(lines[1..], sep)
  }

  function Render(d: Document, sep: Byte): Bytes {
    RenderLines(d.lines, sep) + RenderCells(d.last, sep)
  }

  /** The intended fields. */
  function Texts(cells: seq<Cell>): seq<Option<Bytes>> {
    if cells == [] then [] else [Some(cells[0].text)] + Texts(cells[1..])
  }

  /** The fields the reader reports for a record that ends with the file: an
      empty bare field at the very end is reported as null. */
  function TextsAtEof(cells: seq<Cell>): seq<Option<Bytes>> {
    if cells == [] then []
    else if |cells| == 1 && cells[0] == Bare([]) then [None]
    else [Some(cells[0].text)] + TextsAtEof(cells[1..])
  }

  lemma TextsAt(cells: seq<Cell>)
    ensures |Texts(cells)| == |cells|
    ensures forall i :: 0 <= i < |cells| ==> Texts(cells)[i] == Some(cells[i].text)
  {
    if cells != [] {
      TextsAt(cells[1..]);
      assert forall i :: 0 < i < |cells| ==> Texts(cells)[i] == Texts(cells[1..])[i - 1];
    }
  }

  lemma {:induction false} TextsAtEofExact(cells: seq<Cell>)
    requires cells != []
    ensures TextsAtEof(cells) == Texts(cells) <==> cells[|cells| - 1] != Bare([])
    decreases |cells|
  {
    assert Texts(cells)[1..] == Texts(cells[1..]);
    if |cells| > 1 {
      assert TextsAtEof(cells)[1..] == TextsAtEof(cells[1..]);
      TextsAtEofExact(cells[1..]);
    } else {
      assert Texts(cells)[0].Some?;
    }
  }

  /** A bare cell is one of the fields that end at the first separator or line break. */
  lemma ReadsBare(s: Bytes, p: nat, t: Bytes, e: End, sep: int)
    requires ReadableSeparator(sep) && CellOk(Bare(t), sep)
    requires HasAt(s, p, t) && EndAt(s, p + |t|, e, sep)
    ensures ReadField(s, p, sep, LF) ==
            FieldRead(if e == AtEof && t == [] then None else Some(t), EndTerm(e, sep), p + |t| + EndLength(e))
  {
    if e == AtCrLf {
      assert [CR, LF] == [CR] + [LF];
      HasAtSplit(s, p + |t|, [CR], [LF]);
      assert HasAt(s, p, t + [CR]);
      assert t == [] ==> (t + [CR])[0] == CR;
      BareExactly(s, p, t + [CR], AtLf, sep);
      assert (t + [CR])[..|t|] == t;
    } else {
      BareExactly(s, p, t, e, sep);
    }
  }

  /** A text between quotes as pieces: no quote in it stands alone. */
  function PiecesOf(t: Bytes): seq<Piece> {
    if t == [] then [] else [if t[0] == DQUOTE then Pair else Plain(t[0])] + PiecesOf(t[1..])
  }

  lemma {:induction false} PiecesOfText(t: Bytes, sep: int)
    ensures PiecesOk(PiecesOf(t), sep) && RenderPieces(PiecesOf(t)) == Doubled(t, DQUOTE) && Contents(PiecesOf(t)) == t
    ensures forall i :: 0 <= i < |PiecesOf(t)| ==> !PiecesOf(t)[i].Stray?
    decreases |t|
  {
    if t != [] {
      PiecesOfText(t[1..], sep);
      assert PiecesOf(t)[1..] == PiecesOf(t[1..]);
      assert t == [t[0]] + t[1..];
    }
  }

  /** So is a quoted cell. */
  lemma ReadsQuoted(s: Bytes, p: nat, t: Bytes, e: End, sep: int)
    requires ReadableSeparator(sep) && HasAt(s, p, RenderCell(Quoted(t)))
    requires EndAt(s, p + |RenderCell(Quoted(t))|, e, sep)
    ensures ReadField(s, p, sep, LF) ==
            FieldRead(Some(t), EndTerm(e, sep), p + |RenderCell(Quoted(t))| + EndLength(e))
  {
    var d := Doubled(t, DQUOTE);
    HasAtSplit3(s, p, [DQUOTE], d, [DQUOTE]);
    PiecesOfText(t, sep);
    assert s[p] == [DQUOTE][0] && s[p + 1 + |d|] == [DQUOTE][0];
    hide PiecesOk, EndAt;
    ReadsPieces(s, p, PiecesOf(t), Some(e), sep);
  }

  lemma ReadsCell(s: Bytes, p: nat, c: Cell, e: End, sep: int)
    requires ReadableSeparator(sep) && CellOk(c, sep)
    requires HasAt(s, p, RenderCell(c)) && EndAt(s, p + |RenderCell(c)|, e, sep)
    ensures ReadField(s, p, sep, LF) ==
            FieldRead(if e == AtEof && c == Bare([]) then None else Some(c.text), EndTerm(e, sep),
                      p + |RenderCell(c)| + EndLength(e))
  {
    match c
    case Bare(t) => ReadsBare(s, p, t, e, sep);
    case Quoted(t) => ReadsQuoted(s, p, t, e, sep);
  }

  function Fields(cells: seq<Cell>, e: End): seq<Option<Bytes>> {
    if e == AtEof then TextsAtEof(cells) else Texts(cells)
  }

  lemma {:induction false} RecordSplits(s: Bytes, p: nat, cells: seq<Cell>, sep: Byte)
    requires |cells| > 1 && HasAt(s, p, RenderCells(cells, sep))
    ensures var c, rest := RenderCell(cells[0]), RenderCells(cells[1..], sep);
            && |RenderCells(cells, sep)| == |c| + 1 + |rest|
            && HasAt(s, p, c) && HasAt(s, p + |c|, [sep]) && HasAt(s, p + |c| + 1, rest)
  {
    hide HasAt, RenderCell;
    HasAtSplit3(s, p, RenderCell(cells[0]), [sep], RenderCells(cells[1..], sep));
  }

  lemma ReadsFirstCell(s: Bytes, p: nat, c: Cell, sep: Byte)
    requires GoodSeparator(sep) && CellOk(c, sep)
    requires HasAt(s, p, RenderCell(c)) && HasAt(s, p + |RenderCell(c)|, [sep])
    ensures var rest := ReadRecord(s, p + |RenderCell(c)| + 1, sep, LF);
            ReadRecord(s, p, sep, LF) == Record([Some(c.text)] + rest.fields, rest.term, rest.next)
  {
    hide HasAt, RenderCell, ReadField, CellOk;
    ReadsCell(s, p, c, AtSep, sep);
  }

  lemma ReadsLastCell(s: Bytes, p: nat, c: Cell, e: End, sep: int)
    requires ReadableSeparator(sep) && CellOk(c, sep) && e != AtSep
    requires HasAt(s, p, RenderCell(c)) && EndAt(s, p + |RenderCell(c)|, e, sep)
    ensures ReadRecord(s, p, sep, LF) ==
            Record(Fields([c], e), EndTerm(e, sep), p + |RenderCell(c)| + EndLength(e))
  {
    ReadsCell(s, p, c, e, sep);
    assert Texts([c]) == [Some(c.text)] + Texts([c][1..]);
    assert TextsAtEof([c]) == if c == Bare([]) then [None] else [Some(c.text)] + TextsAtEof([c][1..]);
    assert [c][1..] == [];
    assert Fields([c], e) == [if e == AtEof && c == Bare([]) then None else Some(c.text)];
  }

  /** One record, whatever mix of bare and quoted fields, is read to its intended fields. */
  lemma {:induction false} ReadsRecord(s: Bytes, p: nat, cells: seq<Cell>, e: End, sep: Byte)
    requires GoodSeparator(sep) && CellsOk(cells, sep) && cells != [] && e != AtSep
    requires HasAt(s, p, RenderCells(cells, sep)) && EndAt(s, p + |RenderCells(cells, sep)|, e, sep)
    ensures ReadRecord(s, p, sep, LF) ==
            Record(Fields(cells, e), EndTerm(e, sep), p + |RenderCells(cells, sep)| + EndLength(e))
    decreases |cells|
  {
    hide HasAt, RenderCell, ReadField, ReadRecord;
    if |cells| == 1 {
      assert cells == [cells[0]];
      ReadsLastCell(s, p, cells[0], e, sep);
    } else {
      var q := p + |RenderCell(cells[0])| + 1;
      RecordSplits(s, p, cells, sep);
      ReadsFirstCell(s, p, cells[0], sep);
      ReadsRecord(s, q, cells[1..], e, sep);
    }
  }

  function FitLines(lines: seq<Line>, nCol: nat): seq<Row> {
    if lines == [] then [] else [Fit(Texts(lines[0].cells), nCol)] + FitLines(lines[1..], nCol)
  }

  lemma ReadsLine(s: Bytes, p: nat, l: Line, sep: Byte)
    requires GoodSeparator(sep) && CellsOk(l.cells, sep) && l.cells != []
    requires HasAt(s, p, RenderLine(l, sep))
    ensures p < |s| && ReadRecord(s, p, sep, LF) == Record(Texts(l.cells), LF, p + |RenderLine(l, sep)|)
  {
    hide HasAt, RenderCells, ReadRecord;
    HasAtSplit(s, p, RenderCells(l.cells, sep), if l.crlf then [CR, LF] else [LF]);
    ReadsRecord(s, p, l.cells, if l.crlf then AtCrLf else AtLf, sep);
  }

  /** The row of the last record: none when it has no bytes at all. */
  function LastRow(last: seq<Cell>, nCol: nat, sep: Byte): seq<Row> {
    if RenderCells(last, sep) == [] then [] else [Fit(TextsAtEof(last), nCol)]
  }

  lemma ImportsFirstLine(s: Bytes, p: nat, l: Line, nCol: nat, sep: Byte)
    requires GoodSeparator(sep) && CellsOk(l.cells, sep) && l.cells != []
    requires HasAt(s, p, RenderLine(l, sep))
    ensures ImportRows(s, p, nCol, sep, LF) ==
            [Fit(Texts(l.cells), nCol)] + ImportRows(s, p + |RenderLine(l, sep)|, nCol, sep, LF)
  {
    hide HasAt, RenderLine, ReadRecord;
    ReadsLine(s, p, l, sep);
  }

  lemma {:induction false} ImportsLast(s: Bytes, p: nat, last: seq<Cell>, nCol: nat, sep: Byte)
    requires GoodSeparator(sep) && CellsOk(last, sep)
    requires HasAt(s, p, RenderCells(last, sep)) && p + |RenderCells(last, sep)| == |s|
    ensures ImportRows(s, p, nCol, sep, LF) == LastRow(last, nCol, sep)
  {
    if p < |s| {
      ReadsRecord(s, p, last, AtEof, sep);
    }
  }

  lemma {:induction false} ImportsLines(s: Bytes, p: nat, lines: seq<Line>, last: seq<Cell>, nCol: nat, sep: Byte)
    requires GoodSeparator(sep) && CellsOk(last, sep)
    requires forall i :: 0 <= i < |lines| ==> lines[i].cells != [] && CellsOk(lines[i].cells, sep)
    requires HasAt(s, p, RenderLines(lines, sep))
    requires HasAt(s, p + |RenderLines(lines, sep)|, RenderCells(last, sep))
    requires p + |RenderLines(lines, sep)| + |RenderCells(last, sep)| == |s|
    ensures ImportRows(s, p, nCol, sep, LF) == FitLines(lines, nCol) + LastRow(last, nCol, sep)
    decreases |lines|
  {
    hide HasAt, RenderLine, RenderCells, ImportRows, LastRow;
    if lines == [] {
      ImportsLast(s, p, last, nCol, sep);
      assert FitLines(lines, nCol) == [];
    } else {
      var l := lines[0];
      HasAtSplit(s, p, RenderLine(l, sep), RenderLines(lines[1..], sep));
      ImportsFirstLine(s, p, l, nCol, sep);
      ImportsLines(s, p + |RenderLine(l, sep)|, lines[1..], last, nCol, sep);
      Associative([Fit(Texts(l.cells), nCol)], FitLines(lines[1..], nCol), LastRow(last, nCol, sep));
    }
  }

  /** Lines and nothing after them. */
  lemma ImportsAllLines(s: Bytes, p: nat, lines: seq<Line>, nCol: nat, sep: Byte)
    requires GoodSeparator(sep) && DocumentOk(Document(lines, []), sep)
    requires HasAt(s, p, RenderLines(lines, sep)) && p + |RenderLines(lines, sep)| == |s|
    ensures ImportRows(s, p, nCol, sep, LF) == FitLines(lines, nCol)
  {
    hide RenderLines, ImportRows, FitLines, CellsOk;
    ImportsLines(s, p, lines, [], nCol, sep);
    assert FitLines(lines, nCol) + LastRow([], nCol, sep) == FitLines(lines, nCol);
  }

  /** Every document is imported record by record. A last record without a line
      break is imported unless it is empty; its last field comes back as NULL
      exactly when it is an empty bare field. */
  lemma {:induction false} ImportsDocument(d: Document, nCol: nat, sep: Byte)
    requires GoodSeparator(sep) && DocumentOk(d, sep)
    ensures ImportRows(Render(d, sep), 0, nCol, sep, LF) ==
            FitLines(d.lines, nCol) + LastRow(d.last, nCol, sep)
  {
    ImportsLines(Render(d, sep), 0, d.lines, d.last, nCol, sep);
  }

  /** The unterminated last record keeps all its intended fields if and only if
      it does not end in an empty bare field. */
  lemma LastRecordExact(s: Bytes, p: nat, cells: seq<Cell>, sep: Byte)
    requires GoodSeparator(sep) && CellsOk(cells, sep) && cells != []
    requires HasAt(s, p, RenderCells(cells, sep)) && p + |RenderCells(cells, sep)| == |s|
    ensures ReadRecord(s, p, sep, LF).fields == Texts(cells) <==> cells[|cells| - 1] != Bare([])
  {
    ReadsRecord(s, p, cells, AtEof, sep);
    TextsAtEofExact(cells);
  }

  // ------------------------------------------------------------ cell by cell

  lemma {:induction false} TextsAtEofAt(cells: seq<Cell>, k: nat)
    requires k < |cells|
    ensures |TextsAtEof(cells)| == |cells|
    ensures TextsAtEof(cells)[k] == if k == |cells| - 1 && cells[k] == Bare([]) then None else Some(cells[k].text)
    decreases |cells|
  {
    if |cells| > 1 {
      TextsAtEofAt(cells[1..], if k > 0 then k - 1 else 0);
      assert k > 0 ==> TextsAtEof(cells)[k] == TextsAtEof(cells[1..])[k - 1];
    }
  }

  lemma {:induction false} FitLinesAt(lines: seq<Line>, nCol: nat, i: nat)
    requires i < |lines|
    ensures |FitLines(lines, nCol)| == |lines| && FitLines(lines, nCol)[i] == Fit(Texts(lines[i].cells), nCol)
    decreases |lines|
  {
    if |lines| > 1 {
      FitLinesAt(lines[1..], nCol, if i > 0 then i - 1 else 0);
      assert i > 0 ==> FitLines(lines, nCol)[i] == FitLines(lines[1..], nCol)[i - 1];
    }
  }

  /** Column k of a row is cell k of its record, up to a NUL, and NULL where the record has no such cell. */
  predicate IsRowOf(row: Row, cells: seq<Cell>, nCol: nat) {
    |row| == nCol && forall k :: 0 <= k < nCol ==>
      row[k] == if k < |cells| then Some(UpToNul(cells[k].text)) else None
  }

  /** At the end of the file, so is an empty bare cell. */
  predicate IsLastRowOf(row: Row, cells: seq<Cell>, nCol: nat) {
    |row| == nCol && forall k :: 0 <= k < nCol ==>
      row[k] == if k < |cells| && !(k == |cells| - 1 && cells[k] == Bare([])) then Some(UpToNul(cells[k].text))
                else None
  }

  lemma LastRowIs(cells: seq<Cell>, nCol: nat)
    requires cells != []
    ensures IsLastRowOf(Fit(TextsAtEof(cells), nCol), cells, nCol)
  {
    TextsAtEofAt(cells, 0);
    forall k | 0 <= k < |cells|
      ensures TextsAtEof(cells)[k] == if k == |cells| - 1 && cells[k] == Bare([]) then None else Some(cells[k].text)
    {
      TextsAtEofAt(cells, k);
    }
    hide TextsAtEof, UpToNul;
  }

  /** What an imported document is, row by row and column by column: surplus cells are dropped, missing ones NULL. */
  lemma {:induction false} ImportedCells(d: Document, nCol: nat, sep: Byte)
    requires GoodSeparator(sep) && DocumentOk(d, sep)
    ensures var rows := ImportRows(Render(d, sep), 0, nCol, sep, LF);
            && |rows| == |d.lines| + (if RenderCells(d.last, sep) == [] then 0 else 1)
            && (forall i :: 0 <= i < |d.lines| ==> IsRowOf(rows[i], d.lines[i].cells, nCol))
            && (RenderCells(d.last, sep) != [] ==> IsLastRowOf(rows[|d.lines|], d.last, nCol))
  {
    ImportsDocument(d, nCol, sep);
    if RenderCells(d.last, sep) != [] {
      LastRowIs(d.last, nCol);
    }
    NumberOfRows(d.lines, nCol);
    hide ImportRows, FitLines, RenderCells, TextsAtEof, UpToNul, DocumentOk, IsRowOf, IsLastRowOf, Render, Fit;
    forall i | 0 <= i < |d.lines|
      ensures IsRowOf(FitLines(d.lines, nCol)[i], d.lines[i].cells, nCol)
    {
      LineRowIs(d.lines, nCol, i);
    }
  }

  lemma LineRowIs(lines: seq<Line>, nCol: nat, i: nat)
    requires i < |lines|
    ensures |FitLines(lines, nCol)| == |lines| && IsRowOf(FitLines(lines, nCol)[i], lines[i].cells, nCol)
  {
    FitLinesAt(lines, nCol, i);
    TextsAt(lines[i].cells);
    hide FitLines, Texts, UpToNul;
  }

  lemma NumberOfRows(lines: seq<Line>, nCol: nat)
    ensures |FitLines(lines, nCol)| == |lines|
  {
  }

  lemma {:induction false} NamesOfTexts(cells: seq<Cell>, k: nat)
    requires k < |cells|
    ensures |Names(Texts(cells))| == |cells| && Names(Texts(cells))[k] == UpToNul(cells[k].text)
    decreases |cells|
  {
    hide UpToNul;
    assert Texts(cells)[1..] == Texts(cells[1..]);
    if |cells| > 1 {
      NamesOfTexts(cells[1..], if k > 0 then k - 1 else 0);
    }
  }

  lemma {:induction false} NamesAtEof(cells: seq<Cell>)
    requires cells != []
    ensures Names(TextsAtEof(cells)) ==
            Names(Texts(if cells[|cells| - 1] == Bare([]) then cells[..|cells| - 1] else cells))
    decreases |cells|
  {
    if |cells| > 1 {
      hide UpToNul;
      var n := |cells| - 1;
      NamesAtEof(cells[1..]);
      assert cells[1..][..n - 1] == cells[..n][1..];
      hide Names, Texts, TextsAtEof;
    } else {
      assert cells == [cells[0]] && cells[..0] == [];
      assert cells[1..] == [];
    }
  }

  /** The columns of a header record are its cells, up to a NUL, but for an empty bare cell that the end of the file
      ends. */
  lemma HeaderNames(s: Bytes, p: nat, cells: seq<Cell>, e: End, sep: Byte)
    requires GoodSeparator(sep) && CellsOk(cells, sep) && cells != [] && e != AtSep
    requires HasAt(s, p, RenderCells(cells, sep)) && EndAt(s, p + |RenderCells(cells, sep)|, e, sep)
    ensures var named := if e == AtEof && cells[|cells| - 1] == Bare([]) then cells[..|cells| - 1] else cells;
            var names := Names(ReadRecord(s, p, sep, LF).fields);
            |names| == |named| && forall k :: 0 <= k < |names| ==> names[k] == UpToNul(named[k].text)
  {
    ReadsRecord(s, p, cells, e, sep);
    if e == AtEof {
      NamesAtEof(cells);
    }
    hide ReadRecord, HasAt, EndAt, RenderCells, CellsOk, UpToNul, Texts, TextsAtEof;
    var named := if e == AtEof && cells[|cells| - 1] == Bare([]) then cells[..|cells| - 1] else cells;
    assert Names(ReadRecord(s, p, sep, LF).fields) == Names(Texts(named));
    if named == [] {
      NoNames();
    } else {
      NamesOfTexts(named, 0);
    }
    forall k | 0 <= k < |named|
      ensures Names(Texts(named))[k] == UpToNul(named[k].text)
    {
      NamesOfTexts(named, k);
    }
  }

  lemma NoNames()
    ensures Names(Texts([])) == []
  {
  }

  /** A line of one field is read alike whatever the separator is. */
  lemma ReadsSingle(s: Bytes, p: nat, l: Line, printed: Byte, sep: int)
    requires ReadableSeparator(sep) && |l.cells| == 1 && CellOk(l.cells[0], sep)
    requires HasAt(s, p, RenderLine(l, printed))
    ensures p < |s| && ReadRecord(s, p, sep, LF) == Record(Texts(l.cells), LF, p + |RenderLine(l, printed)|)
  {
    hide HasAt, RenderCell, ReadRecord;
    assert l.cells == [l.cells[0]];
    HasAtSplit(s, p, RenderCell(l.cells[0]), if l.crlf then [CR, LF] else [LF]);
    ReadsLastCell(s, p, l.cells[0], if l.crlf then AtCrLf else AtLf, sep);
  }

  lemma {:induction false} ImportsSingles(s: Bytes, p: nat, lines: seq<Line>, nCol: nat, printed: Byte, sep: int)
    requires ReadableSeparator(sep)
    requires forall i :: 0 <= i < |lines| ==> |lines[i].cells| == 1 && CellOk(lines[i].cells[0], sep)
    requires HasAt(s, p, RenderLines(lines, printed)) && p + |RenderLines(lines, printed)| == |s|
    ensures ImportRows(s, p, nCol, sep, LF) == FitLines(lines, nCol)
    decreases |lines|
  {
    hide HasAt, RenderLine, ReadRecord, CellOk;
    if lines != [] {
      HasAtSplit(s, p, RenderLine(lines[0], printed), RenderLines(lines[1..], printed));
      ReadsSingle(s, p, lines[0], printed, sep);
      ImportsSingles(s, p + |RenderLine(lines[0], printed)|, lines[1..], nCol, printed, sep);
    }
  }

  /** A separator that no byte equals never ends a field. */
  lemma NeverSeparated(s: Bytes, p: nat, sep: int, row: int)
    requires p <= |s| && sep < EOF
    ensures |ReadRecord(s, p, sep, row).fields| == 1
  {
  }
}
