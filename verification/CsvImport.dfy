/** The record loop of .import: shell.c 2946-3141. */
module CsvImport {
  import opened CBytes
  import opened CreateTable
  import opened CsvReader

  /** The fields up to the first one that no column separator follows. */
  datatype Record = Record(fields: seq<Option<Bytes>>, term: int, next: nat)

  type Row = seq<Option<Bytes>>

  function ReadRecord(s: Bytes, p: nat, sep: int, row: int): (r: Record)
    requires p <= |s| && sep != EOF
    ensures |r.fields| >= 1 && p <= r.next <= |s| && r.term != sep && (r.term == row || r.term == EOF)
    ensures r.term == EOF ==> r.next == |s|
    ensures r.term != EOF ==> r.next > p && s[r.next - 1] == r.term
    ensures r.fields[0].None? <==> p == |s|
    decreases |s| - p
  {
    var f := ReadField(s, p, sep, row);
    if f.term == sep then
      var rest := ReadRecord(s, f.next, sep, row);
      Record([f.text] + rest.fields, rest.term, rest.next)
    else Record([f.text], f.term, f.next)
  }

  /** sqlite3_bind_text with length -1: the C string at the pointer, NULL for null. */
  function Bind(f: Option<Bytes>): Option<Bytes> {
    match f
    case None => None
    case Some(t) => Some(UpToNul(t))
  }

  /** Exactly nCol parameters: the first fields in order, extras dropped, missing ones NULL. */
  function Fit(fields: seq<Option<Bytes>>, nCol: nat): Row {
    seq(nCol, k requires 0 <= k => if k < |fields| then Bind(fields[k]) else None)
  }

  /** The rows inserted from position `p` to the end of the input. */
  function ImportRows(s: Bytes, p: nat, nCol: nat, sep: int, row: int): seq<Row>
    requires p <= |s| && sep != EOF
    decreases |s| - p
  {
    var r := ReadRecord(s, p, sep, row);
    if p == |s| then []
    else [Fit(r.fields, nCol)] + if r.term == EOF then [] else ImportRows(s, r.next, nCol, sep, row)
  }

  datatype ImportError =
    | NoColumnSeparator | MultiColumnSeparator | NoRowSeparator | MultiRowSeparator | EmptyFile | CreateFailed
  datatype Result<+T> = Ok(value: T) | Err(error: ImportError)

  /** The separators .import accepts, as the reader compares them; CRLF stands for LF when the mode is CSV. */
  function ImportSeparators(colSep: Bytes, rowSep: Bytes, csvMode: bool): Result<(int, int)> {
    var cs, rs0 := UpToNul(colSep), UpToNul(rowSep);
    if |cs| == 0 then Err(NoColumnSeparator)
    else if |cs| > 1 then Err(MultiColumnSeparator)
    else if |rs0| == 0 then Err(NoRowSeparator)
    else
      var rs := if csvMode && rs0 == [CR, LF] then [LF] else rs0;
      if |rs| > 1 then Err(MultiRowSeparator) else Ok((CharValue(cs[0]), CharValue(rs[0])))
  }

  /** Which settings are accepted: one column separator, and one row separator or, when the mode is CSV, CRLF. */
  lemma SeparatorsExactly(colSep: Bytes, rowSep: Bytes, csvMode: bool)
    requires NulFree(colSep) && NulFree(rowSep)
    ensures ImportSeparators(colSep, rowSep, csvMode).Ok?
       <==> |colSep| == 1 && (|rowSep| == 1 || (csvMode && rowSep == [CR, LF]))
    ensures ImportSeparators(colSep, rowSep, csvMode).Ok? ==>
              && ImportSeparators(colSep, rowSep, csvMode).value.0 % 256 == colSep[0]
              && ImportSeparators(colSep, rowSep, csvMode).value.1 % 256 == if |rowSep| == 1 then rowSep[0] else LF
  {
  }

  /** The record being read goes on at `p` and ends where `rec` ends. */
  predicate EndsLike(s: Bytes, p: nat, sep: int, row: int, rec: Record)
    requires sep != EOF
  {
    p <= |s| && var r := ReadRecord(s, p, sep, row); r.term == rec.term && r.next == rec.next
  }

  /** Binds NULL to the parameters numbered i to nCol (counting from one). */
  method FillWithNull(bound: Row, i0: nat) returns (params: Row, i: nat)
    requires 1 <= i0 <= |bound| + 1
    ensures |params| == |bound| && i == |bound| + 1
    ensures forall k :: 0 <= k < |bound| ==> params[k] == if k < i0 - 1 then bound[k] else None
  {
    params, i := bound, i0;
    while i <= |bound|
      invariant i0 <= i <= |bound| + 1 && |params| == |bound|
      invariant forall k :: 0 <= k < |bound| ==> params[k] == if i0 - 1 <= k < i - 1 then None else bound[k]
    {
      params := params[i - 1 := None];
      i := i + 1;
    }
  }

  /** After i fields of record `rec`, the reader standing at `p`. */
  ghost predicate Midway(s: Bytes, p: nat, sep: int, row: int, rec: Record, i: nat, params: Row)
    requires sep != EOF
  {
    && EndsLike(s, p, sep, row, rec)
    && i <= |rec.fields| && i <= |params|
    && rec.fields[i..] == ReadRecord(s, p, sep, row).fields
    && forall k :: 0 <= k < i ==> params[k] == Bind(rec.fields[k])
  }

  lemma OneField(s: Bytes, p: nat, sep: int, row: int, rec: Record, i: nat, params: Row)
    requires sep != EOF && Midway(s, p, sep, row, rec, i, params) && i < |params|
    ensures var f := ReadField(s, p, sep, row);
            var after := params[i := Bind(f.text)];
            && i < |rec.fields| && f.text == rec.fields[i]
            && (f.term == sep ==> Midway(s, f.next, sep, row, rec, i + 1, after))
            && (f.term != sep ==> |rec.fields| == i + 1 && f.term == rec.term && f.next == rec.next)
  {
    var f := ReadField(s, p, sep, row);
    var rest := rec.fields[i..];
    assert rest[0] == rec.fields[i];
    assert rest[1..] == rec.fields[i + 1..];
  }

  /** The state of the column loop: it started at p0 and the reader is at p. */
  ghost predicate Bound(p0: nat, s: Bytes, p: nat, term: int, sep: int, row: int, rec: Record,
                        i: nat, params: Row, stop: bool)
    requires sep != EOF
  {
    && p0 <= p <= |s|
    && (stop ==> i == 0 && term == EOF && p0 == p == |s| && rec.term == EOF && rec.next == p)
    && (!stop ==> if i == 0 then p == p0 else p0 < |s|)
    && (!stop && i < |params| ==> Midway(s, p, sep, row, rec, i, params))
    && (!stop && i >= |params| ==>
          && params == Fit(rec.fields, |params|)
          && if term == sep then EndsLike(s, p, sep, row, rec) else term == rec.term && p == rec.next)
  }

  /** The body of the column loop. */
  method BindField(ctx: ImportCtx, params0: Row, i0: nat, ghost rec: Record)
    returns (params: Row, i: nat, stop: bool)
    requires ctx.Valid() && ctx.z.Length > 0 && i0 < |params0| && ctx.cColSep != EOF
    requires Midway(ctx.input, ctx.pos, ctx.cColSep, ctx.cRowSep, rec, i0, params0)
    modifies ctx, ctx.z
    ensures ctx.Valid() && ctx.z.Length > 0 && (ctx.z == old(ctx.z) || fresh(ctx.z))
    ensures |params| == |params0| && if stop then i == i0 else i > i0
    ensures forall p0: nat :: (if i0 == 0 then old(ctx.pos) == p0 else p0 <= old(ctx.pos) && p0 < |ctx.input|) ==>
              Bound(p0, ctx.input, ctx.pos, ctx.cTerm, ctx.cColSep, ctx.cRowSep, rec, i, params, stop)
  {
    hide CountOf;
    OneField(ctx.input, ctx.pos, ctx.cColSep, ctx.cRowSep, rec, i0, params0);
    params, i, stop := params0, i0, false;
    var z := ctx.CsvReadOneField();
    if z.None? && i == 0 {
      return params, i, true;
    }
    params := params[i := Bind(z)];
    if i < |params| - 1 && ctx.cTerm != ctx.cColSep {
      params, i := FillWithNull(params, i + 2);
    }
    i := i + 1;
  }

  /** Binds one record to the parameters. Returns the loop index at which the
      column loop stopped: 0 when the input had ended, otherwise at least nCol. */
  method BindRecord(ctx: ImportCtx, params0: Row, ghost rec: Record) returns (params: Row, i: nat)
    requires ctx.Valid() && ctx.z.Length > 0 && |params0| >= 1
    requires ctx.cColSep != EOF
    requires rec == ReadRecord(ctx.input, ctx.pos, ctx.cColSep, ctx.cRowSep)
    modifies ctx, ctx.z
    ensures ctx.Valid() && ctx.z.Length > 0 && (ctx.z == old(ctx.z) || fresh(ctx.z))
    ensures |params| == |params0|
    ensures if old(ctx.pos) == |ctx.input| then i == 0 && ctx.cTerm == EOF && ctx.pos == |ctx.input|
            else i >= |params| && params == Fit(rec.fields, |params|)
    ensures old(ctx.pos) <= ctx.pos
    ensures if ctx.cTerm == ctx.cColSep then EndsLike(ctx.input, ctx.pos, ctx.cColSep, ctx.cRowSep, rec)
            else ctx.cTerm == rec.term && ctx.pos == rec.next
  {
    hide CountOf;
    params, i := params0, 0;
    var stop := false;
    while i < |params| && !stop
      invariant ctx.Valid() && ctx.z.Length > 0 && (ctx.z == old(ctx.z) || fresh(ctx.z))
      invariant |params| == |params0|
      invariant Bound(old(ctx.pos), ctx.input, ctx.pos, ctx.cTerm, ctx.cColSep, ctx.cRowSep, rec, i, params, stop)
      decreases |params| - i, !stop
    {
      params, i, stop := BindField(ctx, params, i, rec);
    }
  }

  /** Reads and drops the fields beyond the last column. */
  method SkipExtras(ctx: ImportCtx, i0: nat, ghost rec: Record) returns (i: nat)
    requires ctx.Valid() && ctx.z.Length > 0 && ctx.cColSep != EOF && ctx.cTerm == ctx.cColSep
    requires EndsLike(ctx.input, ctx.pos, ctx.cColSep, ctx.cRowSep, rec)
    modifies ctx, ctx.z
    ensures ctx.Valid() && ctx.z.Length > 0 && (ctx.z == old(ctx.z) || fresh(ctx.z))
    ensures i > i0 && ctx.cTerm == rec.term && ctx.pos == rec.next && old(ctx.pos) <= ctx.pos
  {
    hide CountOf;
    i := i0;
    var more := true;
    while more
      invariant ctx.Valid() && ctx.z.Length > 0 && (ctx.z == old(ctx.z) || fresh(ctx.z))
      invariant old(ctx.pos) <= ctx.pos && i >= i0 && (!more ==> i > i0)
      invariant if more then EndsLike(ctx.input, ctx.pos, ctx.cColSep, ctx.cRowSep, rec)
                else ctx.cTerm == rec.term && ctx.pos == rec.next
      decreases |ctx.input| - ctx.pos, more
    {
      var z := ctx.CsvReadOneField();
      i := i + 1;
      more := ctx.cTerm == ctx.cColSep;
    }
  }

  /** The do-while loop: one insert per record until the end of the input. */
  method ImportRecords(ctx: ImportCtx, nCol: nat) returns (inserts: seq<Row>)
    requires ctx.Valid() && ctx.z.Length > 0 && nCol >= 1 && ctx.cColSep != EOF
    modifies ctx, ctx.z
    ensures ctx.Valid() && ctx.cTerm == EOF && ctx.pos == |ctx.input|
    ensures inserts == ImportRows(ctx.input, old(ctx.pos), nCol, ctx.cColSep, ctx.cRowSep)
  {
    hide CountOf;
    inserts := [];
    var params: Row := seq(nCol, _ => None);
    var more := true;
    ghost var all := ImportRows(ctx.input, ctx.pos, nCol, ctx.cColSep, ctx.cRowSep);
    while more
      invariant ctx.Valid() && ctx.z.Length > 0 && (ctx.z == old(ctx.z) || fresh(ctx.z))
      invariant |params| == nCol && old(ctx.pos) <= ctx.pos
      invariant more ==> inserts + ImportRows(ctx.input, ctx.pos, nCol, ctx.cColSep, ctx.cRowSep) == all
      invariant !more ==> inserts == all && ctx.cTerm == EOF && ctx.pos == |ctx.input|
      decreases |ctx.input| - ctx.pos, more
    {
      var i: nat;
      params, i := ImportRecord(ctx, params);
      if i >= nCol {
        inserts := inserts + [params];
      }
      more := ctx.cTerm != EOF;
    }
  }

  /** One record: bind what there is, skip what is too much. */
  method ImportRecord(ctx: ImportCtx, params0: Row) returns (params: Row, i: nat)
    requires ctx.Valid() && ctx.z.Length > 0 && |params0| >= 1 && ctx.cColSep != EOF
    modifies ctx, ctx.z
    ensures ctx.Valid() && ctx.z.Length > 0 && (ctx.z == old(ctx.z) || fresh(ctx.z))
    ensures |params| == |params0| && old(ctx.pos) <= ctx.pos
    ensures var rec := ReadRecord(ctx.input, old(ctx.pos), ctx.cColSep, ctx.cRowSep);
            && ctx.cTerm == rec.term && ctx.pos == rec.next
            && if old(ctx.pos) == |ctx.input| then i == 0 else i >= |params| && params == Fit(rec.fields, |params|)
  {
    hide CountOf;
    ghost var rec := ReadRecord(ctx.input, ctx.pos, ctx.cColSep, ctx.cRowSep);
    params, i := BindRecord(ctx, params0, rec);
    if ctx.cTerm == ctx.cColSep {
      i := SkipExtras(ctx, i, rec);
    }
  }

  /** The column names a first record gives: its fields up to end of file. */
  function Names(fields: seq<Option<Bytes>>): seq<Bytes> {
    if fields == [] || fields[0].None? then [] else [UpToNul(fields[0].value)] + Names(fields[1..])
  }

  lemma OneName(s: Bytes, p: nat, sep: int, row: int)
    requires sep != EOF && p <= |s|
    ensures var f := ReadField(s, p, sep, row);
            var r := ReadRecord(s, p, sep, row);
            && (f.term != sep ==> f.term == r.term && f.next == r.next)
            && (f.term == sep ==>
                  var rest := ReadRecord(s, f.next, sep, row);
                  rest.term == r.term && rest.next == r.next)
            && Names(r.fields) == if f.text.None? then []
                                  else [UpToNul(f.text.value)]
                                       + if f.term == sep then Names(ReadRecord(s, f.next, sep, row).fields) else []
  {
    var r := ReadRecord(s, p, sep, row);
    assert r.fields[0] == ReadField(s, p, sep, row).text;
    assert ReadField(s, p, sep, row).term == sep ==>
        r.fields[1..] == ReadRecord(s, ReadField(s, p, sep, row).next, sep, row).fields;
  }

  /** Reads the record that names the columns of a table still to be created into the statement for it. */
  method ReadHeader(ctx: ImportCtx, zTable: Bytes) returns (zCreate: Bytes, cSep: Byte)
    requires ctx.Valid() && ctx.z.Length > 0 && ctx.cColSep != EOF
    modifies ctx, ctx.z
    ensures ctx.Valid() && ctx.z.Length > 0 && (ctx.z == old(ctx.z) || fresh(ctx.z))
    ensures var rec := ReadRecord(ctx.input, old(ctx.pos), ctx.cColSep, ctx.cRowSep);
            var names := Names(rec.fields);
            && zCreate == CREATE + zTable + Columns(OPEN, names) && (cSep == OPEN <==> names == [])
            && ctx.pos == rec.next && ctx.cTerm == rec.term
  {
    hide Columns;
    zCreate, cSep := CREATE + zTable, OPEN;
    ghost var names: seq<Bytes> := [];
    NoColumns(zTable);
    ghost var rec := ReadRecord(ctx.input, ctx.pos, ctx.cColSep, ctx.cRowSep);
    var more := true;
    while more
      invariant ctx.Valid() && ctx.z.Length > 0 && (ctx.z == old(ctx.z) || fresh(ctx.z))
      invariant zCreate == CREATE + zTable + Columns(OPEN, names) && cSep == SeparatorAfter(names)
      invariant more ==> EndsLike(ctx.input, ctx.pos, ctx.cColSep, ctx.cRowSep, rec)
                         && names + Names(ReadRecord(ctx.input, ctx.pos, ctx.cColSep, ctx.cRowSep).fields)
                            == Names(rec.fields)
      invariant !more ==> names == Names(rec.fields) && ctx.pos == rec.next && ctx.cTerm == rec.term
      decreases |ctx.input| - ctx.pos, more
    {
      ghost var before := names;
      zCreate, cSep, names, more := ReadName(ctx, zCreate, cSep, names, rec);
      if names != before {
        ColumnsNext(OPEN, before, names[|names| - 1]);
        Associative(CREATE + zTable, Columns(OPEN, before), Column(SeparatorAfter(before), names[|names| - 1]));
      }
    }
  }

  /** What separates the next column from those there are. */
  function SeparatorAfter(names: seq<Bytes>): Byte {
    if names == [] then OPEN else COMMA
  }

  lemma NoColumns(zTable: Bytes)
    ensures CREATE + zTable == CREATE + zTable + Columns(OPEN, [])
  {
  }

  /** The body of the header loop. */
  method ReadName(ctx: ImportCtx, zCreate0: Bytes, cSep0: Byte, ghost names0: seq<Bytes>, ghost rec: Record)
    returns (zCreate: Bytes, cSep: Byte, ghost names: seq<Bytes>, more: bool)
    requires ctx.Valid() && ctx.z.Length > 0 && ctx.cColSep != EOF && cSep0 == SeparatorAfter(names0)
    requires EndsLike(ctx.input, ctx.pos, ctx.cColSep, ctx.cRowSep, rec)
    modifies ctx, ctx.z
    ensures ctx.Valid() && ctx.z.Length > 0 && (ctx.z == old(ctx.z) || fresh(ctx.z))
    ensures old(ctx.pos) <= ctx.pos && (more ==> old(ctx.pos) < ctx.pos)
    ensures var all := names0 + Names(ReadRecord(ctx.input, old(ctx.pos), ctx.cColSep, ctx.cRowSep).fields);
            if more then EndsLike(ctx.input, ctx.pos, ctx.cColSep, ctx.cRowSep, rec)
                         && names + Names(ReadRecord(ctx.input, ctx.pos, ctx.cColSep, ctx.cRowSep).fields) == all
            else names == all && ctx.pos == rec.next && ctx.cTerm == rec.term
    ensures if names == names0 then zCreate == zCreate0 && cSep == cSep0
            else names != [] && names == names0 + [names[|names| - 1]]
                 && zCreate == zCreate0 + Column(cSep0, names[|names| - 1]) && cSep == COMMA
  {
    hide Column, CountOf;
    ghost var s, p, sep, row := ctx.input, ctx.pos, ctx.cColSep, ctx.cRowSep;
    ghost var all := Names(ReadRecord(s, p, sep, row).fields);
    var z := ctx.CsvReadOneField();
    OneName(s, p, sep, row);
    if z.None? {
      assert all == [];
      return zCreate0, cSep0, names0, false;
    }
    var name := UpToNul(z.value);
    zCreate, cSep, names := zCreate0 + Column(cSep0, name), COMMA, names0 + [name];
    assert all == [name] + all[1..];
    assert names + all[1..] == names0 + all;
    more := ctx.cTerm == ctx.cColSep;
  }

  /** A table as .import leaves it: the names when it created the table, and the inserted rows. */
  datatype Imported = Imported(created: Option<seq<Bytes>>, rows: seq<Row>)

  /** The table to import into: one of so many columns, or one that is still to be created. */
  datatype Target = Existing(columns: nat) | Missing(zTable: Bytes, sql: Sql)

  /** What .import does; a table it creates has the columns that SQL reads in its statement. */
  function ImportFile(s: Bytes, target: Target, sep: int, row: int): Result<Imported>
    requires sep != EOF
  {
    match target
    case Existing(nCol) => Ok(Imported(None, if nCol == 0 then [] else ImportRows(s, 0, nCol, sep, row)))
    case Missing(zTable, sql) =>
      var header := ReadRecord(s, 0, sep, row);
      var names := Names(header.fields);
      if names == [] then Err(EmptyFile)
      else
        var created := Created(sql, zTable, names);
        if created.None? then Err(CreateFailed)
        else
          var nCol := |created.value|;
          Ok(Imported(created, if nCol == 0 then [] else ImportRows(s, header.next, nCol, sep, row)))
  }

  method Import(s: Bytes, target: Target, sep: int, row: int) returns (r: Result<Imported>)
    requires sep != EOF
    ensures r == ImportFile(s, target, sep, row)
  {
    hide Columns, Statement, ReadColumns, CountOf;
    var ctx := new ImportCtx(s, sep, row);
    ctx.AppendChar(NUL);
    var nCol: nat;
    var created: Option<seq<Bytes>> := None;
    match target {
      case Existing(columns) =>
        nCol := columns;
      case Missing(zTable, sql) =>
        var zCreate, cSep := ReadHeader(ctx, zTable);
        if cSep == OPEN {
          return Err(EmptyFile);
        }
        zCreate := zCreate + [LF, CLOSE];
        ghost var names := Names(ReadRecord(s, 0, sep, row).fields);
        StatementIs(zTable, names);
        created := Executed(sql, zCreate, |CREATE + zTable|);
        if created.None? {
          return Err(CreateFailed);
        }
        nCol := |created.value|;
    }
    if nCol == 0 {
      return Ok(Imported(created, []));
    }
    var inserts := ImportRecords(ctx, nCol);
    return Ok(Imported(created, inserts));
  }
}
