/** The statement that creates a table for .import, and the columns it creates: shell.c 3033-3048. */
module CreateTable {
  import opened CBytes
  import opened SqlQuoting

  const OPEN: Byte := 40
  const CLOSE: Byte := 41
  const COMMA: Byte := 44

  /** "CREATE TABLE ", a line break with two spaces, and " TEXT". */
  const CREATE: Bytes := [67, 82, 69, 65, 84, 69, 32, 84, 65, 66, 76, 69, 32]
  const LEAD: Bytes := [LF, SPACE, SPACE]
  const TYPE: Bytes := [SPACE, 84, 69, 88, 84]

  /** One column of the statement: the name goes between double quotes as it is. */
  function Column(cSep: Byte, name: Bytes): Bytes {
    [cSep] + LEAD + ([DQUOTE] + name + [DQUOTE] + TYPE)
  }

  function Columns(cSep: Byte, names: seq<Bytes>): Bytes
    decreases |names|
  {
    if names == [] then [] else Column(cSep, names[0]) + Columns(COMMA, names[1..])
  }

  function Statement(zTable: Bytes, names: seq<Bytes>): Bytes {
    CREATE + zTable + Columns(OPEN, names) + [LF, CLOSE]
  }

  /** The statement for a table of two columns, letter by letter. */
  lemma StatementText(zTable: Bytes, x: Bytes, y: Bytes)
    ensures Statement(zTable, [x, y]) ==
            Ascii("CREATE TABLE ") + zTable + Ascii("(\n  \"") + x + Ascii("\" TEXT,\n  \"") + y + Ascii("\" TEXT\n)")
  {
    TwoColumns(x, y);
    LiteralsAre();
    hide Columns, Ascii;
  }

  lemma LiteralsAre()
    ensures Ascii("CREATE TABLE ") == CREATE && Ascii("(\n  \"") == [OPEN] + LEAD + [DQUOTE]
    ensures Ascii("\" TEXT,\n  \"") == [DQUOTE] + TYPE + ([COMMA] + LEAD + [DQUOTE])
    ensures Ascii("\" TEXT\n)") == [DQUOTE] + TYPE + [LF, CLOSE]
  {
  }

  lemma TwoColumns(x: Bytes, y: Bytes)
    ensures Columns(OPEN, [x, y]) == Column(OPEN, x) + Column(COMMA, y)
  {
    hide Column;
    assert [x, y][1..] == [y] && [y][1..] == [];
    assert Columns(COMMA, [y]) == Column(COMMA, y) + [];
  }

  lemma {:induction false} ColumnsNext(cSep: Byte, names: seq<Bytes>, name: Bytes)
    ensures Columns(cSep, names + [name]) == Columns(cSep, names) + Column(if names == [] then cSep else COMMA, name)
    decreases |names|
  {
    hide Column;
    if names == [] {
      assert Columns(COMMA, [name][1..]) == [];
    } else {
      assert (names + [name])[1..] == names[1..] + [name];
      ColumnsNext(COMMA, names[1..], name);
      Associative(Column(cSep, names[0]), Columns(COMMA, names[1..]), Column(COMMA, name));
    }
  }

  /**
   * What SQL makes of parts that this program's text does not determine: where the definition of a column ends
   * that a quoted name has begun, and what an item declares that begins otherwise, and where it ends.
   */
  datatype Sql = Sql(definition: (Bytes, nat) -> Option<nat>, item: (Bytes, nat) -> Option<(seq<Bytes>, nat)>)

  /** A type and nothing else is a definition; it ends at the comma or parenthesis that follows. */
  ghost predicate Knows(sql: Sql) {
    forall s: Bytes, p: nat :: HasAt(s, p, TYPE) ==>
      && (HasAt(s, p + 5, [COMMA]) ==> sql.definition(s, p) == Some(p + 5))
      && (HasAt(s, p + 5, [LF, CLOSE]) ==> sql.definition(s, p) == Some(p + 6))
  }

  /** The columns declared from the parenthesis or comma at p on, up to the closing parenthesis. */
  function ReadColumns(sql: Sql, s: Bytes, p: nat): Option<seq<Bytes>>
    requires p < |s|
    decreases |s| - p
  {
    var b := SkipSpaces(s, p + 1);
    if b == |s| then None
    else
      var r := ReadItem(sql, s, b);
      if r.None? || r.value.1 <= b || r.value.1 >= |s| then None
      else if s[r.value.1] == CLOSE then Some(r.value.0)
      else if s[r.value.1] != COMMA then None
      else
        var rest := ReadColumns(sql, s, r.value.1);
        if rest.None? then None else Some(r.value.0 + rest.value)
  }

  /** What the item at b declares, and the position behind it. */
  function ReadItem(sql: Sql, s: Bytes, b: nat): Option<(seq<Bytes>, nat)>
    requires b < |s|
  {
    if s[b] != DQUOTE then sql.item(s, b)
    else
      var name := ReadQuoted(s, b + 1, DQUOTE);
      if name.None? then None
      else
        var end := sql.definition(s, name.value.1);
        if end.None? then None else Some(([name.value.0], end.value))
  }

  function Lower(name: Bytes): Bytes {
    seq(|name|, i requires 0 <= i < |name| => ToLower(name[i]))
  }

  /** No two names are the same to SQL, which does not tell upper from lower case. */
  predicate DistinctNames(names: seq<Bytes>) {
    forall i, j :: 0 <= i < j < |names| ==> Lower(names[i]) != Lower(names[j])
  }

  predicate PlainNames(names: seq<Bytes>) {
    forall i :: 0 <= i < |names| ==> DQUOTE !in names[i]
  }

  /** The columns of the table that a statement creates, if it does; a column name twice is an error. */
  function Executed(sql: Sql, s: Bytes, p: nat): Option<seq<Bytes>>
    requires p < |s|
  {
    var columns := ReadColumns(sql, s, p);
    if columns.Some? && DistinctNames(columns.value) then columns else None
  }

  function Created(sql: Sql, zTable: Bytes, names: seq<Bytes>): Option<seq<Bytes>> {
    Executed(sql, Statement(zTable, names), |CREATE + zTable|)
  }

  lemma StatementIs(zTable: Bytes, names: seq<Bytes>)
    ensures CREATE + zTable + Columns(OPEN, names) + [LF, CLOSE] == Statement(zTable, names)
  {
  }

  // ------------------------------------------------------------ names that SQL does not read as they are

  /** A run of quotes from offset i on is read two by two, and so runs past the name and its closing quote. */
  lemma {:induction false} QuoteRun(s: Bytes, p: nat, z: Bytes, q: Byte, i: nat, k: nat)
    requires p + |z| + 1 < |s| && s[p + |z|] == q && s[p + |z| + 1] != q && HasAt(s, p, z)
    requires i < k <= |z| && p + 2 * k - i <= |s| && forall j :: p + i <= j < p + 2 * k - i ==> s[j] == q
    ensures ReadQuoted(s, p + 2 * k - i, q).Some? ==> ReadQuoted(s, p + 2 * k - i, q).value.0 != z[k..]
    decreases |z| - k
  {
    var n, m := |z|, 2 * k - i;
    assert s[p + n + 1] != q && m <= n + 1;
    if k < n {
      assert s[p + k] == z[k];
      assert z[k..][0] == z[k] == q && z[k..][1..] == z[k + 1..];
      if m <= n && s[p + m] == q && s[p + m + 1] == q {
        QuoteRun(s, p, z, q, i, k + 1);
      }
    }
  }

  /** Put between quotes as it is, a text with a quote in it is not what SQL reads there. */
  lemma {:induction false} UndoubledFrom(s: Bytes, p: nat, z: Bytes, q: Byte, i: nat)
    requires p + |z| + 1 < |s| && s[p + |z|] == q && s[p + |z| + 1] != q && HasAt(s, p, z)
    requires i <= |z| && q in z[i..]
    ensures ReadQuoted(s, p + i, q).Some? ==> ReadQuoted(s, p + i, q).value.0 != z[i..]
    decreases |z| - i
  {
    assert s[p + i] == z[i] && z[i..][1..] == z[i + 1..];
    if z[i] == q {
      if s[p + i + 1] == q {
        QuoteRun(s, p, z, q, i, i + 1);
      }
    } else {
      assert q in z[i + 1..];
      UndoubledFrom(s, p, z, q, i + 1);
    }
  }

  /** A name between double quotes is read as it is if and only if it has no double quote. */
  lemma QuotedAsItIs(s: Bytes, p: nat, z: Bytes)
    requires HasAt(s, p, z + [DQUOTE]) && p + |z| + 1 < |s| && s[p + |z| + 1] != DQUOTE
    ensures var r := ReadQuoted(s, p, DQUOTE);
            && (DQUOTE !in z ==> r == Some((z, p + |z| + 1)))
            && (DQUOTE in z && r.Some? ==> r.value.0 != z)
  {
    HasAtSplit(s, p, z, [DQUOTE]);
    assert s[p + |z|] == [DQUOTE][0];
    if DQUOTE in z {
      assert z[0..] == z;
      UndoubledFrom(s, p, z, DQUOTE, 0);
    } else {
      DoubledPlain(z, DQUOTE);
      ReadsDoubled(s, p, z, DQUOTE);
    }
  }

  /** The parts of one column in the statement, and that its item starts with the quote of its name. */
  lemma ColumnParts(s: Bytes, p: nat, cSep: Byte, name: Bytes, rest: Bytes)
    requires HasAt(s, p, Column(cSep, name) + rest)
    ensures var q := p + 5 + |name|;
            && |Column(cSep, name)| == |name| + 11 && p + 5 <= |s| && q + 6 <= |s|
            && SkipSpaces(s, p + 1) == p + 4 && s[p + 4] == DQUOTE
            && HasAt(s, p + 5, name + [DQUOTE]) && s[q + 1] == SPACE
            && HasAt(s, q + 1, TYPE) && HasAt(s, q + 6, rest)
  {
    var tail := [DQUOTE] + name + [DQUOTE] + TYPE;
    HasAtSplit(s, p, Column(cSep, name), rest);
    HasAtSplit3(s, p, [cSep], LEAD, tail);
    assert s[p + 1] == LEAD[0] && s[p + 2] == LEAD[1] && s[p + 3] == LEAD[2];
    assert tail == [DQUOTE] + (name + [DQUOTE]) + TYPE;
    HasAtSplit3(s, p + 4, [DQUOTE], name + [DQUOTE], TYPE);
    assert s[p + 4] == [DQUOTE][0] && s[p + 6 + |name|] == TYPE[0];
  }

  /** How the last item of the column list is read, and how one before it is. */
  lemma ReadsColumn(sql: Sql, s: Bytes, p: nat, cSep: Byte, name: Bytes, rest: Bytes, delimiter: Bytes)
    requires Knows(sql) && HasAt(s, p, Column(cSep, name) + rest)
    requires delimiter in {[COMMA], [LF, CLOSE]} && HasAt(rest, 0, delimiter)
    ensures var end := p + 10 + |name| + |delimiter|;
            && p + 4 < end < |s| && SkipSpaces(s, p + 1) == p + 4
            && s[end] == delimiter[|delimiter| - 1] && HasAt(s, p + 11 + |name|, rest)
            && ReadsItem(ReadItem(sql, s, p + 4), name, end)
  {
    var q := p + 5 + |name|;
    ColumnParts(s, p, cSep, name, rest);
    QuotedAsItIs(s, p + 5, name);
    Delimits(s, q + 6, rest, delimiter);
    hide ReadQuoted, HasAt, Column, SkipSpaces;
    assert DQUOTE !in name ==> sql.definition(s, q + 1) == Some(q + 5 + |delimiter|);
  }

  /** The item declares the name, or something else if there is a double quote in it. */
  predicate ReadsItem(r: Option<(seq<Bytes>, nat)>, name: Bytes, end: nat) {
    && (DQUOTE !in name ==> r == Some(([name], end)))
    && (DQUOTE in name && r.Some? ==> |r.value.0| == 1 && r.value.0[0] != name)
  }

  lemma Delimits(s: Bytes, p: nat, rest: Bytes, delimiter: Bytes)
    requires HasAt(s, p, rest) && HasAt(rest, 0, delimiter) && delimiter != []
    ensures HasAt(s, p, delimiter) && p + |delimiter| <= |s|
    ensures s[p + |delimiter| - 1] == delimiter[|delimiter| - 1]
  {
    assert forall i :: 0 <= i < |delimiter| ==> rest[0 + i] == delimiter[i];
    assert delimiter[|delimiter| - 1] == rest[0 + (|delimiter| - 1)];
  }

  /** What follows an item: the next one or the end of the statement. */
  function Delimiter(last: bool): Bytes {
    if last then [LF, CLOSE] else [COMMA]
  }

  lemma RestBegins(names: seq<Bytes>)
    ensures HasAt(Columns(COMMA, names) + [LF, CLOSE], 0, Delimiter(names == []))
  {
    if names != [] {
      assert Column(COMMA, names[0])[0] == COMMA;
    }
  }

  /** One item of the list, and what that says of the whole list. */
  lemma ColumnsFrom(sql: Sql, s: Bytes, p: nat, names: seq<Bytes>, end: nat)
    requires names != [] && p + 4 < end < |s| && SkipSpaces(s, p + 1) == p + 4
    requires s[end] == if |names| == 1 then CLOSE else COMMA
    requires ReadsItem(ReadItem(sql, s, p + 4), names[0], end)
    ensures ReadColumns(sql, s, p) == Some(names) <==>
            DQUOTE !in names[0] && (|names| > 1 ==> ReadColumns(sql, s, end) == Some(names[1..]))
  {
    hide ReadItem, SkipSpaces;
    assert names == [names[0]] + names[1..];
    var all := ReadColumns(sql, s, p);
    if DQUOTE in names[0] {
      assert all.Some? ==> all.value[0] != names[0];
    } else if |names| > 1 {
      var rest := ReadColumns(sql, s, end);
      assert all == if rest.None? then None else Some([names[0]] + rest.value);
      assert rest.Some? ==> all.value[1..] == rest.value;
    } else {
      assert names == [names[0]];
    }
  }

  lemma ListUnfolds(cSep: Byte, names: seq<Bytes>)
    requires names != []
    ensures Columns(cSep, names) + [LF, CLOSE] ==
            Column(cSep, names[0]) + (Columns(COMMA, names[1..]) + [LF, CLOSE])
  {
    hide Column;
    Associative(Column(cSep, names[0]), Columns(COMMA, names[1..]), [LF, CLOSE]);
  }

  /** From any item on: the columns read are the names if and only if none of them has a double quote. */
  lemma {:induction false} ReadsColumns(sql: Sql, s: Bytes, p: nat, cSep: Byte, names: seq<Bytes>)
    requires Knows(sql) && names != [] && HasAt(s, p, Columns(cSep, names) + [LF, CLOSE])
    ensures p < |s| && (ReadColumns(sql, s, p) == Some(names) <==> PlainNames(names))
    decreases |names|
  {
    assert PlainNames(names) <==> DQUOTE !in names[0] && PlainNames(names[1..]);
    hide ReadItem, ReadsItem, SkipSpaces, Columns, Column, HasAt, Knows, ReadColumns, PlainNames;
    var delimiter := Delimiter(|names| == 1);
    var end := p + 10 + |names[0]| + |delimiter|;
    ListUnfolds(cSep, names);
    RestBegins(names[1..]);
    ReadsColumn(sql, s, p, cSep, names[0], Columns(COMMA, names[1..]) + [LF, CLOSE], delimiter);
    ColumnsFrom(sql, s, p, names, end);
    if |names| > 1 {
      ReadsColumns(sql, s, end, COMMA, names[1..]);
    } else {
      NoNames(names[1..]);
    }
  }

  lemma NoNames(names: seq<Bytes>)
    requires names == []
    ensures PlainNames(names)
  {
  }

  /** The column list stands behind the table's name. */
  lemma StatementParts(zTable: Bytes, names: seq<Bytes>)
    ensures HasAt(Statement(zTable, names), |CREATE + zTable|, Columns(OPEN, names) + [LF, CLOSE])
  {
    var head := CREATE + zTable;
    Associative(head, Columns(OPEN, names), [LF, CLOSE]);
    hide Columns;
    assert HasAt(head + (Columns(OPEN, names) + [LF, CLOSE]), 0, head + (Columns(OPEN, names) + [LF, CLOSE]));
    HasAtSplit(Statement(zTable, names), 0, head, Columns(OPEN, names) + [LF, CLOSE]);
  }

  /** The table gets the names as columns if and only if none has a double quote and no two are the same to SQL. */
  lemma CreatedExactly(sql: Sql, zTable: Bytes, names: seq<Bytes>)
    requires Knows(sql) && names != []
    ensures Created(sql, zTable, names) == Some(names) <==> PlainNames(names) && DistinctNames(names)
    ensures PlainNames(names) && !DistinctNames(names) ==> Created(sql, zTable, names) == None
  {
    hide Statement, ReadColumns, Columns, HasAt, Knows, PlainNames, DistinctNames;
    StatementParts(zTable, names);
    ReadsColumns(sql, Statement(zTable, names), |CREATE + zTable|, OPEN, names);
  }

  /** A name that holds the text between two columns. */
  function Spliced(x: Bytes, y: Bytes): Bytes {
    x + [DQUOTE] + TYPE + [COMMA] + LEAD + [DQUOTE] + y
  }

  /** Such a name becomes two columns. */
  lemma SplicedNameSplits(sql: Sql, zTable: Bytes, x: Bytes, y: Bytes)
    requires Knows(sql) && PlainNames([x, y]) && DistinctNames([x, y])
    ensures Created(sql, zTable, [Spliced(x, y)]) == Some([x, y])
  {
    CreatedExactly(sql, zTable, [x, y]);
    SameText(x, y);
    hide Columns, ReadColumns, Spliced, Knows, PlainNames, DistinctNames;
  }

  lemma SameText(x: Bytes, y: Bytes)
    ensures Columns(OPEN, [Spliced(x, y)]) == Columns(OPEN, [x, y])
  {
    assert [Spliced(x, y)][1..] == [] && [x, y][1..] == [y] && [y][1..] == [];
    assert Columns(OPEN, [Spliced(x, y)]) == Column(OPEN, Spliced(x, y));
    assert Columns(COMMA, [y]) == Column(COMMA, y);
    assert Columns(OPEN, [x, y]) == Column(OPEN, x) + Column(COMMA, y);
  }
}
