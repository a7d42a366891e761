/** The column layout of .tables: shell.c 3765-3783. */
module TablesLayout {
  import opened CBytes
  import LineReader

  /** The length of the longest name. */
  function MaxLen(names: seq<Bytes>): (m: nat)
    ensures forall k :: 0 <= k < |names| ==> |names[k]| <= m
    ensures names != [] ==> exists k :: 0 <= k < |names| && |names[k]| == m
  {
    if names == [] then 0
    else
      var k, m := |names| - 1, MaxLen(names[..|names| - 1]);
      assert forall i :: 0 <= i < k ==> names[i] == names[..k][i];
      if |names[k]| > m || k == 0 then |names[k]| else m
  }

  function PrintCols(maxlen: nat): (cols: nat)
    ensures cols > 0
  {
    if 80 / (maxlen + 2) < 1 then 1 else 80 / (maxlen + 2)
  }

  function PrintRows(n: nat, cols: nat): nat
    requires cols > 0
  {
    (n + cols - 1) / cols
  }

  function Spaces(n: nat): (s: Bytes)
    ensures |s| == n && forall i :: 0 <= i < n ==> s[i] == SPACE
  {
    seq(n, _ => SPACE)
  }

  /** A name filled up with spaces to the width of a column. */
  function Padded(name: Bytes, width: nat): Bytes {
    name + Spaces(if |name| < width then width - |name| else 0)
  }

  /** Only the first column stands without two spaces before it. */
  function Gap(rows: nat, j: nat): Bytes {
    if j < rows then [] else Spaces(2)
  }

  /** The text of the names at j, j + rows, j + 2 * rows and so on. */
  function LineFrom(names: seq<Bytes>, maxlen: nat, rows: nat, j: nat): Bytes
    requires rows > 0
    decreases |names| - j
  {
    if j >= |names| then []
    else Gap(rows, j) + Padded(names[j], maxlen) + LineFrom(names, maxlen, rows, j + rows)
  }

  /** Which names LineFrom prints, in order. */
  function EntriesFrom(n: nat, rows: nat, j: nat): seq<nat>
    requires rows > 0
    decreases n - j
  {
    if j >= n then [] else [j] + EntriesFrom(n, rows, j + rows)
  }

  function Text(names: seq<Bytes>, maxlen: nat, rows: nat, k: nat): Bytes
    requires k <= rows
  {
    if k == 0 then [] else Text(names, maxlen, rows, k - 1) + LineFrom(names, maxlen, rows, k - 1) + [LF]
  }

  /** The order in which the names of the first k lines are printed. */
  function Order(n: nat, rows: nat, k: nat): seq<nat>
    requires k <= rows
  {
    if k == 0 then [] else Order(n, rows, k - 1) + EntriesFrom(n, rows, k - 1)
  }

  function RowsFor(names: seq<Bytes>): nat {
    PrintRows(|names|, PrintCols(MaxLen(names)))
  }

  function Line(names: seq<Bytes>, i: nat): Bytes
    requires i < RowsFor(names)
  {
    LineFrom(names, MaxLen(names), RowsFor(names), i)
  }

  function Layout(names: seq<Bytes>): Bytes {
    Text(names, MaxLen(names), RowsFor(names), RowsFor(names))
  }

  /** fprintf("%-*s"): the name and spaces up to the width. */
  method PrintPadded(width: nat, z: Bytes) returns (out: Bytes)
    ensures out == Padded(z, width)
  {
    out := z;
    while |out| < width
      invariant |z| <= |out| && (|out| <= width || out == z) && out == z + Spaces(|out| - |z|)
    {
      out := out + [SPACE];
    }
  }

  /** One line: the names at i, i + nPrintRow, ... */
  method PrintLine(azResult: seq<Bytes>, maxlen: nat, nPrintRow: nat, i: nat) returns (out: Bytes)
    requires nPrintRow > 0
    ensures out == LineFrom(azResult, maxlen, nPrintRow, i) + [LF]
  {
    hide Padded;
    out := [];
    var j := i;
    while j < |azResult|
      invariant i <= j && out + LineFrom(azResult, maxlen, nPrintRow, j) == LineFrom(azResult, maxlen, nPrintRow, i)
      decreases |azResult| - j
    {
      var zSp := if j < nPrintRow then [] else [SPACE, SPACE];
      assert zSp == Gap(nPrintRow, j);
      var cell := PrintPadded(maxlen, azResult[j]);
      Associative(out, zSp + cell, LineFrom(azResult, maxlen, nPrintRow, j + nPrintRow));
      Associative(out, zSp, cell);
      out := out + zSp + cell;
      j := j + nPrintRow;
    }
    out := out + [LF];
  }

  method LongestName(azResult: seq<Bytes>) returns (maxlen: nat)
    ensures maxlen == MaxLen(azResult)
  {
    maxlen := 0;
    for i := 0 to |azResult|
      invariant maxlen == MaxLen(azResult[..i])
    {
      assert azResult[..i + 1][..i] == azResult[..i];
      var len := |azResult[i]|;
      if len > maxlen {
        maxlen := len;
      }
    }
    assert azResult[..|azResult|] == azResult;
  }

  method PrintGrid(azResult: seq<Bytes>, maxlen: nat, nPrintRow: nat) returns (out: Bytes)
    ensures out == Text(azResult, maxlen, nPrintRow, nPrintRow)
  {
    hide LineFrom;
    out := [];
    for i := 0 to nPrintRow
      invariant out == Text(azResult, maxlen, nPrintRow, i)
    {
      var line := PrintLine(azResult, maxlen, nPrintRow, i);
      Associative(out, LineFrom(azResult, maxlen, nPrintRow, i), [LF]);
      out := out + line;
    }
  }

  /** No names, no lines. */
  lemma {:induction false} NoNames()
    ensures Layout([]) == []
  {
    assert 80 / 2 == 40;
    assert RowsFor([]) == 0;
  }

  method PrintTables(azResult: seq<Bytes>) returns (out: Bytes)
    ensures out == Layout(azResult)
  {
    hide MaxLen, Text;
    var nRow := |azResult|;
    out := [];
    if nRow > 0 {
      var maxlen := LongestName(azResult);
      var nPrintCol := 80 / (maxlen + 2);
      if nPrintCol < 1 {
        nPrintCol := 1;
      }
      var nPrintRow := (nRow + nPrintCol - 1) / nPrintCol;
      out := PrintGrid(azResult, maxlen, nPrintRow);
    } else {
      NoNames();
    }
  }

  /** a times b, kept apart from the solver's own reasoning about products. */
  function Times(a: nat, b: nat): nat {
    a * b
  }

  lemma TimesNext(a: nat, b: nat)
    ensures Times(a + 1, b) == Times(a, b) + b && Times(0, b) == 0
  {
  }

  lemma TimesGrows(a: nat, c: nat, b: nat)
    requires a <= c
    ensures Times(a, b) <= Times(c, b)
  {
  }

  /** What the rounding up guarantees. */
  lemma RowsSuffice(n: nat, cols: nat)
    requires cols > 0
    ensures n <= Times(cols, PrintRows(n, cols)) < n + cols
  {
  }

  /** There is no line without a name. */
  lemma {:induction false} LinesHaveNames(n: nat, cols: nat, i: nat)
    requires cols > 0 && i < PrintRows(n, cols)
    ensures i < n
  {
    hide PrintRows;
    var rows := PrintRows(n, cols);
    RowsSuffice(n, cols);
    if n <= i {
      Product(cols, rows);
    }
  }

  lemma {:induction false} Product(cols: nat, rows: nat)
    requires cols > 0 && rows > 0
    ensures Times(cols, rows) >= rows - 1 + cols
  {
    hide Times;
    TimesNext(cols - 1, rows);
    if cols > 1 {
      Product(cols - 1, rows);
    }
  }

  lemma {:induction false} EntriesBound(n: nat, rows: nat, j: nat, c: nat)
    requires rows > 0 && j + Times(c, rows) >= n
    ensures |EntriesFrom(n, rows, j)| <= c
    decreases c
  {
    hide Times;
    TimesNext(c, rows);
    if j < n {
      TimesNext(c - 1, rows);
      EntriesBound(n, rows, j + rows, c - 1);
    }
  }

  /** The two roundings together never put more than nPrintCol names in a line. */
  lemma EntriesFit(n: nat, cols: nat, i: nat)
    requires cols > 0 && i < PrintRows(n, cols)
    ensures i < n && 1 <= |EntriesFrom(n, PrintRows(n, cols), i)| <= cols
  {
    hide PrintRows, Times;
    RowsSuffice(n, cols);
    LinesHaveNames(n, cols, i);
    EntriesBound(n, PrintRows(n, cols), i, cols);
  }

  lemma {:induction false} LineWidthFrom(names: seq<Bytes>, maxlen: nat, rows: nat, j: nat)
    requires 0 < rows && maxlen == MaxLen(names)
    ensures |LineFrom(names, maxlen, rows, j)| ==
            Times(|EntriesFrom(|names|, rows, j)|, maxlen + 2) - if j < rows && j < |names| then 2 else 0
    decreases |names| - j
  {
    hide Times, MaxLen;
    if j < |names| {
      LineWidthFrom(names, maxlen, rows, j + rows);
      TimesNext(|EntriesFrom(|names|, rows, j + rows)|, maxlen + 2);
      assert |Padded(names[j], maxlen)| == maxlen;
    } else {
      TimesNext(0, maxlen + 2);
    }
  }

  /** Every line is as wide as its columns, with two spaces between them. */
  lemma LineWidth(names: seq<Bytes>, i: nat)
    requires i < RowsFor(names)
    ensures |EntriesFrom(|names|, RowsFor(names), i)| <= PrintCols(MaxLen(names))
    ensures |Line(names, i)| == Times(|EntriesFrom(|names|, RowsFor(names), i)|, MaxLen(names) + 2) - 2
  {
    hide PrintRows, PrintCols, Times, MaxLen, LineFrom, EntriesFrom;
    EntriesFit(|names|, PrintCols(MaxLen(names)), i);
    LineWidthFrom(names, MaxLen(names), RowsFor(names), i);
  }

  lemma ColumnsFit(maxlen: nat)
    requires maxlen <= 78
    ensures Times(PrintCols(maxlen), maxlen + 2) <= 80
  {
  }

  lemma WideNameAlone(names: seq<Bytes>)
    requires names != [] && MaxLen(names) > 78
    ensures RowsFor(names) > 0 && |Line(names, 0)| > 78
  {
    hide MaxLen, LineFrom, EntriesFrom, Times;
    var m := MaxLen(names);
    assert PrintCols(m) == 1 by {
      assert 80 / (m + 2) == 0;
    }
    LineWidth(names, 0);
    EntriesFit(|names|, 1, 0);
    TimesNext(0, m + 2);
  }

  /** No line is wider than 78 characters exactly when no name is. */
  lemma {:induction false} LinesFitExactly(names: seq<Bytes>)
    requires names != []
    ensures (forall i: nat :: i < RowsFor(names) ==> |Line(names, i)| <= 78) <==> MaxLen(names) <= 78
  {
    hide MaxLen, Line, EntriesFrom, Times, RowsFor, PrintCols;
    var m := MaxLen(names);
    if m <= 78 {
      forall i: nat | i < RowsFor(names)
        ensures |Line(names, i)| <= 78
      {
        LineWidth(names, i);
        TimesGrows(|EntriesFrom(|names|, RowsFor(names), i)|, PrintCols(m), m + 2);
        ColumnsFit(m);
      }
    } else {
      WideNameAlone(names);
    }
  }

  /** Which line name j stands in: j modulo the number of lines. */
  function LineOf(j: nat, rows: nat): (i: nat)
    requires rows > 0
    ensures i < rows && i <= j
  {
    if j < rows then j else LineOf(j - rows, rows)
  }

  /** Which column name j stands in: j divided by the number of lines. */
  function ColumnOf(j: nat, rows: nat): nat
    requires rows > 0
  {
    if j < rows then 0 else 1 + ColumnOf(j - rows, rows)
  }

  lemma {:induction false} LineAndColumn(j: nat, rows: nat)
    requires rows > 0
    ensures j == LineOf(j, rows) + Times(ColumnOf(j, rows), rows)
  {
    hide Times;
    TimesNext(ColumnOf(j, rows) - if j < rows then 0 else 1, rows);
    if j >= rows {
      LineAndColumn(j - rows, rows);
    }
  }

  lemma {:induction false} LineOfBetween(j: nat, k: nat, rows: nat)
    requires rows > 0 && j < k < j + rows
    ensures LineOf(j, rows) != LineOf(k, rows)
  {
    if j >= rows {
      LineOfBetween(j - rows, k - rows, rows);
    }
  }

  lemma CountFirst(j: nat, rest: seq<nat>, k: nat)
    ensures multiset([j] + rest)[k] == multiset(rest)[k] + if j == k then 1 else 0
  {
  }

  lemma {:induction false} EntriesOnce(n: nat, rows: nat, j: nat, k: nat)
    requires rows > 0
    ensures multiset(EntriesFrom(n, rows, j))[k] == if j <= k < n && LineOf(k, rows) == LineOf(j, rows) then 1 else 0
    decreases n - j
  {
    if j < n {
      assert LineOf(j + rows, rows) == LineOf(j, rows);
      hide LineOf;
      EntriesOnce(n, rows, j + rows, k);
      CountFirst(j, EntriesFrom(n, rows, j + rows), k);
      if j < k < j + rows {
        LineOfBetween(j, k, rows);
      }
    }
  }

  lemma {:induction false} OrderOnce(n: nat, rows: nat, k: nat, j: nat)
    requires k <= rows && rows > 0
    ensures multiset(Order(n, rows, k))[j] == if j < n && LineOf(j, rows) < k then 1 else 0
  {
    if k > 0 {
      assert LineOf(k - 1, rows) == k - 1;
      hide LineOf, EntriesFrom;
      OrderOnce(n, rows, k - 1, j);
      EntriesOnce(n, rows, k - 1, j);
    }
  }

  /** Every name is printed exactly once, and nothing else is. */
  lemma {:induction false} EachNameOnce(names: seq<Bytes>, j: nat)
    requires names != []
    ensures multiset(Order(|names|, RowsFor(names), RowsFor(names)))[j] == if j < |names| then 1 else 0
  {
    hide LineOf, Order, PrintRows, Times, PrintCols, MaxLen;
    RowsSuffice(|names|, PrintCols(MaxLen(names)));
    TimesZero(PrintCols(MaxLen(names)));
    OrderOnce(|names|, RowsFor(names), RowsFor(names), j);
  }

  lemma TimesZero(a: nat)
    ensures Times(a, 0) == 0
  {
  }

  /** A cell of a line: the gap before it, if it is not the first, and the name filled up with spaces. */
  function CellText(names: seq<Bytes>, maxlen: nat, rows: nat, j: nat): Bytes
    requires j < |names|
  {
    Gap(rows, j) + Padded(names[j], maxlen)
  }

  lemma CellLength(names: seq<Bytes>, rows: nat, j: nat)
    requires j < |names|
    ensures |CellText(names, MaxLen(names), rows, j)| == MaxLen(names) + if j < rows then 0 else 2
  {
    hide MaxLen;
    PaddedLength(names, j);
  }

  /** Column-major: name i + c * rows is entry c of line i, and its cell ends where column c does. */
  lemma {:induction false} NamesArePlaced(names: seq<Bytes>, maxlen: nat, rows: nat, i: nat, c: nat)
    requires 0 < rows && maxlen == MaxLen(names)
    requires i + Times(c, rows) < |names|
    ensures var j := i + Times(c, rows);
            var end := Times(c + 1, maxlen + 2) - if i < rows then 2 else 0;
            && end >= |CellText(names, maxlen, rows, j)|
            && HasAt(LineFrom(names, maxlen, rows, i), end - |CellText(names, maxlen, rows, j)|,
                     CellText(names, maxlen, rows, j))
    decreases c
  {
    hide Times, MaxLen, Padded, HasAt, CellText;
    TimesNext(0, rows);
    TimesNext(0, maxlen + 2);
    CellLength(names, rows, i);
    if c > 0 {
      var j := i + Times(c, rows);
      TimesNext(c - 1, rows);
      TimesNext(c, maxlen + 2);
      TimesNext(c - 1, maxlen + 2);
      NamesArePlaced(names, maxlen, rows, i + rows, c - 1);
      CellLength(names, rows, j);
      LineCons(names, maxlen, rows, i);
      HasAtLater(LineFrom(names, maxlen, rows, i + rows), Times(c, maxlen + 2) - |CellText(names, maxlen, rows, j)|,
                 CellText(names, maxlen, rows, j), CellText(names, maxlen, rows, i));
    } else {
      LineCons(names, maxlen, rows, i);
      HasAtHere([], CellText(names, maxlen, rows, i), LineFrom(names, maxlen, rows, i + rows));
      assert [] + CellText(names, maxlen, rows, i) == CellText(names, maxlen, rows, i);
    }
  }

  lemma LineCons(names: seq<Bytes>, maxlen: nat, rows: nat, i: nat)
    requires 0 < rows && i < |names|
    ensures LineFrom(names, maxlen, rows, i) ==
            CellText(names, maxlen, rows, i) + LineFrom(names, maxlen, rows, i + rows)
  {
    hide Padded, Gap;
  }

  lemma PaddedLength(names: seq<Bytes>, i: nat)
    requires i < |names|
    ensures |Padded(names[i], MaxLen(names))| == MaxLen(names)
  {
  }

  lemma HasAtLater(s: Bytes, p: nat, x: Bytes, before: Bytes)
    requires HasAt(s, p, x)
    ensures HasAt(before + s, |before| + p, x)
  {
  }

  lemma HasAtHere(before: Bytes, x: Bytes, after: Bytes)
    ensures HasAt(before + x + after, |before|, x)
  {
    assert forall i {:trigger x[i]} :: 0 <= i < |x| ==> (before + x)[|before| + i] == x[i];
  }

  /** Entry c of a line is name i + c * rows, as long as there is one. */
  lemma {:induction false} EntryAt(n: nat, rows: nat, i: nat, c: nat)
    requires rows > 0
    ensures c < |EntriesFrom(n, rows, i)| <==> i + Times(c, rows) < n
    ensures c < |EntriesFrom(n, rows, i)| ==> EntriesFrom(n, rows, i)[c] == i + Times(c, rows)
    decreases c
  {
    hide Times;
    TimesNext(0, rows);
    if c > 0 {
      TimesNext(c - 1, rows);
      if i < n {
        EntryAt(n, rows, i + rows, c - 1);
      }
    }
  }

  /** The name at the start of column c of a line, the spaces that fill the column, and the two before it. */
  predicate Cell(line: Bytes, name: Bytes, width: nat, c: nat) {
    && |name| <= width && HasAt(line, Times(c, width + 2), name)
    && HasAt(line, Times(c, width + 2) + |name|, Spaces(width - |name|))
    && (c > 0 ==> Times(c, width + 2) >= 2 && HasAt(line, Times(c, width + 2) - 2, Spaces(2)))
  }

  lemma CellParts(line: Bytes, names: seq<Bytes>, rows: nat, j: nat, c: nat)
    requires j < |names| && (j < rows <==> c == 0)
    requires var text := CellText(names, MaxLen(names), rows, j);
             var end := Times(c + 1, MaxLen(names) + 2) - 2;
             end >= |text| && HasAt(line, end - |text|, text)
    ensures Cell(line, names[j], MaxLen(names), c)
  {
    hide Times, HasAt, MaxLen;
    var w := MaxLen(names);
    TimesNext(c, w + 2);
    CellLength(names, rows, j);
    NotLonger(names, j);
    var name, fill := names[j], Spaces(w - |names[j]|);
    var at := Times(c, w + 2) - |Gap(rows, j)|;
    assert CellText(names, w, rows, j) == Gap(rows, j) + (name + fill);
    HasAtSplit(line, at, Gap(rows, j), name + fill);
    HasAtSplit(line, Times(c, w + 2), name, fill);
  }

  lemma NotLonger(names: seq<Bytes>, j: nat)
    requires j < |names|
    ensures |names[j]| <= MaxLen(names)
  {
  }

  /** Entry c of line i, byte by byte. */
  lemma LineCell(names: seq<Bytes>, i: nat, c: nat)
    requires i < RowsFor(names) && c < |EntriesFrom(|names|, RowsFor(names), i)|
    ensures i + Times(c, RowsFor(names)) < |names|
    ensures Cell(Line(names, i), names[i + Times(c, RowsFor(names))], MaxLen(names), c)
  {
    hide Times, HasAt, MaxLen, PrintRows, PrintCols, LineFrom, EntriesFrom, CellText, Cell;
    var rows := RowsFor(names);
    EntryAt(|names|, rows, i, c);
    NamesArePlaced(names, MaxLen(names), rows, i, c);
    ColumnStarts(i, c, rows);
    CellParts(Line(names, i), names, rows, i + Times(c, rows), c);
  }

  lemma ColumnStarts(i: nat, c: nat, rows: nat)
    requires i < rows
    ensures i + Times(c, rows) < rows <==> c == 0
  {
    hide Times;
    TimesNext(0, rows);
    if c > 0 {
      TimesNext(c - 1, rows);
    }
  }

  // ------------------------------------------------------------ the printed text

  /** A text cut at its line breaks. */
  function Cut(s: Bytes, p: nat): seq<Bytes>
    requires p <= |s|
    decreases |s| - p
  {
    if p == |s| then [] else [s[p..LineReader.LineEnd(s, p)]] + Cut(s, LineReader.NextLine(s, p))
  }

  predicate NoLineBreaks(names: seq<Bytes>) {
    forall j :: 0 <= j < |names| ==> LF !in names[j]
  }

  lemma CellHasNoLf(names: seq<Bytes>, maxlen: nat, rows: nat, j: nat)
    requires j < |names| && NoLineBreaks(names)
    ensures LF !in CellText(names, maxlen, rows, j)
  {
    assert LF !in Gap(rows, j) && LF !in names[j];
  }

  lemma {:induction false} LineHasNoLf(names: seq<Bytes>, maxlen: nat, rows: nat, i: nat)
    requires rows > 0 && NoLineBreaks(names)
    ensures LF !in LineFrom(names, maxlen, rows, i)
    decreases |names| - i
  {
    hide CellText;
    if i < |names| {
      CellHasNoLf(names, maxlen, rows, i);
      LineCons(names, maxlen, rows, i);
      LineHasNoLf(names, maxlen, rows, i + rows);
    }
  }

  /** The text of the lines from k on. */
  function TextFrom(names: seq<Bytes>, maxlen: nat, rows: nat, k: nat): Bytes
    requires k <= rows
    decreases rows - k
  {
    if k == rows then [] else LineFrom(names, maxlen, rows, k) + [LF] + TextFrom(names, maxlen, rows, k + 1)
  }

  lemma {:induction false} TextJoins(names: seq<Bytes>, maxlen: nat, rows: nat, k: nat)
    requires k <= rows
    ensures Text(names, maxlen, rows, k) + TextFrom(names, maxlen, rows, k) == Text(names, maxlen, rows, rows)
    decreases rows - k
  {
    hide LineFrom;
    if k < rows {
      TextJoins(names, maxlen, rows, k + 1);
      Associative(Text(names, maxlen, rows, k), LineFrom(names, maxlen, rows, k) + [LF],
                  TextFrom(names, maxlen, rows, k + 1));
      Associative(Text(names, maxlen, rows, k), LineFrom(names, maxlen, rows, k), [LF]);
    }
  }

  lemma CutsLine(s: Bytes, p: nat, line: Bytes, rest: Bytes)
    requires HasAt(s, p, line + [LF] + rest) && LF !in line
    ensures p < |s| && HasAt(s, p + |line| + 1, rest) && p + |line| + 1 <= |s|
    ensures Cut(s, p) == [line] + Cut(s, p + |line| + 1)
  {
    HasAtSplit3(s, p, line, [LF], rest);
    assert s[p + |line|] == [LF][0];
    assert forall i :: p <= i < p + |line| ==> s[i] == line[i - p];
    assert s[p..p + |line|] == line;
  }

  lemma {:induction false} CutFrom(s: Bytes, p: nat, names: seq<Bytes>, maxlen: nat, rows: nat, k: nat)
    requires k <= rows && NoLineBreaks(names)
    requires HasAt(s, p, TextFrom(names, maxlen, rows, k)) && p + |TextFrom(names, maxlen, rows, k)| == |s|
    ensures |Cut(s, p)| == rows - k
    ensures forall i :: k <= i < rows ==> Cut(s, p)[i - k] == LineFrom(names, maxlen, rows, i)
    decreases rows - k
  {
    hide LineFrom, HasAt, NoLineBreaks, Cut;
    if k < rows {
      var line := LineFrom(names, maxlen, rows, k);
      var q := p + |line| + 1;
      LineHasNoLf(names, maxlen, rows, k);
      CutsLine(s, p, line, TextFrom(names, maxlen, rows, k + 1));
      CutFrom(s, q, names, maxlen, rows, k + 1);
      hide TextFrom;
      forall i | k < i < rows
        ensures Cut(s, p)[i - k] == LineFrom(names, maxlen, rows, i)
      {
        assert Cut(s, p)[i - k] == Cut(s, q)[i - (k + 1)];
      }
    } else {
      NothingLeft(s, p, names, maxlen, rows);
    }
  }

  lemma NothingLeft(s: Bytes, p: nat, names: seq<Bytes>, maxlen: nat, rows: nat)
    requires p + |TextFrom(names, maxlen, rows, rows)| == |s|
    ensures p == |s| && Cut(s, p) == []
  {
  }

  /** Cut at its line breaks, what is printed is the lines, from the first to the last. */
  lemma PrintedLines(names: seq<Bytes>)
    requires NoLineBreaks(names)
    ensures |Cut(Layout(names), 0)| == RowsFor(names)
    ensures forall i :: 0 <= i < RowsFor(names) ==> Cut(Layout(names), 0)[i] == Line(names, i)
  {
    hide LineFrom, MaxLen, PrintRows, PrintCols, NoLineBreaks, TextFrom, Text, Cut;
    var rows := RowsFor(names);
    TextJoins(names, MaxLen(names), rows, 0);
    NothingYet(names, rows);
    HasAtHere([], Layout(names), []);
    assert [] + Layout(names) + [] == Layout(names);
    CutFrom(Layout(names), 0, names, MaxLen(names), rows, 0);
  }

  lemma NothingYet(names: seq<Bytes>, rows: nat)
    ensures Text(names, MaxLen(names), rows, 0) + TextFrom(names, MaxLen(names), rows, 0)
            == TextFrom(names, MaxLen(names), rows, 0)
  {
    hide MaxLen, TextFrom;
  }

  /** The bytes of the printed lines: line i has name i + c * rows in column c, as long as there is one, filled up
      with spaces, two spaces between the columns, and nothing else. */
  lemma PrintedExactly(names: seq<Bytes>, i: nat)
    requires NoLineBreaks(names) && i < |Cut(Layout(names), 0)|
    ensures var line, rows, w := Cut(Layout(names), 0)[i], |Cut(Layout(names), 0)|, MaxLen(names);
            var entries := |EntriesFrom(|names|, rows, i)|;
            && (forall c: nat :: c < entries <==> i + Times(c, rows) < |names|)
            && |line| == Times(entries, w + 2) - 2
            && forall c: nat :: c < entries ==> Cell(line, names[i + Times(c, rows)], w, c)
  {
    hide Times, MaxLen, PrintRows, PrintCols, LineFrom, EntriesFrom, Cell, Cut, NoLineBreaks, Layout;
    PrintedLines(names);
    var rows := RowsFor(names);
    LineWidth(names, i);
    forall c: nat
      ensures c < |EntriesFrom(|names|, rows, i)| <==> i + Times(c, rows) < |names|
    {
      EntryAt(|names|, rows, i, c);
    }
    forall c: nat | c < |EntriesFrom(|names|, rows, i)|
      ensures Cell(Line(names, i), names[i + Times(c, rows)], MaxLen(names), c)
    {
      LineCell(names, i, c);
    }
  }

  /** No printed line is wider than 78 characters exactly when no name is. */
  lemma PrintedFitsExactly(names: seq<Bytes>)
    requires NoLineBreaks(names)
    ensures (forall i :: 0 <= i < |Cut(Layout(names), 0)| ==> |Cut(Layout(names), 0)[i]| <= 78)
       <==> forall j :: 0 <= j < |names| ==> |names[j]| <= 78
  {
    hide Times, PrintRows, PrintCols, LineFrom, EntriesFrom, Cut, NoLineBreaks, Layout;
    PrintedLines(names);
    if names == [] {
      NoNames();
      NothingToCut();
    } else {
      LinesFitExactly(names);
    }
  }

  lemma NothingToCut()
    ensures Cut([], 0) == []
  {
  }

  /** Which name stands in column c of line i. */
  function NameAt(i: nat, c: nat, rows: nat): nat {
    i + Times(c, rows)
  }

  /** Every name is printed in exactly one place: line j modulo the lines, column j divided by them. */
  lemma NamePlaced(names: seq<Bytes>, j: nat)
    requires NoLineBreaks(names) && j < |names|
    ensures var rows := |Cut(Layout(names), 0)|;
            && rows > 0 && LineOf(j, rows) < rows
            && Cell(Cut(Layout(names), 0)[LineOf(j, rows)], names[j], MaxLen(names), ColumnOf(j, rows))
            && forall i: nat, c: nat ::
                 i < rows && NameAt(i, c, rows) == j ==> i == LineOf(j, rows) && c == ColumnOf(j, rows)
  {
    hide PrintRows, PrintCols, MaxLen, Times, LineOf, ColumnOf, EntriesFrom, HasAt, Cell, Cut, Layout, NoLineBreaks;
    PrintedLines(names);
    RowsSuffice(|names|, PrintCols(MaxLen(names)));
    TimesZero(PrintCols(MaxLen(names)));
    var rows := RowsFor(names);
    LineAndColumn(j, rows);
    EntryAt(|names|, rows, LineOf(j, rows), ColumnOf(j, rows));
    LineCell(names, LineOf(j, rows), ColumnOf(j, rows));
    forall i: nat, c: nat | i < rows && NameAt(i, c, rows) == j
      ensures i == LineOf(j, rows) && c == ColumnOf(j, rows)
    {
      OnePlace(i, c, rows);
    }
  }

  lemma {:induction false} OnePlace(i: nat, c: nat, rows: nat)
    requires i < rows
    ensures LineOf(i + Times(c, rows), rows) == i && ColumnOf(i + Times(c, rows), rows) == c
    decreases c
  {
    hide Times;
    TimesNext(0, rows);
    if c > 0 {
      TimesNext(c - 1, rows);
      OnePlace(i, c - 1, rows);
    }
  }

  /** As many columns as 80 characters hold, one at least, and no more lines than those columns make necessary. */
  lemma LinesAreFewest(names: seq<Bytes>)
    requires NoLineBreaks(names) && names != []
    ensures var cols, lines, w := PrintCols(MaxLen(names)), |Cut(Layout(names), 0)|, MaxLen(names);
            && 80 < Times(cols + 1, w + 2) && (cols == 1 || Times(cols, w + 2) <= 80)
            && lines > 0 && Times(lines - 1, cols) < |names| <= Times(lines, cols)
  {
    hide MaxLen, LineFrom, Cut, NoLineBreaks, Layout;
    PrintedLines(names);
    ColumnsAreMost(MaxLen(names));
    hide PrintCols;
    RowsAreFewest(|names|, PrintCols(MaxLen(names)));
  }

  lemma ColumnsAreMost(w: nat)
    ensures 80 < Times(PrintCols(w) + 1, w + 2) && (PrintCols(w) == 1 || Times(PrintCols(w), w + 2) <= 80)
  {
    var q := 80 / (w + 2);
    assert q * (w + 2) <= 80 < q * (w + 2) + (w + 2);
    assert (q + 1) * (w + 2) == q * (w + 2) + (w + 2);
  }

  lemma RowsAreFewest(n: nat, cols: nat)
    requires n > 0 && cols > 0
    ensures PrintRows(n, cols) > 0 && Times(PrintRows(n, cols) - 1, cols) < n <= Times(PrintRows(n, cols), cols)
  {
    var q := PrintRows(n, cols);
    assert q * cols <= n + cols - 1 < q * cols + cols;
    assert (q - 1) * cols == q * cols - cols;
  }
}
