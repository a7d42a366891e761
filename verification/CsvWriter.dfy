/** CSV output mode: shell.c 744-798 and 973-989. */
module CsvWriter {
  import opened CBytes

  /** The bytes marked 1 in the needCsvQuote table. */
  predicate NeedCsvQuote(b: Byte) {
    b <= 32 || b == DQUOTE || b == SQUOTE || b >= 127
  }

  predicate NeedsQuotes(z: Bytes, sep: Byte) {
    z == [] || exists i :: 0 <= i < |z| && (NeedCsvQuote(z[i]) || z[i] == sep)
  }

  function CsvText(z: Bytes, sep: Byte): Bytes {
    if NeedsQuotes(z, sep) then [DQUOTE] + Doubled(z, DQUOTE) + [DQUOTE] else z
  }

  /** A value is printed as it is if and only if it is not empty and all its bytes are visible ASCII characters other
      than quotes and the separator. */
  lemma PrintedAsItIsExactly(z: Bytes, sep: Byte)
    ensures CsvText(z, sep) == z
       <==> z != [] && forall i :: 0 <= i < |z| ==> 33 <= z[i] <= 126 && z[i] != DQUOTE && z[i] != SQUOTE && z[i] != sep
  {
    DoubledIsNoShorter(z);
    assert NeedsQuotes(z, sep) ==> |CsvText(z, sep)| > |z|;
  }

  lemma DoubledIsNoShorter(z: Bytes)
    ensures |Doubled(z, DQUOTE)| >= |z|
  {
  }

  /** A value of a result row: NULL prints the nullValue setting as it is. */
  function ValueText(v: Option<Bytes>, sep: Byte, nullValue: Bytes): Bytes {
    match v
    case None => nullValue
    case Some(z) => CsvText(z, sep)
  }

  function ValuesText(values: seq<Option<Bytes>>, sep: Byte, nullValue: Bytes): Bytes {
    if values == [] then []
    else if |values| == 1 then ValueText(values[0], sep, nullValue)
    else ValueText(values[0], sep, nullValue) + [sep] + ValuesText(values[1..], sep, nullValue)
  }

  method OutputCsv(v: Option<Bytes>, sep: Byte, nullValue: Bytes, bSep: bool) returns (out: Bytes)
    ensures out == ValueText(v, sep, nullValue) + if bSep then [sep] else []
  {
    match v {
      case None =>
        out := nullValue;
      case Some(z) =>
        var i := 0;
        while i < |z|
          invariant i <= |z|
          invariant forall k :: 0 <= k < i ==> !NeedCsvQuote(z[k]) && z[k] != sep
        {
          if NeedCsvQuote(z[i]) || z[i] == sep {
            assert NeedsQuotes(z, sep);
            i := 0;
            break;
          }
          i := i + 1;
        }
        assert i == 0 <==> NeedsQuotes(z, sep);
        if i == 0 {
          out := [DQUOTE];
          while i < |z|
            invariant i <= |z| && out == [DQUOTE] + Doubled(z[..i], DQUOTE)
          {
            assert z[..i + 1] == z[..i] + [z[i]];
            DoubledAppend(z[..i], [z[i]], DQUOTE);
            if z[i] == DQUOTE {
              out := out + [DQUOTE];
            }
            out := out + [z[i]];
            i := i + 1;
          }
          assert z[..i] == z;
          out := out + [DQUOTE];
        } else {
          out := z;
        }
    }
    if bSep {
      out := out + [sep];
    }
  }

  method OutputValues(values: seq<Option<Bytes>>, sep: Byte, nullValue: Bytes) returns (out: Bytes)
    ensures out == ValuesText(values, sep, nullValue)
  {
    hide ValueText;
    out := [];
    for i := 0 to |values|
      invariant i < |values| ==> out + ValuesText(values[i..], sep, nullValue) == ValuesText(values, sep, nullValue)
      invariant i == |values| ==> out == ValuesText(values, sep, nullValue)
    {
      var cell := OutputCsv(values[i], sep, nullValue, i < |values| - 1);
      ValuesCons(values, i, sep, nullValue);
      Associative(out, cell, ValuesText(values[i + 1..], sep, nullValue));
      out := out + cell;
    }
  }

  lemma ValuesCons(values: seq<Option<Bytes>>, i: nat, sep: Byte, nullValue: Bytes)
    requires i < |values|
    ensures ValuesText(values[i..], sep, nullValue) ==
            ValueText(values[i], sep, nullValue) + (if i < |values| - 1 then [sep] else [])
            + ValuesText(values[i + 1..], sep, nullValue)
  {
    hide ValueText;
    assert values[i..][1..] == values[i + 1..];
  }

  function ColumnValues(names: seq<Bytes>): seq<Option<Bytes>> {
    seq(|names|, i requires 0 <= i < |names| => Some(names[i]))
  }

  /** The bytes one result row adds; a statement without result columns adds none. */
  function RowText(values: seq<Option<Bytes>>, sep: Byte, rowSep: Bytes, nullValue: Bytes): Bytes {
    if values == [] then [] else ValuesText(values, sep, nullValue) + rowSep
  }

  function RowsText(rows: seq<seq<Option<Bytes>>>, sep: Byte, rowSep: Bytes, nullValue: Bytes): Bytes {
    if rows == [] then [] else RowText(rows[0], sep, rowSep, nullValue) + RowsText(rows[1..], sep, rowSep, nullValue)
  }

  lemma RowsTextAppend(rows: seq<seq<Option<Bytes>>>, row: seq<Option<Bytes>>,
                       sep: Byte, rowSep: Bytes, nullValue: Bytes)
    ensures RowsText(rows + [row], sep, rowSep, nullValue) ==
            RowsText(rows, sep, rowSep, nullValue) + RowText(row, sep, rowSep, nullValue)
  {
    if rows == [] {
      assert rows + [row] == [row];
    } else {
      assert (rows + [row])[1..] == rows[1..] + [row];
      RowsTextAppend(rows[1..], row, sep, rowSep, nullValue);
    }
  }

  /** The header line, which is printed with the first row and so not at all without rows. */
  function HeaderText(names: seq<Bytes>, nRow: nat, show: bool, sep: Byte, rowSep: Bytes, nullValue: Bytes): Bytes {
    if show && nRow > 0 then ValuesText(ColumnValues(names), sep, nullValue) + rowSep else []
  }

  lemma NoValues(sep: Byte, nullValue: Bytes)
    ensures ValuesText([], sep, nullValue) == []
  {
  }

  /** The part of the shell state that CSV output uses. */
  class CsvPrinter {
    const colSeparator: Byte
    const rowSeparator: Bytes
    const nullValue: Bytes
    const showHeader: bool
    var cnt: nat
    var out: Bytes

    constructor (colSeparator: Byte, rowSeparator: Bytes, nullValue: Bytes, showHeader: bool)
      ensures this.colSeparator == colSeparator && this.rowSeparator == rowSeparator
      ensures this.nullValue == nullValue && this.showHeader == showHeader
      ensures cnt == 0 && out == []
    {
      this.colSeparator, this.rowSeparator := colSeparator, rowSeparator;
      this.nullValue, this.showHeader := nullValue, showHeader;
      cnt, out := 0, [];
    }

    /** Called once per result row. */
    method Callback(values: seq<Option<Bytes>>, names: seq<Bytes>)
      requires |values| == |names|
      modifies this
      ensures cnt == old(cnt) + 1
      ensures out == old(out)
                     + HeaderText(names, 1, old(cnt) == 0 && showHeader, colSeparator, rowSeparator, nullValue)
                     + RowText(values, colSeparator, rowSeparator, nullValue)
      ensures values == [] ==> out == old(out) + if old(cnt) == 0 && showHeader then rowSeparator else []
    {
      hide ValuesText;
      NoValues(colSeparator, nullValue);
      assert names == [] ==> ColumnValues(names) == [];
      if cnt == 0 && showHeader {
        var header := OutputValues(ColumnValues(names), colSeparator, nullValue);
        out := out + header + rowSeparator;
      }
      cnt := cnt + 1;
      if |values| > 0 {
        var line := OutputValues(values, colSeparator, nullValue);
        out := out + line + rowSeparator;
      }
    }
  }

  lemma ExportedSoFar(names: seq<Bytes>, rows: seq<seq<Option<Bytes>>>, i: nat, show: bool,
                      sep: Byte, rowSep: Bytes, nullValue: Bytes)
    requires i < |rows|
    ensures HeaderText(names, i, show, sep, rowSep, nullValue) + RowsText(rows[..i], sep, rowSep, nullValue)
            + HeaderText(names, 1, i == 0 && show, sep, rowSep, nullValue) + RowText(rows[i], sep, rowSep, nullValue)
            == HeaderText(names, i + 1, show, sep, rowSep, nullValue) + RowsText(rows[..i + 1], sep, rowSep, nullValue)
  {
    assert rows[..i + 1] == rows[..i] + [rows[i]];
    RowsTextAppend(rows[..i], rows[i], sep, rowSep, nullValue);
    var h := HeaderText(names, i, show, sep, rowSep, nullValue);
    var r := RowsText(rows[..i], sep, rowSep, nullValue);
    if i == 0 {
      var h1 := HeaderText(names, 1, show, sep, rowSep, nullValue);
      assert h + r + h1 == h1;
    } else {
      assert h + r + [] == h + r;
      Associative(h, r, RowText(rows[i], sep, rowSep, nullValue));
    }
  }

  /** A query result printed in CSV mode: the callback runs once per row. */
  method Export(names: seq<Bytes>, rows: seq<seq<Option<Bytes>>>, showHeader: bool,
                sep: Byte, rowSep: Bytes, nullValue: Bytes) returns (out: Bytes)
    requires forall i :: 0 <= i < |rows| ==> |rows[i]| == |names|
    ensures out == HeaderText(names, |rows|, showHeader, sep, rowSep, nullValue)
                   + RowsText(rows, sep, rowSep, nullValue)
  {
    var p := new CsvPrinter(sep, rowSep, nullValue, showHeader);
    for i := 0 to |rows|
      invariant p.cnt == i
      invariant p.out == HeaderText(names, i, showHeader, sep, rowSep, nullValue)
                         + RowsText(rows[..i], sep, rowSep, nullValue)
    {
      ExportedSoFar(names, rows, i, showHeader, sep, rowSep, nullValue);
      p.Callback(rows[i], names);
    }
    assert rows[..|rows|] == rows;
    out := p.out;
  }
}
