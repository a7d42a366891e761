/** The CSV reader of the shell's .import command: shell.c 2137-2236. */
module CsvReader {
  import opened CBytes

  /** One call of the reader: the field (None for the null pointer it returns at
      end of file), the byte or EOF that ended it, and where reading goes on. */
  datatype FieldRead = FieldRead(text: Option<Bytes>, term: int, next: nat)

  function Getc(s: Bytes, p: nat): int {
    if p < |s| then s[p] else EOF
  }

  function Advance(s: Bytes, p: nat): nat {
    if p < |s| then p + 1 else p
  }

  function StripCr(t: Bytes): Bytes {
    if t != [] && t[|t| - 1] == CR then t[..|t| - 1] else t
  }

  /** The first column or row separator at or after `p`. */
  function BareEnd(s: Bytes, p: nat, sep: int, row: int): (e: nat)
    requires p <= |s|
    ensures p <= e <= |s|
    ensures forall i :: p <= i < e ==> s[i] != sep && s[i] != row
    ensures e < |s| ==> s[e] == sep || s[e] == row
    decreases |s| - p
  {
    if p == |s| || s[p] == sep || s[p] == row then p else BareEnd(s, p + 1, sep, row)
  }

  /** The text before the last double quote: what the backward strip keeps. */
  function BeforeLastQuote(z: Bytes): (t: Bytes)
    requires DQUOTE in z
    ensures |t| < |z| && t == z[..|t|] && z[|t|] == DQUOTE
    ensures forall i :: |t| < i < |z| ==> z[i] != DQUOTE
  {
    if z[|z| - 1] == DQUOTE then z[..|z| - 1]
    else
      assert z == z[..|z| - 1] + [z[|z| - 1]];
      BeforeLastQuote(z[..|z| - 1])
  }

  /** Whether `c` ends a quoted field whose two preceding bytes were `ppc`, `pc`. */
  predicate Closes(c: int, pc: int, ppc: int, sep: int, row: int) {
    || (c == sep && pc == DQUOTE)
    || (c == row && pc == DQUOTE)
    || (c == row && pc == CR && ppc == DQUOTE)
    || (c == EOF && pc == DQUOTE)
  }

  /** The look-behind variables agree with the end of the accumulated text. */
  predicate LookBehind(z: Bytes, pc: int, ppc: int) {
    && (pc == DQUOTE ==> |z| >= 1 && z[|z| - 1] == DQUOTE)
    && (pc == CR && ppc == DQUOTE ==> |z| >= 2 && z[|z| - 2] == DQUOTE)
  }

  /** Reading the inside of a quoted field from `p` on, `z` being accumulated. */
  function ScanQuoted(s: Bytes, p: nat, sep: int, row: int, z: Bytes, pc: int, ppc: int): (r: FieldRead)
    requires p <= |s| && LookBehind(z, pc, ppc)
    ensures r.text.Some? && p <= r.next <= |s|
    ensures r.term == sep || r.term == row || r.term == EOF
    ensures EOF <= r.term < 256 && (r.term == EOF ==> r.next == |s|)
    ensures r.term != EOF ==> r.next > p && s[r.next - 1] == r.term
    decreases |s| - p
  {
    var c := Getc(s, p);
    if c == DQUOTE && pc == DQUOTE then ScanQuoted(s, p + 1, sep, row, z, 0, ppc)
    else if Closes(c, pc, ppc, sep, row) then FieldRead(Some(BeforeLastQuote(z)), c, Advance(s, p))
    else if c == EOF then FieldRead(Some(z), EOF, p)
    else ScanQuoted(s, p + 1, sep, row, z + [s[p]], c, pc)
  }

  /** What one call of the reader yields on input `s` at position `p`. */
  function ReadField(s: Bytes, p: nat, sep: int, row: int): (r: FieldRead)
    requires p <= |s|
    ensures p <= r.next <= |s| && EOF <= r.term < 256 && (r.term == sep || r.term == row || r.term == EOF)
    ensures r.term == EOF ==> r.next == |s|
    ensures r.term != EOF ==> r.next > p && s[r.next - 1] == r.term
    ensures r.text.None? <==> p == |s|
  {
    if p == |s| then FieldRead(None, EOF, p)
    else if s[p] == DQUOTE then ScanQuoted(s, p + 1, sep, row, [], 0, 0)
    else
      var e := BareEnd(s, p, sep, row);
      var c := Getc(s, e);
      FieldRead(Some(if c == row then StripCr(s[p..e]) else s[p..e]), c, Advance(s, e))
  }

  /** The reader's context: an input stream and the growing field buffer. */
  class ImportCtx {
    const input: Bytes
    const cColSep: int
    const cRowSep: int
    var pos: nat
    var z: array<Byte>
    var n: nat
    var nLine: nat
    var cTerm: int

    /** The line number is 1 plus the row separators read so far. */
    ghost predicate Valid()
      reads this
    {
      && pos <= |input| && n <= z.Length
      && (cRowSep != EOF && cRowSep != DQUOTE ==> nLine == 1 + CountOf(input, 0, pos, cRowSep))
    }

    constructor (input: Bytes, cColSep: int, cRowSep: int)
      ensures Valid() && fresh(z) && z.Length == 0
      ensures this.input == input && this.cColSep == cColSep && this.cRowSep == cRowSep
      ensures pos == 0 && n == 0 && nLine == 1 && cTerm == 0
    {
      this.input, this.cColSep, this.cRowSep := input, cColSep, cRowSep;
      pos, n, nLine, cTerm := 0, 0, 1, 0;
      z := new Byte[0];
    }

    method Fgetc() returns (c: int)
      requires pos <= |input|
      modifies this`pos
      ensures c == Getc(input, old(pos)) && pos == Advance(input, old(pos))
    {
      if pos < |input| {
        c := input[pos];
        pos := pos + 1;
      } else {
        c := EOF;
      }
    }

    /** Appends one byte, growing the buffer so that a terminator still fits. */
    method AppendChar(c: Byte)
      requires n <= z.Length
      modifies this`n, this`z, z
      ensures z == old(z) || fresh(z)
      ensures n == old(n) + 1 && n < z.Length
      ensures z[..n] == old(z[..n]) + [c]
    {
      if n + 1 >= z.Length {
        var old_z := z;
        var bigger := new Byte[z.Length + z.Length + 100];
        for k := 0 to n
          invariant z == old_z && n == old(n) && z[..] == old(z[..])
          invariant bigger[..k] == z[..k]
        {
          bigger[k] := z[k];
        }
        z := bigger;
      }
      z[n] := c;
      n := n + 1;
    }

    /** Drops everything from the last double quote on. */
    method StripToQuote()
      requires n <= z.Length && DQUOTE in z[..n]
      modifies this`n
      ensures n < old(n) && z[..n] == BeforeLastQuote(old(z[..n]))
    {
      ghost var text := z[..n];
      n := n - 1;
      while z[n] != DQUOTE
        invariant 0 <= n < |text|
        invariant forall i :: n < i < |text| ==> text[i] != DQUOTE
        decreases n
      {
        assert exists i :: 0 <= i < |text| && text[i] == DQUOTE;
        n := n - 1;
      }
      var t := BeforeLastQuote(text);
      assert text[n] == DQUOTE && text[|t|] == DQUOTE;
      assert n == |t|;
    }

    /** Reads one field; the buffer is allocated before the first call. */
    method CsvReadOneField() returns (r: Option<Bytes>)
      requires Valid() && z.Length > 0
      modifies this`pos, this`n, this`nLine, this`cTerm, this`z, z
      ensures Valid() && (z == old(z) || fresh(z)) && n < z.Length
      ensures var f := ReadField(input, old(pos), cColSep, cRowSep);
              r == f.text && cTerm == f.term && pos == f.next && (r.Some? ==> z[..n] == r.value && z[n] == NUL)
      ensures old(pos) <= pos
      ensures cRowSep != EOF && cRowSep != DQUOTE ==> nLine == old(nLine) + CountOf(input, old(pos), pos, cRowSep)
    {
      n := 0;
      var start := pos;
      CountAppend(input, 0, start, start, cRowSep);
      var c := Fgetc();
      if c == EOF {
        cTerm := EOF;
        return None;
      }
      if c == DQUOTE {
        ReadQuoted(start);
      } else {
        ReadBare(start, c);
      }
      CountAppend(input, 0, start, pos, cRowSep);
      z[n] := NUL;
      r := Some(z[..n]);
    }

    /** Appends bytes up to the first separator; returns what stopped it. */
    method ReadRun(start: nat, first: Byte, ghost e: nat) returns (c: int)
      requires start < |input| && pos == start + 1 && first == input[start]
      requires n == 0 && z.Length > 0
      requires e == BareEnd(input, start, cColSep, cRowSep)
      modifies this`pos, this`n, this`z, z
      ensures n < z.Length && (z == old(z) || fresh(z))
      ensures z[..n] == input[start..e] && c == Getc(input, e) && pos == Advance(input, e)
    {
      hide CountOf, StripCr;
      c := first;
      ghost var i := start;
      while c != EOF && c != cColSep && c != cRowSep
        invariant start <= i <= e && c == Getc(input, i) && pos == Advance(input, i)
        invariant n < z.Length && (z == old(z) || fresh(z)) && z[..n] == input[start..i]
        decreases e - i
      {
        AppendChar(c);
        c := Fgetc();
        i := i + 1;
      }
    }

    method ReadBare(start: nat, first: Byte)
      requires start < |input| && pos == start + 1 && first == input[start] && first != DQUOTE
      requires n == 0 && z.Length > 0
      modifies this`pos, this`n, this`nLine, this`cTerm, this`z, z
      ensures pos <= |input| && n < z.Length && (z == old(z) || fresh(z))
      ensures FieldRead(Some(z[..n]), cTerm, pos) == ReadField(input, start, cColSep, cRowSep)
      ensures start <= pos
      ensures cRowSep != EOF ==> nLine == old(nLine) + CountOf(input, start, pos, cRowSep)
    {
      ghost var e := BareEnd(input, start, cColSep, cRowSep);
      var c := ReadRun(start, first, e);
      CountNone(input, start, e, cRowSep);
      ghost var text := z[..n];
      if c == cRowSep {
        nLine := nLine + 1;
        if n > 0 && z[n - 1] == CR {
          n := n - 1;
        }
      }
      assert z[..n] == if c == cRowSep then StripCr(text) else text;
      cTerm := c;
    }

    /** The body of the loop over a quoted field. */
    method QuotedByte(pc0: int, ppc0: int) returns (pc: int, ppc: int, done: bool)
      requires pos <= |input| && n < z.Length && LookBehind(z[..n], pc0, ppc0)
      modifies this`pos, this`n, this`nLine, this`cTerm, this`z, z
      ensures pos == Advance(input, old(pos)) && (!done ==> old(pos) < |input|)
      ensures n < z.Length && (z == old(z) || fresh(z))
      ensures nLine == old(nLine) + if Getc(input, old(pos)) == cRowSep then 1 else 0
      ensures var r := ScanQuoted(input, old(pos), cColSep, cRowSep, old(z[..n]), pc0, ppc0);
              if done then r == FieldRead(Some(z[..n]), cTerm, pos)
              else LookBehind(z[..n], pc, ppc) && r == ScanQuoted(input, pos, cColSep, cRowSep, z[..n], pc, ppc)
    {
      hide BeforeLastQuote, CountOf;
      pc, ppc, done := pc0, ppc0, true;
      ghost var text := z[..n];
      ghost var p := pos;
      var c := Fgetc();
      if c == cRowSep {
        nLine := nLine + 1;
      }
      if c == DQUOTE && pc == DQUOTE {
        return 0, ppc, false;
      }
      if || (c == cColSep && pc == DQUOTE)
         || (c == cRowSep && pc == DQUOTE)
         || (c == cRowSep && pc == CR && ppc == DQUOTE)
         || (c == EOF && pc == DQUOTE)
      {
        StripToQuote();
        cTerm := c;
        return;
      }
      if c == EOF {
        cTerm := c;
        return;
      }
      AppendChar(c);
      assert z[..n] == text + [input[p]];
      return c, pc, false;
    }

    method ReadQuoted(start: nat)
      requires start < |input| && pos == start + 1 && input[start] == DQUOTE
      requires n == 0 && z.Length > 0
      modifies this`pos, this`n, this`nLine, this`cTerm, this`z, z
      ensures pos <= |input| && n < z.Length && (z == old(z) || fresh(z))
      ensures FieldRead(Some(z[..n]), cTerm, pos) == ReadField(input, start, cColSep, cRowSep)
      ensures start <= pos
      ensures cRowSep != EOF && cRowSep != DQUOTE ==> nLine == old(nLine) + CountOf(input, start, pos, cRowSep)
    {
      hide CountOf, ScanQuoted;
      var pc: int, ppc: int, done := 0, 0, false;
      ghost var whole := ReadField(input, start, cColSep, cRowSep);
      CountNone(input, start, start, cRowSep);
      CountNext(input, start, start, cRowSep);
      while !done
        invariant start < pos <= |input| && n < z.Length && (z == old(z) || fresh(z))
        invariant if done then whole == FieldRead(Some(z[..n]), cTerm, pos)
                  else LookBehind(z[..n], pc, ppc) && whole == ScanQuoted(input, pos, cColSep, cRowSep, z[..n], pc, ppc)
        invariant cRowSep != EOF && cRowSep != DQUOTE ==> nLine == old(nLine) + CountOf(input, start, pos, cRowSep)
        decreases |input| - pos, !done
      {
        if pos < |input| {
          CountNext(input, start, pos, cRowSep);
        }
        pc, ppc, done := QuotedByte(pc, ppc);
      }
    }
  }
}
