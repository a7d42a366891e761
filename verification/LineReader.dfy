/** The chunked line reader local_getline: shell.c 435-471. */
module LineReader {
  import opened CBytes
  import opened CStrings

  function LineEnd(s: Bytes, p: nat): (e: nat)
    requires p <= |s|
    ensures p <= e <= |s| && (e < |s| ==> s[e] == LF)
    ensures forall i :: p <= i < e ==> s[i] != LF
    decreases |s| - p
  {
    if p == |s| || s[p] == LF then p else LineEnd(s, p + 1)
  }

  /** The text of the line at p: one CR before its LF is dropped, none at end of file. */
  function LineText(s: Bytes, p: nat): Bytes
    requires p <= |s|
  {
    var e := LineEnd(s, p);
    if e < |s| && e > p && s[e - 1] == CR then s[p..e - 1] else s[p..e]
  }

  function NextLine(s: Bytes, p: nat): (q: nat)
    requires p <= |s|
    ensures p <= q <= |s| && (p < |s| ==> p < q)
  {
    var e := LineEnd(s, p);
    if e < |s| then e + 1 else e
  }

  /** All the lines from p on. */
  function Lines(s: Bytes, p: nat): seq<Bytes>
    requires p <= |s|
    decreases |s| - p
  {
    if p == |s| then [] else [LineText(s, p)] + Lines(s, NextLine(s, p))
  }

  /** A text line as written: its text and its line break, CRLF or LF. */
  datatype TextLine = TextLine(text: Bytes, crlf: bool)

  predicate TextLineOk(t: TextLine) {
    LF !in t.text && (!t.crlf && t.text != [] ==> t.text[|t.text| - 1] != CR)
  }

  function Written(lines: seq<TextLine>, last: Bytes): Bytes {
    if lines == [] then last
    else lines[0].text + (if lines[0].crlf then [CR, LF] else [LF]) + Written(lines[1..], last)
  }

  function TextsOf(lines: seq<TextLine>): seq<Bytes> {
    if lines == [] then [] else [lines[0].text] + TextsOf(lines[1..])
  }

  lemma ReadsTextLine(s: Bytes, p: nat, t: TextLine)
    requires TextLineOk(t)
    requires HasAt(s, p, t.text + if t.crlf then [CR, LF] else [LF])
    ensures LineText(s, p) == t.text
    ensures NextLine(s, p) == p + |t.text| + (if t.crlf then 2 else 1)
  {
    var eol := if t.crlf then [CR, LF] else [LF];
    HasAtSplit(s, p, t.text, eol);
    var q := p + |t.text|;
    assert s[q] == eol[0];
    assert forall i :: p <= i < q ==> s[i] == t.text[i - p];
    assert s[p..q] == t.text;
    if t.crlf {
      assert s[q + 1] == eol[1];
    }
  }

  /** A line comes back as written exactly when it is no lone-LF line ending in CR. */
  lemma TextLineExact(s: Bytes, p: nat, t: TextLine)
    requires LF !in t.text && HasAt(s, p, t.text + if t.crlf then [CR, LF] else [LF])
    ensures LineText(s, p) == t.text <==> TextLineOk(t)
  {
    if TextLineOk(t) {
      ReadsTextLine(s, p, t);
    } else {
      var q := p + |t.text|;
      HasAtSplit(s, p, t.text, [LF]);
      assert s[q] == [LF][0] && s[q - 1] == t.text[|t.text| - 1];
      assert forall i :: p <= i < q ==> s[i] == t.text[i - p];
    }
  }

  /** The last line has no line break and keeps every byte. */
  lemma LastLine(s: Bytes, p: nat, last: Bytes)
    requires LF !in last && HasAt(s, p, last) && p + |last| == |s|
    ensures Lines(s, p) == if last == [] then [] else [last]
  {
    assert forall i :: p <= i < |s| ==> s[i] == last[i - p];
    if last != [] {
      assert s[p..|s|] == last;
    }
  }

  /** A written text is read back line by line. A line ended by a lone LF must not
      end in CR itself; a last line without line break keeps every byte. */
  lemma {:induction false} LinesOfText(s: Bytes, p: nat, lines: seq<TextLine>, last: Bytes)
    requires forall i :: 0 <= i < |lines| ==> TextLineOk(lines[i])
    requires LF !in last
    requires HasAt(s, p, Written(lines, last)) && p + |Written(lines, last)| == |s|
    ensures Lines(s, p) == TextsOf(lines) + if last == [] then [] else [last]
    decreases |lines|
  {
    hide HasAt, TextLineOk, LineText, NextLine;
    if lines == [] {
      LastLine(s, p, last);
    } else {
      var t := lines[0];
      var head := t.text + if t.crlf then [CR, LF] else [LF];
      HasAtSplit(s, p, head, Written(lines[1..], last));
      ReadsTextLine(s, p, t);
      LinesOfText(s, p + |head|, lines[1..], last);
      Associative([t.text], TextsOf(lines[1..]), if last == [] then [] else [last]);
    }
  }

  /** An input stream without NUL bytes. */
  class InputFile {
    const data: Bytes
    var pos: nat

    constructor (data: Bytes)
      ensures this.data == data && pos == 0
    {
      this.data, pos := data, 0;
    }

    /** Reads at most size - 1 bytes, up to and including the first LF, and terminates them. */
    method Fgets(a: array<Byte>, at: nat, size: nat) returns (got: bool)
      requires pos <= |data| && size >= 2 && at + size <= a.Length
      modifies this`pos, a
      ensures got <==> old(pos) < |data|
      ensures old(pos) <= pos <= |data| && pos - old(pos) < size && (got ==> old(pos) < pos)
      ensures forall i :: old(pos) <= i < pos - 1 ==> data[i] != LF
      ensures got ==> Holds(a, at, data[old(pos)..pos])
      ensures forall k :: 0 <= k < at ==> a[k] == old(a[k])
    {
      got := pos < |data|;
      if !got {
        return;
      }
      var i := 0;
      ghost var p := pos;
      var stop := false;
      while !stop && i < size - 1 && pos < |data|
        invariant i <= size - 1 && p <= pos == p + i <= |data| && (i == 0 ==> !stop)
        invariant forall k :: p <= k < pos ==> a[at + (k - p)] == data[k]
        invariant forall k :: 0 <= k < at ==> a[k] == old(a[k])
        invariant forall k :: p <= k < pos - 1 ==> data[k] != LF
        invariant i > 0 ==> (stop <==> data[pos - 1] == LF)
        decreases size - i, !stop
      {
        a[at + i] := data[pos];
        stop := data[pos] == LF;
        i, pos := i + 1, pos + 1;
      }
      a[at + i] := NUL;
    }

    /** The first n bytes of the buffer are the input from p on, with no LF among them. */
    ghost predicate Gathered(a: array?<Byte>, n: nat, p: nat)
      reads a
    {
      && p + n <= |data| && (n > 0 ==> a != null && n <= a.Length)
      && forall k :: p <= k < p + n ==> a[k - p] == data[k] && data[k] != LF
    }

    /** One call of fgets and the scan over what it stored. */
    method ReadChunk(a: array<Byte>, n0: nat, size: nat, ghost p: nat) returns (n: nat, got: bool, ended: bool)
      requires NulFree(data) && pos == p + n0 <= |data|
      requires size >= 2 && n0 + size <= a.Length && Gathered(a, n0, p)
      modifies this`pos, a
      ensures pos == p + n <= |data| && n < n0 + size
      ensures got <==> old(pos) < |data|
      ensures got ==> n0 < n && a[n] == NUL
      ensures !got ==> n == n0 && !ended && Gathered(a, n, p)
      ensures ended ==> n > 0 && Gathered(a, n - 1, p) && data[pos - 1] == LF && a[n - 1] == LF
      ensures got && !ended ==> Gathered(a, n, p) && a[n - 1] != LF
    {
      n, ended := n0, false;
      ghost var q := pos;
      got := Fgets(a, n0, size);
      if got {
        ghost var chunk := data[q..pos];
        var stored := CLength(a, n0, chunk);
        n := n + stored;
        assert forall k :: q <= k < pos ==> data[k] == chunk[k - q];
        assert a[n - 1] == chunk[|chunk| - 1];
        ended := a[n - 1] == LF;
      }
    }

    /** Reads one line into the prior buffer or a new one; null at end of file.
        The result's first bytes are the line as a C string. */
    method LocalGetline(zPrior: array?<Byte>) returns (zLine: array?<Byte>)
      requires NulFree(data) && pos <= |data|
      requires zPrior != null ==> zPrior.Length >= 100
      modifies this`pos, zPrior
      ensures zLine == null <==> old(pos) == |data|
      ensures pos == NextLine(data, old(pos))
      ensures zLine != null ==> zLine.Length >= 100 && Holds(zLine, 0, LineText(data, old(pos)))
      ensures zLine == null || zLine == zPrior || fresh(zLine)
    {
      var nLine: nat := if zPrior == null then 0 else 100;
      zLine := zPrior;
      var n: nat := 0;
      ghost var p := pos;
      while true
        invariant p <= pos <= |data| && n == pos - p && Gathered(zLine, n, p)
        invariant zLine == zPrior || fresh(zLine)
        invariant nLine > 0 ==> nLine >= 100 && zLine != null && nLine <= zLine.Length
        invariant n <= nLine
        decreases |data| - pos
      {
        if n + 100 > nLine {
          nLine := nLine * 2 + 100;
          zLine := Grow(zLine, n, nLine);
        }
        var got, ended;
        n, got, ended := ReadChunk(zLine, n, nLine - n, p);
        if !got {
          if n == 0 {
            return null;
          }
          zLine[n] := NUL;
          break;
        }
        if ended {
          zLine := Chomp(zLine, n, p);
          break;
        }
      }
    }

    /** Drops the LF and a CR before it. */
    method Chomp(a: array<Byte>, n0: nat, ghost p: nat) returns (z: array<Byte>)
      requires 0 < n0 < a.Length && p + n0 <= |data| && Gathered(a, n0 - 1, p)
      requires a[n0 - 1] == LF == data[p + n0 - 1]
      modifies a
      ensures z == a && Holds(z, 0, LineText(data, p)) && NextLine(data, p) == p + n0
    {
      z := a;
      var n := n0 - 1;
      if n > 0 && a[n - 1] == CR {
        n := n - 1;
      }
      a[n] := NUL;
    }

    /** A larger buffer with the same first n bytes. */
    method Grow(a: array?<Byte>, n: nat, size: nat) returns (b: array<Byte>)
      requires n <= size && (n > 0 ==> a != null && n <= a.Length)
      ensures fresh(b) && b.Length == size
      ensures forall k :: 0 <= k < n ==> b[k] == a[k]
    {
      b := new Byte[size];
      for i := 0 to n
        invariant forall k :: 0 <= k < i ==> b[k] == a[k]
      {
        b[i] := a[i];
      }
    }

    /** Calling the reader until it reports the end yields exactly the lines. */
    method ReadAll() returns (lines: seq<Bytes>)
      requires NulFree(data) && pos <= |data|
      modifies this`pos
      ensures lines == Lines(data, old(pos))
    {
      lines := [];
      var zLine: array?<Byte> := null;
      var more := true;
      while more
        invariant pos <= |data| && (zLine == null || fresh(zLine)) && (zLine != null ==> zLine.Length >= 100)
        invariant more ==> lines + Lines(data, pos) == Lines(data, old(pos))
        invariant !more ==> lines == Lines(data, old(pos))
        decreases |data| - pos, more
      {
        ghost var text := LineText(data, pos);
        zLine := LocalGetline(zLine);
        if zLine == null {
          more := false;
        } else {
          var n := CLength(zLine, 0, text);
          assert zLine[..n] == text by {
            assert forall k :: 0 <= k < |text| ==> zLine[0 + k] == text[k];
          }
          lines := lines + [zLine[..n]];
        }
      }
    }
  }
}
