/** The three ways the shell quotes SQL text: output_quoted_string (shell.c
    645-672), appendText (1103-1138) and set_table_name (1062-1093). */
module SqlQuoting {
  import opened CBytes

  /** The text between two quotes, every quote inside doubled. */
  function QuotedWith(z: Bytes, q: Byte): Bytes {
    [q] + Doubled(z, q) + [q]
  }

  /** How SQL reads a quoted token from position `p`, just after its opening
      quote: two quotes stand for one, a single one closes. The result is the
      text and the position after the closing quote, None if it never closes. */
  function ReadQuoted(s: Bytes, p: nat, q: Byte): Option<(Bytes, nat)>
    requires p <= |s|
    decreases |s| - p
  {
    if p == |s| then None
    else if s[p] != q then Prefixed(s[p], ReadQuoted(s, p + 1, q))
    else if p + 1 < |s| && s[p + 1] == q then Prefixed(q, ReadQuoted(s, p + 2, q))
    else Some(([], p + 1))
  }

  function Prefixed(b: Byte, r: Option<(Bytes, nat)>): Option<(Bytes, nat)> {
    match r
    case None => None
    case Some((t, e)) => Some(([b] + t, e))
  }

  /** Reading a whole token that starts with its opening quote. */
  function ReadToken(s: Bytes, q: Byte): Option<(Bytes, nat)> {
    if s == [] || s[0] != q then None else ReadQuoted(s, 1, q)
  }

  lemma {:induction false} ReadsDoubled(s: Bytes, p: nat, z: Bytes, q: Byte)
    requires HasAt(s, p, Doubled(z, q)) && p + |Doubled(z, q)| < |s| && s[p + |Doubled(z, q)|] == q
    ensures var e := p + |Doubled(z, q)|;
            (e + 1 == |s| || s[e + 1] != q) ==> ReadQuoted(s, p, q) == Some((z, e + 1))
    decreases |z|
  {
    if z != [] {
      var d := if z[0] == q then [q, q] else [z[0]];
      HasAtSplit(s, p, d, Doubled(z[1..], q));
      assert s[p] == d[0];
      assert z[0] == q ==> s[p + 1] == d[1];
      ReadsDoubled(s, p + |d|, z[1..], q);
      assert z == [z[0]] + z[1..];
    }
  }

  /** A quoted text read back from any context gives the text and ends exactly at
      its own closing quote, if and only if no further quote follows at once. */
  lemma QuotedIsSelfDelimiting(z: Bytes, q: Byte, rest: Bytes)
    ensures ReadToken(QuotedWith(z, q) + rest, q) == Some((z, |QuotedWith(z, q)|))
            <==> rest == [] || rest[0] != q
  {
    var s := QuotedWith(z, q) + rest;
    var e := 1 + |Doubled(z, q)|;
    assert s[0] == q && s[e] == q;
    assert rest != [] ==> s[e + 1] == rest[0];
    assert HasAt(s, 1, Doubled(z, q));
    if rest == [] || rest[0] != q {
      ReadsDoubled(s, 1, z, q);
    } else {
      ReadsPastQuote(s, 1, z, q);
    }
  }

  /** With a third quote right behind it, the closing quote is read as a doubled one. */
  lemma {:induction false} ReadsPastQuote(s: Bytes, p: nat, z: Bytes, q: Byte)
    requires HasAt(s, p, Doubled(z, q)) && p + |Doubled(z, q)| + 1 < |s|
    requires s[p + |Doubled(z, q)|] == q && s[p + |Doubled(z, q)| + 1] == q
    ensures var r := ReadQuoted(s, p, q); r.Some? ==> |r.value.0| > |z|
    decreases |z|
  {
    if z != [] {
      var d := if z[0] == q then [q, q] else [z[0]];
      HasAtSplit(s, p, d, Doubled(z[1..], q));
      assert s[p] == d[0];
      assert z[0] == q ==> s[p + 1] == d[1];
      ReadsPastQuote(s, p + |d|, z[1..], q);
    }
  }

  /** Different texts never share a quoted form. */
  lemma QuotingIsInjective(x: Bytes, y: Bytes, q: Byte)
    ensures QuotedWith(x, q) == QuotedWith(y, q) ==> x == y
  {
    QuotedIsSelfDelimiting(x, q, []);
    QuotedIsSelfDelimiting(y, q, []);
    assert QuotedWith(x, q) + [] == QuotedWith(x, q) && QuotedWith(y, q) + [] == QuotedWith(y, q);
  }

  /** The nested quoting of a dump: a name in double quotes inside a single-quoted text. */
  lemma NestedQuoting(name: Bytes)
    ensures var inner := QuotedWith(name, DQUOTE);
            && ReadToken(QuotedWith(inner, SQUOTE), SQUOTE) == Some((inner, |QuotedWith(inner, SQUOTE)|))
            && ReadToken(inner, DQUOTE) == Some((name, |inner|))
  {
    var inner := QuotedWith(name, DQUOTE);
    assert QuotedWith(inner, SQUOTE) + [] == QuotedWith(inner, SQUOTE) && inner + [] == inner;
    QuotedIsSelfDelimiting(inner, SQUOTE, []);
    QuotedIsSelfDelimiting(name, DQUOTE, []);
  }

  /** The number of quotes in a text. */
  function Quotes(z: Bytes, q: Byte): nat {
    if z == [] then 0 else (if z[0] == q then 1 else 0) + Quotes(z[1..], q)
  }

  lemma DoubledLength(z: Bytes, q: Byte)
    ensures |Doubled(z, q)| == |z| + Quotes(z, q)
    ensures Quotes(z, q) == 0 ==> Doubled(z, q) == z
  {
    if z != [] {
      DoubledLength(z[1..], q);
      assert z == [z[0]] + z[1..];
    }
  }

  lemma QuotesNext(z: Bytes, i: nat, q: Byte)
    requires i < |z|
    ensures Quotes(z[..i + 1], q) == Quotes(z[..i], q) + if z[i] == q then 1 else 0
    ensures Doubled(z[..i + 1], q) == Doubled(z[..i], q) + if z[i] == q then [q, q] else [z[i]]
  {
    assert z[..i + 1] == z[..i] + [z[i]];
    QuotesAppend(z[..i], [z[i]], q);
    DoubledAppend(z[..i], [z[i]], q);
  }

  lemma QuotesAppend(x: Bytes, y: Bytes, q: Byte)
    ensures Quotes(x + y, q) == Quotes(x, q) + Quotes(y, q)
  {
    if x == [] {
      assert x + y == y;
    } else {
      assert (x + y)[1..] == x[1..] + y;
      QuotesAppend(x[1..], y, q);
    }
  }

  lemma DoubledPlain(x: Bytes, q: Byte)
    requires forall k :: 0 <= k < |x| ==> x[k] != q
    ensures Doubled(x, q) == x
  {
    if x != [] {
      DoubledPlain(x[1..], q);
      assert x == [x[0]] + x[1..];
    }
  }

  /** A run without quotes, and the quote that ends it. */
  lemma DoubledRun(z: Bytes, p: nat, i: nat)
    requires p + i <= |z| && forall k :: p <= k < p + i ==> z[k] != SQUOTE
    requires p + i < |z| ==> z[p + i] == SQUOTE
    ensures Doubled(z[p..], SQUOTE) ==
            z[p..p + i] + if p + i == |z| then [] else [SQUOTE, SQUOTE] + Doubled(z[p + i + 1..], SQUOTE)
  {
    var x, y := z[p..p + i], z[p + i..];
    assert z[p..] == x + y;
    DoubledAppend(x, y, SQUOTE);
    DoubledPlain(x, SQUOTE);
    if p + i < |z| {
      assert y[1..] == z[p + i + 1..];
    }
  }

  /** Runs between quotes are printed whole; a text without quotes needs one run. */
  method OutputQuotedString(z: Bytes) returns (out: Bytes)
    ensures out == QuotedWith(z, SQUOTE)
  {
    var nSingle := 0;
    for i := 0 to |z|
      invariant nSingle == Quotes(z[..i], SQUOTE)
    {
      QuotesNext(z, i, SQUOTE);
      if z[i] == SQUOTE {
        nSingle := nSingle + 1;
      }
    }
    assert z[..|z|] == z;
    DoubledLength(z, SQUOTE);
    if nSingle == 0 {
      return [SQUOTE] + z + [SQUOTE];
    }
    out := [SQUOTE];
    var p := 0;
    while p < |z|
      invariant p <= |z|
      invariant out + Doubled(z[p..], SQUOTE) == [SQUOTE] + Doubled(z, SQUOTE)
    {
      var run, step := NextRun(z, p);
      out := out + run;
      p := p + step;
    }
    out := out + [SQUOTE];
  }

  /** One round of the printing loop: what it prints and how far it moves. */
  method NextRun(z: Bytes, p: nat) returns (text: Bytes, step: nat)
    requires p < |z|
    ensures 0 < step && p + step <= |z|
    ensures Doubled(z[p..], SQUOTE) == text + Doubled(z[p + step..], SQUOTE)
  {
    var i := 0;
    while p + i < |z| && z[p + i] != SQUOTE
      invariant p + i <= |z| && forall k :: p <= k < p + i ==> z[k] != SQUOTE
    {
      i := i + 1;
    }
    DoubledRun(z, p, i);
    if i == 0 {
      text, step := [SQUOTE, SQUOTE], 1;
    } else if p + i < |z| {
      text, step := z[p..p + i] + [SQUOTE, SQUOTE], i + 1;
    } else {
      text, step := z[p..], |z| - p;
    }
  }

  /** `x` stands in the buffer from index n on. */
  predicate Written(a: array<Byte>, n: nat, x: Bytes)
    reads a
  {
    n + |x| <= a.Length && forall k {:trigger x[k]} :: 0 <= k < |x| ==> a[n + k] == x[k]
  }

  /** Writes `z` with its quotes doubled into a buffer from index n on. */
  method WriteDoubled(a: array<Byte>, n0: nat, z: Bytes, q: Byte) returns (n: nat)
    requires n0 + |Doubled(z, q)| <= a.Length
    modifies a
    ensures n == n0 + |Doubled(z, q)| && Written(a, n0, Doubled(z, q))
    ensures forall k :: 0 <= k < n0 || n <= k < a.Length ==> a[k] == old(a[k])
  {
    hide Doubled;
    n := n0;
    DoubledNone(q);
    for i := 0 to |z|
      invariant n == n0 + |Doubled(z[..i], q)| <= a.Length && Written(a, n0, Doubled(z[..i], q))
      invariant forall k :: 0 <= k < n0 || n <= k < a.Length ==> a[k] == old(a[k])
    {
      QuotesNext(z, i, q);
      PrefixFits(z, i + 1, q);
      a[n] := z[i];
      n := n + 1;
      if z[i] == q {
        a[n] := q;
        n := n + 1;
      }
    }
    assert z[..|z|] == z;
  }

  lemma DoubledNone(q: Byte)
    ensures Doubled([], q) == []
  {
  }

  /** The quoted form, quotes included. */
  method WriteQuoted(a: array<Byte>, n0: nat, z: Bytes, q: Byte) returns (n: nat)
    requires n0 + |QuotedWith(z, q)| <= a.Length
    modifies a
    ensures n == n0 + |QuotedWith(z, q)| && Written(a, n0, QuotedWith(z, q))
    ensures forall k :: 0 <= k < n0 || n <= k < a.Length ==> a[k] == old(a[k])
  {
    hide Doubled;
    a[n0] := q;
    n := WriteDoubled(a, n0 + 1, z, q);
    a[n] := q;
    n := n + 1;
    ghost var d := Doubled(z, q);
    assert forall k :: 0 <= k < |d| ==> QuotedWith(z, q)[k + 1] == d[k];
  }

  lemma PrefixFits(z: Bytes, i: nat, q: Byte)
    requires i <= |z|
    ensures |Doubled(z[..i], q)| <= |Doubled(z, q)|
  {
    DoubledAppend(z[..i], z[i..], q);
    assert z == z[..i] + z[i..];
  }

  /** What appendText adds: the text as it is for quote NUL, else quoted. */
  function Appended(z: Bytes, quote: Byte): Bytes {
    if quote == NUL then z else QuotedWith(z, quote)
  }

  /** Appends to a buffer that holds exactly `zIn` and its terminator; the new
      buffer is filled to its last byte. */
  method AppendText(zIn: Bytes, zAppend: Bytes, quote: Byte) returns (z: array<Byte>)
    ensures fresh(z)
    ensures z[..] == zIn + Appended(zAppend, quote) + [NUL]
  {
    hide Doubled;
    var len := |zAppend| + |zIn| + 1;
    if quote != NUL {
      len := len + 2;
      for i := 0 to |zAppend|
        invariant len == |zAppend| + |zIn| + 3 + Quotes(zAppend[..i], quote)
      {
        QuotesNext(zAppend, i, quote);
        if zAppend[i] == quote {
          len := len + 1;
        }
      }
      assert zAppend[..|zAppend|] == zAppend;
    }
    DoubledLength(zAppend, quote);
    z := new Byte[len];
    var n := Copy(z, 0, zIn);
    ghost var x := Appended(zAppend, quote);
    if quote != NUL {
      n := WriteQuoted(z, n, zAppend, quote);
    } else {
      n := Copy(z, n, zAppend);
    }
    z[n] := NUL;
    Filled(z, zIn, x);
  }

  /** Without a quote the text is appended as it is; with one, SQL reads it back from where it was appended. */
  lemma AppendedComesBack(zIn: Bytes, zAppend: Bytes, quote: Byte)
    ensures var z := zIn + Appended(zAppend, quote) + [NUL];
            && (quote == NUL ==> z == zIn + zAppend + [NUL])
            && (quote != NUL ==> ReadToken(z[|zIn|..], quote) == Some((zAppend, |z| - |zIn| - 1)))
  {
    if quote != NUL {
      QuotedIsSelfDelimiting(zAppend, quote, [NUL]);
      assert (zIn + Appended(zAppend, quote) + [NUL])[|zIn|..] == QuotedWith(zAppend, quote) + [NUL];
    }
  }

  /** A buffer filled with two texts and a terminator. */
  lemma Filled(a: array<Byte>, x: Bytes, y: Bytes)
    requires a.Length == |x| + |y| + 1 && Written(a, 0, x) && Written(a, |x|, y) && a[|x| + |y|] == NUL
    ensures a[..] == x + y + [NUL]
  {
    assert forall k :: 0 <= k < |x| ==> a[0 + k] == x[k];
  }

  method Copy(a: array<Byte>, n0: nat, x: Bytes) returns (n: nat)
    requires n0 + |x| <= a.Length
    modifies a
    ensures n == n0 + |x| && Written(a, n0, x)
    ensures forall k :: 0 <= k < n0 || n <= k < a.Length ==> a[k] == old(a[k])
  {
    for i := 0 to |x|
      invariant Written(a, n0, x[..i])
      invariant forall k :: 0 <= k < n0 || n0 + i <= k < a.Length ==> a[k] == old(a[k])
    {
      a[n0 + i] := x[i];
    }
    assert x[..|x|] == x;
    n := n0 + |x|;
  }

  /** A name SQL accepts without quotes as far as its bytes go. */
  predicate PlainName(z: Bytes) {
    && z != []
    && (IsAlpha(z[0]) || z[0] == UNDERSCORE)
    && forall i :: 0 <= i < |z| ==> IsAlnum(z[i]) || z[i] == UNDERSCORE
  }

  function TableName(z: Bytes): Bytes {
    if PlainName(z) then z else QuotedWith(z, SQUOTE)
  }

  /** The size and the decision that the first loop computes. */
  method MeasureName(zName: Bytes) returns (n: nat, needQuote: bool)
    ensures needQuote <==> !PlainName(zName)
    ensures n == |TableName(zName)|
  {
    needQuote := zName == [] || (!IsAlpha(zName[0]) && zName[0] != UNDERSCORE);
    n := 0;
    for i := 0 to |zName|
      invariant n == i + Quotes(zName[..i], SQUOTE)
      invariant needQuote <==> !PlainStart(zName, i)
    {
      QuotesNext(zName, i, SQUOTE);
      n := n + 1;
      if !IsAlnum(zName[i]) && zName[i] != UNDERSCORE {
        needQuote := true;
        if zName[i] == SQUOTE {
          n := n + 1;
        }
      }
    }
    assert zName[..|zName|] == zName;
    DoubledLength(zName, SQUOTE);
    if needQuote {
      n := n + 2;
    } else {
      DoubledPlain(zName, SQUOTE);
    }
  }

  /** The destination table name: quoted exactly when it is not a plain name,
      in a buffer filled to its last byte. */
  method SetTableName(zName: Bytes) returns (z: array<Byte>)
    ensures fresh(z)
    ensures z[..] == TableName(zName) + [NUL]
  {
    var n, needQuote := MeasureName(zName);
    z := new Byte[n + 1];
    n := 0;
    if needQuote {
      n := WriteQuoted(z, n, zName, SQUOTE);
    } else {
      DoubledPlain(zName, SQUOTE);
      n := WriteDoubled(z, n, zName, SQUOTE);
    }
    z[n] := NUL;
    Filled(z, [], TableName(zName));
    assert [] + TableName(zName) == TableName(zName);
  }

  predicate PlainStart(z: Bytes, i: nat)
    requires i <= |z|
  {
    && z != []
    && (IsAlpha(z[0]) || z[0] == UNDERSCORE)
    && forall k :: 0 <= k < i ==> IsAlnum(z[k]) || z[k] == UNDERSCORE
  }

  /** The three quoters agree on every name that needs quotes. */
  lemma QuotersAgree(z: Bytes)
    requires !PlainName(z)
    ensures TableName(z) == Appended(z, SQUOTE) == QuotedWith(z, SQUOTE)
    ensures ReadToken(TableName(z), SQUOTE) == Some((z, |TableName(z)|))
  {
    QuotedIsSelfDelimiting(z, SQUOTE, []);
    assert QuotedWith(z, SQUOTE) + [] == QuotedWith(z, SQUOTE);
  }

  // ------------------------------------------------------------ how SQL reads a name

  predicate NameStart(b: Byte) {
    IsAlpha(b) || b == UNDERSCORE
  }

  predicate NameByte(b: Byte) {
    IsAlnum(b) || b == UNDERSCORE
  }

  /** The first byte at or after p that is no part of a name. */
  function NameEnd(s: Bytes, p: nat): (e: nat)
    requires p <= |s|
    ensures p <= e <= |s| && (e < |s| ==> !NameByte(s[e]))
    ensures forall i :: p <= i < e ==> NameByte(s[i])
    decreases |s| - p
  {
    if p == |s| || !NameByte(s[p]) then p else NameEnd(s, p + 1)
  }

  /** A name without quotes: a letter or underscore, then letters, digits and underscores up to the first other byte. */
  function ReadBareName(s: Bytes): Option<(Bytes, nat)> {
    if s == [] || !NameStart(s[0]) then None else Some((s[..NameEnd(s, 0)], NameEnd(s, 0)))
  }

  /** The name at the start of a text, and where it ends. */
  function ReadName(s: Bytes): Option<(Bytes, nat)> {
    if s != [] && (s[0] == SQUOTE || s[0] == DQUOTE) then ReadQuoted(s, 1, s[0]) else ReadBareName(s)
  }

  lemma BareNameComesBack(z: Bytes, rest: Bytes)
    requires PlainName(z) && (rest == [] || !NameByte(rest[0]))
    ensures ReadName(z + rest) == Some((z, |z|))
  {
    var s := z + rest;
    assert s[0] == z[0] && (rest != [] ==> s[|z|] == rest[0]);
    assert forall i :: 0 <= i < |z| ==> s[i] == z[i];
    assert s[..|z|] == z;
  }

  /** Where no quote and no byte of a name follows, a space for one, SQL reads the very name back, whatever it is. */
  lemma TableNameComesBack(z: Bytes, rest: Bytes)
    requires rest == [] || (!NameByte(rest[0]) && rest[0] != SQUOTE)
    ensures ReadName(TableName(z) + rest) == Some((z, |TableName(z)|))
  {
    if PlainName(z) {
      BareNameComesBack(z, rest);
    } else {
      QuotedIsSelfDelimiting(z, SQUOTE, rest);
      assert (QuotedWith(z, SQUOTE) + rest)[0] == SQUOTE;
    }
  }

  /** There are quotes around a name if and only if SQL would not read it without them. */
  lemma QuotedExactly(z: Bytes)
    ensures TableName(z) == z <==> ReadBareName(z) == Some((z, |z|))
  {
    if PlainName(z) {
      assert z[..|z|] == z;
    } else {
      DoubledLength(z, SQUOTE);
      assert |QuotedWith(z, SQUOTE)| > |z|;
    }
  }
}
