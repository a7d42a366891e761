/** C-style string literals: the printer output_c_string (shell.c 677-703) and
    the in-place decoder resolve_backslashes (shell.c 1946-2002). */
module CStrings {
  import opened CBytes

  /** A three-digit octal escape. */
  function OctalEscape(b: Byte): Bytes {
    [BACKSLASH, 48 + b / 64, 48 + b / 8 % 8, 48 + b % 8]
  }

  /** How one byte of a string is printed. */
  function EscapeByte(b: Byte): Bytes {
    if b == BACKSLASH || b == DQUOTE then [BACKSLASH, b]
    else if b == TAB then [BACKSLASH, 116]
    else if b == LF then [BACKSLASH, 110]
    else if b == CR then [BACKSLASH, 114]
    else if IsPrint(b) then [b]
    else OctalEscape(b)
  }

  function Escaped(z: Bytes): Bytes {
    if z == [] then [] else EscapeByte(z[0]) + Escaped(z[1..])
  }

  /** The printed form, quotes included. */
  function CLiteral(z: Bytes): Bytes {
    [DQUOTE] + Escaped(z) + [DQUOTE]
  }

  /** Printable bytes stand for themselves but for the two that the syntax uses; five bytes have an escape of their
      own, and any other byte takes three octal digits. */
  lemma EscapeSize(b: Byte)
    ensures |EscapeByte(b)| == 1 <==> 32 <= b < 127 && b != DQUOTE && b != BACKSLASH
    ensures |EscapeByte(b)| == 2 <==> b in {TAB, LF, CR, DQUOTE, BACKSLASH}
    ensures |EscapeByte(b)| == 1 || |EscapeByte(b)| == 2 || |EscapeByte(b)| == 4
  {
  }

  lemma EscapedAppend(x: Bytes, y: Bytes)
    ensures Escaped(x + y) == Escaped(x) + Escaped(y)
  {
    if x == [] {
      assert x + y == y;
    } else {
      assert (x + y)[1..] == x[1..] + y;
      EscapedAppend(x[1..], y);
    }
  }

  lemma EscapedNone()
    ensures Escaped([]) == []
  {
  }

  lemma EscapedNext(z: Bytes, i: nat)
    requires i < |z|
    ensures Escaped(z[..i + 1]) == Escaped(z[..i]) + EscapeByte(z[i])
  {
    assert z[..i + 1] == z[..i] + [z[i]];
    EscapedAppend(z[..i], [z[i]]);
    assert Escaped([z[i]]) == EscapeByte(z[i]);
  }

  method OutputCString(z: Bytes) returns (out: Bytes)
    ensures out == CLiteral(z)
  {
    hide Escaped;
    out := [DQUOTE];
    EscapedNone();
    for i := 0 to |z|
      invariant out == [DQUOTE] + Escaped(z[..i])
    {
      EscapedNext(z, i);
      var c := z[i];
      if c == BACKSLASH {
        out := out + [c, c];
      } else if c == DQUOTE {
        out := out + [BACKSLASH, DQUOTE];
      } else if c == TAB {
        out := out + [BACKSLASH, 116];
      } else if c == LF {
        out := out + [BACKSLASH, 110];
      } else if c == CR {
        out := out + [BACKSLASH, 114];
      } else if !IsPrint(c) {
        out := out + OctalEscape(c);
      } else {
        out := out + [c];
      }
    }
    assert z[..|z|] == z;
    out := out + [DQUOTE];
  }

  /** The byte a backslash followed by the letter `c` stands for. */
  function LetterEscape(c: Byte): Byte {
    if c == 97 then 7 else if c == 98 then 8 else if c == 116 then TAB else if c == 110 then LF
    else if c == 118 then 11 else if c == 102 then 12 else if c == 114 then CR else c
  }

  /** How many octal digits, at most `most`, start the text. */
  function OctalDigits(s: Bytes, most: nat): (n: nat)
    ensures n <= most && n <= |s|
    ensures forall i :: 0 <= i < n ==> IsOctal(s[i])
    ensures n < most && n < |s| ==> !IsOctal(s[n])
  {
    if most == 0 || s == [] || !IsOctal(s[0]) then 0 else 1 + OctalDigits(s[1..], most - 1)
  }

  function OctalValue(digits: Bytes): nat
    requires forall i :: 0 <= i < |digits| ==> IsOctal(digits[i])
  {
    if digits == [] then 0
    else
      var last := digits[|digits| - 1];
      assert IsOctal(last);
      8 * OctalValue(digits[..|digits| - 1]) + (last - 48)
  }

  /** The escape or plain byte at the start of a nonempty text: how long it is and its value. */
  function Unit(s: Bytes): (r: (nat, Byte))
    requires s != []
    ensures 1 <= r.0 <= 4 && r.0 <= |s|
  {
    if s[0] != BACKSLASH || |s| == 1 then (1, s[0])
    else if IsOctal(s[1]) then
      var n := OctalDigits(s[1..], 3);
      (1 + n, OctalValue(s[1..1 + n]) % 256)
    else (2, LetterEscape(s[1]))
  }

  /** The text with every backslash escape resolved. */
  function Decoded(s: Bytes): (d: Bytes)
    ensures |d| <= |s|
    ensures NulFree(s) && (forall i :: 0 <= i < |s| ==> s[i] != BACKSLASH) ==> d == s
  {
    if s == [] then [] else [Unit(s).1] + Decoded(s[Unit(s).0..])
  }

  lemma DecodedConcatPlain(x: Bytes, y: Bytes)
    requires forall i :: 0 <= i < |x| ==> x[i] != BACKSLASH
    ensures Decoded(x + y) == x + Decoded(y)
  {
    if x == [] {
      assert x + y == y;
    } else {
      assert Unit(x + y) == (1, x[0]);
      assert (x + y)[1..] == x[1..] + y;
      DecodedConcatPlain(x[1..], y);
      Associative([x[0]], x[1..], Decoded(y));
      assert [x[0]] + x[1..] == x;
    }
  }

  lemma UnitOfDigits(x: Byte, y: Byte, z: Byte, rest: Bytes)
    requires IsOctal(x) && IsOctal(y) && IsOctal(z) && x <= 51
    ensures Unit([BACKSLASH, x, y, z] + rest) == (4, 64 * (x - 48) + 8 * (y - 48) + (z - 48))
  {
    var s := [BACKSLASH, x, y, z] + rest;
    ThreeOctalDigits(x, y, z, rest);
    hide OctalDigits, OctalValue;
    assert s[1..] == [x, y, z] + rest;
    assert s[1..4] == [x, y, z];
  }

  lemma UnitOfOctalEscape(b: Byte, rest: Bytes)
    ensures Unit(OctalEscape(b) + rest) == (4, b)
  {
    hide Unit;
    UnitOfDigits(48 + b / 64, 48 + b / 8 % 8, 48 + b % 8, rest);
  }

  lemma ThreeOctalDigits(x: Byte, y: Byte, z: Byte, rest: Bytes)
    requires IsOctal(x) && IsOctal(y) && IsOctal(z)
    ensures OctalDigits([x, y, z] + rest, 3) == 3
    ensures OctalValue([x, y, z]) == 64 * (x - 48) + 8 * (y - 48) + (z - 48)
  {
    var t := [x, y, z] + rest;
    assert t[1..][1..] == [z] + rest;
    assert OctalDigits(t[1..][1..], 1) == 1;
    assert OctalDigits(t[1..], 2) == 2;
    assert [x, y, z][..2] == [x, y] && [x, y][..1] == [x] && [x][..0] == [];
    assert OctalValue([x]) == x - 48;
    assert OctalValue([x, y]) == 8 * (x - 48) + (y - 48);
  }

  /** Reading a printed byte back, whatever follows it. */
  lemma UnitOfEscapedByte(b: Byte, rest: Bytes)
    requires b != NUL
    ensures Unit(EscapeByte(b) + rest) == (|EscapeByte(b)|, b)
  {
    var s := EscapeByte(b) + rest;
    if |EscapeByte(b)| == 4 {
      UnitOfOctalEscape(b, rest);
    } else if |EscapeByte(b)| == 2 {
      assert s[0] == BACKSLASH && s[1] == EscapeByte(b)[1];
    } else {
      assert s[0] == b;
    }
  }

  /** Decoding undoes escaping, for every C string. */
  lemma {:induction false} DecodeEscaped(z: Bytes)
    requires NulFree(z)
    ensures Decoded(Escaped(z)) == z
    decreases |z|
  {
    if z != [] {
      var s := Escaped(z);
      UnitOfEscapedByte(z[0], Escaped(z[1..]));
      assert s[|EscapeByte(z[0])|..] == Escaped(z[1..]);
      DecodeEscaped(z[1..]);
    }
  }

  /** The C string held by a buffer from `start` on. */
  predicate Holds(a: array<Byte>, start: nat, s: Bytes)
    reads a
  {
    && start + |s| < a.Length && a[start + |s|] == NUL
    && forall k {:trigger s[k]} :: 0 <= k < |s| ==> a[start + k] == s[k]
  }

  /** The length of the C string at `start`. */
  method CLength(a: array<Byte>, start: nat, ghost s: Bytes) returns (n: nat)
    requires Holds(a, start, s) && NulFree(s)
    ensures n == |s|
  {
    n := 0;
    while a[start + n] != NUL
      invariant n <= |s| && a[start + n] == At(s, n)
      decreases |s| - n
    {
      n := n + 1;
    }
    AtEnd(s, n);
  }

  /** The C string in a buffer, as far as its first NUL. */
  method CText(a: array<Byte>, ghost s: Bytes) returns (t: Bytes)
    requires Holds(a, 0, s)
    ensures t == UpToNul(s)
  {
    ghost var u := UpToNul(s);
    assert Holds(a, 0, u) by {
      assert forall k :: 0 <= k < |u| ==> a[0 + k] == s[k] == u[k];
      assert |u| < |s| ==> a[0 + |u|] == s[|u|];
    }
    var n := CLength(a, 0, u);
    assert forall k :: 0 <= k < |u| ==> a[0 + k] == u[k];
    t := a[..n];
  }

  /** Reads the escape or byte at `p`. */
  method NextUnit(a: array<Byte>, p: nat, ghost u: Bytes) returns (n: nat, c: Byte)
    requires Holds(a, p, u) && NulFree(u) && u != []
    ensures (n, c) == Unit(u)
  {
    n, c := 1, a[p];
    if c == BACKSLASH && a[p + 1] != NUL {
      n, c := 2, a[p + 1];
      if c == 97 {
        c := 7;
      } else if c == 98 {
        c := 8;
      } else if c == 116 {
        c := TAB;
      } else if c == 110 {
        c := LF;
      } else if c == 118 {
        c := 11;
      } else if c == 102 {
        c := 12;
      } else if c == 114 {
        c := CR;
      } else if c == DQUOTE {
        c := DQUOTE;
      } else if c == SQUOTE {
        c := SQUOTE;
      } else if c == BACKSLASH {
        c := BACKSLASH;
      } else if 48 <= c <= 55 {
        n, c := NextOctal(a, p, u);
      }
    }
  }

  method NextOctal(a: array<Byte>, p: nat, ghost u: Bytes) returns (n: nat, c: Byte)
    requires Holds(a, p, u) && NulFree(u) && |u| >= 2 && u[0] == BACKSLASH && IsOctal(u[1])
    ensures (n, c) == Unit(u)
  {
    n, c := 2, a[p + 1] - 48;
    OctalPrefix(u, 1);
    if IsOctal(a[p + 2]) {
      n, c := 3, c * 8 + a[p + 2] - 48;
      OctalPrefix(u, 2);
      if IsOctal(a[p + 3]) {
        n, c := 4, (c * 8 + a[p + 3] - 48) % 256;
        OctalPrefix(u, 3);
      }
    }
  }

  /** The value of an octal escape of exactly n digits. */
  lemma OctalPrefix(u: Bytes, n: nat)
    requires 1 <= n <= 3 && |u| > n && u[0] == BACKSLASH
    requires forall k :: 1 <= k <= n ==> IsOctal(u[k])
    ensures n == 3 || |u| == n + 1 || !IsOctal(u[n + 1]) ==> OctalDigits(u[1..], 3) == n
    ensures OctalValue(u[1..1 + n]) == (if n == 1 then 0 else 8 * OctalValue(u[1..n])) + u[n] - 48
    ensures OctalValue(u[1..1 + n]) <= if n == 1 then 7 else if n == 2 then 63 else 511
  {
    var t := u[1..];
    assert OctalDigits(t, 3) == 1 + OctalDigits(t[1..], 2);
    if n >= 2 {
      assert OctalDigits(t[1..], 2) == 1 + OctalDigits(t[1..][1..], 1);
    }
    var d := u[1..1 + n];
    assert d[..n - 1] == u[1..n];
    if n > 1 {
      OctalPrefix(u, n - 1);
    } else {
      assert u[1..1] == [];
    }
  }

  /** Rewrites the string at `start` in place: the write index never passes the
      read index, and no byte outside the string and its terminator changes. */
  method ResolveBackslashes(a: array<Byte>, start: nat, ghost s: Bytes)
    requires Holds(a, start, s) && NulFree(s)
    modifies a
    ensures Holds(a, start, Decoded(s))
    ensures forall k :: 0 <= k < start || start + |Decoded(s)| < k < a.Length ==> a[k] == old(a[k])
  {
    hide Decoded;
    var z := start;
    while a[z] != NUL && a[z] != BACKSLASH
      invariant start <= z <= start + |s|
      invariant forall k :: 0 <= k < z - start ==> s[k] != BACKSLASH
      decreases start + |s| - z
    {
      z := z + 1;
    }
    ghost var x, u := s[..z - start], s[z - start..];
    assert s == x + u;
    DecodedConcatPlain(x, u);
    RewriteFrom(a, z, u);
    forall k | 0 <= k < |Decoded(s)|
      ensures a[start + k] == Decoded(s)[k]
    {
      if k >= |x| {
        assert Decoded(s)[k] == Decoded(u)[k - |x|];
      }
    }
  }

  /** The rewriting loop, from the first backslash on. */
  method RewriteFrom(a: array<Byte>, z: nat, ghost u: Bytes)
    requires Holds(a, z, u) && NulFree(u)
    modifies a
    ensures forall k :: 0 <= k < z || z + |Decoded(u)| < k < a.Length ==> a[k] == old(a[k])
    ensures forall k :: 0 <= k < |Decoded(u)| ==> a[z + k] == Decoded(u)[k]
    ensures a[z + |Decoded(u)|] == NUL
  {
    hide Decoded, NulFree, Unit;
    var i, j := 0, 0;
    ghost var w: Bytes := [];
    assert u[0..] == u;
    while a[z + i] != NUL
      invariant j <= i <= |u| && |w| == j && a[z + i] == At(u, i)
      invariant forall k :: 0 <= k < z || z + j <= k < a.Length ==> a[k] == old(a[k])
      invariant forall k :: 0 <= k < j ==> a[z + k] == w[k]
      invariant Decoded(u) == w + Decoded(u[i..])
      decreases |u| - i
    {
      var n, c := NextUnit(a, z + i, u[i..]) by {
        assert forall k :: 0 <= k < |u[i..]| ==> a[z + i + k] == u[i..][k];
        SuffixNulFree(u, i);
      }
      DecodedStep(u, i, w);
      a[z + j] := c;
      w := w + [c];
      i, j := i + n, j + 1;
    }
    AtEnd(u, i);
    if j < i {
      a[z + j] := NUL;
    }
  }

  lemma SuffixNulFree(u: Bytes, i: nat)
    requires i <= |u| && NulFree(u)
    ensures NulFree(u[i..])
  {
  }

  lemma DecodedStep(u: Bytes, i: nat, w: Bytes)
    requires i < |u|
    ensures var (n, c) := Unit(u[i..]); i + n <= |u| && w + Decoded(u[i..]) == w + [c] + Decoded(u[i + n..])
  {
    var n := Unit(u[i..]).0;
    assert u[i..][n..] == u[i + n..];
    Associative(w, [Unit(u[i..]).1], Decoded(u[i + n..]));
  }

}
