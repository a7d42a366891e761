/** What an escaped text stands for, said by its parts: the table before resolve_backslashes, shell.c 1946-1958. */
module Escapes {
  import opened CBytes
  import opened CStrings

  /** A byte that is no backslash, a backslash and a letter, or a backslash and up to three octal digits. */
  datatype Part = Plain(b: Byte) | Letter(c: Byte) | Octal(digits: Bytes)

  /** Parts, and possibly a backslash that the end of the text leaves alone. */
  datatype Text = Text(parts: seq<Part>, backslash: bool)

  /** The letters that stand for another byte, and that byte; any other one stands for itself. */
  const LETTERS: map<int, Byte> := map[97 := 7, 98 := 8, 116 := 9, 110 := 10, 118 := 11, 102 := 12, 114 := 13]

  predicate PartOk(p: Part) {
    match p
    case Plain(b) => b != BACKSLASH
    case Letter(c) => !IsOctal(c)
    case Octal(d) => 1 <= |d| <= 3 && forall i :: 0 <= i < |d| ==> IsOctal(d[i])
  }

  /** Octal digits are taken as long as there are any, up to three. */
  predicate TextOk(t: Text) {
    && (forall i :: 0 <= i < |t.parts| ==> PartOk(t.parts[i]))
    && forall i :: 0 < i < |t.parts| && t.parts[i].Plain? && IsOctal(t.parts[i].b) ==>
         !t.parts[i - 1].Octal? || |t.parts[i - 1].digits| == 3
  }

  function RenderPart(p: Part): Bytes {
    match p
    case Plain(b) => [b]
    case Letter(c) => [BACKSLASH, c]
    case Octal(d) => [BACKSLASH] + d
  }

  function Render(t: Text): Bytes
    decreases |t.parts|
  {
    if t.parts == [] then if t.backslash then [BACKSLASH] else []
    else RenderPart(t.parts[0]) + Render(Text(t.parts[1..], t.backslash))
  }

  function Digit(b: Byte): (n: nat)
    requires IsOctal(b)
    ensures n < 8
  {
    b - 48
  }

  function Value(p: Part): Byte
    requires PartOk(p)
  {
    match p
    case Plain(b) => b
    case Letter(c) => if c in LETTERS then LETTERS[c] else c
    case Octal(d) =>
      if |d| == 1 then Digit(d[0])
      else if |d| == 2 then 8 * Digit(d[0]) + Digit(d[1])
      else (64 * Digit(d[0]) + 8 * Digit(d[1]) + Digit(d[2])) % 256
  }

  function Values(t: Text): Bytes
    requires TextOk(t)
    decreases |t.parts|
  {
    if t.parts == [] then if t.backslash then [BACKSLASH] else []
    else [Value(t.parts[0])] + Values(Rest(t))
  }

  function Rest(t: Text): (r: Text)
    requires t.parts != []
    ensures TextOk(t) ==> TextOk(r)
  {
    Text(t.parts[1..], t.backslash)
  }

  lemma TwoDigits(x: Byte, y: Byte)
    requires IsOctal(x) && IsOctal(y)
    ensures OctalValue([x]) == Digit(x) && OctalValue([x, y]) == 8 * Digit(x) + Digit(y)
  {
    assert [x][..0] == [] && [x, y][..1] == [x];
  }

  lemma DigitsValue(d: Bytes)
    requires PartOk(Octal(d))
    ensures OctalValue(d) % 256 == Value(Octal(d))
  {
    hide OctalValue, OctalDigits;
    if |d| == 3 {
      assert d == [d[0], d[1], d[2]];
      ThreeOctalDigits(d[0], d[1], d[2], []);
    } else if |d| == 2 {
      assert d == [d[0], d[1]];
      TwoDigits(d[0], d[1]);
    } else {
      assert d == [d[0]];
      TwoDigits(d[0], d[0]);
    }
  }

  lemma LettersAgree(c: Byte)
    ensures LetterEscape(c) == if c in LETTERS then LETTERS[c] else c
  {
  }

  lemma UnitIsOctal(d: Bytes, rest: Bytes)
    requires PartOk(Octal(d)) && (|d| < 3 && rest != [] ==> !IsOctal(rest[0]))
    ensures Unit([BACKSLASH] + d + rest) == (1 + |d|, Value(Octal(d)))
  {
    var s := [BACKSLASH] + d + rest;
    assert s[1..] == d + rest && s[1] == d[0] && s[1..1 + |d|] == d;
    hide OctalDigits, OctalValue, Value;
    DigitsValue(d);
  }

  /** The part at the start of a text is what the decoder takes first. */
  lemma UnitIsPart(p: Part, rest: Bytes)
    requires PartOk(p) && (p.Octal? && |p.digits| < 3 && rest != [] ==> !IsOctal(rest[0]))
    ensures Unit(RenderPart(p) + rest) == (|RenderPart(p)|, Value(p))
  {
    hide OctalDigits, OctalValue, LetterEscape;
    match p
    case Plain(b) => assert ([b] + rest)[0] == b;
    case Letter(c) =>
      assert ([BACKSLASH, c] + rest)[0] == BACKSLASH && ([BACKSLASH, c] + rest)[1] == c;
      LettersAgree(c);
    case Octal(d) => UnitIsOctal(d, rest);
  }

  /** Resolving the escapes of a text gives the values of its parts. */
  lemma {:induction false} DecodesParts(t: Text)
    requires TextOk(t)
    ensures Decoded(Render(t)) == Values(t)
    decreases |t.parts|
  {
    if t.parts != [] {
      var p, rest := t.parts[0], Render(Rest(t));
      UnitIsPart(p, rest);
      hide Unit, RenderPart, Value, TextOk;
      assert (RenderPart(p) + rest)[|RenderPart(p)|..] == rest;
      DecodesParts(Rest(t));
    } else if t.backslash {
      assert [BACKSLASH][1..] == [];
    }
  }

  /** The first part of a text that is more than a backslash. */
  lemma FirstPart(s: Bytes) returns (p: Part, n: nat)
    requires s != [] && s != [BACKSLASH]
    ensures PartOk(p) && 1 <= n <= |s| && RenderPart(p) == s[..n]
    ensures p.Octal? && |p.digits| < 3 && n < |s| ==> !IsOctal(s[n])
  {
    if s[0] != BACKSLASH {
      p, n := Plain(s[0]), 1;
    } else if IsOctal(s[1]) {
      var k := OctalDigits(s[1..], 3);
      p, n := Octal(s[1..1 + k]), 1 + k;
    } else {
      p, n := Letter(s[1]), 2;
    }
  }

  /** A part put in front of a text. */
  lemma Put(p: Part, rest: Text) returns (t: Text)
    requires TextOk(rest) && PartOk(p)
    requires p.Octal? && |p.digits| < 3 && Render(rest) != [] ==> !IsOctal(Render(rest)[0])
    ensures TextOk(t) && Render(t) == RenderPart(p) + Render(rest)
  {
    hide RenderPart, IsOctal;
    t := Text([p] + rest.parts, rest.backslash);
    assert t.parts[1..] == rest.parts;
    if rest.parts != [] && rest.parts[0].Plain? {
      PlainStarts(rest);
    }
  }

  lemma PlainStarts(t: Text)
    requires t.parts != [] && t.parts[0].Plain?
    ensures Render(t) != [] && Render(t)[0] == t.parts[0].b
  {
  }

  /** Every text has such parts. */
  lemma {:induction false} PartsOf(s: Bytes) returns (t: Text)
    ensures TextOk(t) && Render(t) == s
    decreases |s|
  {
    hide Render, RenderPart, TextOk, PartOk, IsOctal;
    if s == [] || s == [BACKSLASH] {
      NoParts(s != []);
      t := Text([], s != []);
    } else {
      var p, n := FirstPart(s);
      var rest := PartsOf(s[n..]);
      assert n < |s| ==> s[n..][0] == s[n];
      t := Put(p, rest);
      assert s == s[..n] + s[n..];
    }
  }

  lemma NoParts(backslash: bool)
    ensures TextOk(Text([], backslash)) && Render(Text([], backslash)) == if backslash then [BACKSLASH] else []
  {
  }

  /** The decoder gives a text exactly the bytes that its parts stand for. */
  lemma DecodedIsByParts(s: Bytes, d: Bytes)
    ensures Decoded(s) == d <==> exists t: Text :: TextOk(t) && Render(t) == s && Values(t) == d
  {
    hide Decoded, Values, Render;
    var t := PartsOf(s);
    DecodesParts(t);
    forall u: Text | TextOk(u) && Render(u) == s
      ensures Values(u) == Decoded(s)
    {
      DecodesParts(u);
    }
  }
}
