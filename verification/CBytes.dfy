/** Bytes, C strings and the character classes of the "C" locale. */
module CBytes {

  type Byte = b: int | 0 <= b < 256

  type Bytes = seq<Byte>

  datatype Option<+T> = None | Some(value: T)

  const NUL: Byte := 0
  const TAB: Byte := 9
  const LF: Byte := 10
  const CR: Byte := 13
  const SPACE: Byte := 32
  const DQUOTE: Byte := 34
  const SQUOTE: Byte := 39
  const STAR: Byte := 42
  const DASH: Byte := 45
  const DOT: Byte := 46
  const SLASH: Byte := 47
  const SEMI: Byte := 59
  const BACKSLASH: Byte := 92
  const UNDERSCORE: Byte := 95

  /** What fgetc reports at the end of its input. */
  const EOF := -1

  /** A byte as a char, which is signed. */
  function CharValue(b: Byte): int {
    if b < 128 then b else b - 256
  }

  predicate IsSpace(b: Byte) {
    9 <= b <= 13 || b == 32
  }

  predicate AllSpaces(s: seq<Byte>) {
    forall i :: 0 <= i < |s| ==> IsSpace(s[i])
  }

  predicate IsPrint(b: Byte) {
    32 <= b <= 126
  }

  predicate IsAlpha(b: Byte) {
    65 <= b <= 90 || 97 <= b <= 122
  }

  predicate IsAlnum(b: Byte) {
    IsAlpha(b) || 48 <= b <= 57
  }

  predicate IsOctal(b: Byte) {
    48 <= b <= 55
  }

  function ToLower(b: Byte): Byte {
    if 65 <= b <= 90 then b + 32 else b
  }

  /** The bytes of an ASCII text. */
  function Ascii(s: string): (t: Bytes)
    requires forall i :: 0 <= i < |s| ==> s[i] as int < 128
    ensures |t| == |s| && forall i :: 0 <= i < |s| ==> t[i] == s[i] as int
  {
    seq(|s|, i requires 0 <= i < |s| => s[i] as int)
  }

  /** The sequence can be the text of a C string. */
  predicate NulFree(s: Bytes) {
    forall i :: 0 <= i < |s| ==> s[i] != NUL
  }

  /** Reading a C string at an index: past its text stands the terminator. */
  function At(s: Bytes, i: nat): Byte {
    if i < |s| then s[i] else NUL
  }

  /** Only the terminator of a C string reads as NUL. */
  lemma AtEnd(s: Bytes, i: nat)
    requires i <= |s| && NulFree(s)
    ensures At(s, i) == NUL <==> i == |s|
  {
  }

  /** The C string that starts a buffer: everything before the first NUL. */
  function UpToNul(s: Bytes): (t: Bytes)
    ensures t <= s && NulFree(t)
    ensures |t| < |s| ==> s[|t|] == NUL
    ensures NulFree(s) ==> t == s
  {
    if s == [] || s[0] == NUL then [] else [s[0]] + UpToNul(s[1..])
  }

  lemma Associative<T>(a: seq<T>, b: seq<T>, c: seq<T>)
    ensures a + (b + c) == a + b + c
  {
  }

  /** The first byte at or after h that is no white space. */
  function SkipSpaces(l: Bytes, h: nat): (b: nat)
    requires h <= |l|
    ensures h <= b <= |l| && (b < |l| ==> !IsSpace(l[b]))
    ensures forall i :: h <= i < b ==> IsSpace(l[i])
    decreases |l| - h
  {
    if h == |l| || !IsSpace(l[h]) then h else SkipSpaces(l, h + 1)
  }

  /** `x` stands in `s` at position `p`. */
  predicate HasAt(s: Bytes, p: nat, x: Bytes) {
    p + |x| <= |s| && forall i {:trigger x[i]} :: 0 <= i < |x| ==> s[p + i] == x[i]
  }

  lemma HasAtSplit(s: Bytes, p: nat, x: Bytes, y: Bytes)
    requires HasAt(s, p, x + y)
    ensures HasAt(s, p, x) && HasAt(s, p + |x|, y)
  {
    assert forall i {:trigger x[i]} :: 0 <= i < |x| ==> (x + y)[i] == x[i];
    assert forall i {:trigger y[i]} :: 0 <= i < |y| ==> (x + y)[|x| + i] == y[i];
  }

  lemma HasAtSplit3(s: Bytes, p: nat, x: Bytes, y: Bytes, z: Bytes)
    requires HasAt(s, p, x + y + z)
    ensures HasAt(s, p, x) && HasAt(s, p + |x|, y) && HasAt(s, p + |x| + |y|, z)
  {
    HasAtSplit(s, p, x + y, z);
    HasAtSplit(s, p, x, y);
  }

  /** How many of the bytes at positions a to b - 1 are `c`. */
  function CountOf(s: Bytes, a: nat, b: nat, c: int): nat
    requires a <= b <= |s|
    decreases b
  {
    if a == b then 0 else CountOf(s, a, b - 1, c) + if s[b - 1] == c then 1 else 0
  }

  lemma CountNext(s: Bytes, a: nat, b: nat, c: int)
    requires a <= b < |s|
    ensures CountOf(s, a, b + 1, c) == CountOf(s, a, b, c) + if s[b] == c then 1 else 0
  {
  }

  lemma {:induction false} CountAppend(s: Bytes, a: nat, b: nat, c: nat, x: int)
    requires a <= b <= c <= |s|
    ensures CountOf(s, a, c, x) == CountOf(s, a, b, x) + CountOf(s, b, c, x)
    decreases c
  {
    if b < c {
      CountAppend(s, a, b, c - 1, x);
    }
  }

  lemma CountNone(s: Bytes, a: nat, b: nat, c: int)
    requires a <= b <= |s| && forall i :: a <= i < b ==> s[i] != c
    ensures CountOf(s, a, b, c) == 0
    decreases b
  {
    if a < b {
      CountNone(s, a, b - 1, c);
    }
  }

  /** Every occurrence of `q` twice: the doubling rule of CSV and of SQL literals. */
  function Doubled(z: Bytes, q: Byte): Bytes {
    if z == [] then []
    else (if z[0] == q then [q, q] else [z[0]]) + Doubled(z[1..], q)
  }

  lemma DoubledAppend(x: Bytes, y: Bytes, q: Byte)
    ensures Doubled(x + y, q) == Doubled(x, q) + Doubled(y, q)
  {
    if x == [] {
      assert x + y == y;
    } else {
      assert (x + y)[1..] == x[1..] + y;
      DoubledAppend(x[1..], y, q);
    }
  }
}
