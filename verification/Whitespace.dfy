/** Recognising input without SQL in it: shell.c 4082-4121. */
module Whitespace {
  import opened CBytes
  import LineReader

  /** The parts such a text is made of. */
  datatype Piece = Blank(b: Byte) | Block(body: Bytes) | Remark(body: Bytes)

  /** Pieces, then possibly a remark that the end of the text closes. */
  datatype Text = Text(pieces: seq<Piece>, tail: Option<Bytes>)

  predicate NoClose(body: Bytes) {
    forall i :: 0 <= i < |body| - 1 ==> !(body[i] == STAR && body[i + 1] == SLASH)
  }

  predicate PieceOk(p: Piece) {
    match p
    case Blank(b) => IsSpace(b)
    case Block(body) => NoClose(body)
    case Remark(body) => LF !in body
  }

  predicate TextOk(t: Text) {
    && (forall i :: 0 <= i < |t.pieces| ==> PieceOk(t.pieces[i]))
    && (t.tail.Some? ==> LF !in t.tail.value)
  }

  function RenderPiece(p: Piece): Bytes {
    match p
    case Blank(b) => [b]
    case Block(body) => [SLASH, STAR] + body + [STAR, SLASH]
    case Remark(body) => [DASH, DASH] + body + [LF]
  }

  function RenderTail(tail: Option<Bytes>): Bytes {
    match tail
    case None => []
    case Some(body) => [DASH, DASH] + body
  }

  function RenderText(pieces: seq<Piece>, tail: Option<Bytes>): Bytes {
    if pieces == [] then RenderTail(tail) else RenderPiece(pieces[0]) + RenderText(pieces[1..], tail)
  }

  /** The first close of a block comment at or after `i`. */
  function BlockEnd(z: Bytes, i: nat): (e: nat)
    requires i <= |z|
    ensures i <= e <= |z| && (e < |z| ==> e + 1 < |z| && z[e] == STAR && z[e + 1] == SLASH)
    ensures forall k :: i <= k < e && k + 1 < |z| ==> !(z[k] == STAR && z[k + 1] == SLASH)
    decreases |z| - i
  {
    if i == |z| || (z[i] == STAR && At(z, i + 1) == SLASH) then i else BlockEnd(z, i + 1)
  }

  /** The scanner's answer for the text from `i` on. */
  function AllBlank(z: Bytes, i: nat): bool
    requires i <= |z|
    decreases |z| - i
  {
    if i == |z| then true
    else if IsSpace(z[i]) then AllBlank(z, i + 1)
    else if z[i] == SLASH && At(z, i + 1) == STAR then
      var e := BlockEnd(z, i + 2);
      e < |z| && AllBlank(z, e + 2)
    else if z[i] == DASH && At(z, i + 1) == DASH then
      var e := LineReader.LineEnd(z, i + 2);
      e == |z| || AllBlank(z, e + 1)
    else false
  }

  lemma BlockEndIs(z: Bytes, i: nat, body: Bytes)
    requires NoClose(body) && HasAt(z, i, body + [STAR, SLASH])
    ensures BlockEnd(z, i) == i + |body|
    decreases |body|
  {
    var x := body + [STAR, SLASH];
    assert z[i] == x[0] && z[i + 1] == x[1];
    if body != [] {
      assert x[1..] == body[1..] + [STAR, SLASH];
      assert HasAt(z, i + 1, x[1..]) by {
        assert forall k :: 0 <= k < |x[1..]| ==> x[1..][k] == x[k + 1];
      }
      assert |body| > 1 ==> x[1] == body[1];
      BlockEndIs(z, i + 1, body[1..]);
    }
  }

  lemma PassesBlock(z: Bytes, i: nat, body: Bytes)
    requires NoClose(body) && HasAt(z, i, [SLASH, STAR] + body + [STAR, SLASH])
    ensures AllBlank(z, i) == AllBlank(z, i + |body| + 4)
  {
    Associative([SLASH, STAR], body, [STAR, SLASH]);
    HasAtSplit(z, i, [SLASH, STAR], body + [STAR, SLASH]);
    assert z[i] == [SLASH, STAR][0] && z[i + 1] == [SLASH, STAR][1];
    BlockEndIs(z, i + 2, body);
    hide NoClose, BlockEnd;
  }

  lemma PassesRemark(z: Bytes, i: nat, body: Bytes)
    requires LF !in body && HasAt(z, i, [DASH, DASH] + body + [LF])
    ensures AllBlank(z, i) == AllBlank(z, i + |body| + 3)
  {
    HasAtSplit3(z, i, [DASH, DASH], body, [LF]);
    assert z[i] == [DASH, DASH][0] && z[i + 1] == [DASH, DASH][1];
    var e := i + 2 + |body|;
    assert z[e] == [LF][0];
    assert forall k :: i + 2 <= k < e ==> z[k] == body[k - i - 2];
    hide LineReader.LineEnd;
  }

  /** A piece is passed over whole. */
  lemma PassesPiece(z: Bytes, i: nat, p: Piece)
    requires PieceOk(p) && HasAt(z, i, RenderPiece(p))
    ensures AllBlank(z, i) == AllBlank(z, i + |RenderPiece(p)|)
  {
    match p {
      case Blank(b) => assert z[i] == [b][0];
      case Block(body) => PassesBlock(z, i, body);
      case Remark(body) => PassesRemark(z, i, body);
    }
  }

  lemma PassesTail(z: Bytes, i: nat, tail: Option<Bytes>)
    requires tail.Some? ==> LF !in tail.value
    requires HasAt(z, i, RenderTail(tail)) && i + |RenderTail(tail)| == |z|
    ensures AllBlank(z, i)
  {
    if tail.Some? {
      var body := tail.value;
      HasAtSplit(z, i, [DASH, DASH], body);
      assert z[i] == [DASH, DASH][0] && z[i + 1] == [DASH, DASH][1];
      assert forall k :: i + 2 <= k < |z| ==> z[k] == body[k - i - 2];
    }
  }

  lemma {:induction false} AcceptsGrammar(z: Bytes, i: nat, t: Text)
    requires TextOk(t) && HasAt(z, i, RenderText(t.pieces, t.tail)) && i + |RenderText(t.pieces, t.tail)| == |z|
    ensures AllBlank(z, i)
    decreases |t.pieces|
  {
    hide AllBlank, RenderPiece, HasAt, RenderTail;
    if t.pieces == [] {
      PassesTail(z, i, t.tail);
    } else {
      HasAtSplit(z, i, RenderPiece(t.pieces[0]), RenderText(t.pieces[1..], t.tail));
      PassesPiece(z, i, t.pieces[0]);
      AcceptsGrammar(z, i + |RenderPiece(t.pieces[0])|, Text(t.pieces[1..], t.tail));
    }
  }

  /** The piece at `i` of an accepted text. */
  lemma FirstPiece(z: Bytes, i: nat) returns (p: Piece, j: nat)
    requires i < |z| && AllBlank(z, i)
    requires !(z[i] == DASH && LineReader.LineEnd(z, i + 2) == |z|)
    ensures PieceOk(p) && i < j <= |z| && z[i..j] == RenderPiece(p) && AllBlank(z, j)
  {
    if IsSpace(z[i]) {
      p, j := Blank(z[i]), i + 1;
    } else if z[i] == SLASH {
      p, j := FirstBlock(z, i);
    } else {
      p, j := FirstRemark(z, i);
    }
  }

  lemma FirstBlock(z: Bytes, i: nat) returns (p: Piece, j: nat)
    requires i < |z| && AllBlank(z, i) && z[i] == SLASH
    ensures PieceOk(p) && i < j <= |z| && z[i..j] == RenderPiece(p) && AllBlank(z, j)
  {
    var e := BlockEnd(z, i + 2);
    p, j := Block(z[i + 2..e]), e + 2;
    hide AllBlank, BlockEnd;
    assert NoClose(z[i + 2..e]);
    assert z[i..j] == [SLASH, STAR] + z[i + 2..e] + [STAR, SLASH];
  }

  lemma FirstRemark(z: Bytes, i: nat) returns (p: Piece, j: nat)
    requires i < |z| && AllBlank(z, i) && z[i] == DASH && LineReader.LineEnd(z, i + 2) < |z|
    ensures PieceOk(p) && i < j <= |z| && z[i..j] == RenderPiece(p) && AllBlank(z, j)
  {
    var e := LineReader.LineEnd(z, i + 2);
    p, j := Remark(z[i + 2..e]), e + 1;
    assert z[i + 1] == DASH && AllBlank(z, j);
    hide AllBlank, LineReader.LineEnd;
    assert LF !in z[i + 2..e];
    assert z[i..j] == [DASH, DASH] + z[i + 2..e] + [LF];
  }

  lemma {:induction false} ParsesAccepted(z: Bytes, i: nat) returns (t: Text)
    requires i <= |z| && AllBlank(z, i)
    ensures TextOk(t) && RenderText(t.pieces, t.tail) == z[i..]
    decreases |z| - i
  {
    hide AllBlank, LineReader.LineEnd, PieceOk, RenderPiece;
    if i == |z| {
      t := Text([], None);
    } else {
      TwoDashes(z, i);
      if z[i] == DASH && LineReader.LineEnd(z, i + 2) == |z| {
        t := Text([], Some(z[i + 2..]));
        assert z[i..] == [DASH, DASH] + z[i + 2..];
      } else {
        var p, j := FirstPiece(z, i);
        var rest := ParsesAccepted(z, j);
        t := Text([p] + rest.pieces, rest.tail);
        assert t.pieces[1..] == rest.pieces;
        assert z[i..] == z[i..j] + z[j..];
      }
    }
  }

  lemma TwoDashes(z: Bytes, i: nat)
    requires i < |z| && AllBlank(z, i)
    ensures z[i] == DASH ==> i + 2 <= |z| && z[i + 1] == DASH
  {
  }

  ghost predicate InGrammar(z: Bytes) {
    exists t: Text :: TextOk(t) && RenderText(t.pieces, t.tail) == z
  }

  /** From any position on, the scanner accepts exactly the texts of the grammar. */
  lemma BlankFromIsGrammar(z: Bytes, i: nat)
    requires i <= |z|
    ensures AllBlank(z, i) <==> InGrammar(z[i..])
  {
    if AllBlank(z, i) {
      var t := ParsesAccepted(z, i);
    }
    if InGrammar(z[i..]) {
      var t: Text :| TextOk(t) && RenderText(t.pieces, t.tail) == z[i..];
      assert HasAt(z, i, z[i..]);
      AcceptsGrammar(z, i, t);
    }
  }

  /** The scanner accepts exactly the texts of the grammar. */
  lemma AllBlankIsGrammar(z: Bytes)
    ensures AllBlank(z, 0) <==> InGrammar(z)
  {
    BlankFromIsGrammar(z, 0);
    assert z[0..] == z;
  }

  method SkipBlock(z: Bytes, from: nat) returns (i: nat)
    requires NulFree(z) && from <= |z|
    ensures i == BlockEnd(z, from)
  {
    i := from;
    while At(z, i) != NUL && (z[i] != STAR || At(z, i + 1) != SLASH)
      invariant i <= |z| && BlockEnd(z, i) == BlockEnd(z, from)
      decreases |z| - i
    {
      i := i + 1;
    }
  }

  method SkipRemark(z: Bytes, from: nat) returns (i: nat)
    requires NulFree(z) && from <= |z|
    ensures i == LineReader.LineEnd(z, from)
  {
    i := from;
    while At(z, i) != NUL && z[i] != LF
      invariant i <= |z| && LineReader.LineEnd(z, i) == LineReader.LineEnd(z, from)
      decreases |z| - i
    {
      i := i + 1;
    }
  }

  /** The scan over a C string from position `from`. */
  method AllWhitespace(z: Bytes, from: nat) returns (r: bool)
    requires NulFree(z) && from <= |z|
    ensures r == AllBlank(z, from)
  {
    hide BlockEnd, LineReader.LineEnd, NulFree;
    var i := from;
    AtEnd(z, i);
    while At(z, i) != NUL
      invariant i <= |z| && AllBlank(z, i) == AllBlank(z, from)
      invariant At(z, i) == NUL <==> i == |z|
      decreases |z| - i
    {
      if IsSpace(z[i]) {
        i := i + 1;
        AtEnd(z, i);
        continue;
      }
      if z[i] == SLASH && At(z, i + 1) == STAR {
        i := SkipBlock(z, i + 2);
        AtEnd(z, i);
        if At(z, i) == NUL {
          return false;
        }
        i := i + 2;
        AtEnd(z, i);
        continue;
      }
      if z[i] == DASH && At(z, i + 1) == DASH {
        i := SkipRemark(z, i + 2);
        AtEnd(z, i);
        if At(z, i) == NUL {
          return true;
        }
        i := i + 1;
        AtEnd(z, i);
        continue;
      }
      return false;
    }
    r := true;
  }

  /** A line that is a command terminator: "/" or "go", and nothing else but blanks. */
  predicate IsTerminator(l: Bytes) {
    var b := SkipSpaces(l, 0);
    || (At(l, b) == SLASH && AllBlank(l, b + 1))
    || (ToLower(At(l, b)) == 103 && ToLower(At(l, b + 1)) == 111 && AllBlank(l, b + 2))
  }

  /** The word of a terminator: a slash, or "go" in any mix of cases. */
  predicate TerminatorWord(w: Bytes) {
    w == [SLASH] || (|w| == 2 && (w[0] == 71 || w[0] == 103) && (w[1] == 79 || w[1] == 111))
  }

  /** Spaces, then a terminator's word, then a text without SQL. */
  ghost predicate TerminatorLine(l: Bytes) {
    exists b: nat, e: nat :: b <= e <= |l| && AllSpaces(l[..b]) && TerminatorWord(l[b..e]) && InGrammar(l[e..])
  }

  /** The lines that end a statement are exactly those of that form. */
  lemma TerminatorIsGrammar(l: Bytes)
    ensures IsTerminator(l) <==> TerminatorLine(l)
  {
    if IsTerminator(l) {
      TerminatorHasForm(l);
    }
    if TerminatorLine(l) {
      var b: nat, e: nat :| b <= e <= |l| && AllSpaces(l[..b]) && TerminatorWord(l[b..e]) && InGrammar(l[e..]);
      FormIsTerminator(l, b, e);
    }
  }

  lemma TerminatorHasForm(l: Bytes)
    requires IsTerminator(l)
    ensures TerminatorLine(l)
  {
    hide AllBlank, InGrammar;
    var b := SkipSpaces(l, 0);
    var e := if At(l, b) == SLASH && AllBlank(l, b + 1) then b + 1 else b + 2;
    BlankFromIsGrammar(l, e);
    assert AllSpaces(l[..b]);
    if e == b + 1 {
      assert l[b..e] == [SLASH];
    }
    assert TerminatorWord(l[b..e]);
  }

  lemma FormIsTerminator(l: Bytes, b: nat, e: nat)
    requires b <= e <= |l| && AllSpaces(l[..b]) && TerminatorWord(l[b..e]) && InGrammar(l[e..])
    ensures IsTerminator(l)
  {
    hide AllBlank, InGrammar;
    var w := l[b..e];
    assert l[b] == w[0] && (|w| == 2 ==> l[b + 1] == w[1]);
    assert forall i :: 0 <= i < b ==> l[i] == l[..b][i];
    BlankFromIsGrammar(l, e);
  }

  method LineIsCommandTerminator(l: Bytes) returns (r: bool)
    requires NulFree(l)
    ensures r == IsTerminator(l)
  {
    var b := 0;
    while IsSpace(At(l, b))
      invariant b <= |l| && SkipSpaces(l, b) == SkipSpaces(l, 0)
      decreases |l| - b
    {
      b := b + 1;
    }
    if At(l, b) == SLASH {
      r := AllWhitespace(l, b + 1);
      if r {
        return;
      }
    }
    if ToLower(At(l, b)) == 103 && ToLower(At(l, b + 1)) == 111 {
      r := AllWhitespace(l, b + 2);
      return;
    }
    r := false;
  }
}
