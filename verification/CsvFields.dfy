/** What the CSV reader makes of any field at all, well-formed or not. */
module CsvFields {
  import opened CBytes
  import opened CsvReader

  /** What a column separator must not be mistaken for. */
  predicate ReadableSeparator(sep: int) {
    sep != DQUOTE && sep != CR && sep != LF && sep != EOF
  }

  /** What follows a field. */
  datatype End = AtSep | AtLf | AtCrLf | AtEof

  predicate EndAt(s: Bytes, q: nat, e: End, sep: int) {
    match e
    case AtSep => 0 <= sep < 256 && HasAt(s, q, [sep as Byte])
    case AtLf => HasAt(s, q, [LF])
    case AtCrLf => HasAt(s, q, [CR, LF])
    case AtEof => q == |s|
  }

  function EndTerm(e: End, sep: int): int {
    match e
    case AtSep => sep
    case AtEof => EOF
    case _ => LF
  }

  function EndLength(e: End): nat {
    match e
    case AtEof => 0
    case AtCrLf => 2
    case _ => 1
  }

  lemma LastQuote(z: Bytes)
    ensures BeforeLastQuote(z + [DQUOTE]) == z && BeforeLastQuote(z + [DQUOTE] + [CR]) == z
  {
    var z2 := z + [DQUOTE] + [CR];
    assert z2[..|z2| - 1] == z + [DQUOTE];
  }

  /** Behind the closing quote a separator, a line break or the end of file closes the field. */
  lemma ScansEnd(s: Bytes, p: nat, e: End, sep: int, z: Bytes, pc: int)
    requires ReadableSeparator(sep) && EndAt(s, p, e, sep)
    ensures ScanQuoted(s, p, sep, LF, z + [DQUOTE], DQUOTE, pc) == FieldRead(Some(z), EndTerm(e, sep), p + EndLength(e))
  {
    LastQuote(z);
    hide BeforeLastQuote;
    match e
    case AtSep => assert s[p] == [sep as Byte][0];
    case AtLf => assert s[p] == [LF][0];
    case AtCrLf =>
      assert s[p] == [CR, LF][0] && s[p + 1] == [CR, LF][1];
      assert ScanQuoted(s, p, sep, LF, z + [DQUOTE], DQUOTE, pc) ==
             ScanQuoted(s, p + 1, sep, LF, z + [DQUOTE] + [CR], CR, DQUOTE);
    case AtEof =>
  }

  /**
   * A piece of what stands behind an opening quote: a byte that is no quote, two quotes, or a single quote that
   * ends nothing because of the byte after it.
   */
  datatype Piece = Plain(b: Byte) | Pair | Stray(b: Byte)

  predicate PieceOk(p: Piece, sep: int) {
    match p
    case Plain(b) => b != DQUOTE
    case Pair => true
    case Stray(b) => b != DQUOTE && b != sep && b != LF
  }

  /** A quote, a CR and an LF would end the field. */
  predicate PiecesOk(ps: seq<Piece>, sep: int) {
    && (forall i :: 0 <= i < |ps| ==> PieceOk(ps[i], sep))
    && forall i :: 0 < i < |ps| && ps[i] == Plain(LF) ==> ps[i - 1] != Stray(CR)
  }

  function RenderPiece(p: Piece): Bytes {
    match p
    case Plain(b) => [b]
    case Pair => [DQUOTE, DQUOTE]
    case Stray(b) => [DQUOTE, b]
  }

  /** What a piece adds to the field: only a second quote goes. */
  function Content(p: Piece): Bytes {
    match p
    case Plain(b) => [b]
    case Pair => [DQUOTE]
    case Stray(b) => [DQUOTE, b]
  }

  function RenderPieces(ps: seq<Piece>): Bytes {
    if ps == [] then [] else RenderPiece(ps[0]) + RenderPieces(ps[1..])
  }

  function Contents(ps: seq<Piece>): Bytes {
    if ps == [] then [] else Content(ps[0]) + Contents(ps[1..])
  }

  /** The pieces stand at q, then a quote with a separator, a line break or the end of file behind it, or the end. */
  predicate StandAt(s: Bytes, q: nat, ps: seq<Piece>, close: Option<End>, sep: int) {
    && PiecesOk(ps, sep) && HasAt(s, q, RenderPieces(ps))
    && var e := q + |RenderPieces(ps)|;
       if close.Some? then e < |s| && s[e] == DQUOTE && EndAt(s, e + 1, close.value, sep) else e == |s|
  }

  /** Nothing so far ends the field, not even with the byte at p. */
  predicate Calm(s: Bytes, p: nat, z: Bytes, pc: int, ppc: int) {
    LookBehind(z, pc, ppc) && pc != DQUOTE && (pc == CR && ppc == DQUOTE && p < |s| ==> s[p] != LF)
  }

  lemma ScansPlain(s: Bytes, p: nat, b: Byte, sep: int, z: Bytes, pc: int, ppc: int)
    requires ReadableSeparator(sep) && HasAt(s, p, [b]) && b != DQUOTE && Calm(s, p, z, pc, ppc)
    ensures LookBehind(z + [b], b, pc)
    ensures ScanQuoted(s, p, sep, LF, z, pc, ppc) == ScanQuoted(s, p + 1, sep, LF, z + [b], b, pc)
  {
    assert s[p] == [b][0];
  }

  lemma ScansPair(s: Bytes, p: nat, sep: int, z: Bytes, pc: int, ppc: int)
    requires ReadableSeparator(sep) && HasAt(s, p, [DQUOTE, DQUOTE]) && Calm(s, p, z, pc, ppc)
    ensures ScanQuoted(s, p, sep, LF, z, pc, ppc) == ScanQuoted(s, p + 2, sep, LF, z + [DQUOTE], 0, pc)
  {
    assert s[p] == [DQUOTE, DQUOTE][0] && s[p + 1] == [DQUOTE, DQUOTE][1];
    assert ScanQuoted(s, p, sep, LF, z, pc, ppc) == ScanQuoted(s, p + 1, sep, LF, z + [DQUOTE], DQUOTE, pc);
  }

  lemma ScansStray(s: Bytes, p: nat, b: Byte, sep: int, z: Bytes, pc: int, ppc: int)
    requires ReadableSeparator(sep) && HasAt(s, p, [DQUOTE, b]) && PieceOk(Stray(b), sep) && Calm(s, p, z, pc, ppc)
    ensures LookBehind(z + [DQUOTE, b], b, DQUOTE)
    ensures ScanQuoted(s, p, sep, LF, z, pc, ppc) == ScanQuoted(s, p + 2, sep, LF, z + [DQUOTE, b], b, DQUOTE)
  {
    assert s[p] == [DQUOTE, b][0] && s[p + 1] == [DQUOTE, b][1];
    assert ScanQuoted(s, p, sep, LF, z, pc, ppc) == ScanQuoted(s, p + 1, sep, LF, z + [DQUOTE], DQUOTE, pc);
    assert z + [DQUOTE] + [b] == z + [DQUOTE, b];
  }

  lemma ScansPiece(s: Bytes, p: nat, x: Piece, sep: int, z: Bytes, pc: int, ppc: int) returns (pc': int, ppc': int)
    requires ReadableSeparator(sep) && PieceOk(x, sep) && HasAt(s, p, RenderPiece(x)) && Calm(s, p, z, pc, ppc)
    ensures LookBehind(z + Content(x), pc', ppc')
    ensures ScanQuoted(s, p, sep, LF, z, pc, ppc) ==
            ScanQuoted(s, p + |RenderPiece(x)|, sep, LF, z + Content(x), pc', ppc')
    ensures pc' != DQUOTE && (pc' == CR && ppc' == DQUOTE ==> x == Stray(CR))
  {
    hide ScanQuoted;
    match x
    case Plain(b) =>
      ScansPlain(s, p, b, sep, z, pc, ppc);
      pc', ppc' := b, pc;
    case Pair =>
      ScansPair(s, p, sep, z, pc, ppc);
      pc', ppc' := 0, pc;
    case Stray(b) =>
      ScansStray(s, p, b, sep, z, pc, ppc);
      pc', ppc' := b, DQUOTE;
  }

  /** What follows a stray quote and CR is no LF. */
  lemma StaysCalm(s: Bytes, p: nat, x: Piece, rest: seq<Piece>, close: Option<End>, sep: int)
    requires PiecesOk([x] + rest, sep) && StandAt(s, p, rest, close, sep) && x == Stray(CR) && p < |s|
    ensures s[p] != LF
  {
    if rest != [] {
      assert ([x] + rest)[1] == rest[0] && ([x] + rest)[0] == Stray(CR);
      assert s[p] == RenderPieces(rest)[0];
    }
  }

  lemma StandNext(s: Bytes, p: nat, ps: seq<Piece>, close: Option<End>, sep: int)
    requires ps != [] && StandAt(s, p, ps, close, sep)
    ensures HasAt(s, p, RenderPiece(ps[0])) && PieceOk(ps[0], sep)
    ensures StandAt(s, p + |RenderPiece(ps[0])|, ps[1..], close, sep) && ps == [ps[0]] + ps[1..]
  {
    hide EndAt, RenderPiece;
    HasAtSplit(s, p, RenderPiece(ps[0]), RenderPieces(ps[1..]));
    assert forall i :: 0 <= i < |ps| - 1 ==> ps[1..][i] == ps[i + 1];
  }

  lemma {:induction false} ScansPieces(s: Bytes, p: nat, ps: seq<Piece>, close: Option<End>, sep: int,
                                       z: Bytes, pc: int, ppc: int) returns (pc': int, ppc': int)
    requires ReadableSeparator(sep) && StandAt(s, p, ps, close, sep) && Calm(s, p, z, pc, ppc)
    ensures p + |RenderPieces(ps)| <= |s| && Calm(s, p + |RenderPieces(ps)|, z + Contents(ps), pc', ppc')
    ensures ScanQuoted(s, p, sep, LF, z, pc, ppc) ==
            ScanQuoted(s, p + |RenderPieces(ps)|, sep, LF, z + Contents(ps), pc', ppc')
    decreases |ps|
  {
    hide ScanQuoted, StandAt, PieceOk, RenderPiece, Content, ReadableSeparator;
    if ps == [] {
      pc', ppc' := pc, ppc;
      assert z + Contents(ps) == z;
      StandsWithin(s, p, ps, close, sep);
    } else {
      StandNext(s, p, ps, close, sep);
      var q := p + |RenderPiece(ps[0])|;
      var pc1, ppc1 := ScansPiece(s, p, ps[0], sep, z, pc, ppc);
      if pc1 == CR && ppc1 == DQUOTE && q < |s| {
        OkOf(s, p, ps, close, sep);
        StaysCalm(s, q, ps[0], ps[1..], close, sep);
      }
      pc', ppc' := ScansPieces(s, q, ps[1..], close, sep, z + Content(ps[0]), pc1, ppc1);
      Associative(z, Content(ps[0]), Contents(ps[1..]));
    }
  }

  lemma StandsWithin(s: Bytes, p: nat, ps: seq<Piece>, close: Option<End>, sep: int)
    requires StandAt(s, p, ps, close, sep)
    ensures p + |RenderPieces(ps)| <= |s|
  {
  }

  lemma OkOf(s: Bytes, p: nat, ps: seq<Piece>, close: Option<End>, sep: int)
    requires StandAt(s, p, ps, close, sep)
    ensures PiecesOk(ps, sep)
  {
  }

  /** A field of these pieces as it is read, closed or cut off by the end of file. */
  function FieldOf(q: nat, ps: seq<Piece>, close: Option<End>, sep: int): FieldRead {
    var e := q + |RenderPieces(ps)|;
    match close
    case Some(end) => FieldRead(Some(Contents(ps)), EndTerm(end, sep), e + 1 + EndLength(end))
    case None => FieldRead(Some(Contents(ps)), EOF, e)
  }

  /** Whatever quotes are in it, a quoted field is read to the contents of its pieces. */
  lemma {:induction false} ReadsPieces(s: Bytes, p: nat, ps: seq<Piece>, close: Option<End>, sep: int)
    requires ReadableSeparator(sep) && p < |s| && s[p] == DQUOTE && StandAt(s, p + 1, ps, close, sep)
    ensures ReadField(s, p, sep, LF) == FieldOf(p + 1, ps, close, sep)
  {
    hide ScanQuoted, ReadField, StandAt, RenderPieces, Contents, EndAt, ReadableSeparator, FieldOf, Calm;
    QuotedStart(s, p, sep);
    StandsEnd(s, p + 1, ps, close, sep);
    StartsCalm(s, p + 1);
    var pc, ppc := ScansPieces(s, p + 1, ps, close, sep, [], 0, 0);
    assert [] + Contents(ps) == Contents(ps);
    CalmSays(s, p + 1 + |RenderPieces(ps)|, Contents(ps), pc, ppc);
    FieldEnds(s, p + 1, ps, close, sep, pc, ppc);
  }

  lemma StartsCalm(s: Bytes, p: nat)
    ensures LookBehind([], 0, 0) && Calm(s, p, [], 0, 0)
  {
  }

  lemma CalmSays(s: Bytes, p: nat, z: Bytes, pc: int, ppc: int)
    requires Calm(s, p, z, pc, ppc)
    ensures pc != DQUOTE && LookBehind(z, pc, ppc)
  {
  }

  /** Where the pieces end, so does the field. */
  lemma FieldEnds(s: Bytes, q: nat, ps: seq<Piece>, close: Option<End>, sep: int, pc: int, ppc: int)
    requires ReadableSeparator(sep) && pc != DQUOTE && LookBehind(Contents(ps), pc, ppc)
    requires var e := q + |RenderPieces(ps)|;
             if close.Some? then e < |s| && s[e] == DQUOTE && EndAt(s, e + 1, close.value, sep) else e == |s|
    ensures ScanQuoted(s, q + |RenderPieces(ps)|, sep, LF, Contents(ps), pc, ppc) == FieldOf(q, ps, close, sep)
  {
    hide ScanQuoted, RenderPieces, Contents, EndAt, ReadableSeparator, BeforeLastQuote, LookBehind;
    var e := q + |RenderPieces(ps)|;
    match close
    case Some(end) => CloseEnds(s, e, end, sep, Contents(ps), pc, ppc);
    case None => EofEnds(s, e, sep, Contents(ps), pc, ppc);
  }

  lemma QuotedStart(s: Bytes, p: nat, sep: int)
    requires p < |s| && s[p] == DQUOTE
    ensures ReadField(s, p, sep, LF) == ScanQuoted(s, p + 1, sep, LF, [], 0, 0)
  {
    hide ScanQuoted;
  }

  lemma StandsEnd(s: Bytes, q: nat, ps: seq<Piece>, close: Option<End>, sep: int)
    requires StandAt(s, q, ps, close, sep)
    ensures var e := q + |RenderPieces(ps)|;
            if close.Some? then e < |s| && s[e] == DQUOTE && EndAt(s, e + 1, close.value, sep) else e == |s|
  {
    hide EndAt, RenderPieces;
  }

  lemma EofEnds(s: Bytes, e: nat, sep: int, z: Bytes, pc: int, ppc: int)
    requires ReadableSeparator(sep) && e == |s| && pc != DQUOTE && LookBehind(z, pc, ppc)
    ensures ScanQuoted(s, e, sep, LF, z, pc, ppc) == FieldRead(Some(z), EOF, e)
  {
  }

  lemma CloseEnds(s: Bytes, e: nat, end: End, sep: int, z: Bytes, pc: int, ppc: int)
    requires ReadableSeparator(sep) && e < |s| && s[e] == DQUOTE && EndAt(s, e + 1, end, sep)
    requires pc != DQUOTE && LookBehind(z, pc, ppc)
    ensures ScanQuoted(s, e, sep, LF, z, pc, ppc) == FieldRead(Some(z), EndTerm(end, sep), e + 1 + EndLength(end))
  {
    assert ScanQuoted(s, e, sep, LF, z, pc, ppc) == ScanQuoted(s, e + 1, sep, LF, z + [DQUOTE], DQUOTE, pc);
    hide ScanQuoted, EndAt;
    ScansEnd(s, e + 1, end, sep, z, pc);
  }

  lemma StandPut(s: Bytes, p: nat, x: Piece, rest: seq<Piece>, close: Option<End>, sep: int)
    requires PieceOk(x, sep) && HasAt(s, p, RenderPiece(x)) && StandAt(s, p + |RenderPiece(x)|, rest, close, sep)
    requires x == Stray(CR) && rest != [] ==> rest[0] != Plain(LF)
    ensures StandAt(s, p, [x] + rest, close, sep)
  {
    hide EndAt, RenderPiece;
    assert ([x] + rest)[1..] == rest;
    assert HasAt(s, p, RenderPiece(x) + RenderPieces(rest));
  }

  /** What a quote at q means: the pieces so far are all there are, or it is part of one more. */
  lemma QuoteMeans(s: Bytes, q: nat, sep: int) returns (close: Option<End>, x: Piece)
    requires q < |s| && s[q] == DQUOTE
    ensures close.Some? ==> EndAt(s, q + 1, close.value, sep)
    ensures close.None? ==> PieceOk(x, sep) && |RenderPiece(x)| == 2 && HasAt(s, q, RenderPiece(x))
    ensures close.None? && x == Stray(CR) && q + 2 < |s| ==> s[q + 2] != LF
  {
    x := Pair;
    if q + 1 == |s| {
      close := Some(AtEof);
    } else if s[q + 1] == DQUOTE {
      close := None;
    } else if s[q + 1] == sep {
      close := Some(AtSep);
    } else if s[q + 1] == LF {
      close := Some(AtLf);
    } else if s[q + 1] == CR && q + 2 < |s| && s[q + 2] == LF {
      close := Some(AtCrLf);
    } else {
      close, x := None, Stray(s[q + 1]);
    }
  }

  lemma FirstByte(s: Bytes, p: nat, ps: seq<Piece>, close: Option<End>, sep: int)
    requires StandAt(s, p, ps, close, sep) && ps != [] && ps[0] == Plain(LF)
    ensures p < |s| && s[p] == LF
  {
    assert RenderPieces(ps)[0] == LF;
  }

  /** Whatever stands behind an opening quote is such pieces. */
  lemma {:induction false} PiecesFrom(s: Bytes, q: nat, sep: int) returns (ps: seq<Piece>, close: Option<End>)
    requires q <= |s|
    ensures StandAt(s, q, ps, close, sep)
    decreases |s| - q
  {
    if q == |s| {
      ps, close := [], None;
    } else {
      var end: Option<End>, x := None, Plain(s[q]);
      if s[q] == DQUOTE {
        end, x := QuoteMeans(s, q, sep);
      }
      if end.Some? {
        ps, close := [], end;
      } else {
        hide StandAt;
        ps, close := PiecesFrom(s, q + |RenderPiece(x)|, sep);
        if x == Stray(CR) && ps != [] && ps[0] == Plain(LF) {
          FirstByte(s, q + 2, ps, close, sep);
          assert false;
        }
        StandPut(s, q, x, ps, close, sep);
        ps := [x] + ps;
      }
    }
  }

  /** These pieces stand behind the quote at p, and r is the field they make. */
  predicate IsField(s: Bytes, p: nat, ps: seq<Piece>, close: Option<End>, sep: int, r: FieldRead) {
    StandAt(s, p + 1, ps, close, sep) && FieldOf(p + 1, ps, close, sep) == r
  }

  /** How any input behind an opening quote is read: exactly as its pieces say. */
  lemma QuotedExactly(s: Bytes, p: nat, sep: int, r: FieldRead)
    requires ReadableSeparator(sep) && p < |s| && s[p] == DQUOTE
    ensures ReadField(s, p, sep, LF) == r <==> exists ps, close :: IsField(s, p, ps, close, sep, r)
  {
    hide StandAt, ReadField, FieldOf;
    var ps, close := PiecesFrom(s, p + 1, sep);
    ReadsPieces(s, p, ps, close, sep);
    assert IsField(s, p, ps, close, sep, ReadField(s, p, sep, LF));
    forall qs, end | IsField(s, p, qs, end, sep, r)
      ensures r == ReadField(s, p, sep, LF)
    {
      ReadsPieces(s, p, qs, end, sep);
    }
  }

  /** Any other field ends at the first separator, LF or end of file; one CR is dropped, and before an LF only. */
  lemma BareExactly(s: Bytes, p: nat, t: Bytes, e: End, sep: int)
    requires ReadableSeparator(sep) && e != AtCrLf && HasAt(s, p, t) && EndAt(s, p + |t|, e, sep)
    requires (forall i :: 0 <= i < |t| ==> t[i] != sep && t[i] != LF) && (t != [] ==> t[0] != DQUOTE)
    ensures var text := if e == AtLf && t != [] && t[|t| - 1] == CR then t[..|t| - 1] else t;
            ReadField(s, p, sep, LF) ==
            FieldRead(if e == AtEof && t == [] then None else Some(text), EndTerm(e, sep), p + |t| + EndLength(e))
  {
    var q := p + |t|;
    assert forall i :: p <= i < q ==> s[i] == t[i - p];
    assert s[p..q] == t;
    assert e == AtLf ==> s[q] == [LF][0];
    assert e == AtSep ==> s[q] == [sep as Byte][0];
  }
}
