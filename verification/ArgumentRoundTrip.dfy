/** Arguments written on a dot-command line come back unchanged. */
module ArgumentRoundTrip {
  import opened CBytes
  import opened CStrings
  import opened MetaCommand

  /**
   * Four ways to write an argument: as output_c_string prints it, in single quotes, as a bare word, or as
   * output_c_string prints it but without the quotes.
   */
  datatype Written = Literal(text: Bytes) | Single(text: Bytes) | Word(text: Bytes) | Unquoted(text: Bytes) {
    /** Only white space or the end of the line ends it. */
    predicate Bare() {
      Word? || Unquoted?
    }
  }

  /** Any C string can be a literal; single quotes resolve nothing; a bare text has no space and no leading quote. */
  predicate WrittenOk(w: Written) {
    && NulFree(w.text)
    && (w.Single? ==> SQUOTE !in w.text)
    && (w.Word? ==>
          && w.text != [] && w.text[0] != SQUOTE && w.text[0] != DQUOTE
          && forall i :: 0 <= i < |w.text| ==> !IsSpace(w.text[i]) && w.text[i] != BACKSLASH)
    && (w.Unquoted? ==> w.text != [] && w.text[0] != SQUOTE && SPACE !in w.text)
  }

  function Form(w: Written): (s: Bytes)
    ensures w.Bare() || s != []
  {
    match w
    case Literal(z) => CLiteral(z)
    case Single(z) => [SQUOTE] + z + [SQUOTE]
    case Word(z) => z
    case Unquoted(z) => Escaped(z)
  }

  /** An argument and the white space before it. */
  datatype Placed = Placed(gap: Bytes, arg: Written)

  /** White space must follow a bare argument; behind a quote there may be none. */
  predicate AllOk(args: seq<Placed>) {
    && (forall i :: 0 <= i < |args| ==> WrittenOk(args[i].arg) && AllSpaces(args[i].gap))
    && (forall i :: 0 < i < |args| && args[i].gap == [] ==> !args[i - 1].arg.Bare())
  }

  /** The arguments and the white space at the end of the line. */
  function Forms(args: seq<Placed>, tail: Bytes): Bytes {
    if args == [] then tail else args[0].gap + Form(args[0].arg) + Forms(args[1..], tail)
  }

  function DotLine(args: seq<Placed>, tail: Bytes): Bytes {
    [DOT] + Forms(args, tail)
  }

  function TextsOf(args: seq<Placed>): seq<Bytes> {
    if args == [] then [] else [args[0].arg.text] + TextsOf(args[1..])
  }

  predicate AllPrintable(s: Bytes) {
    forall i :: 0 <= i < |s| ==> IsPrint(s[i])
  }

  /** An escaped text has printable bytes only. */
  lemma EscapedIsPrintable(z: Bytes)
    ensures AllPrintable(Escaped(z))
  {
    if z != [] {
      EscapedIsPrintable(z[1..]);
    }
  }

  lemma StepOverByte(l: Bytes, h: nat, b: Byte)
    requires HasAt(l, h, EscapeByte(b)) && h + |EscapeByte(b)| < |l|
    ensures QuoteEnd(l, h, DQUOTE) == QuoteEnd(l, h + |EscapeByte(b)|, DQUOTE)
  {
    var x := EscapeByte(b);
    assert l[h] == x[0];
    if |x| == 4 {
      assert l[h + 1] == x[1] && l[h + 2] == x[2] && l[h + 3] == x[3];
      assert QuoteEnd(l, h + 2, DQUOTE) == QuoteEnd(l, h + 3, DQUOTE) == QuoteEnd(l, h + 4, DQUOTE);
    }
  }

  /** Scanning an escaped text stops at the closing quote and not before. */
  lemma {:induction false} FindsClosingQuote(l: Bytes, h: nat, z: Bytes)
    requires HasAt(l, h, Escaped(z) + [DQUOTE])
    ensures QuoteEnd(l, h, DQUOTE) == h + |Escaped(z)|
    decreases |z|
  {
    hide EscapeByte, QuoteEnd;
    if z == [] {
      QuoteIsHere(l, h);
    } else {
      Associative(EscapeByte(z[0]), Escaped(z[1..]), [DQUOTE]);
      HasAtSplit(l, h, EscapeByte(z[0]), Escaped(z[1..]) + [DQUOTE]);
      StepOverByte(l, h, z[0]);
      FindsClosingQuote(l, h + |EscapeByte(z[0])|, z[1..]);
    }
  }

  lemma QuoteIsHere(l: Bytes, h: nat)
    requires HasAt(l, h, [] + [DQUOTE])
    ensures h < |l| && QuoteEnd(l, h, DQUOTE) == h
  {
    assert l[h] == ([] + [DQUOTE])[0];
  }

  /** One printed argument is one token, and the token's value is the argument. */
  lemma TokenOfLiteral(l: Bytes, b: nat, z: Bytes)
    requires HasAt(l, b, CLiteral(z)) && NulFree(z)
    ensures var t := TokenAt(l, b);
            b < |l| && !IsSpace(l[b]) && After(l, t) == b + |CLiteral(z)| && ValueOf(l, t) == z
  {
    Associative([DQUOTE], Escaped(z), [DQUOTE]);
    HasAtSplit(l, b, [DQUOTE], Escaped(z) + [DQUOTE]);
    assert l[b] == [DQUOTE][0];
    FindsClosingQuote(l, b + 1, z);
    var t := TokenAt(l, b);
    assert l[t.start..t.end] == Escaped(z) by {
      HasAtSplit(l, b + 1, Escaped(z), [DQUOTE]);
    }
    DecodeEscaped(z);
  }

  lemma {:induction false} FindsSingleQuote(l: Bytes, h: nat, e: nat)
    requires h <= e < |l| && l[e] == SQUOTE && forall i :: h <= i < e ==> l[i] != SQUOTE
    ensures QuoteEnd(l, h, SQUOTE) == e
    decreases e - h
  {
    if h < e {
      FindsSingleQuote(l, h + 1, e);
    }
  }

  /** Between single quotes every byte stands for itself, backslashes too. */
  lemma TokenOfSingle(l: Bytes, b: nat, z: Bytes)
    requires HasAt(l, b, Form(Single(z))) && WrittenOk(Single(z))
    ensures var t := TokenAt(l, b);
            b < |l| && !IsSpace(l[b]) && After(l, t) == b + |z| + 2 && ValueOf(l, t) == z
  {
    HasAtSplit3(l, b, [SQUOTE], z, [SQUOTE]);
    assert l[b] == [SQUOTE][0] && l[b + 1 + |z|] == [SQUOTE][0];
    assert forall i :: b + 1 <= i < b + 1 + |z| ==> l[i] == z[i - b - 1];
    FindsSingleQuote(l, b + 1, b + 1 + |z|);
    assert l[b + 1..b + 1 + |z|] == z;
  }

  lemma {:induction false} FindsWordEnd(l: Bytes, h: nat, e: nat)
    requires h <= e <= |l| && (e == |l| || IsSpace(l[e])) && forall i :: h <= i < e ==> !IsSpace(l[i])
    ensures WordEnd(l, h) == e
    decreases e - h
  {
    if h < e {
      FindsWordEnd(l, h + 1, e);
    }
  }

  /** Whatever is in it, a bare word ends at white space, which its terminator takes, or at the end of the line. */
  lemma TokenOfAnyWord(l: Bytes, b: nat, raw: Bytes)
    requires HasAt(l, b, raw) && raw != [] && raw[0] != SQUOTE && raw[0] != DQUOTE
    requires forall i :: 0 <= i < |raw| ==> !IsSpace(raw[i])
    requires b + |raw| == |l| || IsSpace(l[b + |raw|])
    ensures var t := TokenAt(l, b);
            && b < |l| && !IsSpace(l[b]) && ValueOf(l, t) == Decoded(raw)
            && After(l, t) == if b + |raw| == |l| then |l| else b + |raw| + 1
  {
    assert l[b] == raw[0];
    assert forall i :: b <= i < b + |raw| ==> l[i] == raw[i - b];
    FindsWordEnd(l, b, b + |raw|);
    assert l[b..b + |raw|] == raw;
    hide WordEnd, Decoded;
  }

  /** Without escapes in it a bare word is its own value. */
  lemma TokenOfWord(l: Bytes, b: nat, z: Bytes)
    requires HasAt(l, b, z) && WrittenOk(Word(z))
    requires b + |z| == |l| || IsSpace(l[b + |z|])
    ensures var t := TokenAt(l, b);
            && b < |l| && !IsSpace(l[b]) && ValueOf(l, t) == z
            && After(l, t) == if b + |z| == |l| then |l| else b + |z| + 1
  {
    TokenOfAnyWord(l, b, z);
    assert NulFree(z);
    hide TokenAt, ValueOf, After;
  }

  /** Only a space is printed as white space. */
  lemma {:induction false} EscapedHasNoSpace(z: Bytes)
    requires SPACE !in z
    ensures forall i :: 0 <= i < |Escaped(z)| ==> !IsSpace(Escaped(z)[i])
    decreases |z|
  {
    if z != [] {
      EscapedHasNoSpace(z[1..]);
      ByteHasNoSpace(z[0]);
      hide EscapeByte;
      assert forall i :: 0 <= i < |z[1..]| ==> z[1..][i] == z[i + 1];
    }
  }

  lemma ByteHasNoSpace(b: Byte)
    requires b != SPACE
    ensures forall i :: 0 <= i < |EscapeByte(b)| ==> !IsSpace(EscapeByte(b)[i])
    ensures EscapeByte(b) != [] && EscapeByte(b)[0] != DQUOTE && (b != SQUOTE ==> EscapeByte(b)[0] != SQUOTE)
  {
  }

  /** Without the quotes, too, escapes are resolved. */
  lemma TokenOfUnquoted(l: Bytes, b: nat, z: Bytes)
    requires HasAt(l, b, Escaped(z)) && WrittenOk(Unquoted(z))
    requires b + |Escaped(z)| == |l| || IsSpace(l[b + |Escaped(z)|])
    ensures var t := TokenAt(l, b);
            && b < |l| && !IsSpace(l[b]) && ValueOf(l, t) == z
            && After(l, t) == if b + |Escaped(z)| == |l| then |l| else b + |Escaped(z)| + 1
  {
    hide TokenAt, ValueOf, After, Decoded, Escaped, HasAt, IsSpace;
    UnquotedIsWord(z);
    DecodeEscaped(z);
    TokenOfAnyWord(l, b, Escaped(z));
  }

  lemma UnquotedIsWord(z: Bytes)
    requires WrittenOk(Unquoted(z))
    ensures Escaped(z) != [] && Escaped(z)[0] != SQUOTE && Escaped(z)[0] != DQUOTE
    ensures forall i :: 0 <= i < |Escaped(z)| ==> !IsSpace(Escaped(z)[i])
  {
    hide EscapeByte;
    EscapedHasNoSpace(z);
    ByteHasNoSpace(z[0]);
  }

  /** What stands between double quotes: a byte, or a backslash and whatever byte it hides. */
  datatype Inside = One(b: Byte) | Two(b: Byte)

  predicate InsideOk(ps: seq<Inside>) {
    forall i :: 0 <= i < |ps| && ps[i].One? ==> ps[i].b != DQUOTE && ps[i].b != BACKSLASH
  }

  function RenderInside(ps: seq<Inside>): Bytes {
    if ps == [] then []
    else (if ps[0].One? then [ps[0].b] else [BACKSLASH, ps[0].b]) + RenderInside(ps[1..])
  }

  /** These stand at h, and then the closing quote, the end of the line, or a backslash that hides only that end. */
  predicate StandsInside(l: Bytes, h: nat, ps: seq<Inside>) {
    && InsideOk(ps) && HasAt(l, h, RenderInside(ps))
    && var e := h + |RenderInside(ps)|;
       e == |l| || l[e] == DQUOTE || (e == |l| - 1 && l[e] == BACKSLASH)
  }

  /** The closing quote is the first one that no backslash hides. */
  lemma {:induction false} QuoteEndExactly(l: Bytes, h: nat, ps: seq<Inside>)
    requires StandsInside(l, h, ps)
    ensures var e := h + |RenderInside(ps)|;
            e <= |l| && QuoteEnd(l, h, DQUOTE) == if e < |l| && l[e] == DQUOTE then e else |l|
    decreases |ps|
  {
    if ps != [] {
      var x := if ps[0].One? then [ps[0].b] else [BACKSLASH, ps[0].b];
      HasAtSplit(l, h, x, RenderInside(ps[1..]));
      assert l[h] == x[0] && (ps[0].Two? ==> l[h + 1] == x[1]);
      assert forall i :: 0 <= i < |ps| - 1 ==> ps[1..][i] == ps[i + 1];
      hide HasAt;
      QuoteEndExactly(l, h + |x|, ps[1..]);
    }
  }

  /** Whatever stands behind a double quote is of that form. */
  lemma {:induction false} InsideFrom(l: Bytes, h: nat) returns (ps: seq<Inside>)
    requires h <= |l|
    ensures StandsInside(l, h, ps)
    decreases |l| - h
  {
    if h == |l| || l[h] == DQUOTE || (l[h] == BACKSLASH && h + 1 == |l|) {
      ps := [];
    } else {
      var x := if l[h] == BACKSLASH then Two(l[h + 1]) else One(l[h]);
      var n := if x.One? then 1 else 2;
      var rest := InsideFrom(l, h + n);
      ps := [x] + rest;
      assert ps[1..] == rest;
      assert HasAt(l, h, RenderInside(ps));
    }
  }

  /** An argument whose quote never closes goes to the end of the line. */
  lemma TokenOfOpenQuote(l: Bytes, b: nat, quote: Byte)
    requires b < |l| && l[b] == quote && (quote == SQUOTE || quote == DQUOTE) && quote !in l[b + 1..]
    ensures var t := TokenAt(l, b);
            && After(l, t) == |l|
            && ValueOf(l, t) == if quote == DQUOTE then Decoded(l[b + 1..]) else l[b + 1..]
  {
    var e := QuoteEnd(l, b + 1, quote);
    hide QuoteEnd, Decoded;
    assert forall i :: b + 1 <= i < |l| ==> l[i] == l[b + 1..][i - b - 1];
    assert e == |l| && l[b + 1..e] == l[b + 1..];
  }

  /** However it is written, an argument is one token with its text as value. */
  lemma TokenOfWritten(l: Bytes, b: nat, w: Written)
    requires HasAt(l, b, Form(w)) && WrittenOk(w)
    requires w.Bare() ==> b + |Form(w)| == |l| || IsSpace(l[b + |Form(w)|])
    ensures var t := TokenAt(l, b);
            && b < |l| && !IsSpace(l[b]) && ValueOf(l, t) == w.text
            && After(l, t) == b + |Form(w)| + if w.Bare() && b + |Form(w)| < |l| then 1 else 0
  {
    hide TokenAt, ValueOf, After, WrittenOk, IsSpace, CLiteral, Escaped;
    TextIsNulFree(w);
    match w
    case Literal(z) => TokenOfLiteral(l, b, z);
    case Single(z) => TokenOfSingle(l, b, z);
    case Word(z) => TokenOfWord(l, b, z);
    case Unquoted(z) => TokenOfUnquoted(l, b, z);
  }

  lemma TextIsNulFree(w: Written)
    requires WrittenOk(w)
    ensures NulFree(w.text)
  {
  }

  function Values(l: Bytes, ts: seq<Token>): seq<Bytes>
    requires forall k :: 0 <= k < |ts| ==> ts[k].start <= ts[k].end <= |l|
  {
    if ts == [] then [] else [ValueOf(l, ts[0])] + Values(l, ts[1..])
  }

  function First<T>(s: seq<T>, n: nat): seq<T> {
    if |s| <= n then s else s[..n]
  }

  lemma FormStarts(w: Written)
    requires WrittenOk(w)
    ensures Form(w) != [] && !IsSpace(Form(w)[0])
  {
    if w.Unquoted? {
      ByteHasNoSpace(w.text[0]);
    }
  }

  /** Where the first argument starts and where it ends. */
  lemma FirstPlace(l: Bytes, h: nat, args: seq<Placed>, tail: Bytes)
    requires args != [] && AllOk(args) && HasAt(l, h, Forms(args, tail))
    ensures var b := h + |args[0].gap|;
            var e := b + |Form(args[0].arg)|;
            && b < e <= |l| && SkipSpaces(l, h) == b && !IsSpace(l[b])
            && HasAt(l, b, Form(args[0].arg)) && HasAt(l, e, Forms(args[1..], tail))
  {
    hide Form, WrittenOk, IsSpace, HasAt, SkipSpaces;
    var gap, form := args[0].gap, Form(args[0].arg);
    FormStarts(args[0].arg);
    HasAtSplit3(l, h, gap, form, Forms(args[1..], tail));
    SpacesAt(l, h, gap);
    HasAtRest(l, h + |gap|, form);
  }

  lemma SpacesAt(l: Bytes, h: nat, gap: Bytes)
    requires HasAt(l, h, gap) && AllSpaces(gap)
    ensures h + |gap| <= |l| && forall i :: h <= i < h + |gap| ==> IsSpace(l[i])
  {
    hide IsSpace;
    assert forall i :: h <= i < h + |gap| ==> l[i] == gap[i - h];
  }

  /** What follows a bare argument starts with white space. */
  lemma SpaceBehind(args: seq<Placed>, tail: Bytes)
    requires AllOk(args) && AllSpaces(tail) && (args != [] ==> args[0].gap != [])
    ensures Forms(args, tail) == [] ==> args == []
    ensures Forms(args, tail) != [] ==> IsSpace(Forms(args, tail)[0])
  {
    hide Form, IsSpace;
  }

  /** The arguments with one byte less of the white space that comes first, and the rest of the line likewise. */
  function Shortened(args: seq<Placed>): seq<Placed>
    requires args != [] ==> args[0].gap != []
  {
    if args == [] then [] else [Placed(args[0].gap[1..], args[0].arg)] + args[1..]
  }

  function ShortTail(args: seq<Placed>, tail: Bytes): Bytes
    requires args == [] ==> tail != []
  {
    if args == [] then tail[1..] else tail
  }

  lemma ShortenedForms(args: seq<Placed>, tail: Bytes)
    requires AllOk(args) && AllSpaces(tail) && if args == [] then tail != [] else args[0].gap != []
    ensures Forms(args, tail) != [] && Forms(Shortened(args), ShortTail(args, tail)) == Forms(args, tail)[1..]
    ensures AllOk(Shortened(args)) && AllSpaces(ShortTail(args, tail)) && TextsOf(Shortened(args)) == TextsOf(args)
  {
    hide Form, WrittenOk, IsSpace;
    if args != [] {
      assert Shortened(args)[1..] == args[1..];
      ShorterGap(args[0].gap, Form(args[0].arg), Forms(args[1..], tail));
    }
  }

  lemma ShorterGap(gap: Bytes, form: Bytes, rest: Bytes)
    requires gap != []
    ensures (gap + form + rest)[1..] == gap[1..] + form + rest
  {
  }

  lemma HasAtRest(l: Bytes, p: nat, x: Bytes)
    requires HasAt(l, p, x) && x != []
    ensures p < |l| && l[p] == x[0] && HasAt(l, p + 1, x[1..])
  {
    assert forall i :: 0 <= i < |x[1..]| ==> x[1..][i] == x[i + 1];
  }

  /** The arguments that are still to be cut stand at `h`, and nothing else does. */
  predicate Stand(l: Bytes, h: nat, args: seq<Placed>, tail: Bytes) {
    HasAt(l, h, Forms(args, tail)) && h + |Forms(args, tail)| == |l| && AllOk(args) && AllSpaces(tail)
  }

  /** Where the first argument ends, the rest of the list stands. */
  lemma RestStands(l: Bytes, h: nat, args: seq<Placed>, tail: Bytes)
    requires Stand(l, h, args, tail) && args != []
    ensures var b := h + |args[0].gap|;
            var e := b + |Form(args[0].arg)|;
            && e <= |l| && SkipSpaces(l, h) == b && HasAt(l, b, Form(args[0].arg)) && Stand(l, e, args[1..], tail)
            && h <= |l| && WrittenOk(args[0].arg)
            && (args[0].arg.Bare() && |args| > 1 ==> args[1].gap != [])
  {
    FirstPlace(l, h, args, tail);
    hide HasAt, Form, WrittenOk, SkipSpaces, IsSpace, AllOk, AllSpaces;
  }

  /** The first token of a list. */
  lemma FirstToken(l: Bytes, h: nat, args: seq<Placed>, tail: Bytes, most: nat) returns (h': nat)
    requires Stand(l, h, args, tail) && args != [] && most > 0
    ensures h <= |l| && h' <= |l|
    ensures Values(l, Tokens(l, h, most)) == [args[0].arg.text] + Values(l, Tokens(l, h', most - 1))
    ensures var e := h + |args[0].gap| + |Form(args[0].arg)|;
            h' == e + if args[0].arg.Bare() && e < |l| then 1 else 0
  {
    hide HasAt, Forms, Form, TokenAt, ValueOf, WrittenOk, IsSpace, Tokens, Values, SkipSpaces, After, Stand;
    RestStands(l, h, args, tail);
    var b := h + |args[0].gap|;
    if args[0].arg.Bare() {
      BareEnds(l, b + |Form(args[0].arg)|, args[1..], tail);
    }
    TokenOfWritten(l, b, args[0].arg);
    h' := After(l, TokenAt(l, b));
    TokensCons(l, h, most);
    ValuesCons(l, TokenAt(l, b), Tokens(l, h', most - 1));
  }

  /** The list goes on behind the white space that the terminator of a bare argument takes. */
  lemma StandsOn(l: Bytes, e: nat, args: seq<Placed>, tail: Bytes)
    requires Stand(l, e, args, tail) && e < |l| && if args == [] then tail != [] else args[0].gap != []
    ensures Stand(l, e + 1, Shortened(args), ShortTail(args, tail)) && TextsOf(Shortened(args)) == TextsOf(args)
  {
    hide HasAt, Forms, AllOk, AllSpaces, TextsOf;
    ShortenedForms(args, tail);
    HasAtRest(l, e, Forms(args, tail));
  }

  /** The first argument, and where the rest of the list stands. */
  lemma FirstArgument(l: Bytes, h: nat, args: seq<Placed>, tail: Bytes, most: nat)
    returns (h': nat, args': seq<Placed>, tail': Bytes)
    requires Stand(l, h, args, tail) && args != [] && most > 0
    ensures h <= |l| && h' <= |l|
    ensures Stand(l, h', args', tail') && |args'| == |args| - 1 && TextsOf(args') == TextsOf(args[1..])
    ensures Values(l, Tokens(l, h, most)) == [args[0].arg.text] + Values(l, Tokens(l, h', most - 1))
  {
    hide HasAt, Forms, Form, WrittenOk, IsSpace, Tokens, Values, SkipSpaces, Stand, TextsOf, Shortened, ShortTail;
    h' := FirstToken(l, h, args, tail, most);
    RestStands(l, h, args, tail);
    var e := h + |args[0].gap| + |Form(args[0].arg)|;
    args', tail' := args[1..], tail;
    if args[0].arg.Bare() && e < |l| {
      BareEnds(l, e, args', tail');
      StandsOn(l, e, args', tail');
      ShortenedLength(args');
      args', tail' := Shortened(args'), ShortTail(args', tail');
    }
  }

  lemma ShortenedLength(args: seq<Placed>)
    requires args != [] ==> args[0].gap != []
    ensures |Shortened(args)| == |args|
  {
  }

  /** Behind a bare argument. */
  lemma BareEnds(l: Bytes, e: nat, args: seq<Placed>, tail: Bytes)
    requires Stand(l, e, args, tail) && (args != [] ==> args[0].gap != [])
    ensures e <= |l| && if e == |l| then args == [] else IsSpace(l[e]) && (args == [] ==> tail != [])
  {
    SpaceBehind(args, tail);
    hide IsSpace, AllOk, AllSpaces;
    if e < |l| {
      HasAtRest(l, e, Forms(args, tail));
    }
  }

  lemma {:induction false} TokensOfArgs(l: Bytes, h: nat, args: seq<Placed>, tail: Bytes, most: nat)
    requires Stand(l, h, args, tail)
    ensures h <= |l| && Values(l, Tokens(l, h, most)) == First(TextsOf(args), most)
    decreases |args|
  {
    hide Stand, First, Tokens, Values, TextsOf, SkipSpaces;
    StandsWithin(l, h, args, tail);
    if most == 0 {
      NoArguments(l, h, TextsOf(args), most);
    } else if args == [] {
      OnlySpaces(l, h, tail);
      NoTexts();
      NoArguments(l, h, TextsOf(args), most);
    } else {
      var h', args', tail' := FirstArgument(l, h, args, tail, most);
      TextsCons(args);
      FirstCons(TextsOf(args), most);
      TokensOfArgs(l, h', args', tail', most - 1);
    }
  }

  lemma NoTexts()
    ensures TextsOf([]) == []
  {
  }

  lemma TextsCons(args: seq<Placed>)
    requires args != []
    ensures TextsOf(args) == [args[0].arg.text] + TextsOf(args[1..])
  {
  }

  lemma StandsWithin(l: Bytes, h: nat, args: seq<Placed>, tail: Bytes)
    requires Stand(l, h, args, tail)
    ensures h <= |l|
  {
  }

  lemma OnlySpaces(l: Bytes, h: nat, tail: Bytes)
    requires Stand(l, h, [], tail)
    ensures h <= |l| && SkipSpaces(l, h) == |l|
  {
    assert forall i :: h <= i < |l| ==> l[i] == tail[i - h];
  }

  lemma NoArguments(l: Bytes, h: nat, texts: seq<Bytes>, most: nat)
    requires h <= |l| && (most == 0 || (SkipSpaces(l, h) == |l| && texts == []))
    ensures Values(l, Tokens(l, h, most)) == [] == First(texts, most)
  {
  }

  lemma FirstCons<T>(s: seq<T>, n: nat)
    requires s != [] && n > 0
    ensures First(s, n) == [s[0]] + First(s[1..], n - 1)
  {
  }

  lemma TokensCons(l: Bytes, h: nat, most: nat)
    requires h <= |l| && SkipSpaces(l, h) < |l| && most > 0
    ensures var t := TokenAt(l, SkipSpaces(l, h)); Tokens(l, h, most) == [t] + Tokens(l, After(l, t), most - 1)
  {
  }

  lemma ValuesCons(l: Bytes, t: Token, ts: seq<Token>)
    requires t.start <= t.end <= |l| && forall k :: 0 <= k < |ts| ==> ts[k].start <= ts[k].end <= |l|
    ensures Values(l, [t] + ts) == [ValueOf(l, t)] + Values(l, ts)
  {
    assert ([t] + ts)[1..] == ts;
  }

  lemma ValuesAreArguments(l: Bytes, ts: seq<Token>)
    requires forall k :: 0 <= k < |ts| ==> ts[k].start <= ts[k].end <= |l|
    ensures |Values(l, ts)| == |ts| && forall k :: 0 <= k < |ts| ==> Values(l, ts)[k] == ValueOf(l, ts[k])
  {
    if ts != [] {
      ValuesAreArguments(l, ts[1..]);
    }
  }

  lemma TextsLength(args: seq<Placed>)
    ensures |TextsOf(args)| == |args|
  {
  }

  lemma {:induction false} FormsNulFree(args: seq<Placed>, tail: Bytes)
    requires AllOk(args) && AllSpaces(tail)
    ensures NulFree(Forms(args, tail))
    decreases |args|
  {
    if args != [] {
      EscapedIsPrintable(args[0].arg.text);
      assert NulFree(Form(args[0].arg)) && NulFree(args[0].gap);
      FormsNulFree(args[1..], tail);
      hide Form, AllOk;
      assert NulFree(args[0].gap + Form(args[0].arg));
    }
  }

  lemma ArgumentsAreValues(l: Bytes)
    requires 1 <= |l|
    ensures Arguments(l) == Values(l, Tokens(l, 1, MAX_ARGS))
  {
    hide Values, ValueOf, Tokens;
    ValuesAreArguments(l, Tokens(l, 1, MAX_ARGS));
  }

  lemma FirstWhole<T>(s: seq<T>, n: nat)
    ensures First(s, n) == s <==> |s| <= n
  {
  }

  /** A list of arguments, each written in any of the four ways, in any white space, is cut back into its
      texts, up to the limit of 50; they come back whole exactly when there are at most 50. */
  lemma WrittenArgumentsComeBack(args: seq<Placed>, tail: Bytes)
    requires AllOk(args) && AllSpaces(tail)
    ensures NulFree(DotLine(args, tail))
    ensures Arguments(DotLine(args, tail)) == First(TextsOf(args), 50)
    ensures Arguments(DotLine(args, tail)) == TextsOf(args) <==> |args| <= 50
  {
    hide Values, ValueOf, Tokens, First, Stand, TextsOf, DotLine, Arguments, NulFree, AllOk, AllSpaces;
    var l := DotLine(args, tail);
    DotLineStands(args, tail);
    TokensOfArgs(l, 1, args, tail, MAX_ARGS);
    ArgumentsAreValues(l);
    TextsLength(args);
    FirstWhole(TextsOf(args), MAX_ARGS);
  }

  lemma DotLineStands(args: seq<Placed>, tail: Bytes)
    requires AllOk(args) && AllSpaces(tail)
    ensures var l := DotLine(args, tail); NulFree(l) && 1 <= |l| && Stand(l, 1, args, tail)
  {
    hide AllOk, AllSpaces, Forms;
    FormsNulFree(args, tail);
  }

  /** All arguments as output_c_string prints them, one space between them. */
  function Literals(args: seq<Bytes>): (ws: seq<Placed>)
    ensures |ws| == |args|
    ensures forall i :: 0 <= i < |ws| ==> ws[i] == Placed(if i == 0 then [] else [SPACE], Literal(args[i]))
  {
    seq(|args|, i requires 0 <= i < |args| => Placed(if i == 0 then [] else [SPACE], Literal(args[i])))
  }

  lemma {:induction false} LiteralTexts(ws: seq<Placed>, args: seq<Bytes>)
    requires |ws| == |args| && forall i :: 0 <= i < |ws| ==> ws[i].arg == Literal(args[i])
    ensures TextsOf(ws) == args
    decreases |ws|
  {
    if ws != [] {
      LiteralTexts(ws[1..], args[1..]);
    }
  }

  /** The line of printed literals has printable bytes only, so it is one input line. */
  lemma {:induction false} LiteralsArePrintable(ws: seq<Placed>)
    requires forall i :: 0 <= i < |ws| ==> ws[i].arg.Literal? && AllPrintable(ws[i].gap)
    ensures AllPrintable(Forms(ws, []))
    decreases |ws|
  {
    if ws != [] {
      EscapedIsPrintable(ws[0].arg.text);
      assert AllPrintable(ws[0].gap + Form(ws[0].arg));
      hide Form;
      LiteralsArePrintable(ws[1..]);
    }
  }

  /** Any list of C strings printed by output_c_string comes back, whole exactly up to 50 entries. */
  lemma ArgumentsComeBack(args: seq<Bytes>)
    requires forall i :: 0 <= i < |args| ==> NulFree(args[i])
    ensures LF !in DotLine(Literals(args), []) && NulFree(DotLine(Literals(args), []))
    ensures Arguments(DotLine(Literals(args), [])) == First(args, 50)
    ensures Arguments(DotLine(Literals(args), [])) == args <==> |args| <= 50
  {
    hide Arguments, Forms, First;
    LiteralTexts(Literals(args), args);
    LiteralsArePrintable(Literals(args));
    WrittenArgumentsComeBack(Literals(args), []);
  }
}
