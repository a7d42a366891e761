/** How a dot-command line is cut into arguments: shell.c 2617-2646. */
module MetaCommand {
  import opened CBytes
  import opened CStrings

  const MAX_ARGS: nat := 50

  /** An argument's raw text is line[start..end]; quote is NUL for an unquoted one. */
  datatype Token = Token(start: nat, end: nat, quote: Byte)

  function WordEnd(l: Bytes, h: nat): (e: nat)
    requires h <= |l|
    ensures h <= e <= |l| && (e < |l| ==> IsSpace(l[e]))
    ensures forall i :: h <= i < e ==> !IsSpace(l[i])
    decreases |l| - h
  {
    if h == |l| || IsSpace(l[h]) then h else WordEnd(l, h + 1)
  }

  /** The closing quote; inside double quotes a backslash hides the next byte. */
  function QuoteEnd(l: Bytes, h: nat, quote: Byte): (e: nat)
    requires h <= |l|
    ensures h <= e <= |l| && (e < |l| ==> l[e] == quote)
    decreases |l| - h
  {
    if h == |l| || l[h] == quote then h
    else if l[h] == BACKSLASH && quote == DQUOTE && h + 1 < |l| then QuoteEnd(l, h + 2, quote)
    else QuoteEnd(l, h + 1, quote)
  }

  /** The argument at a position that is neither space nor the end. */
  function TokenAt(l: Bytes, b: nat): (t: Token)
    requires b < |l|
    ensures b <= t.start <= t.end <= |l|
    ensures t.quote == NUL ==> t.start == b
    ensures t.quote != NUL ==> t.start == b + 1
  {
    if l[b] == SQUOTE || l[b] == DQUOTE then Token(b + 1, QuoteEnd(l, b + 1, l[b]), l[b])
    else Token(b, WordEnd(l, b), NUL)
  }

  /** Where scanning goes on after an argument. */
  function After(l: Bytes, t: Token): nat {
    if t.end < |l| then t.end + 1 else t.end
  }

  function Tokens(l: Bytes, h: nat, most: nat): (ts: seq<Token>)
    requires h <= |l|
    ensures |ts| <= most
    ensures forall k :: 0 <= k < |ts| ==> h <= ts[k].start <= ts[k].end <= |l|
    decreases most
  {
    if most == 0 then []
    else
      var b := SkipSpaces(l, h);
      if b == |l| then []
      else
        var t := TokenAt(l, b);
        [t] + Tokens(l, After(l, t), most - 1)
  }

  /** The argument an escape-resolved token stands for; single quotes resolve nothing. */
  function ValueOf(l: Bytes, t: Token): Bytes
    requires t.start <= t.end <= |l|
  {
    if t.quote == SQUOTE then l[t.start..t.end] else Decoded(l[t.start..t.end])
  }

  function Arguments(l: Bytes): seq<Bytes>
    requires 1 <= |l|
  {
    var ts := Tokens(l, 1, MAX_ARGS);
    seq(|ts|, k requires 0 <= k < |ts| => ValueOf(l, ts[k]))
  }

  /** Each argument, with the byte its terminator takes, ends before the next one starts. */
  lemma {:induction false} TokensAreDisjoint(l: Bytes, h: nat, most: nat, i: nat, j: nat)
    requires h <= |l| && i < j < |Tokens(l, h, most)|
    ensures Tokens(l, h, most)[i].end < Tokens(l, h, most)[j].start
    decreases most
  {
    hide TokenAt, SkipSpaces;
    var t := TokenAt(l, SkipSpaces(l, h));
    var rest := Tokens(l, After(l, t), most - 1);
    assert Tokens(l, h, most) == [t] + rest;
    if i == 0 {
      assert rest[j - 1].start >= After(l, t);
    } else {
      TokensAreDisjoint(l, After(l, t), most - 1, i - 1, j - 1);
    }
  }

  /** From position h on, the buffer still holds the line. */
  predicate Untouched(a: array<Byte>, h: nat, l: Bytes)
    reads a
  {
    |l| < a.Length && forall k :: h <= k <= |l| ==> a[k] == At(l, k)
  }

  method FindQuote(a: array<Byte>, start: nat, quote: Byte, ghost l: Bytes) returns (h: nat)
    requires start <= |l| && Untouched(a, start, l) && NulFree(l) && quote != NUL
    ensures h == QuoteEnd(l, start, quote)
  {
    h := start;
    while a[h] != NUL && a[h] != quote
      invariant start <= h <= |l| && QuoteEnd(l, h, quote) == QuoteEnd(l, start, quote)
      decreases |l| - h
    {
      if a[h] == BACKSLASH && quote == DQUOTE && a[h + 1] != NUL {
        h := h + 1;
      }
      h := h + 1;
    }
  }

  method FindSpace(a: array<Byte>, start: nat, ghost l: Bytes) returns (h: nat)
    requires start <= |l| && Untouched(a, start, l) && NulFree(l)
    ensures h == WordEnd(l, start)
  {
    h := start;
    while a[h] != NUL && !IsSpace(a[h])
      invariant start <= h <= |l| && WordEnd(l, h) == WordEnd(l, start)
      decreases |l| - h
    {
      h := h + 1;
    }
  }

  method SkipBlanks(a: array<Byte>, start: nat, ghost l: Bytes) returns (h: nat)
    requires start <= |l| && Untouched(a, start, l) && NulFree(l)
    ensures h == SkipSpaces(l, start)
  {
    h := start;
    while IsSpace(a[h])
      invariant start <= h <= |l| && SkipSpaces(l, h) == SkipSpaces(l, start)
      decreases |l| - h
    {
      h := h + 1;
    }
  }

  /** Terminates the raw text start..end and resolves its escapes, touching nothing else. */
  method Finish(a: array<Byte>, start: nat, end: nat, resolve: bool, ghost l: Bytes) returns (h: nat)
    requires start <= end <= |l| && Untouched(a, start, l) && NulFree(l)
    modifies a
    ensures h == if end < |l| then end + 1 else end
    ensures forall k :: 0 <= k < start || |l| < k < a.Length ==> a[k] == old(a[k])
    ensures Untouched(a, h, l)
    ensures Holds(a, start, if resolve then Decoded(l[start..end]) else l[start..end])
  {
    hide Decoded;
    h := end;
    if a[h] != NUL {
      a[h] := NUL;
      h := h + 1;
    }
    ghost var raw := l[start..end];
    assert Holds(a, start, raw) by {
      assert forall k :: 0 <= k < |raw| ==> a[start + k] == raw[k];
    }
    if resolve {
      ResolveBackslashes(a, start, raw);
    }
  }

  /** One argument, found at `b`. */
  method TakeToken(a: array<Byte>, b: nat, ghost l: Bytes) returns (start: nat, h: nat)
    requires b < |l| && Untouched(a, b, l) && NulFree(l) && !IsSpace(l[b])
    modifies a
    ensures var t := TokenAt(l, b);
            start == t.start && h == After(l, t) && Holds(a, start, ValueOf(l, t))
    ensures forall k :: 0 <= k < b ==> a[k] == old(a[k])
    ensures Untouched(a, h, l)
  {
    if a[b] == SQUOTE || a[b] == DQUOTE {
      var delim := a[b];
      start := b + 1;
      var end := FindQuote(a, start, delim, l);
      h := Finish(a, start, end, delim == DQUOTE, l);
    } else {
      start := b;
      var end := FindSpace(a, start, l);
      h := Finish(a, start, end, true, l);
    }
  }

  /** The first n arguments stand in the buffer, terminators included, before position h. */
  ghost predicate ArgumentsHeld(a: array<Byte>, l: Bytes, ts: seq<Token>, n: nat, h: nat)
    requires n <= |ts| && forall k :: 0 <= k < |ts| ==> ts[k].start <= ts[k].end <= |l|
    reads a
  {
    forall k {:trigger ts[k]} :: 0 <= k < n ==> Holds(a, ts[k].start, ValueOf(l, ts[k])) && (h < |l| ==> ts[k].end < h)
  }

  lemma ValueFits(l: Bytes, t: Token)
    requires t.start <= t.end <= |l|
    ensures t.start + |ValueOf(l, t)| <= t.end
  {
  }

  /** The state of the scan at position h: what was cut off and what is still to be cut. */
  ghost predicate Scanned(a: array<Byte>, l: Bytes, ts: seq<Token>, azArg: seq<nat>, h: nat)
    requires h <= |l|
    reads a
  {
    && Untouched(a, h, l)
    && |azArg| <= |ts| && |azArg| <= MAX_ARGS
    && (forall k :: 0 <= k < |ts| ==> ts[k].start <= ts[k].end <= |l|)
    && ts[|azArg|..] == Tokens(l, h, MAX_ARGS - |azArg|)
    && (forall k :: 0 <= k < |azArg| ==> azArg[k] == ts[k].start)
    && ArgumentsHeld(a, l, ts, |azArg|, h)
  }

  lemma NextToken(l: Bytes, ts: seq<Token>, n: nat, b: nat, most: nat)
    requires b < |l| && !IsSpace(l[b]) && most > 0 && n <= |ts| && ts[n..] == Tokens(l, b, most)
    ensures n < |ts| && ts[n] == TokenAt(l, b) && ts[n + 1..] == Tokens(l, After(l, TokenAt(l, b)), most - 1)
  {
    assert ts[n..][0] == ts[n] && ts[n..][1..] == ts[n + 1..];
  }

  lemma SkippingScans(a: array<Byte>, l: Bytes, ts: seq<Token>, azArg: seq<nat>, h: nat)
    requires h <= |l| && Scanned(a, l, ts, azArg, h)
    ensures Scanned(a, l, ts, azArg, SkipSpaces(l, h))
    ensures SkipSpaces(l, SkipSpaces(l, h)) == SkipSpaces(l, h)
  {
    hide Holds, ValueOf;
  }

  method TakeNext(a: array<Byte>, azArg0: seq<nat>, b: nat, ghost l: Bytes, ghost ts: seq<Token>)
    returns (azArg: seq<nat>, h: nat)
    requires b < |l| && NulFree(l) && !IsSpace(l[b]) && |azArg0| < MAX_ARGS
    requires Scanned(a, l, ts, azArg0, b)
    modifies a
    ensures h <= |l| && |azArg| == |azArg0| + 1 && Scanned(a, l, ts, azArg, h)
  {
    hide ValueOf, Tokens, TokenAt;
    NextToken(l, ts, |azArg0|, b, MAX_ARGS - |azArg0|);
    var start: nat;
    start, h := TakeToken(a, b, l);
    forall i | 0 <= i < |azArg0|
      ensures Holds(a, ts[i].start, ValueOf(l, ts[i]))
    {
      ValueFits(l, ts[i]);
    }
    azArg := azArg0 + [start];
  }

  lemma ScanStarts(a: array<Byte>, l: Bytes)
    requires Holds(a, 0, l) && |l| >= 1
    ensures |l| < a.Length && Scanned(a, l, Tokens(l, 1, MAX_ARGS), [], 1)
  {
    assert Untouched(a, 1, l) by {
      assert forall k :: 0 <= k < |l| ==> a[0 + k] == l[k];
    }
    assert Tokens(l, 1, MAX_ARGS)[0..] == Tokens(l, 1, MAX_ARGS);
  }

  lemma ScannedByte(a: array<Byte>, l: Bytes, ts: seq<Token>, azArg: seq<nat>, h: nat)
    requires h <= |l| && Scanned(a, l, ts, azArg, h) && NulFree(l)
    ensures h < a.Length && Untouched(a, h, l)
    ensures a[h] == NUL <==> h == |l|
    ensures a[h] != NUL ==> IsSpace(a[h]) == IsSpace(l[h])
    ensures h == SkipSpaces(l, h) && h < |l| ==> !IsSpace(l[h])
  {
  }

  lemma {:induction false} ScanEnds(a: array<Byte>, l: Bytes, azArg: seq<nat>, h: nat)
    requires 1 <= |l| && h <= |l| < a.Length && NulFree(l)
    requires Scanned(a, l, Tokens(l, 1, MAX_ARGS), azArg, h)
    requires a[h] == NUL || |azArg| >= MAX_ARGS
    ensures |azArg| == |Arguments(l)| <= MAX_ARGS
    ensures forall k :: 0 <= k < |azArg| ==> azArg[k] == Tokens(l, 1, MAX_ARGS)[k].start
    ensures forall k :: 0 <= k < |azArg| ==> Holds(a, azArg[k], Arguments(l)[k])
  {
    hide Holds, ValueOf;
    var ts := Tokens(l, 1, MAX_ARGS);
    assert ts[|azArg|..] == [] by {
      ScannedByte(a, l, ts, azArg, h);
    }
    assert forall k :: 0 <= k < |ts| ==> Arguments(l)[k] == ValueOf(l, ts[k]);
  }

  /** Cuts the line, a C string in a buffer, into at most 50 arguments in place. */
  method Tokenize(zLine: array<Byte>, ghost l: Bytes) returns (azArg: seq<nat>)
    requires Holds(zLine, 0, l) && NulFree(l) && |l| >= 1
    modifies zLine
    ensures |azArg| == |Arguments(l)| <= MAX_ARGS
    ensures forall k :: 0 <= k < |azArg| ==> azArg[k] == Tokens(l, 1, MAX_ARGS)[k].start
    ensures forall k :: 0 <= k < |azArg| ==> Holds(zLine, azArg[k], Arguments(l)[k])
  {
    hide Scanned, Tokens, Holds, SkipSpaces, NulFree, Arguments;
    var h: nat := 1;
    azArg := [];
    ghost var ts := Tokens(l, 1, MAX_ARGS);
    ScanStarts(zLine, l);
    while zLine[h] != NUL && |azArg| < MAX_ARGS
      invariant h <= |l| < zLine.Length && Scanned(zLine, l, ts, azArg, h)
      decreases MAX_ARGS - |azArg|
    {
      SkippingScans(zLine, l, ts, azArg, h);
      ScannedByte(zLine, l, ts, azArg, h);
      h := SkipBlanks(zLine, h, l);
      ScannedByte(zLine, l, ts, azArg, h);
      if zLine[h] == NUL {
        break;
      }
      azArg, h := TakeNext(zLine, azArg, h, l, ts);
    }
    ScanEnds(zLine, l, azArg, h);
  }
}
