/** How input lines become SQL statements: what process_input (shell.c 4146-4255) does. */
module SqlInput {
  import opened CBytes
  import opened CStrings
  import opened Whitespace

  /** What the shell asks of its surroundings: whether a text is a complete
      statement, what a dot-command returns, whether running a statement fails,
      and whether it goes on after errors when a given number of lines was read. */
  datatype Env = Env(
    complete: Bytes -> bool,
    command: (nat, Bytes) -> int,
    fails: (nat, Bytes) -> bool,
    lenient: nat -> bool,
    backslashOn: bool)

  /** What became of the lines from..to. */
  datatype Event =
    | Skipped(line: nat)
    | Command(line: nat, result: int)
    | Executed(from: nat, to: nat, text: Bytes, failed: bool)
    | Discarded(from: nat, to: nat)
  {
    function First(): nat {
      match this
      case Skipped(i) => i
      case Command(i, _) => i
      case Executed(a, _, _, _) => a
      case Discarded(a, _) => a
    }

    function End(): nat {
      match this
      case Skipped(i) => i + 1
      case Command(i, _) => i + 1
      case Executed(_, b, _, _) => b
      case Discarded(_, b) => b
    }

    /** The event emptied the statement buffer. */
    predicate UsedBuffer() {
      Executed? || Discarded?
    }

    predicate Failed() {
      (Command? && result != 0 && result != 2) || (Executed? && failed)
    }
  }

  /** Lines start..next are gathered in `text`, which is empty when there are none. */
  datatype State = State(text: Bytes, start: nat, next: nat, events: seq<Event>, errors: nat, stopped: bool)

  const INITIAL := State([], 0, 0, [], 0, false)

  /** The line without the white space it begins with. */
  function TrimLeft(line: Bytes): (t: Bytes)
    ensures |t| <= |line| && line[|line| - |t|..] == t && (t != [] ==> !IsSpace(t[0]))
    ensures forall i :: 0 <= i < |line| - |t| ==> IsSpace(line[i])
  {
    line[SkipSpaces(line, 0)..]
  }

  /** The statement buffer exists once a line went into it. */
  predicate HasBuffer(events: seq<Event>) {
    exists i :: 0 <= i < |events| && events[i].UsedBuffer()
  }

  /** The line as it is gathered: a terminator after complete text becomes a semicolon. */
  function Terminated(env: Env, text: Bytes, line: Bytes, hasBuffer: bool): Bytes {
    if IsTerminator(line) && (!hasBuffer || env.complete(text + [SEMI])) then [SEMI] else line
  }

  function Gathered(env: Env, text: Bytes, line: Bytes, hasBuffer: bool): Bytes {
    var l := Terminated(env, text, line, hasBuffer);
    if text == [] then TrimLeft(l) else text + [LF] + l
  }

  /** The text is executed: what was added last has a semicolon and all of it is complete. */
  predicate Ready(env: Env, before: Bytes, text: Bytes) {
    |before| <= |text| && SEMI in text[|before|..] && env.complete(text)
  }

  function Statement(env: Env, text: Bytes): Bytes {
    if env.backslashOn then UpToNul(Decoded(text)) else text
  }

  /** The state after an event that leaves the buffer empty. */
  function Emptied(s: State, e: Event, stopped: bool): State {
    State([], e.End(), e.End(), s.events + [e], s.errors + (if e.Failed() then 1 else 0), stopped)
  }

  /** What becomes of the text once the line before `next` is in it. */
  function Dispatched(env: Env, s: State, text: Bytes, next: nat): State
    requires next > 0
  {
    if text != [] && Ready(env, s.text, text) then
      var sql := Statement(env, text);
      Emptied(s, Executed(s.start, next, sql, env.fails(next - 1, sql)), s.stopped)
    else if text != [] && AllBlank(text, 0) then
      Emptied(s, Discarded(s.start, next), s.stopped)
    else
      s.(text := text, next := next)
  }

  /** What one line does. */
  function Step(env: Env, s: State, line: Bytes): State {
    if s.text == [] && AllBlank(line, 0) then
      Emptied(s, Skipped(s.next), s.stopped)
    else if s.text == [] && line != [] && line[0] == DOT then
      var result := env.command(s.next, line);
      Emptied(s, Command(s.next, result), result == 2)
    else
      Dispatched(env, s, Gathered(env, s.text, line, s.text != [] || HasBuffer(s.events)), s.next + 1)
  }

  predicate GoesOn(env: Env, s: State) {
    !s.stopped && (s.errors == 0 || env.lenient(s.next))
  }

  /** All lines, until the input ends, a command asks to exit, or an error ends the run. */
  function Run(env: Env, s: State, lines: seq<Bytes>): State
    requires s.next <= |lines|
    decreases |lines| - s.next
  {
    if s.next == |lines| || !GoesOn(env, s) then s else Run(env, Step(env, s, lines[s.next]), lines)
  }

  /** Text gathered but never executed counts as one more error unless it is blank. */
  function FinalErrors(s: State): nat {
    s.errors + if s.text != [] && !AllBlank(s.text, 0) then 1 else 0
  }

  // ------------------------------------------------------------ what the lines themselves say

  /** The text that a run of lines makes: the lines as they are kept, joined by LF, the first one trimmed. */
  function SqlText(env: Env, lines: seq<Bytes>, hasBuffer: bool): Bytes
    requires lines != []
    decreases |lines|, 0
  {
    var n := |lines| - 1;
    if n == 0 then TrimLeft(Kept(env, lines, hasBuffer))
    else SqlText(env, lines[..n], hasBuffer) + [LF] + Kept(env, lines, hasBuffer)
  }

  /** The last line as it is kept: a terminator whose semicolon would complete the text is that semicolon. */
  function Kept(env: Env, lines: seq<Bytes>, hasBuffer: bool): Bytes
    requires lines != []
    decreases |lines|, -1
  {
    var n := |lines| - 1;
    var completes := if n > 0 then env.complete(SqlText(env, lines[..n], hasBuffer) + [SEMI])
                     else !hasBuffer || env.complete([SEMI]);
    if IsTerminator(lines[n]) && completes then [SEMI] else lines[n]
  }

  /** The lines begin a statement: the first one is neither blank nor a dot-command. */
  predicate Begins(lines: seq<Bytes>) {
    lines != [] && !AllBlank(lines[0], 0) && (lines[0] == [] || lines[0][0] != DOT)
  }

  /** The first k lines are complete SQL, and the last of them has a semicolon. */
  predicate CompleteAt(env: Env, lines: seq<Bytes>, hasBuffer: bool, k: nat)
    requires 1 <= k <= |lines|
  {
    SEMI in Kept(env, lines[..k], hasBuffer) && env.complete(SqlText(env, lines[..k], hasBuffer))
  }

  /** After none of the first n lines there was complete SQL or no SQL at all. */
  predicate Undecided(env: Env, lines: seq<Bytes>, hasBuffer: bool, n: nat)
    requires n <= |lines|
  {
    forall k :: 1 <= k <= n ==>
      !CompleteAt(env, lines, hasBuffer, k) && !AllBlank(SqlText(env, lines[..k], hasBuffer), 0)
  }

  /** An event tells the truth about its lines; `hasBuffer` is whether earlier ones used the buffer. */
  predicate EventFits(env: Env, lines: seq<Bytes>, e: Event, hasBuffer: bool) {
    && e.First() < e.End()
    && e.End() <= |lines|
    && FitsLines(env, lines[e.First()..e.End()], e, hasBuffer)
  }

  predicate FitsLines(env: Env, ls: seq<Bytes>, e: Event, hasBuffer: bool)
    requires ls != []
  {
    match e
    case Skipped(_) => AllBlank(ls[0], 0)
    case Command(i, r) => ls[0] != [] && ls[0][0] == DOT && !AllBlank(ls[0], 0) && r == env.command(i, ls[0])
    case Executed(_, b, text, failed) =>
      var sql := SqlText(env, ls, hasBuffer);
      && Begins(ls) && Undecided(env, ls, hasBuffer, |ls| - 1) && CompleteAt(env, ls, hasBuffer, |ls|)
      && text == (if env.backslashOn then UpToNul(Decoded(sql)) else sql)
      && b > 0 && failed == env.fails(b - 1, text)
    case Discarded(_, _) =>
      && Begins(ls) && Undecided(env, ls, hasBuffer, |ls| - 1) && !CompleteAt(env, ls, hasBuffer, |ls|)
      && AllBlank(SqlText(env, ls, hasBuffer), 0)
  }

  /** The events cover lines 0..end, one after the other, each fitting its lines. */
  predicate Accounts(env: Env, lines: seq<Bytes>, events: seq<Event>, end: nat)
    decreases |events|
  {
    if events == [] then end == 0
    else
      var before, e := events[..|events| - 1], events[|events| - 1];
      && e.End() == end && EventFits(env, lines, e, HasBuffer(before))
      && Accounts(env, lines, before, e.First())
  }

  function CountFailed(events: seq<Event>): nat {
    if events == [] then 0
    else CountFailed(events[..|events| - 1]) + if events[|events| - 1].Failed() then 1 else 0
  }

  /** Every line read so far is accounted for. */
  predicate Conserved(env: Env, lines: seq<Bytes>, s: State) {
    && s.start <= s.next <= |lines|
    && Accounts(env, lines, s.events, s.start)
    && s.errors == CountFailed(s.events)
    && (s.text == [] <==> s.start == s.next)
    && (s.start < s.next ==>
          var ls := lines[s.start..s.next];
          && Begins(ls) && s.text == SqlText(env, ls, HasBuffer(s.events))
          && Undecided(env, ls, HasBuffer(s.events), |ls|))
  }

  lemma BlankIsSpaces(line: Bytes, i: nat)
    requires i <= |line| && SkipSpaces(line, i) == |line|
    ensures AllBlank(line, i)
    decreases |line| - i
  {
    if i < |line| {
      BlankIsSpaces(line, i + 1);
    }
  }

  /** A line that is not blank keeps something when its leading space goes. */
  lemma GatheredIsSomething(env: Env, text: Bytes, line: Bytes, hasBuffer: bool)
    requires text != [] || !AllBlank(line, 0)
    ensures Gathered(env, text, line, hasBuffer) != []
    ensures |text| <= |Gathered(env, text, line, hasBuffer)|
  {
    if text == [] {
      if SkipSpaces(line, 0) == |line| {
        BlankIsSpaces(line, 0);
      }
      assert SkipSpaces([SEMI], 0) == 0;
    }
  }

  lemma GatheredNulFree(env: Env, text: Bytes, line: Bytes, hasBuffer: bool)
    requires NulFree(text) && NulFree(line)
    ensures NulFree(Gathered(env, text, line, hasBuffer))
  {
  }

  lemma HasBufferNext(events: seq<Event>, e: Event)
    ensures HasBuffer(events + [e]) <==> HasBuffer(events) || e.UsedBuffer()
  {
    var all := events + [e];
    assert all[|events|] == e;
    assert forall i :: 0 <= i < |events| ==> all[i] == events[i];
  }

  /** One more line, as the input loop gathers it and as the lines say. */
  lemma SqlTextNext(env: Env, ls: seq<Bytes>, line: Bytes, hasBuffer: bool)
    ensures var before := if ls == [] then [] else SqlText(env, ls, hasBuffer);
            && Kept(env, ls + [line], hasBuffer) == Terminated(env, before, line, ls != [] || hasBuffer)
            && (before != [] || ls == [] ==>
                  SqlText(env, ls + [line], hasBuffer) == Gathered(env, before, line, before != [] || hasBuffer))
  {
    assert (ls + [line])[..|ls|] == ls;
    assert [] + [SEMI] == [SEMI];
  }

  /** What was added last has a semicolon if and only if the line as it is kept has. */
  lemma SemicolonAdded(env: Env, text: Bytes, line: Bytes, hasBuffer: bool)
    ensures text <= Gathered(env, text, line, hasBuffer)
    ensures SEMI in Gathered(env, text, line, hasBuffer)[|text|..] <==> SEMI in Terminated(env, text, line, hasBuffer)
  {
    hide Terminated;
    var l := Terminated(env, text, line, hasBuffer);
    if text == [] {
      var n := |l| - |TrimLeft(l)|;
      assert l == l[..n] + TrimLeft(l);
      assert forall i :: 0 <= i < n ==> l[..n][i] == l[i];
    } else {
      assert (text + [LF] + l)[|text|..] == [LF] + l;
    }
  }

  /** The first k lines of more lines are the same first k lines. */
  lemma PrefixDecides(env: Env, ls: seq<Bytes>, line: Bytes, hasBuffer: bool)
    requires Undecided(env, ls, hasBuffer, |ls|)
    ensures Undecided(env, ls + [line], hasBuffer, |ls|)
    ensures !CompleteAt(env, ls + [line], hasBuffer, |ls| + 1) && !AllBlank(SqlText(env, ls + [line], hasBuffer), 0) ==>
              Undecided(env, ls + [line], hasBuffer, |ls| + 1)
  {
    hide SqlText, Kept, AllBlank;
    var all := ls + [line];
    forall k | 1 <= k <= |ls|
      ensures !CompleteAt(env, all, hasBuffer, k) && !AllBlank(SqlText(env, all[..k], hasBuffer), 0)
    {
      assert all[..k] == ls[..k];
      assert !CompleteAt(env, ls, hasBuffer, k);
    }
    assert all[..|ls| + 1] == all;
  }

  /** The lines of the text that is being gathered. */
  function LinesSince(lines: seq<Bytes>, s: State): seq<Bytes>
    requires s.start <= s.next <= |lines|
  {
    lines[s.start..s.next]
  }

  lemma PendingLines(env: Env, lines: seq<Bytes>, s: State)
    requires Conserved(env, lines, s)
    ensures var ls := LinesSince(lines, s);
            && (s.text == [] <==> ls == [])
            && (ls != [] ==> Begins(ls) && s.text == SqlText(env, ls, HasBuffer(s.events)))
            && Undecided(env, ls, HasBuffer(s.events), |ls|)
  {
    hide Accounts, SqlText, CompleteAt, AllBlank, HasBuffer;
  }

  /** The lines of the text, the last one included, as they are when what becomes of the text is decided. */
  predicate Deciding(env: Env, lines: seq<Bytes>, s: State, text: Bytes) {
    && s.start <= s.next < |lines| && text != []
    && var ls := lines[s.start..s.next + 1];
       && Begins(ls) && text == SqlText(env, ls, HasBuffer(s.events))
       && Undecided(env, ls, HasBuffer(s.events), |ls| - 1)
       && (Ready(env, s.text, text) <==> CompleteAt(env, ls, HasBuffer(s.events), |ls|))
       && (!Ready(env, s.text, text) && !AllBlank(text, 0) ==> Undecided(env, ls, HasBuffer(s.events), |ls|))
  }

  /** What the next line adds to the gathered text. */
  lemma {:induction false} GatheringIsSqlText(env: Env, lines: seq<Bytes>, s: State)
    requires s.start <= s.next < |lines| && Conserved(env, lines, s)
    requires s.text != [] || Begins([lines[s.next]])
    ensures Deciding(env, lines, s, Gathered(env, s.text, lines[s.next], s.text != [] || HasBuffer(s.events)))
  {
    hide Conserved, Gathered, Terminated, AllBlank, SqlText, Kept, Undecided, HasBuffer, CompleteAt, Ready, Begins;
    PendingLines(env, lines, s);
    var hb := HasBuffer(s.events);
    var ls := LinesSince(lines, s);
    var all := ls + [lines[s.next]];
    assert lines[s.start..s.next + 1] == all && all[..|all|] == all;
    BeginsNext(ls, lines[s.next]);
    GatheredIsSomething(env, s.text, lines[s.next], s.text != [] || hb);
    GatheredDecides(env, s.text, ls, lines[s.next], hb);
    PrefixDecides(env, ls, lines[s.next], hb);
  }

  lemma BeginsNext(ls: seq<Bytes>, line: Bytes)
    requires if ls == [] then Begins([line]) else Begins(ls)
    ensures Begins(ls + [line])
  {
    assert ls == [] ==> ls + [line] == [line];
  }

  /** The text is executed if and only if the lines say so. */
  lemma GatheredDecides(env: Env, text: Bytes, ls: seq<Bytes>, line: Bytes, hasBuffer: bool)
    requires if ls == [] then text == [] else text != [] && text == SqlText(env, ls, hasBuffer)
    ensures var all := ls + [line];
            var after := Gathered(env, text, line, text != [] || hasBuffer);
            && after == SqlText(env, all, hasBuffer)
            && (Ready(env, text, after) <==> CompleteAt(env, all, hasBuffer, |all|))
  {
    SqlTextNext(env, ls, line, hasBuffer);
    SemicolonAdded(env, text, line, text != [] || hasBuffer);
    hide Gathered, Terminated, SqlText, Kept;
    assert (ls + [line])[..|ls| + 1] == ls + [line];
  }

  lemma EmptiedConserves(env: Env, lines: seq<Bytes>, s: State, e: Event, stopped: bool)
    requires Conserved(env, lines, s) && e.First() == s.start && EventFits(env, lines, e, HasBuffer(s.events))
    ensures Conserved(env, lines, Emptied(s, e, stopped))
  {
    hide EventFits;
    assert e.End() <= |lines| by {
      FitsSpan(env, lines, e, HasBuffer(s.events));
    }
  }

  lemma FitsSpan(env: Env, lines: seq<Bytes>, e: Event, hasBuffer: bool)
    requires EventFits(env, lines, e, hasBuffer)
    ensures e.First() < e.End() && e.End() <= |lines|
  {
  }

  lemma OneLineConserves(env: Env, lines: seq<Bytes>, s: State)
    requires Conserved(env, lines, s) && s.next < |lines| && s.text == []
    requires var line := lines[s.next]; AllBlank(line, 0) || (line != [] && line[0] == DOT)
    ensures Conserved(env, lines, Step(env, s, lines[s.next]))
    ensures Step(env, s, lines[s.next]).next == s.next + 1
  {
    hide Conserved;
    var i, line := s.next, lines[s.next];
    assert s.start == i by {
      EmptyMeansNone(env, lines, s);
    }
    var e := if AllBlank(line, 0) then Skipped(i) else Command(i, env.command(i, line));
    assert EventFits(env, lines, e, HasBuffer(s.events));
    EmptiedConserves(env, lines, s, e, if AllBlank(line, 0) then s.stopped else e.result == 2);
  }

  lemma EmptyMeansNone(env: Env, lines: seq<Bytes>, s: State)
    requires Conserved(env, lines, s)
    ensures s.start <= s.next && (s.text == [] <==> s.start == s.next)
  {
  }

  lemma {:induction false} GatheredLineConserves(env: Env, lines: seq<Bytes>, s: State)
    requires Conserved(env, lines, s) && s.next < |lines|
    requires s.text != [] || Begins([lines[s.next]])
    ensures Conserved(env, lines, Step(env, s, lines[s.next]))
    ensures Step(env, s, lines[s.next]).next == s.next + 1
  {
    hide Conserved, Gathered, Dispatched, SqlText, Kept, Undecided, CompleteAt, Ready, AllBlank, HasBuffer;
    hide Begins, Deciding, Step;
    EmptyMeansNone(env, lines, s);
    GatheringIsSqlText(env, lines, s);
    StepGathers(env, s, lines[s.next]);
    var text := Gathered(env, s.text, lines[s.next], s.text != [] || HasBuffer(s.events));
    DispatchConserves(env, lines, s, text);
  }

  lemma {:induction false} DispatchConserves(env: Env, lines: seq<Bytes>, s: State, text: Bytes)
    requires Conserved(env, lines, s) && Deciding(env, lines, s, text)
    ensures Conserved(env, lines, Dispatched(env, s, text, s.next + 1))
    ensures Dispatched(env, s, text, s.next + 1).next == s.next + 1
  {
    assert s.start <= s.next < |lines| && text != [];
    hide Conserved, SqlText, Deciding, AllBlank, Statement, Ready, EventFits;
    if Ready(env, s.text, text) {
      var e := Executed(s.start, s.next + 1, Statement(env, text), env.fails(s.next, Statement(env, text)));
      ReadyFits(env, lines, s, e, text);
      EmptiedConserves(env, lines, s, e, s.stopped);
    } else if AllBlank(text, 0) {
      DiscardFits(env, lines, s, text);
      EmptiedConserves(env, lines, s, Discarded(s.start, s.next + 1), s.stopped);
    } else {
      PendingConserves(env, lines, s, text);
    }
  }

  lemma DiscardFits(env: Env, lines: seq<Bytes>, s: State, text: Bytes)
    requires Deciding(env, lines, s, text) && !Ready(env, s.text, text) && AllBlank(text, 0)
    ensures EventFits(env, lines, Discarded(s.start, s.next + 1), HasBuffer(s.events))
  {
    hide SqlText, Undecided, CompleteAt, AllBlank, Ready, HasBuffer;
  }

  lemma PendingConserves(env: Env, lines: seq<Bytes>, s: State, text: Bytes)
    requires Conserved(env, lines, s) && Deciding(env, lines, s, text)
    requires !Ready(env, s.text, text) && !AllBlank(text, 0)
    ensures Conserved(env, lines, s.(text := text, next := s.next + 1))
  {
    hide SqlText, Undecided, CompleteAt, AllBlank, Ready, HasBuffer, Accounts;
  }

  lemma ReadyFits(env: Env, lines: seq<Bytes>, s: State, e: Event, text: Bytes)
    requires Deciding(env, lines, s, text) && Ready(env, s.text, text)
    requires e == Executed(s.start, s.next + 1, Statement(env, text), env.fails(s.next, Statement(env, text)))
    ensures EventFits(env, lines, e, HasBuffer(s.events))
  {
    hide SqlText, Undecided, CompleteAt, AllBlank, Ready, HasBuffer;
  }

  /** A line that completes the text, with a semicolon in what it adds, ends the text there: it is executed. */
  lemma {:induction false} CompleteLineIsExecuted(env: Env, lines: seq<Bytes>, s: State)
    requires s.start <= s.next < |lines| && Conserved(env, lines, s) && Begins(lines[s.start..s.next + 1])
    requires CompleteAt(env, lines[s.start..s.next + 1], HasBuffer(s.events), s.next + 1 - s.start)
    ensures var sql := SqlText(env, lines[s.start..s.next + 1], HasBuffer(s.events));
            var text := if env.backslashOn then UpToNul(Decoded(sql)) else sql;
            var s' := Step(env, s, lines[s.next]);
            s'.events == s.events + [Executed(s.start, s.next + 1, text, env.fails(s.next, text))] && s'.text == []
  {
    hide Conserved, Gathered, SqlText, Kept, Undecided, CompleteAt, Ready, AllBlank, HasBuffer, Step, Dispatched;
    hide Begins, Deciding;
    EmptyMeansNone(env, lines, s);
    if s.text == [] {
      assert lines[s.start..s.next + 1] == [lines[s.next]];
    }
    GatheringIsSqlText(env, lines, s);
    var text := Gathered(env, s.text, lines[s.next], s.text != [] || HasBuffer(s.events));
    CompleteIsReady(env, lines, s, text);
    StepGathers(env, s, lines[s.next]);
    ReadyIsExecuted(env, s, text, s.next + 1);
  }

  lemma CompleteIsReady(env: Env, lines: seq<Bytes>, s: State, text: Bytes)
    requires s.start <= s.next < |lines| && Deciding(env, lines, s, text)
    requires CompleteAt(env, lines[s.start..s.next + 1], HasBuffer(s.events), s.next + 1 - s.start)
    ensures text != [] && text == SqlText(env, lines[s.start..s.next + 1], HasBuffer(s.events))
    ensures Ready(env, s.text, text)
  {
    hide SqlText, Kept, Undecided, CompleteAt, Ready, AllBlank, HasBuffer, Begins;
  }

  lemma StepGathers(env: Env, s: State, line: Bytes)
    requires s.text != [] || Begins([line])
    ensures Step(env, s, line) ==
            Dispatched(env, s, Gathered(env, s.text, line, s.text != [] || HasBuffer(s.events)), s.next + 1)
  {
    hide Dispatched, Gathered, AllBlank, HasBuffer;
  }

  lemma ReadyIsExecuted(env: Env, s: State, sql: Bytes, next: nat)
    requires next > 0 && sql != [] && Ready(env, s.text, sql)
    ensures var text := if env.backslashOn then UpToNul(Decoded(sql)) else sql;
            var s' := Dispatched(env, s, sql, next);
            s'.events == s.events + [Executed(s.start, next, text, env.fails(next - 1, text))] && s'.text == []
  {
    hide Ready, AllBlank;
  }

  /** One line keeps everything accounted for. */
  lemma {:induction false} StepConserves(env: Env, lines: seq<Bytes>, s: State)
    requires Conserved(env, lines, s) && s.next < |lines|
    ensures Conserved(env, lines, Step(env, s, lines[s.next]))
    ensures Step(env, s, lines[s.next]).next == s.next + 1
  {
    hide Conserved, Step, AllBlank;
    var line := lines[s.next];
    if s.text == [] && (AllBlank(line, 0) || (line != [] && line[0] == DOT)) {
      OneLineConserves(env, lines, s);
    } else {
      GatheredLineConserves(env, lines, s);
    }
  }

  lemma {:induction false} RunConserves(env: Env, lines: seq<Bytes>, s: State)
    requires Conserved(env, lines, s) && s.next <= |lines|
    ensures Conserved(env, lines, Run(env, s, lines))
    ensures var r := Run(env, s, lines); r.next == |lines| || !GoesOn(env, r)
    decreases |lines| - s.next
  {
    hide Conserved, Step;
    if s.next < |lines| && GoesOn(env, s) {
      StepConserves(env, lines, s);
      RunConserves(env, lines, Step(env, s, lines[s.next]));
    }
  }

  /** Line conservation: whatever the lines and whatever counts as complete, the
      run accounts for every line it read, and it reads them all unless it stops early. */
  lemma LinesAreConserved(env: Env, lines: seq<Bytes>)
    ensures var r := Run(env, INITIAL, lines);
            Conserved(env, lines, r) && (r.next == |lines| || !GoesOn(env, r))
  {
    RunConserves(env, lines, INITIAL);
  }

  /** The event that covers line i. */
  predicate Covers(e: Event, i: nat) {
    e.First() <= i < e.End()
  }

  /** The event that covers an accounted line. */
  lemma {:induction false} EventOf(env: Env, lines: seq<Bytes>, events: seq<Event>, end: nat, i: nat) returns (k: nat)
    requires Accounts(env, lines, events, end) && i < end
    ensures k < |events| && Covers(events[k], i)
    decreases |events|
  {
    hide EventFits;
    var n := |events| - 1;
    if i < events[n].First() {
      k := EventOf(env, lines, events[..n], events[n].First(), i);
    } else {
      k := n;
    }
  }

  lemma {:induction false} EventsEndBy(env: Env, lines: seq<Bytes>, events: seq<Event>, end: nat, k: nat)
    requires Accounts(env, lines, events, end) && k < |events|
    ensures events[k].End() <= end
    ensures k + 1 < |events| ==> events[k].End() <= events[|events| - 1].First()
    decreases |events|
  {
    hide EventFits, HasBuffer;
    var n := |events| - 1;
    FitsSpan(env, lines, events[n], HasBuffer(events[..n]));
    if k < n {
      EventsEndBy(env, lines, events[..n], events[n].First(), k);
    }
  }

  /** Two events never cover the same line. */
  lemma {:induction false} EventsAreDisjoint(env: Env, lines: seq<Bytes>, events: seq<Event>, end: nat, j: nat, k: nat)
    requires Accounts(env, lines, events, end) && j < k < |events|
    ensures events[j].End() <= events[k].First()
    decreases |events|
  {
    hide EventFits;
    var n := |events| - 1;
    if k == n {
      EventsEndBy(env, lines, events, end, j);
    } else {
      EventsAreDisjoint(env, lines, events[..n], events[n].First(), j, k);
    }
  }

  /** Each accounted line belongs to exactly one event. */
  lemma EachLineOnce(env: Env, lines: seq<Bytes>, events: seq<Event>, end: nat, i: nat)
    requires Accounts(env, lines, events, end)
    ensures i < end <==> exists k :: 0 <= k < |events| && Covers(events[k], i)
    ensures forall j, k | 0 <= j < |events| && 0 <= k < |events| ::
              Covers(events[j], i) && Covers(events[k], i) ==> j == k
  {
    hide Accounts;
    if i < end {
      var k := EventOf(env, lines, events, end, i);
    }
    forall k | 0 <= k < |events| && Covers(events[k], i)
      ensures i < end
    {
      EventsEndBy(env, lines, events, end, k);
    }
    forall j, k | 0 <= j < k < |events|
      ensures !(Covers(events[j], i) && Covers(events[k], i))
    {
      EventsAreDisjoint(env, lines, events, end, j, k);
    }
  }

  function Joined(lines: seq<Bytes>): Bytes {
    if lines == [] then []
    else if |lines| == 1 then lines[0]
    else Joined(lines[..|lines| - 1]) + [LF] + lines[|lines| - 1]
  }

  lemma JoinedNext(lines: seq<Bytes>, last: Bytes)
    requires lines != []
    ensures Joined(lines + [last]) == Joined(lines) + [LF] + last
  {
    assert (lines + [last])[..|lines|] == lines;
  }

  /** The lines as they are kept. */
  function KeptLines(env: Env, lines: seq<Bytes>, hasBuffer: bool): (kept: seq<Bytes>)
    ensures |kept| == |lines|
  {
    seq(|lines|, k requires 0 <= k < |lines| => Kept(env, lines[..k + 1], hasBuffer))
  }

  /** A line is kept or, being a terminator of what is complete with a semicolon, replaced by the semicolon. */
  lemma KeptExactly(env: Env, lines: seq<Bytes>, hasBuffer: bool, k: nat)
    requires k < |lines|
    ensures KeptLines(env, lines, hasBuffer)[k] ==
            if IsTerminator(lines[k])
               && (if k == 0 then !hasBuffer || env.complete([SEMI])
                   else env.complete(SqlText(env, lines[..k], hasBuffer) + [SEMI]))
            then [SEMI] else lines[k]
  {
    hide IsTerminator, SqlText;
    assert lines[..k + 1][..k] == lines[..k];
  }

  /** The text is the lines as they are kept, joined by LF, the first one without the white space it begins with. */
  lemma {:induction false} SqlTextIsJoined(env: Env, lines: seq<Bytes>, hasBuffer: bool)
    requires lines != []
    ensures var kept := KeptLines(env, lines, hasBuffer);
            SqlText(env, lines, hasBuffer) == Joined([TrimLeft(kept[0])] + kept[1..])
    decreases |lines|
  {
    hide TrimLeft, Kept, Joined;
    var n, kept := |lines| - 1, KeptLines(env, lines, hasBuffer);
    assert lines[..n + 1] == lines;
    if n == 0 {
      assert [TrimLeft(kept[0])] + kept[1..] == [TrimLeft(kept[0])];
      JoinedOne(TrimLeft(kept[0]));
    } else {
      SqlTextIsJoined(env, lines[..n], hasBuffer);
      KeptNext(env, lines, hasBuffer, n);
      var before := KeptLines(env, lines[..n], hasBuffer);
      JoinedNext([TrimLeft(before[0])] + before[1..], kept[n]);
      assert [TrimLeft(kept[0])] + kept[1..] == [TrimLeft(before[0])] + before[1..] + [kept[n]];
    }
  }

  lemma JoinedOne(line: Bytes)
    ensures Joined([line]) == line
  {
  }

  lemma KeptNext(env: Env, lines: seq<Bytes>, hasBuffer: bool, n: nat)
    requires n < |lines|
    ensures KeptLines(env, lines, hasBuffer)[..n] == KeptLines(env, lines[..n], hasBuffer)
  {
    hide Kept;
    forall k | 0 <= k < n
      ensures KeptLines(env, lines, hasBuffer)[k] == KeptLines(env, lines[..n], hasBuffer)[k]
    {
      assert lines[..n][..k + 1] == lines[..k + 1];
    }
  }
}
