/** What a run of the input loop is, said of the lines alone: which events, where it stops, whether it fails. */
module InputRuns {
  import opened CBytes
  import opened Whitespace
  import opened SqlInput

  // ------------------------------------------------------------ only one account fits the lines

  /** A statement ends at the first line after which the text is complete SQL or no SQL at all. */
  lemma DecidedOnce(env: Env, xs: seq<Bytes>, ys: seq<Bytes>, hasBuffer: bool)
    requires xs != [] && xs < ys && Undecided(env, ys, hasBuffer, |ys| - 1)
    ensures !CompleteAt(env, xs, hasBuffer, |xs|) && !AllBlank(SqlText(env, xs, hasBuffer), 0)
  {
    hide SqlText, Kept, AllBlank;
    assert ys[..|xs|] == xs == xs[..|xs|];
    assert !CompleteAt(env, ys, hasBuffer, |xs|);
  }

  /** Two events about the same lines are the same. */
  lemma SameLines(env: Env, ls: seq<Bytes>, e: Event, f: Event, hasBuffer: bool)
    requires ls != [] && FitsLines(env, ls, e, hasBuffer) && FitsLines(env, ls, f, hasBuffer)
    requires e.First() == f.First() && e.End() == f.End()
    ensures e == f
  {
    hide SqlText, Kept, AllBlank, CompleteAt, Undecided;
  }

  /** Two events that begin with the same line are the same. */
  lemma SameEvent(env: Env, lines: seq<Bytes>, e: Event, f: Event, hasBuffer: bool)
    requires EventFits(env, lines, e, hasBuffer) && EventFits(env, lines, f, hasBuffer) && e.First() == f.First()
    ensures e == f
  {
    hide FitsLines;
    var xs, ys := lines[e.First()..e.End()], lines[f.First()..f.End()];
    if e.End() < f.End() {
      assert xs < ys;
      StatementEnds(env, xs, ys, e, f, hasBuffer);
    } else if f.End() < e.End() {
      assert ys < xs;
      StatementEnds(env, ys, xs, f, e, hasBuffer);
    } else {
      SameLines(env, xs, e, f, hasBuffer);
    }
  }

  lemma StatementEnds(env: Env, xs: seq<Bytes>, ys: seq<Bytes>, e: Event, f: Event, hasBuffer: bool)
    requires xs != [] && xs < ys && FitsLines(env, xs, e, hasBuffer) && FitsLines(env, ys, f, hasBuffer)
    ensures !f.UsedBuffer()
  {
    hide SqlText, Kept, AllBlank, CompleteAt, Undecided;
    assert xs[0] == ys[0];
    if f.UsedBuffer() {
      DecidedOnce(env, xs, ys, hasBuffer);
    }
  }

  lemma {:induction false} AccountsPrefix(env: Env, lines: seq<Bytes>, events: seq<Event>, end: nat, k: nat)
    requires Accounts(env, lines, events, end) && k < |events|
    ensures Accounts(env, lines, events[..k], events[k].First())
    ensures EventFits(env, lines, events[k], HasBuffer(events[..k]))
    decreases |events|
  {
    hide EventFits, HasBuffer;
    var n := |events| - 1;
    if k < n {
      AccountsPrefix(env, lines, events[..n], events[n].First(), k);
      assert events[..n][..k] == events[..k];
    }
  }

  lemma SameEnd(env: Env, lines: seq<Bytes>, events: seq<Event>, i: nat, j: nat)
    requires Accounts(env, lines, events, i) && Accounts(env, lines, events, j)
    ensures i == j
  {
    hide EventFits, HasBuffer;
  }

  /** The events are determined by the lines: of two accounts one begins with the other. */
  lemma {:induction false} EventsAreDetermined(env: Env, lines: seq<Bytes>, es: seq<Event>, i: nat,
                                               fs: seq<Event>, j: nat)
    requires Accounts(env, lines, es, i) && Accounts(env, lines, fs, j) && |es| <= |fs|
    ensures es <= fs
    decreases |es|
  {
    hide Accounts, EventFits, HasBuffer;
    if es != [] {
      var n := |es| - 1;
      AccountsPrefix(env, lines, es, i, n);
      AccountsPrefix(env, lines, fs, j, n);
      EventsAreDetermined(env, lines, es[..n], es[n].First(), fs, j);
      assert es[..n] == fs[..n];
      SameEnd(env, lines, es[..n], es[n].First(), fs[n].First());
      SameEvent(env, lines, es[n], fs[n], HasBuffer(es[..n]));
    }
  }

  // ------------------------------------------------------------ where a run stops, and whether it fails

  /** A dot-command that failed or a statement that did. */
  predicate WentWrong(e: Event) {
    match e
    case Command(_, result) => result != 0 && result != 2
    case Executed(_, _, _, failed) => failed
    case _ => false
  }

  /** What keeps the run from reading line i: an exit, or an error it does not go on after. */
  predicate Stopper(env: Env, e: Event, i: nat) {
    e.End() <= i && ((e.Command? && e.result == 2) || (WentWrong(e) && !env.lenient(i)))
  }

  predicate Stopped(env: Env, events: seq<Event>, i: nat) {
    exists k :: 0 <= k < |events| && Stopper(env, events[k], i)
  }

  predicate Exited(events: seq<Event>) {
    exists k :: 0 <= k < |events| && events[k].Command? && events[k].result == 2
  }

  predicate AnyWrong(events: seq<Event>) {
    exists k :: 0 <= k < |events| && WentWrong(events[k])
  }

  lemma AnyNext(events: seq<Event>, e: Event)
    ensures Exited(events + [e]) <==> Exited(events) || (e.Command? && e.result == 2)
    ensures AnyWrong(events + [e]) <==> AnyWrong(events) || WentWrong(e)
  {
    var all := events + [e];
    assert all[|events|] == e && forall k :: 0 <= k < |events| ==> all[k] == events[k];
  }

  lemma StoppedNext(env: Env, events: seq<Event>, e: Event, i: nat)
    ensures Stopped(env, events + [e], i) <==> Stopped(env, events, i) || Stopper(env, e, i)
  {
    hide Stopper;
    var all := events + [e];
    assert all[|events|] == e && forall k :: 0 <= k < |events| ==> all[k] == events[k];
  }

  /** The tally of a run: its flags say what its events do, and nothing stopped it before. */
  predicate Tallied(env: Env, s: State) {
    && (s.stopped <==> Exited(s.events)) && (s.errors > 0 <==> AnyWrong(s.events))
    && (forall k :: 0 <= k < |s.events| ==> s.events[k].End() <= s.next)
    && (forall i :: 0 <= i < s.next ==> !Stopped(env, s.events, i))
  }

  /** What a line adds to the events, if it ends one. */
  lemma StepAdds(env: Env, s: State, line: Bytes) returns (e: Option<Event>)
    ensures var s' := Step(env, s, line);
            && s'.next == s.next + 1
            && match e
               case None => s'.events == s.events && s'.stopped == s.stopped && s'.errors == s.errors
               case Some(f) =>
                 && f.End() == s.next + 1 && s' == Emptied(s, f, s'.stopped)
                 && s'.stopped == if f.Command? then f.result == 2 else s.stopped
  {
    var s' := Step(env, s, line);
    hide AllBlank, Ready, Gathered, Statement, HasBuffer;
    e := if s'.events == s.events then None else Some(s'.events[|s'.events| - 1]);
  }

  lemma NotStoppedHere(env: Env, s: State)
    requires Tallied(env, s) && GoesOn(env, s)
    ensures !Stopped(env, s.events, s.next)
  {
  }

  lemma StepTallies(env: Env, s: State, line: Bytes)
    requires Tallied(env, s) && GoesOn(env, s)
    ensures Tallied(env, Step(env, s, line))
  {
    var e := StepAdds(env, s, line);
    NotStoppedHere(env, s);
    hide Step, Exited, AnyWrong, Stopped;
    var s' := Step(env, s, line);
    if e.Some? {
      AnyNext(s.events, e.value);
      forall i | 0 <= i < s'.next
        ensures !Stopped(env, s'.events, i)
      {
        StoppedNext(env, s.events, e.value, i);
      }
    }
  }

  lemma {:induction false} RunTallies(env: Env, s: State, lines: seq<Bytes>)
    requires Tallied(env, s) && s.next <= |lines|
    ensures var r := Run(env, s, lines); Tallied(env, r) && (r.next == |lines| || !GoesOn(env, r))
    decreases |lines| - s.next
  {
    hide Tallied, Step;
    if s.next < |lines| && GoesOn(env, s) {
      StepTallies(env, s, lines[s.next]);
      var e := StepAdds(env, s, lines[s.next]);
      RunTallies(env, Step(env, s, lines[s.next]), lines);
    }
  }

  /** A run reads line after line and stops before the end exactly at the first line that an earlier exit, or an
      error it does not go on after, keeps it from reading. */
  lemma StopsExactly(env: Env, lines: seq<Bytes>)
    ensures var r := Run(env, INITIAL, lines);
            && r.next <= |lines| && (forall i :: 0 <= i < r.next ==> !Stopped(env, r.events, i))
            && (r.next < |lines| ==> Stopped(env, r.events, r.next))
  {
    RunTallies(env, INITIAL, lines);
    var r := Run(env, INITIAL, lines);
    LinesAreConserved(env, lines);
    hide Run, Conserved;
    assert r.next <= |lines| by { NextIsALine(env, lines, r); }
    if r.next < |lines| {
      if r.stopped {
        var k :| 0 <= k < |r.events| && r.events[k].Command? && r.events[k].result == 2;
        assert Stopper(env, r.events[k], r.next);
      } else {
        var k :| 0 <= k < |r.events| && WentWrong(r.events[k]);
        assert Stopper(env, r.events[k], r.next);
      }
    }
  }

  lemma NextIsALine(env: Env, lines: seq<Bytes>, s: State)
    requires Conserved(env, lines, s)
    ensures s.start <= s.next <= |lines|
    ensures s.text != [] <==> s.start < s.next
    ensures s.start < s.next ==> s.text == SqlText(env, lines[s.start..s.next], HasBuffer(s.events))
  {
    hide Accounts, SqlText, Undecided, HasBuffer, Begins;
  }

  /** The run fails if and only if a command or statement did, or lines with SQL in them are left over. */
  lemma FailsExactly(env: Env, lines: seq<Bytes>)
    ensures var r := Run(env, INITIAL, lines);
            && r.start <= r.next <= |lines|
            && (FinalErrors(r) > 0 <==>
                  || (exists k :: 0 <= k < |r.events| && WentWrong(r.events[k]))
                  || (r.start < r.next
                      && !AllBlank(SqlText(env, lines[r.start..r.next], HasBuffer(r.events)), 0)))
  {
    RunTallies(env, INITIAL, lines);
    LinesAreConserved(env, lines);
    hide Run, Conserved, SqlText, AllBlank, HasBuffer;
    NextIsALine(env, lines, Run(env, INITIAL, lines));
  }
}
