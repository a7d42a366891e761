/** What the conditions of Agreement are needed for: a refused process takes the winner's row with it. */
module Takeover {
  import opened CBytes
  import opened Messages
  import opened Frame
  import opened Sessions
  import opened Agreement
  import opened SessionRuns

  /** A new process asks for client id c, finds no row and registers it. */
  function Registration(p: Pid, request: Bytes, c: Uuid, sid: Uuid): seq<Label> {
    [Fork(p), Do(p, Receive(request, SessionStartRequest(c))), Do(p, Select(sid)), Do(p, Insert), Do(p, Reply)]
  }

  /** A new process asks for client id c, is refused, and its client hangs up. */
  function Refusal(p: Pid, request: Bytes, c: Uuid, sid: Uuid): seq<Label> {
    [Fork(p), Do(p, Receive(request, SessionStartRequest(c))), Do(p, Select(sid)), Do(p, Reply),
     Do(p, HangUp), Do(p, Delete)]
  }

  function With(s: State, p: Pid, q: Process, t: Table): State {
    State(s.procs[p := q], t)
  }

  /** Another step of process p, which now has fields q, before the steps ls. */
  lemma ChainWith(s: State, p: Pid, q: Process, t: Table, a: Action, q': Process, t': Table, ls: seq<Label>)
    requires CanAct(q, t, a) && Moved(q, t, a) == q' && Changed(q, t, a) == t'
    requires a.Select? ==> NewSession(s, a.generated) && q.session != Some(a.generated)
    requires IsRun(With(s, p, q', t'), ls)
    ensures IsRun(With(s, p, q, t), [Do(p, a)] + ls)
    ensures After(With(s, p, q, t), [Do(p, a)] + ls) == After(With(s, p, q', t'), ls)
  {
    var w := With(s, p, q, t);
    hide CanAct, Moved, Changed, IsRun, After;
    assert w.procs[p := q'] == s.procs[p := q'];
    Chain(w, Do(p, a), ls);
  }

  /** Having found no row, a process inserts its own and answers OK. */
  lemma {:induction false} InsertsAndAnswers(s: State, p: Pid, request: Bytes, c: Uuid, sid: Uuid)
    requires c !in s.table && |c| == |sid| == UUID_SIZE
    ensures var w := With(s, p, Process(Inserting(request), true, Some(c), Some(sid), false), s.table);
            var ls := [Do(p, Insert)] + [Do(p, Reply)];
            IsRun(w, ls)
            && After(w, ls) == With(s, p, Process(Idle, true, Some(c), Some(sid), true), s.table[c := sid])
  {
    SessionStartFits(c, sid, OK);
    hide Fits, NewSession, IsRun, After, With;
    var t := s.table;
    var q2 := Process(Inserting(request), true, Some(c), Some(sid), false);
    var q3 := Process(Replying(request, SessionStartResponse(c, Some(sid), OK)), true, Some(c), Some(sid), true);
    var q4 := Process(Idle, true, Some(c), Some(sid), true);
    Done(With(s, p, q4, t[c := sid]));
    ChainWith(s, p, q3, t[c := sid], Reply, q4, t[c := sid], []);
    ChainWith(s, p, q2, t, Insert, q3, t[c := sid], [Do(p, Reply)]);
  }

  lemma {:induction false} Registers(s: State, p: Pid, request: Bytes, c: Uuid, sid: Uuid)
    requires p !in s.procs && c !in s.table && NewSession(s, sid) && |c| == |sid| == UUID_SIZE
    ensures IsRun(s, Registration(p, request, c, sid))
    ensures After(s, Registration(p, request, c, sid)) ==
            With(s, p, Process(Idle, true, Some(c), Some(sid), true), s.table[c := sid])
  {
    InsertsAndAnswers(s, p, request, c, sid);
    hide Fits, NewSession, IsRun, After;
    var t := s.table;
    var q1 := Process(Checking(request), false, Some(c), None, false);
    var q2 := Process(Inserting(request), true, Some(c), Some(sid), false);
    var rest := [Do(p, Insert)] + [Do(p, Reply)];
    ChainWith(s, p, q1, t, Select(sid), q2, t, rest);
    ChainWith(s, p, FORKED, t, Receive(request, SessionStartRequest(c)), q1, t, [Do(p, Select(sid))] + rest);
    Chain(s, Fork(p), [Do(p, Receive(request, SessionStartRequest(c)))] + ([Do(p, Select(sid))] + rest));
    assert Registration(p, request, c, sid) ==
           [Fork(p)] + ([Do(p, Receive(request, SessionStartRequest(c)))] + ([Do(p, Select(sid))] + rest));
  }

  /** A refused process answers, its client hangs up, and its DELETE takes the row. */
  lemma {:induction false} LeavesAfterRefusal(s: State, p: Pid, request: Bytes, c: Uuid)
    requires c in s.table && |c| == |s.table[c]| == UUID_SIZE
    ensures var m := SessionStartResponse(c, Some(s.table[c]), CLIENT_ALREADY_CONNECTED);
            var w := With(s, p, Process(Replying(request, m), false, Some(c), None, false), s.table);
            var ls := [Do(p, Reply)] + ([Do(p, HangUp)] + [Do(p, Delete)]);
            IsRun(w, ls) && After(w, ls) == With(s, p, Process(Gone, false, Some(c), None, false), s.table - {c})
  {
    SessionStartFits(c, s.table[c], CLIENT_ALREADY_CONNECTED);
    hide Fits, IsRun, After, With;
    var t := s.table;
    var m := SessionStartResponse(c, Some(t[c]), CLIENT_ALREADY_CONNECTED);
    var q2 := Process(Replying(request, m), false, Some(c), None, false);
    var q3 := q2.(phase := Idle);
    var q4 := q2.(phase := Leaving);
    var q5 := q2.(phase := Gone);
    Done(With(s, p, q5, t - {c}));
    ChainWith(s, p, q4, t, Delete, q5, t - {c}, []);
    ChainWith(s, p, q3, t, HangUp, q4, t, [Do(p, Delete)]);
    ChainWith(s, p, q2, t, Reply, q3, t, [Do(p, HangUp)] + [Do(p, Delete)]);
  }

  lemma {:induction false} IsRefused(s: State, p: Pid, request: Bytes, c: Uuid, sid: Uuid)
    requires p !in s.procs && c in s.table && NewSession(s, sid) && |c| == |s.table[c]| == |sid| == UUID_SIZE
    ensures IsRun(s, Refusal(p, request, c, sid))
    ensures After(s, Refusal(p, request, c, sid)) ==
            With(s, p, Process(Gone, false, Some(c), None, false), s.table - {c})
  {
    LeavesAfterRefusal(s, p, request, c);
    hide Fits, NewSession, IsRun, After;
    var t := s.table;
    var m := SessionStartResponse(c, Some(t[c]), CLIENT_ALREADY_CONNECTED);
    var q1 := Process(Checking(request), false, Some(c), None, false);
    var q2 := Process(Replying(request, m), false, Some(c), None, false);
    var rest := [Do(p, Reply)] + ([Do(p, HangUp)] + [Do(p, Delete)]);
    ChainWith(s, p, q1, t, Select(sid), q2, t, rest);
    ChainWith(s, p, FORKED, t, Receive(request, SessionStartRequest(c)), q1, t, [Do(p, Select(sid))] + rest);
    Chain(s, Fork(p), [Do(p, Receive(request, SessionStartRequest(c)))] + ([Do(p, Select(sid))] + rest));
    assert Refusal(p, request, c, sid) ==
           [Fork(p)] + ([Do(p, Receive(request, SessionStartRequest(c)))] + ([Do(p, Select(sid))] + rest));
  }

  /**
   * From every state in which a client is registered, a duplicate of it that is refused and hangs up,
   * followed by one more client with the same id, leads to two registered processes with that id.
   */
  lemma DuplicateAfterRefusal(s: State, p: Pid, q: Pid, r: Pid, request: Bytes, c: Uuid, sid: Uuid)
    requires Invariant(s) && Agree(s) && Holds(s, p, c) && |sid| == UUID_SIZE
    requires q !in s.procs && r !in s.procs && q != r && NewSession(s, sid)
    ensures var ls := Refusal(q, request, c, sid) + Registration(r, request, c, sid);
            IsRun(s, ls) && Holds(After(s, ls), p, c) && Holds(After(s, ls), r, c) && p != r
            && !Distinct(After(s, ls))
  {
    assert RowOf(s, p);
    IsRefused(s, q, request, c, sid);
    var s' := After(s, Refusal(q, request, c, sid));
    Registers(s', r, request, c, sid);
    RunsJoin(s, Refusal(q, request, c, sid), Registration(r, request, c, sid));
    hide IsRun, After;
    assert Holds(After(s, Refusal(q, request, c, sid) + Registration(r, request, c, sid)), r, c);
  }

  /** So the ids of registered processes are not distinct in every run. */
  lemma DistinctIsConditional(request: Bytes, c: Uuid, first: Uuid, second: Uuid)
    requires |c| == |first| == |second| == UUID_SIZE && first != second
    ensures var ls := Registration(0, request, c, first)
                      + (Refusal(1, request, c, second) + Registration(2, request, c, second));
            IsRun(START, ls) && !Distinct(After(START, ls))
  {
    Registers(START, 0, request, c, first);
    var s := After(START, Registration(0, request, c, first));
    RunsJoin(START, Registration(0, request, c, first),
             Refusal(1, request, c, second) + Registration(2, request, c, second));
    StartIsSound();
    RunKeepsInvariant(START, Registration(0, request, c, first));
    hide IsRun, After, Invariant, Distinct;
    DuplicateAfterRefusal(s, 0, 1, 2, request, c, second);
  }

  // ------------------------------------------------------------ the race that the UNIQUE constraint decides

  function WithBoth(s: State, p: Pid, q: Process, r: Pid, u: Process, t: Table): State {
    State(s.procs[p := q][r := u], t)
  }

  /** A step of p while r stays, before the steps ls. */
  lemma FirstActs(s: State, p: Pid, q: Process, r: Pid, u: Process, t: Table, a: Action,
                  q': Process, t': Table, ls: seq<Label>)
    requires p != r && CanAct(q, t, a) && Moved(q, t, a) == q' && Changed(q, t, a) == t'
    requires a.Select? ==> NewSession(s, a.generated) && Some(a.generated) !in [q.session, u.session]
    requires IsRun(WithBoth(s, p, q', r, u, t'), ls)
    ensures IsRun(WithBoth(s, p, q, r, u, t), [Do(p, a)] + ls)
    ensures After(WithBoth(s, p, q, r, u, t), [Do(p, a)] + ls) == After(WithBoth(s, p, q', r, u, t'), ls)
  {
    hide CanAct, Moved, Changed, IsRun, After;
    var w := WithBoth(s, p, q, r, u, t);
    assert w.procs[p := q'] == s.procs[p := q'][r := u];
    Chain(w, Do(p, a), ls);
  }

  /** A step of r while p stays. */
  lemma SecondActs(s: State, p: Pid, q: Process, r: Pid, u: Process, t: Table, a: Action,
                   u': Process, t': Table, ls: seq<Label>)
    requires p != r && CanAct(u, t, a) && Moved(u, t, a) == u' && Changed(u, t, a) == t'
    requires a.Select? ==> NewSession(s, a.generated) && Some(a.generated) !in [q.session, u.session]
    requires IsRun(WithBoth(s, p, q, r, u', t'), ls)
    ensures IsRun(WithBoth(s, p, q, r, u, t), [Do(r, a)] + ls)
    ensures After(WithBoth(s, p, q, r, u, t), [Do(r, a)] + ls) == After(WithBoth(s, p, q, r, u', t'), ls)
  {
    hide CanAct, Moved, Changed, IsRun, After;
    var w := WithBoth(s, p, q, r, u, t);
    assert w.procs[r := u'] == s.procs[p := q][r := u'];
    Chain(w, Do(r, a), ls);
  }

  /** Both processes have been asked for c; both look before either inserts. */
  function Race(p: Pid, r: Pid, first: Uuid, second: Uuid): seq<Label> {
    [Do(p, Select(first)), Do(r, Select(second)), Do(p, Insert), Do(r, Insert)]
  }

  /** Both SELECTs find nothing, and yet only one process registers: the other dies. */
  lemma {:induction false} RaceHasOneWinner(s: State, p: Pid, r: Pid, request: Bytes, c: Uuid,
                                            first: Uuid, second: Uuid)
    requires p != r && c !in s.table && NewSession(s, first) && NewSession(s, second) && first != second
    requires |first| == |second| == UUID_SIZE
    requires p in s.procs && s.procs[p] == Process(Checking(request), false, Some(c), None, false)
    requires r in s.procs && s.procs[r] == Process(Checking(request), false, Some(c), None, false)
    ensures IsRun(s, Race(p, r, first, second))
    ensures var s' := After(s, Race(p, r, first, second));
            && Holds(s', p, c) && r in s'.procs && s'.procs[r].phase == Dead
            && s'.table == s.table[c := first]
  {
    var t := s.table;
    var q0 := Process(Checking(request), false, Some(c), None, false);
    var q1 := Process(Inserting(request), true, Some(c), Some(first), false);
    var q2 := Process(Replying(request, SessionStartResponse(c, Some(first), OK)), true, Some(c), Some(first), true);
    var u1 := Process(Inserting(request), true, Some(c), Some(second), false);
    var u2 := u1.(phase := Dead);
    assert WithBoth(s, p, q0, r, q0, t) == s;
    hide NewSession, IsRun, After;
    Done(WithBoth(s, p, q2, r, u2, t[c := first]));
    SecondActs(s, p, q2, r, u1, t[c := first], Insert, u2, t[c := first], []);
    FirstActs(s, p, q1, r, u1, t, Insert, q2, t[c := first], [Do(r, Insert)]);
    SecondActs(s, p, q1, r, q0, t, Select(second), u1, t, [Do(p, Insert)] + [Do(r, Insert)]);
    FirstActs(s, p, q0, r, q0, t, Select(first), q1, t, [Do(r, Select(second))] + ([Do(p, Insert)] + [Do(r, Insert)]));
    assert Race(p, r, first, second) ==
           [Do(p, Select(first))] + ([Do(r, Select(second))] + ([Do(p, Insert)] + [Do(r, Insert)]));
  }
}
