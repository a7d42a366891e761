/** Whole runs of the server processes. */
module SessionRuns {
  import opened CBytes
  import opened Messages
  import opened Frame
  import opened Sessions
  import opened Agreement

  /** The server has just emptied the table and accepted nobody yet. */
  const START: State := State(map[], map[])

  /** Every step is enabled where it is taken. */
  ghost predicate IsRun(s: State, ls: seq<Label>)
    decreases |ls|
  {
    ls != [] ==> Enabled(s, ls[0]) && IsRun(Step(s, ls[0]), ls[1..])
  }

  ghost function After(s: State, ls: seq<Label>): State
    requires IsRun(s, ls)
    decreases |ls|
  {
    if ls == [] then s else After(Step(s, ls[0]), ls[1..])
  }

  lemma StartIsSound()
    ensures Invariant(START) && Exact(START)
  {
  }

  lemma {:induction false} RunKeepsInvariant(s: State, ls: seq<Label>)
    requires Invariant(s) && IsRun(s, ls)
    ensures Invariant(After(s, ls))
    decreases |ls|
  {
    hide Enabled, Step, Invariant;
    if ls != [] {
      StepKeepsInvariant(s, ls[0]);
      RunKeepsInvariant(Step(s, ls[0]), ls[1..]);
    }
  }

  /** One more step in front of a run. */
  lemma Chain(s: State, l: Label, ls: seq<Label>)
    requires Enabled(s, l) && IsRun(Step(s, l), ls)
    ensures IsRun(s, [l] + ls) && After(s, [l] + ls) == After(Step(s, l), ls)
  {
    assert ([l] + ls)[1..] == ls;
  }

  lemma Done(s: State)
    ensures IsRun(s, []) && After(s, []) == s
  {
  }

  lemma {:induction false} RunsJoin(s: State, xs: seq<Label>, ys: seq<Label>)
    requires IsRun(s, xs)
    ensures IsRun(s, xs + ys) <==> IsRun(After(s, xs), ys)
    ensures IsRun(s, xs + ys) ==> After(s, xs + ys) == After(After(s, xs), ys)
    decreases |xs|
  {
    hide Enabled, Step;
    if xs == [] {
      assert xs + ys == ys;
    } else {
      assert (xs + ys)[1..] == xs[1..] + ys;
      RunsJoin(Step(s, xs[0]), xs[1..], ys);
    }
  }

  lemma PrefixIsRun(s: State, ls: seq<Label>, i: nat)
    requires IsRun(s, ls) && i <= |ls|
    ensures IsRun(s, ls[..i]) && IsRun(After(s, ls[..i]), ls[i..])
    ensures After(After(s, ls[..i]), ls[i..]) == After(s, ls)
    decreases |ls|
  {
    hide Enabled, Step;
    if i > 0 {
      PrefixIsRun(Step(s, ls[0]), ls[1..], i - 1);
      assert ls[..i][1..] == ls[1..][..i - 1];
      assert ls[i..] == ls[1..][i - 1..];
    } else {
      assert ls[..0] == [] && ls[0..] == ls;
    }
  }

  /** The state before step i. */
  ghost function At(s: State, ls: seq<Label>, i: nat): State
    requires IsRun(s, ls) && i <= |ls|
  {
    PrefixIsRun(s, ls, i);
    After(s, ls[..i])
  }

  lemma NextState(s: State, ls: seq<Label>, i: nat)
    requires IsRun(s, ls) && i < |ls|
    ensures Enabled(At(s, ls, i), ls[i]) && At(s, ls, i + 1) == Step(At(s, ls, i), ls[i])
  {
    hide Enabled, Step;
    PrefixIsRun(s, ls, i);
    PrefixIsRun(s, ls, i + 1);
    assert ls[..i + 1] == ls[..i] + [ls[i]];
    RunsJoin(s, ls[..i], [ls[i]]);
  }

  // ------------------------------------------------------------ registration races

  /** A successful INSERT of client id c. */
  ghost predicate Inserts(s: State, l: Label, c: Uuid) {
    Enabled(s, l) && l.Do? && l.a.Insert? && s.procs[l.p].client == Some(c) && c !in s.table
  }

  /** An exit DELETE of client id c. */
  ghost predicate Deletes(s: State, l: Label, c: Uuid) {
    Enabled(s, l) && l.Do? && l.a.Delete? && s.procs[l.p].client == Some(c)
  }

  lemma RowStays(s: State, l: Label, c: Uuid)
    requires Enabled(s, l) && c in s.table
    ensures c in Step(s, l).table <==> !Deletes(s, l, c)
  {
    hide Moved;
  }

  lemma {:induction false} RowStaysThrough(s: State, ls: seq<Label>, i: nat, j: nat, c: Uuid)
    requires IsRun(s, ls) && i <= j <= |ls| && c in At(s, ls, i).table
    requires forall k :: i <= k < j ==> !Deletes(At(s, ls, k), ls[k], c)
    ensures c in At(s, ls, j).table
    decreases j
  {
    hide At, Step, Enabled, Deletes;
    if i < j {
      RowStaysThrough(s, ls, i, j - 1, c);
      NextState(s, ls, j - 1);
      RowStay(s, ls, j - 1, c);
    }
  }

  lemma RowStay(s: State, ls: seq<Label>, k: nat, c: Uuid)
    requires IsRun(s, ls) && k < |ls| && c in At(s, ls, k).table && !Deletes(At(s, ls, k), ls[k], c)
    ensures c in At(s, ls, k + 1).table
  {
    hide At, Step, Enabled, Deletes;
    NextState(s, ls, k);
    RowStays(At(s, ls, k), ls[k], c);
  }

  /** Whatever the interleaving, between two successful INSERTs of an id some process deletes it. */
  lemma RaceSafe(s: State, ls: seq<Label>, i: nat, j: nat, c: Uuid)
    requires IsRun(s, ls) && i < j < |ls|
    requires Inserts(At(s, ls, i), ls[i], c) && Inserts(At(s, ls, j), ls[j], c)
    ensures exists k :: i < k < j && Deletes(At(s, ls, k), ls[k], c)
  {
    NextState(s, ls, i);
    if forall k :: i + 1 <= k < j ==> !Deletes(At(s, ls, k), ls[k], c) {
      RowStaysThrough(s, ls, i + 1, j, c);
      assert false;
    }
  }

  /** A process that has ended takes no further step, and its fields stay. */
  lemma {:induction false} EndedStaysEnded(s: State, ls: seq<Label>, p: Pid, i: nat)
    requires IsRun(s, ls) && p in s.procs && !Live(s.procs[p]) && i <= |ls|
    ensures p in At(s, ls, i).procs && At(s, ls, i).procs[p] == s.procs[p]
    ensures i < |ls| ==> ls[i].p != p
  {
    hide At, Step, Enabled, Live;
    if i == 0 {
      assert At(s, ls, 0) == s by { AtStart(s, ls); }
    } else {
      EndedStaysEnded(s, ls, p, i - 1);
      NextState(s, ls, i - 1);
      OthersUntouched(At(s, ls, i - 1), ls[i - 1], p);
    }
    if i < |ls| {
      NextState(s, ls, i);
      EndedCannotAct(At(s, ls, i), ls[i], p);
    }
  }

  lemma AtStart(s: State, ls: seq<Label>)
    requires IsRun(s, ls)
    ensures At(s, ls, 0) == s
  {
    assert ls[..0] == [];
  }

  lemma OthersUntouched(s: State, l: Label, p: Pid)
    requires Enabled(s, l) && p in s.procs && l.p != p
    ensures p in Step(s, l).procs && Step(s, l).procs[p] == s.procs[p]
  {
    hide Moved, Changed, CanAct;
  }

  lemma EndedCannotAct(s: State, l: Label, p: Pid)
    requires Enabled(s, l) && p in s.procs && !Live(s.procs[p])
    ensures l.p != p
  {
  }

  /**
   * Who loses a race, its SELECT having seen no row, dies in the INSERT: it changes no row,
   * and afterwards neither answers nor deletes, in whatever way the run goes on.
   */
  lemma RaceLoser(s: State, p: Pid, ls: seq<Label>)
    requires Enabled(s, Do(p, Insert)) && s.procs[p].client.value in s.table
    requires IsRun(Step(s, Do(p, Insert)), ls)
    ensures Step(s, Do(p, Insert)).table == s.table
    ensures forall i :: 0 <= i < |ls| ==> ls[i].p != p
  {
    var dead := Step(s, Do(p, Insert));
    assert !Live(dead.procs[p]);
    forall i | 0 <= i < |ls|
      ensures ls[i].p != p
    {
      hide Step;
      EndedStaysEnded(dead, ls, p, i);
    }
  }

  // ------------------------------------------------------------ agreement over runs

  ghost predicate NeverSteals(s: State, ls: seq<Label>)
    requires IsRun(s, ls)
  {
    forall i :: 0 <= i < |ls| ==> !Steals(At(s, ls, i), ls[i])
  }

  ghost predicate NeverStrands(s: State, ls: seq<Label>)
    requires IsRun(s, ls)
  {
    forall i :: 0 <= i < |ls| ==> !Strands(At(s, ls, i), ls[i])
  }

  lemma InvariantAt(s: State, ls: seq<Label>, i: nat)
    requires Invariant(s) && IsRun(s, ls) && i <= |ls|
    ensures Invariant(At(s, ls, i))
  {
    PrefixIsRun(s, ls, i);
    RunKeepsInvariant(s, ls[..i]);
  }

  lemma {:induction false} AgreeAt(s: State, ls: seq<Label>, i: nat)
    requires Invariant(s) && Agree(s) && IsRun(s, ls) && i <= |ls| && NeverSteals(s, ls)
    ensures Agree(At(s, ls, i))
  {
    hide Invariant, Agree, At, Step, Enabled, Steals;
    if i == 0 {
      AtStart(s, ls);
    } else {
      AgreeAt(s, ls, i - 1);
      InvariantAt(s, ls, i - 1);
      NextState(s, ls, i - 1);
      StepAgreesExactly(At(s, ls, i - 1), ls[i - 1]);
    }
  }

  /** The table agrees with the registered processes throughout a run exactly when no step takes another's row. */
  lemma {:induction false} AgreesThroughoutExactly(s: State, ls: seq<Label>)
    requires Invariant(s) && Agree(s) && IsRun(s, ls)
    ensures (forall i: nat :: i <= |ls| ==> Agree(At(s, ls, i))) <==> NeverSteals(s, ls)
  {
    hide Invariant, Agree, At, Step, Enabled, Steals;
    if NeverSteals(s, ls) {
      forall i: nat | i <= |ls|
        ensures Agree(At(s, ls, i))
      {
        AgreeAt(s, ls, i);
      }
    } else {
      var i :| 0 <= i < |ls| && Steals(At(s, ls, i), ls[i]);
      if forall k: nat :: k <= |ls| ==> Agree(At(s, ls, k)) {
        InvariantAt(s, ls, i);
        NextState(s, ls, i);
        assert Agree(At(s, ls, i)) && Agree(At(s, ls, i + 1));
        StepAgreesExactly(At(s, ls, i), ls[i]);
      }
    }
  }

  /** From the start: while nobody's row is deleted by another, registered clients are distinct. */
  lemma ClientsDistinct(ls: seq<Label>, i: nat)
    requires IsRun(START, ls) && i <= |ls| && NeverSteals(START, ls)
    ensures Distinct(At(START, ls, i))
  {
    hide Invariant, Agree, At, Step, Enabled, Steals, Distinct;
    StartIsSound();
    assert Agree(START);
    AgreeAt(START, ls, i);
    InvariantAt(START, ls, i);
    AgreeingAreDistinct(At(START, ls, i));
  }

  lemma {:induction false} ExactAt(s: State, ls: seq<Label>, i: nat)
    requires Invariant(s) && Exact(s) && IsRun(s, ls) && i <= |ls|
    requires NeverSteals(s, ls) && NeverStrands(s, ls)
    ensures Exact(At(s, ls, i))
  {
    hide Invariant, Exact, At, Step, Enabled, Steals, Strands;
    if i == 0 {
      AtStart(s, ls);
    } else {
      ExactAt(s, ls, i - 1);
      InvariantAt(s, ls, i - 1);
      NextState(s, ls, i - 1);
      StepExactlyExact(At(s, ls, i - 1), ls[i - 1]);
    }
  }

  /** The table is the graph of the registered processes throughout a run exactly when no step steals or strands. */
  lemma ExactThroughoutExactly(s: State, ls: seq<Label>)
    requires Invariant(s) && Exact(s) && IsRun(s, ls)
    ensures (forall i: nat :: i <= |ls| ==> Exact(At(s, ls, i))) <==> NeverSteals(s, ls) && NeverStrands(s, ls)
  {
    hide Invariant, Exact, At, Step, Enabled, Steals, Strands;
    if NeverSteals(s, ls) && NeverStrands(s, ls) {
      forall i: nat | i <= |ls|
        ensures Exact(At(s, ls, i))
      {
        ExactAt(s, ls, i);
      }
    } else {
      var i :| 0 <= i < |ls| && (Steals(At(s, ls, i), ls[i]) || Strands(At(s, ls, i), ls[i]));
      if forall k: nat :: k <= |ls| ==> Exact(At(s, ls, k)) {
        InvariantAt(s, ls, i);
        NextState(s, ls, i);
        assert Exact(At(s, ls, i)) && Exact(At(s, ls, i + 1));
        StepExactlyExact(At(s, ls, i), ls[i]);
      }
    }
  }

  // ------------------------------------------------------------ identity

  lemma StepKeepsIdentity(s: State, l: Label, p: Pid)
    requires Invariant(s) && Enabled(s, l) && p in s.procs && s.procs[p].connected
    ensures p in Step(s, l).procs && SameIdentity(s.procs[p], Step(s, l).procs[p])
  {
    if l.p == p {
      assert Sound(s.procs[p]);
      MovedRegistered(s.procs[p], s.table, l.a);
    } else {
      OthersUntouched(s, l, p);
    }
  }

  predicate SameIdentity(q: Process, r: Process) {
    r.connected && r.client == q.client && r.session == q.session && (q.inserted ==> r.inserted)
  }

  /** Once a process is connected, no message changes its client id or session id. */
  lemma {:induction false} IdentityIsFrozen(s: State, ls: seq<Label>, p: Pid, i: nat)
    requires Invariant(s) && IsRun(s, ls) && p in s.procs && s.procs[p].connected && i <= |ls|
    ensures p in At(s, ls, i).procs && SameIdentity(s.procs[p], At(s, ls, i).procs[p])
  {
    hide Invariant, At, Step, Enabled;
    if i == 0 {
      AtStart(s, ls);
    } else {
      IdentityIsFrozen(s, ls, p, i - 1);
      InvariantAt(s, ls, i - 1);
      NextState(s, ls, i - 1);
      StepKeepsIdentity(At(s, ls, i - 1), ls[i - 1], p);
    }
  }

  /** The answer a process writes in step i. */
  ghost predicate Answers(s: State, l: Label, m: Message) {
    Enabled(s, l) && l.Do? && l.a.Reply? && s.procs[l.p].phase.reply == m
  }

  /** OK is answered only by a process that is registered, and with its own ids. */
  lemma OkMeansRegistered(s: State, ls: seq<Label>, i: nat, m: Message)
    requires Invariant(s) && IsRun(s, ls) && i < |ls| && Answers(At(s, ls, i), ls[i], m)
    requires m.SessionStartResponse? && m.error == OK
    ensures Registered(At(s, ls, i).procs[ls[i].p])
    ensures At(s, ls, i).procs[ls[i].p].client == Some(m.client_id)
    ensures At(s, ls, i).procs[ls[i].p].session == m.session_id
  {
    InvariantAt(s, ls, i);
    assert Sound(At(s, ls, i).procs[ls[i].p]);
  }

  /** In an exact state the partners are the clients of the other registered processes, each once. */
  lemma PartnersAreTheOthers(s: State, p: Pid, rows: seq<Uuid>, c: Uuid)
    requires Invariant(s) && Exact(s) && p in s.procs && Registered(s.procs[p])
    requires Enabled(s, Do(p, SelectPartners(rows)))
    ensures c in rows <==> exists r :: r != p && Holds(s, r, c)
    ensures forall i, j :: 0 <= i < j < |rows| ==> rows[i] != rows[j]
    ensures Step(s, Do(p, SelectPartners(rows))).procs[p].phase ==
            Replying(s.procs[p].phase.request, AvailableTradePartnersResponse(rows))
  {
    assert RowOf(s, p) && Holds(s, p, s.procs[p].client.value);
    AgreeingAreDistinct(s);
    if r :| r != p && Holds(s, r, c) {
      assert RowOf(s, r);
    }
  }

  /** In an exact state, whoever is refused is told the session of the process that holds its id. */
  lemma RefusedHearsOfTheHolder(s: State, p: Pid, sid: Uuid) returns (holder: Pid)
    requires Invariant(s) && Exact(s) && Enabled(s, Do(p, Select(sid))) && s.procs[p].client.value in s.table
    ensures var c := s.procs[p].client.value;
            && holder != p && Holds(s, holder, c)
            && Step(s, Do(p, Select(sid))).procs[p].phase ==
               Replying(s.procs[p].phase.request,
                        SessionStartResponse(c, s.procs[holder].session, CLIENT_ALREADY_CONNECTED))
  {
    var c := s.procs[p].client.value;
    holder :| Holds(s, holder, c);
    assert RowOf(s, holder);
    assert Sound(s.procs[p]);
  }

  /** A registered process that has answered OK: whatever it is asked, it only ever repeats its ids. */
  predicate Settled(q: Process, client: Option<Uuid>, session: Option<Uuid>) {
    && q.inserted && q.client == client && q.session == session
    && (q.phase.Replying? && q.phase.reply.SessionStartResponse? ==>
          client == Some(q.phase.reply.client_id) && session == q.phase.reply.session_id
          && q.phase.reply.error == SESSION_STARTED)
  }

  lemma {:induction false} StaysSettled(s: State, ls: seq<Label>, p: Pid, i: nat)
    requires Invariant(s) && IsRun(s, ls) && p in s.procs && i <= |ls|
    requires Settled(s.procs[p], s.procs[p].client, s.procs[p].session)
    ensures p in At(s, ls, i).procs && Settled(At(s, ls, i).procs[p], s.procs[p].client, s.procs[p].session)
  {
    hide Invariant, At, Step, Enabled, Settled;
    if i == 0 {
      AtStart(s, ls);
    } else {
      StaysSettled(s, ls, p, i - 1);
      InvariantAt(s, ls, i - 1);
      NextState(s, ls, i - 1);
      StepKeepsSettled(At(s, ls, i - 1), ls[i - 1], p, s.procs[p].client, s.procs[p].session);
    }
  }

  lemma StepKeepsSettled(s: State, l: Label, p: Pid, client: Option<Uuid>, session: Option<Uuid>)
    requires Invariant(s) && Enabled(s, l) && p in s.procs && Settled(s.procs[p], client, session)
    ensures p in Step(s, l).procs && Settled(Step(s, l).procs[p], client, session)
  {
    if l.p == p {
      assert Sound(s.procs[p]);
    } else {
      OthersUntouched(s, l, p);
    }
  }

  /** Every later SessionStartResponse of a registered process says SESSION_STARTED and names the same ids. */
  lemma AlwaysTheSameAnswer(s: State, ls: seq<Label>, p: Pid, i: nat, m: Message)
    requires Invariant(s) && IsRun(s, ls) && p in s.procs && s.procs[p].inserted && s.procs[p].phase.Idle?
    requires i < |ls| && ls[i].p == p && Answers(At(s, ls, i), ls[i], m) && m.SessionStartResponse?
    ensures s.procs[p].client.Some?
    ensures m == SessionStartResponse(s.procs[p].client.value, s.procs[p].session, SESSION_STARTED)
  {
    assert Sound(s.procs[p]);
    StaysSettled(s, ls, p, i);
    hide Invariant, At, Step;
    assert Settled(At(s, ls, i).procs[p], s.procs[p].client, s.procs[p].session);
  }

  /** As long as nobody's row is deleted by another, a live registered process keeps its row. */
  lemma RowIsFrozen(s: State, ls: seq<Label>, p: Pid, i: nat)
    requires Invariant(s) && Agree(s) && IsRun(s, ls) && NeverSteals(s, ls) && i <= |ls|
    requires p in s.procs && Registered(s.procs[p])
    ensures p in At(s, ls, i).procs && s.procs[p].client.Some? && s.procs[p].session.Some?
    ensures Live(At(s, ls, i).procs[p]) ==>
              var c := s.procs[p].client.value;
              c in At(s, ls, i).table && At(s, ls, i).table[c] == s.procs[p].session.value
  {
    assert Sound(s.procs[p]);
    IdentityIsFrozen(s, ls, p, i);
    AgreeAt(s, ls, i);
    hide Invariant, At, Step, Enabled, Steals;
    assert RowOf(At(s, ls, i), p);
  }
}
