/** What every step keeps: the table agrees with the registered processes. */
module Agreement {
  import opened CBytes
  import opened Messages
  import opened Frame
  import opened Sessions

  /** Process p is registered and goes by client id c. */
  predicate Holds(s: State, p: Pid, c: Uuid) {
    p in s.procs && Registered(s.procs[p]) && s.procs[p].client == Some(c)
  }

  predicate RowOf(s: State, p: Pid)
    requires p in s.procs
  {
    var q := s.procs[p];
    Registered(q) ==> q.client.Some? && q.client.value in s.table && q.session == Some(s.table[q.client.value])
  }

  /** Every registered process finds its own row in the table. */
  ghost predicate Agree(s: State) {
    forall p :: p in s.procs ==> RowOf(s, p)
  }

  /** No two registered processes go by the same client id. */
  ghost predicate Distinct(s: State) {
    forall p, r, c :: Holds(s, p, c) && Holds(s, r, c) ==> p == r
  }

  /** Every row belongs to a registered process. */
  ghost predicate Owned(s: State) {
    forall c :: c in s.table ==> exists p :: Holds(s, p, c)
  }

  /** The table is the graph of client and session id of the registered processes. */
  ghost predicate Exact(s: State) {
    Agree(s) && Owned(s)
  }

  /** A process deletes the row of another one that is still registered. */
  ghost predicate Steals(s: State, l: Label) {
    && l.Do? && l.a.Delete? && l.p in s.procs && s.procs[l.p].client.Some?
    && exists p :: p != l.p && Holds(s, p, s.procs[l.p].client.value)
  }

  /** A registered process ends without its DELETE. */
  ghost predicate Strands(s: State, l: Label) {
    Enabled(s, l) && l.Do? && Registered(s.procs[l.p]) && Step(s, l).procs[l.p].phase.Dead?
  }

  lemma AgreeingAreDistinct(s: State)
    requires Invariant(s) && Agree(s)
    ensures Distinct(s)
  {
    forall p, r, c | Holds(s, p, c) && Holds(s, r, c)
      ensures p == r
    {
      assert RowOf(s, p) && RowOf(s, r);
      assert Sound(s.procs[p]);
    }
  }

  /** Whoever takes another's row was refused: it asked for an id that was taken, and left. */
  lemma ThievesWereRefused(s: State, l: Label)
    requires Invariant(s) && Agree(s) && Enabled(s, l) && Steals(s, l)
    ensures !s.procs[l.p].connected
  {
    AgreeingAreDistinct(s);
    var c := s.procs[l.p].client.value;
    var p :| p != l.p && Holds(s, p, c);
    assert Sound(s.procs[l.p]);
    assert !Holds(s, l.p, c);
  }

  lemma OthersKeepTheirRow(s: State, l: Label, p: Pid)
    requires Invariant(s) && Agree(s) && Enabled(s, l) && !Steals(s, l)
    requires p in s.procs && p != l.p
    ensures RowOf(Step(s, l), p)
  {
    hide Moved, Live;
    assert RowOf(s, p);
    assert l.Do? && Registered(s.procs[p]) && s.procs[p].client.Some? ==> Holds(s, p, s.procs[p].client.value);
  }

  lemma OnlyTwoChange(q: Process, t: Table, a: Action)
    requires CanAct(q, t, a) && a != Insert && a != Delete
    ensures Changed(q, t, a) == t
  {
  }

  /** Agreement survives a step exactly when the step does not delete another's row. */
  lemma StepAgreesExactly(s: State, l: Label)
    requires Invariant(s) && Agree(s) && Enabled(s, l)
    ensures Agree(Step(s, l)) <==> !Steals(s, l)
  {
    if Steals(s, l) {
      var p :| p != l.p && Holds(s, p, s.procs[l.p].client.value);
      assert !RowOf(Step(s, l), p);
    } else {
      var s' := Step(s, l);
      forall p | p in s'.procs
        ensures RowOf(s', p)
      {
        hide Moved, Changed, CanAct, RowOf, Steals;
        if p == l.p {
        } else {
          OthersKeepTheirRow(s, l, p);
        }
      }
    }
  }

  lemma ActorHolds(s: State, l: Label, c: Uuid)
    requires Invariant(s) && Enabled(s, l) && Holds(s, l.p, c)
    ensures Holds(Step(s, l), l.p, c) <==> !Strands(s, l) && l.a != Delete
  {
    assert Sound(s.procs[l.p]);
    MovedRegistered(s.procs[l.p], s.table, l.a);
    hide Fits, Defined, ListsOthers;
  }

  lemma NewRowIsOwned(s: State, l: Label, c: Uuid)
    requires Invariant(s) && Enabled(s, l) && c !in s.table && c in Step(s, l).table
    ensures Holds(Step(s, l), l.p, c)
  {
  }

  lemma RowsStayOwned(s: State, l: Label, c: Uuid)
    requires Invariant(s) && Exact(s) && Enabled(s, l) && !Strands(s, l) && c in Step(s, l).table
    ensures exists p :: Holds(Step(s, l), p, c)
  {
    hide Moved, Changed, CanAct, Registered, Strands;
    if c in s.table {
      var p :| Holds(s, p, c);
      if p == l.p {
        DeletedIsGone(s, l, c);
        ActorHolds(s, l, c);
      }
      assert Holds(Step(s, l), p, c);
    } else {
      NewRowIsOwned(s, l, c);
    }
  }

  lemma DeletedIsGone(s: State, l: Label, c: Uuid)
    requires Enabled(s, l) && Holds(s, l.p, c) && c in Step(s, l).table
    ensures l.a != Delete
  {
  }

  lemma StrandedRowIsNotOwned(s: State, l: Label)
    requires Invariant(s) && Exact(s) && Strands(s, l)
    ensures !Owned(Step(s, l))
  {
    var c := s.procs[l.p].client.value by { assert RowOf(s, l.p); }
    assert RowOf(s, l.p) && Holds(s, l.p, c);
    AgreeingAreDistinct(s);
    if p :| Holds(Step(s, l), p, c) {
      hide Moved, Changed, CanAct;
    }
  }

  /** The table stays exact exactly when nobody's row is deleted by another and no registered process dies. */
  lemma StepExactlyExact(s: State, l: Label)
    requires Invariant(s) && Exact(s) && Enabled(s, l)
    ensures Exact(Step(s, l)) <==> !Steals(s, l) && !Strands(s, l)
  {
    hide Moved, Changed, CanAct, Steals, Agree;
    StepAgreesExactly(s, l);
    if Strands(s, l) {
      StrandedRowIsNotOwned(s, l);
    } else {
      forall c | c in Step(s, l).table
        ensures exists p :: Holds(Step(s, l), p, c)
      {
        RowsStayOwned(s, l, c);
      }
    }
  }
}
