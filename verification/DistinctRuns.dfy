/** Exactly which runs give two registered processes one client id, and the guard that would prevent it. */
module DistinctRuns {
  import opened Messages
  import opened Frame
  import opened Sessions
  import opened Agreement
  import opened SessionRuns

  /** Step k is the exit DELETE of c by a process other than p, which holds c and keeps running. */
  ghost predicate TakenAway(s: State, ls: seq<Label>, k: nat, p: Pid, c: Uuid)
    requires IsRun(s, ls) && k < |ls|
  {
    Deletes(At(s, ls, k), ls[k], c) && ls[k].p != p && Holds(At(s, ls, k), p, c)
  }

  /** Step j is a successful INSERT of c while p still holds it. */
  ghost predicate GivenAgain(s: State, ls: seq<Label>, j: nat, p: Pid, c: Uuid)
    requires IsRun(s, ls) && j < |ls|
  {
    Inserts(At(s, ls, j), ls[j], c) && Holds(At(s, ls, j), p, c)
  }

  /** An id is taken away from a process that holds it and given to another one while it still does. */
  ghost predicate Doubles(s: State, ls: seq<Label>)
    requires IsRun(s, ls)
  {
    exists k: nat, j: nat, p, c :: k < j < |ls| && TakenAway(s, ls, k, p, c) && GivenAgain(s, ls, j, p, c)
  }

  ghost predicate DistinctThroughout(s: State, ls: seq<Label>)
    requires IsRun(s, ls)
  {
    forall i: nat :: i <= |ls| ==> Distinct(At(s, ls, i))
  }

  /** Registered from the state before step `a` on, where the row was in the table. */
  ghost predicate HeldFrom(s: State, ls: seq<Label>, a: nat, i: nat, p: Pid, c: Uuid)
    requires IsRun(s, ls) && a <= i <= |ls|
  {
    && c in At(s, ls, a).table
    && (forall m :: a <= m <= i ==> Holds(At(s, ls, m), p, c))
    && (a > 0 ==> Inserts(At(s, ls, a - 1), ls[a - 1], c) && ls[a - 1].p == p)
  }

  /** Whoever starts to hold an id has just inserted it. */
  lemma HolderInserted(s: State, l: Label, p: Pid, c: Uuid)
    requires Invariant(s) && Enabled(s, l) && Holds(Step(s, l), p, c) && !Holds(s, p, c)
    ensures l.p == p && Inserts(s, l, c) && c in Step(s, l).table
  {
    if l.p != p {
    } else if l.Do? {
      assert Sound(s.procs[p]);
      MovedRegistered(s.procs[p], s.table, l.a);
    }
  }

  lemma HolderAtStart(s: State, p: Pid, c: Uuid)
    requires Agree(s) && Holds(s, p, c)
    ensures c in s.table
  {
    assert RowOf(s, p);
  }

  /** Since when a process has held its id. */
  lemma {:induction false} HeldSince(s: State, ls: seq<Label>, i: nat, p: Pid, c: Uuid) returns (a: nat)
    requires Invariant(s) && Agree(s) && IsRun(s, ls) && i <= |ls| && Holds(At(s, ls, i), p, c)
    ensures a <= i && HeldFrom(s, ls, a, i, p, c)
    decreases i
  {
    hide Invariant, Agree, At, Step, Enabled, Holds, Inserts;
    if i == 0 {
      a := 0;
      AtStart(s, ls);
      HolderAtStart(s, p, c);
    } else if Holds(At(s, ls, i - 1), p, c) {
      a := HeldSince(s, ls, i - 1, p, c);
    } else {
      a := i;
      InvariantAt(s, ls, i - 1);
      NextState(s, ls, i - 1);
      HolderInserted(At(s, ls, i - 1), ls[i - 1], p, c);
    }
  }

  /** Who deletes no longer holds. */
  lemma DeleterIsGone(s: State, l: Label, c: Uuid)
    requires Deletes(s, l, c)
    ensures !Holds(Step(s, l), l.p, c)
  {
  }

  /** Of two holders, the later one inserted an id that had been taken away from the earlier one. */
  lemma LaterHolderDoubles(s: State, ls: seq<Label>, i: nat, p: Pid, a: nat, r: Pid, b: nat, c: Uuid)
    requires IsRun(s, ls) && i <= |ls| && a < b <= i
    requires HeldFrom(s, ls, a, i, p, c) && HeldFrom(s, ls, b, i, r, c)
    ensures Doubles(s, ls)
  {
    hide Invariant, At, Step, Enabled, Holds, Deletes;
    var j := b - 1;
    if forall k :: a <= k < j ==> !Deletes(At(s, ls, k), ls[k], c) {
      RowStaysThrough(s, ls, a, j, c);
      assert false;
    }
    var k: nat :| a <= k < j && Deletes(At(s, ls, k), ls[k], c);
    NextState(s, ls, k);
    DeleterIsGone(At(s, ls, k), ls[k], c);
    assert TakenAway(s, ls, k, p, c) && GivenAgain(s, ls, j, p, c);
  }

  lemma TwoHoldersDouble(s: State, ls: seq<Label>, i: nat, p: Pid, r: Pid, c: Uuid)
    requires Invariant(s) && Agree(s) && IsRun(s, ls) && i <= |ls|
    requires p != r && Holds(At(s, ls, i), p, c) && Holds(At(s, ls, i), r, c)
    ensures Doubles(s, ls)
  {
    var a := HeldSince(s, ls, i, p, c);
    var b := HeldSince(s, ls, i, r, c);
    hide Invariant, Agree, At, Holds, HeldFrom, Doubles;
    if a < b {
      LaterHolderDoubles(s, ls, i, p, a, r, b, c);
    } else {
      LaterHolderDoubles(s, ls, i, r, b, p, a, c);
    }
  }

  /** Who inserts an id anew does so beside whoever still holds it. */
  lemma GivenAgainIsNotDistinct(s: State, l: Label, p: Pid, c: Uuid)
    requires Invariant(s) && Inserts(s, l, c) && Holds(s, p, c)
    ensures !Distinct(Step(s, l))
  {
    assert Sound(s.procs[l.p]);
    assert p != l.p;
    assert Holds(Step(s, l), p, c) && Holds(Step(s, l), l.p, c);
  }

  /**
   * Registered client ids are distinct throughout a run if and only if no id is deleted by one process while
   * another holds it and then inserted again while that one still does.
   */
  lemma DistinctThroughoutExactly(s: State, ls: seq<Label>)
    requires Invariant(s) && Agree(s) && IsRun(s, ls)
    ensures DistinctThroughout(s, ls) <==> !Doubles(s, ls)
  {
    hide Invariant, Agree, At, Holds, TakenAway;
    if Doubles(s, ls) {
      var k: nat, j: nat, p, c :| k < j < |ls| && TakenAway(s, ls, k, p, c) && GivenAgain(s, ls, j, p, c);
      InvariantAt(s, ls, j);
      NextState(s, ls, j);
      GivenAgainIsNotDistinct(At(s, ls, j), ls[j], p, c);
    } else {
      forall i: nat | i <= |ls|
        ensures Distinct(At(s, ls, i))
      {
        forall p, r, c | Holds(At(s, ls, i), p, c) && Holds(At(s, ls, i), r, c)
          ensures p == r
        {
          if p != r {
            TwoHoldersDouble(s, ls, i, p, r, c);
          }
        }
      }
    }
  }

  /** For the runs of the server: from the empty table and no processes. */
  lemma ClientsDistinctExactly(ls: seq<Label>)
    requires IsRun(START, ls)
    ensures DistinctThroughout(START, ls) <==> !Doubles(START, ls)
  {
    StartIsSound();
    hide Invariant, Doubles, DistinctThroughout;
    DistinctThroughoutExactly(START, ls);
  }

  // ------------------------------------------------------------ the guard that the exit DELETE lacks

  /** What a process could check before its DELETE: it has a session, or the table has no such row. */
  predicate Guarded(q: Process, t: Table) {
    q.connected || q.client.None? || q.client.value !in t
  }

  /** In an exact state a DELETE takes another's row if and only if that check fails. */
  lemma DeleteStealsExactly(s: State, p: Pid)
    requires Invariant(s) && Exact(s) && Enabled(s, Do(p, Delete))
    ensures Steals(s, Do(p, Delete)) <==> !Guarded(s.procs[p], s.table)
  {
    var q := s.procs[p];
    assert Sound(q);
    if !Guarded(q, s.table) {
      var r :| Holds(s, r, q.client.value);
      assert r != p;
    }
  }

  /** Every DELETE of the run passes the check. */
  ghost predicate GuardedRun(s: State, ls: seq<Label>)
    requires IsRun(s, ls)
  {
    forall i :: 0 <= i < |ls| && ls[i].Do? && ls[i].a.Delete? ==>
                  ls[i].p in At(s, ls, i).procs && Guarded(At(s, ls, i).procs[ls[i].p], At(s, ls, i).table)
  }

  lemma GuardedDoesNotSteal(s: State, l: Label)
    requires Invariant(s) && Agree(s) && Enabled(s, l)
    requires l.Do? && l.a.Delete? ==> Guarded(s.procs[l.p], s.table)
    ensures !Steals(s, l)
  {
  }

  lemma {:induction false} GuardedAgrees(s: State, ls: seq<Label>, i: nat)
    requires Invariant(s) && Agree(s) && IsRun(s, ls) && GuardedRun(s, ls) && i <= |ls|
    ensures Agree(At(s, ls, i)) && (i < |ls| ==> !Steals(At(s, ls, i), ls[i]))
    decreases i
  {
    hide Invariant, Agree, At, Step, Enabled, Steals, Guarded;
    if i == 0 {
      AtStart(s, ls);
    } else {
      GuardedAgrees(s, ls, i - 1);
      InvariantAt(s, ls, i - 1);
      NextState(s, ls, i - 1);
      StepAgreesExactly(At(s, ls, i - 1), ls[i - 1]);
    }
    if i < |ls| {
      InvariantAt(s, ls, i);
      NextState(s, ls, i);
      GuardedDoesNotSteal(At(s, ls, i), ls[i]);
    }
  }

  /** With that check in front of the DELETE, no interleaving ever gives two registered processes one id. */
  lemma GuardSuffices(ls: seq<Label>)
    requires IsRun(START, ls) && GuardedRun(START, ls)
    ensures NeverSteals(START, ls) && DistinctThroughout(START, ls)
  {
    StartIsSound();
    assert Agree(START);
    hide Invariant, Agree, At, Step, Enabled, Steals, Distinct;
    forall i: nat | i <= |ls|
      ensures (i < |ls| ==> !Steals(At(START, ls, i), ls[i])) && Distinct(At(START, ls, i))
    {
      GuardedAgrees(START, ls, i);
      InvariantAt(START, ls, i);
      AgreeingAreDistinct(At(START, ls, i));
    }
  }
}
