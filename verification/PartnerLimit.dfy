/** How many partners a registered process can be told of before the answer ends it. */
module PartnerLimit {
  import opened CBytes
  import opened Messages
  import opened Frame
  import opened Sessions
  import opened Agreement
  import opened SessionRuns
  import opened Takeover

  /** The clients in the table other than the process's own. */
  function Others(t: Table, own: Option<Uuid>): set<Uuid> {
    if own.Some? then t.Keys - {own.value} else t.Keys
  }

  lemma {:induction false} AsManyAs(rows: seq<Uuid>, ids: set<Uuid>)
    requires forall i, j :: 0 <= i < j < |rows| ==> rows[i] != rows[j]
    requires forall c :: c in rows <==> c in ids
    ensures |rows| == |ids|
    decreases |rows|
  {
    if rows == [] {
      assert ids == {};
    } else {
      var n := |rows| - 1;
      var rest := ids - {rows[n]};
      assert rows[n] in ids;
      forall c
        ensures c in rows[..n] <==> c in rest
      {
        if c in rest {
          assert c in rows;
        }
      }
      AsManyAs(rows[..n], rest);
    }
  }

  /** Whatever the order of the rows, the answer names each of the others once. */
  lemma RowsAreOthers(rows: seq<Uuid>, t: Table, own: Option<Uuid>)
    requires ListsOthers(rows, t, own)
    ensures |rows| == |Others(t, own)|
  {
    AsManyAs(rows, Others(t, own));
  }

  /** Answering with a partner list ends a registered process exactly when the list is too long. */
  lemma TooManyPartners(s: State, p: Pid, ids: seq<Uuid>)
    requires p in s.procs && Registered(s.procs[p]) && s.procs[p].phase.Replying?
    requires s.procs[p].phase.reply == AvailableTradePartnersResponse(ids) && Uuids(ids)
    ensures Enabled(s, Do(p, Reply)) <==> |ids| != 56
    ensures Strands(s, Do(p, Reply)) <==> |ids| > 56
  {
    PartnersFitExactly(ids);
    hide Fits, Defined;
  }

  lemma ListedPartners(s: State, p: Pid, rows: seq<Uuid>)
    requires Enabled(s, Do(p, SelectPartners(rows))) && Registered(s.procs[p])
    ensures var q := Step(s, Do(p, SelectPartners(rows))).procs[p];
            Registered(q) && q.phase.Replying? && q.phase.reply == AvailableTradePartnersResponse(rows)
    ensures ListsOthers(rows, s.table, s.procs[p].client)
  {
    hide ListsOthers;
  }

  /**
   * What a registered process that asks for its partners can know before the SELECT: answering ends it, and
   * strands its row, if and only if the table has more than 56 other clients; for exactly 56 nothing is defined.
   */
  lemma ListingStrandsExactly(s: State, p: Pid, rows: seq<Uuid>)
    requires Invariant(s) && Enabled(s, Do(p, SelectPartners(rows))) && Registered(s.procs[p])
    ensures var s' := Step(s, Do(p, SelectPartners(rows)));
            var n := |Others(s.table, s.procs[p].client)|;
            && (Enabled(s', Do(p, Reply)) <==> n != 56)
            && (Strands(s', Do(p, Reply)) <==> n > 56)
  {
    ListedPartners(s, p, rows);
    hide Invariant, Uuids, ListsOthers, Others, Enabled, Step, Strands, Registered;
    RowsAreOthers(rows, s.table, s.procs[p].client);
    assert p in Step(s, Do(p, SelectPartners(rows))).procs;
    TooManyPartners(Step(s, Do(p, SelectPartners(rows))), p, rows);
  }

  // ------------------------------------------------------------ a run that gets there

  /** Sixteen bytes that tell the numbers below 256 apart; `mark` tells client ids from session ids. */
  function Numbered(i: nat, mark: Byte): (id: Uuid)
    requires i < 256
    ensures |id| == UUID_SIZE && id[0] == i
  {
    [i, mark] + seq(14, _ => 0)
  }

  /** n clients register one after the other. */
  function Registrations(n: nat, request: Bytes): seq<Label>
    requires n <= 256
  {
    if n == 0 then []
    else Registrations(n - 1, request) + Registration(n - 1, request, Numbered(n - 1, 1), Numbered(n - 1, 2))
  }

  function Member(i: nat): Process
    requires i < 256
  {
    Process(Idle, true, Some(Numbered(i, 1)), Some(Numbered(i, 2)), true)
  }

  /** The state with n registered clients. */
  function Crowd(n: nat): State
    requires n <= 256
  {
    if n == 0 then START
    else With(Crowd(n - 1), n - 1, Member(n - 1), Crowd(n - 1).table[Numbered(n - 1, 1) := Numbered(n - 1, 2)])
  }

  lemma {:induction false} CrowdMembers(n: nat)
    requires n <= 256
    ensures forall p: Pid :: p in Crowd(n).procs <==> p < n
    ensures forall p: Pid :: p < n ==> Crowd(n).procs[p] == Member(p)
    decreases n
  {
    hide Member;
    if n > 0 {
      CrowdMembers(n - 1);
    }
  }

  lemma {:induction false} CrowdTable(n: nat, i: nat)
    requires n <= 256 && i < 256
    ensures Numbered(i, 1) in Crowd(n).table <==> i < n
    decreases n
  {
    hide Numbered, Member;
    if n > 0 {
      CrowdTable(n - 1, i);
    }
  }

  lemma CrowdSession(n: nat)
    requires n < 256
    ensures NewSession(Crowd(n), Numbered(n, 2))
  {
    CrowdMembers(n);
    forall p | p in Crowd(n).procs
      ensures Crowd(n).procs[p].session != Some(Numbered(n, 2))
    {
    }
  }

  lemma {:induction false} CrowdIsReached(n: nat, request: Bytes)
    requires n <= 256
    ensures IsRun(START, Registrations(n, request)) && After(START, Registrations(n, request)) == Crowd(n)
    decreases n
  {
    hide Numbered, Registration;
    if n == 0 {
      Done(START);
    } else {
      CrowdIsReached(n - 1, request);
      CrowdMembers(n - 1);
      CrowdTable(n - 1, n - 1);
      CrowdSession(n - 1);
      Registers(Crowd(n - 1), n - 1, request, Numbered(n - 1, 1), Numbered(n - 1, 2));
      RunsJoin(START, Registrations(n - 1, request),
               Registration(n - 1, request, Numbered(n - 1, 1), Numbered(n - 1, 2)));
    }
  }

  /** Process 0 asks for its partners and is answered. */
  function Asking(request: Bytes, rows: seq<Uuid>): seq<Label> {
    [Do(0, Receive(request, AvailableTradePartnersRequest)), Do(0, SelectPartners(rows)), Do(0, Reply)]
  }

  lemma AnsweringEnds(s: State, t: Table, q: Process, request: Bytes, rows: seq<Uuid>)
    requires q.phase == Replying(request, AvailableTradePartnersResponse(rows)) && Uuids(rows) && |rows| > 56
    ensures IsRun(With(s, 0, q, t), [Do(0, Reply)])
    ensures After(With(s, 0, q, t), [Do(0, Reply)]) == With(s, 0, q.(phase := Dead), t)
  {
    PartnersFitExactly(rows);
    hide Fits, Defined, Uuids, IsRun, After;
    Done(With(s, 0, q.(phase := Dead), t));
    ChainWith(s, 0, q, t, Reply, q.(phase := Dead), t, []);
  }

  lemma {:induction false} AskingEnds(s: State, t: Table, q: Process, request: Bytes, rows: seq<Uuid>)
    requires q.phase.Idle? && q.connected && q.client.Some? && q.session.Some?
    requires ListsOthers(rows, t, q.client) && Uuids(rows) && |rows| > 56
    ensures var w := With(s, 0, q, t);
            IsRun(w, Asking(request, rows)) && After(w, Asking(request, rows)) == With(s, 0, q.(phase := Dead), t)
  {
    hide Fits, Defined, ListsOthers, Uuids, IsRun, After, With;
    var q1 := q.(phase := Listing(request));
    var q2 := q.(phase := Replying(request, AvailableTradePartnersResponse(rows)));
    AnsweringEnds(s, t, q2, request, rows);
    ChainWith(s, 0, q1, t, SelectPartners(rows), q2, t, [Do(0, Reply)]);
    ChainWith(s, 0, q, t, Receive(request, AvailableTradePartnersRequest), q1, t,
              [Do(0, SelectPartners(rows))] + [Do(0, Reply)]);
    assert Asking(request, rows) == [Do(0, Receive(request, AvailableTradePartnersRequest))]
                                    + ([Do(0, SelectPartners(rows))] + [Do(0, Reply)]);
  }

  /** The clients 1 to n - 1. */
  function Partners(n: nat): (rows: seq<Uuid>)
    requires 1 <= n <= 256
    ensures |rows| == n - 1
  {
    if n == 1 then [] else Partners(n - 1) + [Numbered(n - 1, 1)]
  }

  lemma {:induction false} PartnersAreListed(n: nat)
    requires 1 <= n <= 256
    ensures ListsOthers(Partners(n), Crowd(n).table, Some(Numbered(0, 1))) && Uuids(Partners(n))
    decreases n
  {
    hide Numbered, Member;
    if n > 1 {
      PartnersAreListed(n - 1);
      CrowdTable(n - 1, n - 1);
      assert Numbered(n - 1, 1) !in Partners(n - 1);
    } else {
      assert Crowd(1).table.Keys == {Numbered(0, 1)} by {
        assert Crowd(0) == START;
      }
    }
  }

  lemma NobodyHoldsIt(n: nat)
    requires 1 <= n <= 256
    ensures forall p :: !Holds(Diminished(n), p, Numbered(0, 1))
  {
    CrowdMembers(n);
    hide Numbered, Crowd;
    forall p | 0 < p < n
      ensures Numbered(p, 1) != Numbered(0, 1)
    {
    }
  }

  /** The crowd after its first client has asked. */
  function Diminished(n: nat): State
    requires n <= 256
  {
    With(Crowd(n), 0, Member(0).(phase := Dead), Crowd(n).table)
  }

  lemma WithSelf(s: State, p: Pid, q: Process)
    requires p in s.procs && s.procs[p] == q
    ensures With(s, p, q, s.table) == s
  {
  }

  lemma CrowdAsks(n: nat, request: Bytes)
    requires 58 <= n <= 256
    ensures IsRun(Crowd(n), Asking(request, Partners(n)))
    ensures After(Crowd(n), Asking(request, Partners(n))) == Diminished(n)
  {
    var s := Crowd(n);
    CrowdMembers(n);
    PartnersAreListed(n);
    WithSelf(s, 0, Member(0));
    hide Numbered, IsRun, After, ListsOthers, Asking, Crowd, Partners, Uuids, With;
    AskingEnds(s, s.table, Member(0), request, Partners(n));
  }

  lemma DiminishedRow(n: nat)
    requires 1 <= n <= 256
    ensures var s := Diminished(n); 0 in s.procs && s.procs[0].phase == Dead && Numbered(0, 1) in s.table
  {
    CrowdTable(n, 0);
    hide Numbered, Crowd;
  }

  /** From the start: of 58 or more registered clients the first asks for its partners, dies, and leaves its row. */
  lemma AskingCanKill(n: nat, request: Bytes)
    requires 58 <= n <= 256
    ensures var ls := Registrations(n, request) + Asking(request, Partners(n));
            && IsRun(START, ls)
            && 0 in After(START, ls).procs && After(START, ls).procs[0].phase == Dead
            && Numbered(0, 1) in After(START, ls).table
            && forall p :: !Holds(After(START, ls), p, Numbered(0, 1))
  {
    NobodyHoldsIt(n);
    hide Numbered, IsRun, After, Registrations, Asking, Crowd, Partners, Holds, Diminished;
    CrowdIsReached(n, request);
    CrowdAsks(n, request);
    DiminishedRow(n);
    RunsJoin(START, Registrations(n, request), Asking(request, Partners(n)));
  }
}
