/** Whole runs of servers and clients together. */
module NetRuns {
  import opened CBytes
  import opened Messages
  import opened Frame
  import opened Sessions
  import opened Agreement
  import opened SessionRuns
  import opened Connections
  import opened Callbacks

  const NOBODY: Net := Net(START, map[])

  ghost predicate ConnOk(q: Process, c: Conn) {
    InOrder(q, c) && Truthful(q, c) && Accounted(c.client) && Faithful(q, c) && OkArrives(q, c)
  }

  ghost predicate NetInvariant(n: Net) {
    && Invariant(n.server) && n.conns.Keys == n.server.procs.Keys
    && forall p :: p in n.conns ==> ConnOk(n.server.procs[p], n.conns[p])
  }

  lemma {:induction false} ServerKeepsConn(q: Process, t: Table, a: Action, c: Conn)
    requires Sound(q) && CanAct(q, t, a) && ConnOk(q, c)
    requires a.Receive? ==> c.requests != [] && c.requests[0] == Packet(a.request, a.message)
    ensures ConnOk(Moved(q, t, a), Streamed(c, q, a))
  {
    ServerKeepsOrder(q, t, a, c);
    ServerKeepsTruth(q, t, a, c);
    ServerKeepsEchoes(q, t, a, c);
    ServerDeliversOk(q, t, a, c);
    hide InOrder, Truthful, Accounted, Faithful, OkArrives, Moved, CanAct, Sound;
  }

  lemma ClientKeepsConn(q: Process, c: Conn, a: ClientAction)
    requires Sound(q) && ClientCan(c.client, a) && ConnOk(q, c)
    requires a.Take? ==> c.replies != [] && c.replies[0] == a.reply
    ensures ConnOk(q, ClientStreamed(c, a))
  {
    ClientKeepsOrder(q, c, a);
    ClientKeepsTruth(q, c, a);
    ClientKeepsEchoes(q, c, a);
    ClientHearsOk(q, c, a);
    ClientKeepsAccounts(c.client, a);
    hide InOrder, Truthful, Accounted, Faithful, OkArrives, ClientMoved, ClientCan, Sound;
  }

  lemma NewConnOk(id: Uuid)
    requires |id| == UUID_SIZE
    ensures ConnOk(FORKED, Conn(NewClient(id), [], []))
  {
  }

  lemma {:induction false} NetStepKeepsInvariant(n: Net, l: NetLabel)
    requires NetInvariant(n) && NetEnabled(n, l)
    ensures NetInvariant(NetStep(n, l))
  {
    hide ConnOk, Invariant, CanAct, ClientCan, Moved, Changed, Streamed, ClientStreamed;
    match l
    case Connect(p, id) =>
      StepKeepsInvariant(n.server, Fork(p));
      NewConnOk(id);
    case Server(p, a) =>
      StepKeepsInvariant(n.server, Do(p, a));
      assert Sound(n.server.procs[p]) by { SoundOf(n.server, p); }
      ServerKeepsConn(n.server.procs[p], n.server.table, a, n.conns[p]);
    case OnClient(p, a) =>
      assert Sound(n.server.procs[p]) by { SoundOf(n.server, p); }
      ClientKeepsConn(n.server.procs[p], n.conns[p], a);
  }

  lemma SoundOf(s: State, p: Pid)
    requires Invariant(s) && p in s.procs
    ensures Sound(s.procs[p])
  {
  }

  ghost predicate IsNetRun(n: Net, ls: seq<NetLabel>)
    decreases |ls|
  {
    ls != [] ==> NetEnabled(n, ls[0]) && IsNetRun(NetStep(n, ls[0]), ls[1..])
  }

  ghost function NetAfter(n: Net, ls: seq<NetLabel>): Net
    requires IsNetRun(n, ls)
    decreases |ls|
  {
    if ls == [] then n else NetAfter(NetStep(n, ls[0]), ls[1..])
  }

  lemma {:induction false} NetRunKeepsInvariant(n: Net, ls: seq<NetLabel>)
    requires NetInvariant(n) && IsNetRun(n, ls)
    ensures NetInvariant(NetAfter(n, ls))
    decreases |ls|
  {
    hide NetInvariant, NetEnabled, NetStep;
    if ls != [] {
      NetStepKeepsInvariant(n, ls[0]);
      NetRunKeepsInvariant(NetStep(n, ls[0]), ls[1..]);
    }
  }

  /** The steps of the servers alone. */
  function ServerSteps(ls: seq<NetLabel>): seq<Label> {
    if ls == [] then []
    else
      (match ls[0]
       case Connect(p, _) => [Fork(p)]
       case Server(p, a) => [Do(p, a)]
       case OnClient(_, _) => [])
      + ServerSteps(ls[1..])
  }

  /** Seen from the servers, a run of the whole is a run of theirs: all that holds of those holds here. */
  lemma {:induction false} ServersRun(n: Net, ls: seq<NetLabel>)
    requires IsNetRun(n, ls)
    ensures IsRun(n.server, ServerSteps(ls)) && After(n.server, ServerSteps(ls)) == NetAfter(n, ls).server
    decreases |ls|
  {
    hide IsRun, After, Step, Enabled, Streamed, ClientStreamed, ClientCan;
    if ls == [] {
      Done(n.server);
    } else {
      ServersRun(NetStep(n, ls[0]), ls[1..]);
      match ls[0]
      case Connect(p, _) => Chain(n.server, Fork(p), ServerSteps(ls[1..]));
      case Server(p, a) => Chain(n.server, Do(p, a), ServerSteps(ls[1..]));
      case OnClient(_, _) => assert [] + ServerSteps(ls[1..]) == ServerSteps(ls[1..]);
    }
  }

  /** Whatever happened, a client that has a session has the one its own server process inserted. */
  lemma SessionsAgree(ls: seq<NetLabel>, p: Pid)
    requires IsNetRun(NOBODY, ls) && p in NetAfter(NOBODY, ls).conns
    ensures var n := NetAfter(NOBODY, ls);
            p in n.server.procs && SessionAgrees(n.server.procs[p], n.conns[p].client)
  {
    NetRunKeepsInvariant(NOBODY, ls);
    hide IsNetRun, NetAfter, InOrder, Accounted, Faithful;
    assert ConnOk(NetAfter(NOBODY, ls).server.procs[p], NetAfter(NOBODY, ls).conns[p]);
  }

  /** Nothing is left to hear from a process that has not been killed. */
  predicate NothingToHear(q: Process, c: Conn) {
    c.replies == [] && !q.phase.Replying? && !q.phase.Dead?
  }

  /** When nothing is left to hear, a client has a session if and only if its process registered it, and then the
      same one. */
  lemma SessionExactly(ls: seq<NetLabel>, p: Pid)
    requires IsNetRun(NOBODY, ls) && p in NetAfter(NOBODY, ls).conns && p in NetAfter(NOBODY, ls).server.procs
    requires NothingToHear(NetAfter(NOBODY, ls).server.procs[p], NetAfter(NOBODY, ls).conns[p])
    ensures var q, k := NetAfter(NOBODY, ls).server.procs[p], NetAfter(NOBODY, ls).conns[p].client;
            && (k.sessionSet <==> q.inserted)
            && (k.sessionSet ==> q.session == Some(k.session) && q.client == Some(k.id))
  {
    NetRunKeepsInvariant(NOBODY, ls);
    hide IsNetRun, NetAfter, InOrder, Accounted, Faithful;
    assert ConnOk(NetAfter(NOBODY, ls).server.procs[p], NetAfter(NOBODY, ls).conns[p]);
  }

  /** No step takes a session away or changes it. */
  lemma {:induction false} SessionStays(n: Net, l: NetLabel, p: Pid)
    requires NetInvariant(n) && NetEnabled(n, l) && p in n.conns && n.conns[p].client.sessionSet
    ensures p in NetStep(n, l).conns && NetStep(n, l).conns[p].client.sessionSet
    ensures NetStep(n, l).conns[p].client.session == n.conns[p].client.session
  {
    hide NetInvariant, Enabled, Step, Truthful, ClientCan, ClientStreamed, Streamed, CanAct;
    TruthOf(n, p);
    match l
    case Connect(_, _) =>
    case Server(r, a) => ServerLeavesClient(n, r, a);
    case OnClient(r, a) =>
      if r == p {
        ClientKeepsSession(n.server.procs[p], n.conns[p], a);
      }
  }

  lemma ServerLeavesClient(n: Net, p: Pid, a: Action)
    requires NetEnabled(n, Server(p, a))
    ensures NetStep(n, Server(p, a)).conns.Keys == n.conns.Keys
    ensures forall r :: r in n.conns ==> NetStep(n, Server(p, a)).conns[r].client == n.conns[r].client
  {
    hide Fits, Defined, ListsOthers, Step;
  }

  lemma TruthOf(n: Net, p: Pid)
    requires NetInvariant(n) && p in n.conns
    ensures p in n.server.procs && Truthful(n.server.procs[p], n.conns[p])
  {
    hide InOrder, Truthful, Accounted, Faithful;
    assert ConnOk(n.server.procs[p], n.conns[p]);
  }

  lemma {:induction false} SessionKept(n: Net, ls: seq<NetLabel>, p: Pid)
    requires NetInvariant(n) && IsNetRun(n, ls) && p in n.conns && n.conns[p].client.sessionSet
    ensures p in NetAfter(n, ls).conns && NetAfter(n, ls).conns[p].client.sessionSet
    ensures NetAfter(n, ls).conns[p].client.session == n.conns[p].client.session
    decreases |ls|
  {
    hide NetInvariant, NetEnabled, NetStep;
    if ls != [] {
      NetStepKeepsInvariant(n, ls[0]);
      SessionStays(n, ls[0], p);
      SessionKept(NetStep(n, ls[0]), ls[1..], p);
    }
  }

  /** A client that was told OK at any point of a run has the session it was told from then on. */
  lemma {:induction false} OkIsKept(n: Net, ls: seq<NetLabel>, i: nat, p: Pid, request: Bytes, id: Uuid, sid: Uuid)
    requires NetInvariant(n) && IsNetRun(n, ls) && i < |ls|
    requires ls[i] == OnClient(p, Take(Packet(request, SessionStartResponse(id, Some(sid), OK))))
    ensures p in NetAfter(n, ls).conns
    ensures NetAfter(n, ls).conns[p].client.sessionSet && NetAfter(n, ls).conns[p].client.session == sid
    decreases |ls|
  {
    hide NetInvariant, NetEnabled, NetStep;
    NetStepKeepsInvariant(n, ls[0]);
    if i == 0 {
      OkIsHeard(n, ls[0], p, request, id, sid);
      SessionKept(NetStep(n, ls[0]), ls[1..], p);
    } else {
      OkIsKept(NetStep(n, ls[0]), ls[1..], i - 1, p, request, id, sid);
    }
  }

  lemma OkIsHeard(n: Net, l: NetLabel, p: Pid, request: Bytes, id: Uuid, sid: Uuid)
    requires NetEnabled(n, l) && l == OnClient(p, Take(Packet(request, SessionStartResponse(id, Some(sid), OK))))
    ensures var n' := NetStep(n, l);
            p in n'.conns && n'.conns[p].client.sessionSet && n'.conns[p].client.session == sid
  {
    TakesOk(n.conns[p].client, request, id, sid);
    hide ClientMoved;
  }

  /** And while no step takes another's row, the table has that session for the client. */
  lemma SessionInTable(ls: seq<NetLabel>, p: Pid)
    requires IsNetRun(NOBODY, ls) && p in NetAfter(NOBODY, ls).conns
    requires IsRun(START, ServerSteps(ls)) && NeverSteals(START, ServerSteps(ls))
    ensures var n := NetAfter(NOBODY, ls);
            && p in n.server.procs
            && (n.conns[p].client.sessionSet && Live(n.server.procs[p]) ==>
                 && n.conns[p].client.id in n.server.table
                 && n.server.table[n.conns[p].client.id] == n.conns[p].client.session)
  {
    SessionsAgree(ls, p);
    ServersRun(NOBODY, ls);
    var ss := ServerSteps(ls);
    StartIsSound();
    AgreeAt(START, ss, |ss|);
    assert ss[..|ss|] == ss;
    hide IsNetRun, NetAfter, IsRun, After, NeverSteals, Invariant;
    assert RowOf(NetAfter(NOBODY, ls).server, p);
  }

  /** Every client's callbacks are accounted for in every reachable state. */
  lemma CallbacksAccounted(ls: seq<NetLabel>, p: Pid)
    requires IsNetRun(NOBODY, ls) && p in NetAfter(NOBODY, ls).conns
    ensures var n := NetAfter(NOBODY, ls);
            p in n.server.procs && Accounted(n.conns[p].client) && InOrder(n.server.procs[p], n.conns[p])
  {
    NetRunKeepsInvariant(NOBODY, ls);
    hide IsNetRun, NetAfter, InOrder, Accounted, Faithful;
    assert ConnOk(NetAfter(NOBODY, ls).server.procs[p], NetAfter(NOBODY, ls).conns[p]);
  }

  lemma FiredEcho(c: Client, i: nat)
    requires AllRight(c.registered, c.fired) && EchoesFired(c.texts, c.fired) && i < |c.fired|
    ensures c.fired[i].kind == Echo ==>
              c.fired[i].request in c.texts && c.fired[i].message == EchoResponse(c.texts[c.fired[i].request])
  {
    assert FiredRightly(c.registered, c.fired[i]) && EchoOf(c.texts, c.fired[i].request, c.fired[i].message);
  }

  /** A callback for an echo is handed the very text that was sent. */
  lemma EchoesComeBack(ls: seq<NetLabel>, p: Pid, i: nat)
    requires IsNetRun(NOBODY, ls) && p in NetAfter(NOBODY, ls).conns
    requires i < |NetAfter(NOBODY, ls).conns[p].client.fired|
    ensures var c := NetAfter(NOBODY, ls).conns[p].client;
            c.fired[i].kind == Echo ==>
              c.fired[i].request in c.texts && c.fired[i].message == EchoResponse(c.texts[c.fired[i].request])
  {
    NetRunKeepsInvariant(NOBODY, ls);
    hide IsNetRun, NetAfter, InOrder, Truthful, Fates, EchoesFired, EchoesIn, TextsSent, AllRight, SentOnce;
    var n := NetAfter(NOBODY, ls);
    assert ConnOk(n.server.procs[p], n.conns[p]);
    FiredEcho(n.conns[p].client, i);
  }

  /** Nothing is under way and the process waits for the next message. */
  predicate AtRest(q: Process, c: Conn) {
    q.phase.Idle? && c.requests == [] && c.replies == [] && c.client.typing.None?
  }

  /** At rest, exactly the callbacks that were registered too late are left over. */
  lemma AtRestExactly(ls: seq<NetLabel>, p: Pid)
    requires IsNetRun(NOBODY, ls) && p in NetAfter(NOBODY, ls).conns && p in NetAfter(NOBODY, ls).server.procs
    requires AtRest(NetAfter(NOBODY, ls).server.procs[p], NetAfter(NOBODY, ls).conns[p])
    ensures var c := NetAfter(NOBODY, ls).conns[p].client;
            c.callbacks.Keys == c.missed
  {
    CallbacksAccounted(ls, p);
    hide IsNetRun, NetAfter;
    var n := NetAfter(NOBODY, ls);
    QuiescentExactly(n.conns[p].client);
  }

  lemma {:induction false} MissedStaysMissed(n: Net, l: NetLabel, p: Pid, r: Bytes)
    requires NetInvariant(n) && NetEnabled(n, l) && p in n.conns && r in n.conns[p].client.missed
    ensures p in NetStep(n, l).conns && r in NetStep(n, l).conns[p].client.missed
  {
    hide NetInvariant, Enabled, Step, Fits, NewRequest, Handled, Invoked;
    if l.OnClient? && l.p == p && l.c.Take? {
      TakeFields(n.conns[p].client, l.c.reply);
      hide ClientMoved;
    }
  }

  /** A callback whose reply came too early never runs, whatever happens later. */
  lemma {:induction false} MissedNeverFires(n: Net, ls: seq<NetLabel>, p: Pid, r: Bytes)
    requires NetInvariant(n) && IsNetRun(n, ls) && p in n.conns && r in n.conns[p].client.missed
    ensures p in NetAfter(n, ls).conns && !Fired(NetAfter(n, ls).conns[p].client.fired, r)
    decreases |ls|
  {
    hide NetInvariant, NetEnabled, NetStep;
    if ls == [] {
      assert Accounted(n.conns[p].client) by { AccountedOf(n, p); }
    } else {
      NetStepKeepsInvariant(n, ls[0]);
      MissedStaysMissed(n, ls[0], p, r);
      MissedNeverFires(NetStep(n, ls[0]), ls[1..], p, r);
    }
  }

  lemma AccountedOf(n: Net, p: Pid)
    requires NetInvariant(n) && p in n.conns
    ensures Accounted(n.conns[p].client)
  {
    hide InOrder, Truthful, Accounted, Faithful;
    assert ConnOk(n.server.procs[p], n.conns[p]);
  }

  // ------------------------------------------------------------ a callback that is registered too late

  function NetWith(n: Net, p: Pid, q: Process, c: Conn): Net {
    Net(State(n.server.procs[p := q], n.server.table), n.conns[p := c])
  }

  lemma ServerNext(n: Net, p: Pid, q: Process, c: Conn, a: Action, q': Process, c': Conn, ls: seq<NetLabel>)
    requires CanAct(q, n.server.table, a) && !a.Select? && p in n.conns
    requires Moved(q, n.server.table, a) == q' && Changed(q, n.server.table, a) == n.server.table
    requires a.Receive? ==> c.requests != [] && c.requests[0] == Packet(a.request, a.message)
    requires Streamed(c, q, a) == c' && IsNetRun(NetWith(n, p, q', c'), ls)
    ensures IsNetRun(NetWith(n, p, q, c), [Server(p, a)] + ls)
    ensures NetAfter(NetWith(n, p, q, c), [Server(p, a)] + ls) == NetAfter(NetWith(n, p, q', c'), ls)
  {
    hide CanAct, Moved, Changed, Streamed, IsNetRun, NetAfter;
    var w := NetWith(n, p, q, c);
    assert w.server.procs[p := q'] == n.server.procs[p := q'] && w.conns[p := c'] == n.conns[p := c'];
    assert NetEnabled(w, Server(p, a)) && NetStep(w, Server(p, a)) == NetWith(n, p, q', c');
    NetChain(w, Server(p, a), ls);
  }

  lemma ClientNext(n: Net, p: Pid, q: Process, c: Conn, a: ClientAction, c': Conn, ls: seq<NetLabel>)
    requires ClientCan(c.client, a) && p in n.conns && (a.Take? ==> c.replies != [] && c.replies[0] == a.reply)
    requires ClientStreamed(c, a) == c' && IsNetRun(NetWith(n, p, q, c'), ls)
    ensures IsNetRun(NetWith(n, p, q, c), [OnClient(p, a)] + ls)
    ensures NetAfter(NetWith(n, p, q, c), [OnClient(p, a)] + ls) == NetAfter(NetWith(n, p, q, c'), ls)
  {
    hide ClientCan, ClientStreamed, IsNetRun, NetAfter;
    var w := NetWith(n, p, q, c);
    assert w.conns[p := c'] == n.conns[p := c'];
    assert NetEnabled(w, OnClient(p, a)) && NetStep(w, OnClient(p, a)) == NetWith(n, p, q, c');
    NetChain(w, OnClient(p, a), ls);
  }

  lemma NetChain(n: Net, l: NetLabel, ls: seq<NetLabel>)
    requires NetEnabled(n, l) && IsNetRun(NetStep(n, l), ls)
    ensures IsNetRun(n, [l] + ls) && NetAfter(n, [l] + ls) == NetAfter(NetStep(n, l), ls)
  {
    assert ([l] + ls)[1..] == ls;
  }

  /** The echo whose reply is read before its callback is registered. */
  function LateEcho(p: Pid, request: Bytes, text: Bytes): seq<NetLabel> {
    [OnClient(p, WriteEcho(request, text)), Server(p, Receive(request, EchoRequest(text))), Server(p, Reply),
     OnClient(p, Take(Packet(request, EchoResponse(text)))), OnClient(p, RegisterEcho)]
  }

  /** The client after the write, after the reply and after add_callback. */
  function Typed(k: Client, request: Bytes, text: Bytes): Client {
    k.(sent := k.sent + [(request, Echo)], texts := k.texts[request := text], typing := Some(request))
  }

  function TakenTooEarly(k: Client, request: Bytes, text: Bytes): Client {
    Typed(k, request, text).(taken := k.taken + [(request, Echo)], missed := k.missed + {request})
  }

  function RegisteredTooLate(k: Client, request: Bytes, text: Bytes): Client {
    Callback(TakenTooEarly(k, request, text), request, Echo).(typing := None)
  }

  lemma LateClient(k: Client, request: Bytes, text: Bytes)
    requires k.typing.None? && NewRequest(k, request) && request !in k.callbacks && Fits(EchoRequest(text))
    ensures var write := WriteEcho(request, text);
            ClientCan(k, write) && ClientMoved(k, write) == Typed(k, request, text)
            && Written(k, write) == [Packet(request, EchoRequest(text))]
    ensures var take := Take(Packet(request, EchoResponse(text)));
            ClientCan(Typed(k, request, text), take)
            && ClientMoved(Typed(k, request, text), take) == TakenTooEarly(k, request, text)
            && Written(Typed(k, request, text), take) == []
    ensures ClientCan(TakenTooEarly(k, request, text), RegisterEcho)
    ensures ClientMoved(TakenTooEarly(k, request, text), RegisterEcho) == RegisteredTooLate(k, request, text)
    ensures Written(TakenTooEarly(k, request, text), RegisterEcho) == []
  {
    hide Fits, NewRequest;
  }

  lemma LateServer(n: Net, p: Pid, k: Client, request: Bytes, text: Bytes, ls: seq<NetLabel>)
    requires p in n.conns && p in n.server.procs && n.server.procs[p].phase.Idle? && Sound(n.server.procs[p])
    requires Fits(EchoResponse(text))
    requires IsNetRun(NetWith(n, p, n.server.procs[p], Conn(k, [], [Packet(request, EchoResponse(text))])), ls)
    ensures var from := NetWith(n, p, n.server.procs[p], Conn(k, [Packet(request, EchoRequest(text))], []));
            var to := NetWith(n, p, n.server.procs[p], Conn(k, [], [Packet(request, EchoResponse(text))]));
            var all := [Server(p, Receive(request, EchoRequest(text)))] + ([Server(p, Reply)] + ls);
            IsNetRun(from, all) && NetAfter(from, all) == NetAfter(to, ls)
  {
    hide IsNetRun, NetAfter, Fits, NetWith;
    var q := n.server.procs[p];
    var q1 := q.(phase := Replying(request, EchoResponse(text)));
    assert q1.(phase := Idle) == q;
    var c2 := Conn(k, [], []);
    ServerNext(n, p, q1, c2, Reply, q, Conn(k, [], [Packet(request, EchoResponse(text))]), ls);
    ServerNext(n, p, q, Conn(k, [Packet(request, EchoRequest(text))], []), Receive(request, EchoRequest(text)), q1, c2,
               [Server(p, Reply)] + ls);
  }

  /** The same for the whole connection. */
  lemma LateConns(k: Client, request: Bytes, text: Bytes)
    requires k.typing.None? && NewRequest(k, request) && request !in k.callbacks && Fits(EchoRequest(text))
    ensures var write := WriteEcho(request, text);
            ClientCan(k, write) && ClientStreamed(Conn(k, [], []), write) ==
                                   Conn(Typed(k, request, text), [Packet(request, EchoRequest(text))], [])
    ensures var reply := Packet(request, EchoResponse(text));
            ClientCan(Typed(k, request, text), Take(reply))
            && ClientStreamed(Conn(Typed(k, request, text), [], [reply]), Take(reply)) ==
               Conn(TakenTooEarly(k, request, text), [], [])
    ensures ClientCan(TakenTooEarly(k, request, text), RegisterEcho)
            && ClientStreamed(Conn(TakenTooEarly(k, request, text), [], []), RegisterEcho) ==
               Conn(RegisteredTooLate(k, request, text), [], [])
  {
    LateClient(k, request, text);
    hide ClientMoved, ClientCan, Written, Typed, TakenTooEarly, RegisteredTooLate, Fits, NewRequest;
  }

  /** The reply is taken, then the callback is registered. */
  lemma LateEnd(n: Net, p: Pid, k: Client, request: Bytes, text: Bytes)
    requires p in n.conns && p in n.server.procs
    requires k.typing.None? && NewRequest(k, request) && request !in k.callbacks && Fits(EchoRequest(text))
    ensures var reply := Packet(request, EchoResponse(text));
            var from := NetWith(n, p, n.server.procs[p], Conn(Typed(k, request, text), [], [reply]));
            var ls := [OnClient(p, Take(reply))] + [OnClient(p, RegisterEcho)];
            IsNetRun(from, ls) && NetAfter(from, ls) ==
                                  NetWith(n, p, n.server.procs[p], Conn(RegisteredTooLate(k, request, text), [], []))
  {
    LateConns(k, request, text);
    hide IsNetRun, NetAfter, Fits, NetWith, ClientStreamed, ClientCan, NewRequest;
    hide Typed, TakenTooEarly, RegisteredTooLate;
    var q, reply := n.server.procs[p], Packet(request, EchoResponse(text));
    var c2, c3 := Conn(TakenTooEarly(k, request, text), [], []), Conn(RegisteredTooLate(k, request, text), [], []);
    ClientNext(n, p, q, c2, RegisterEcho, c3, []);
    ClientNext(n, p, q, Conn(Typed(k, request, text), [], [reply]), Take(reply), c2, [OnClient(p, RegisterEcho)]);
  }

  /** From the server's receipt of the request on. */
  lemma LateMiddle(n: Net, p: Pid, k: Client, request: Bytes, text: Bytes)
    requires p in n.conns && p in n.server.procs && n.server.procs[p].phase.Idle? && Sound(n.server.procs[p])
    requires k.typing.None? && NewRequest(k, request) && request !in k.callbacks && |text| <= 997
    ensures var from := NetWith(n, p, n.server.procs[p],
                                Conn(Typed(k, request, text), [Packet(request, EchoRequest(text))], []));
            IsNetRun(from, LateEcho(p, request, text)[1..])
            && NetAfter(from, LateEcho(p, request, text)[1..]) ==
               NetWith(n, p, n.server.procs[p], Conn(RegisteredTooLate(k, request, text), [], []))
  {
    EchoFitsExactly(text);
    LateEnd(n, p, k, request, text);
    hide IsNetRun, NetAfter, Fits, NetWith, NewRequest, Typed, RegisteredTooLate, Sound;
    var l4 := [OnClient(p, Take(Packet(request, EchoResponse(text))))] + [OnClient(p, RegisterEcho)];
    LateServer(n, p, Typed(k, request, text), request, text, l4);
    assert LateEcho(p, request, text)[1..] ==
           [Server(p, Receive(request, EchoRequest(text)))] + ([Server(p, Reply)] + l4);
  }

  lemma LateRun(n: Net, p: Pid, k: Client, request: Bytes, text: Bytes)
    requires p in n.conns && p in n.server.procs && n.server.procs[p].phase.Idle? && Sound(n.server.procs[p])
    requires k.typing.None? && NewRequest(k, request) && request !in k.callbacks && |text| <= 997
    ensures var from := NetWith(n, p, n.server.procs[p], Conn(k, [], []));
            IsNetRun(from, LateEcho(p, request, text)) &&
            NetAfter(from, LateEcho(p, request, text)) ==
            NetWith(n, p, n.server.procs[p], Conn(RegisteredTooLate(k, request, text), [], []))
  {
    EchoFitsExactly(text);
    LateConns(k, request, text);
    LateMiddle(n, p, k, request, text);
    var ls := LateEcho(p, request, text);
    assert ls == [ls[0]] + ls[1..];
    hide IsNetRun, NetAfter, Fits, NetWith, ClientStreamed, ClientCan, NewRequest, Sound;
    hide Typed, TakenTooEarly, RegisteredTooLate;
    ClientNext(n, p, n.server.procs[p], Conn(k, [], []), WriteEcho(request, text),
               Conn(Typed(k, request, text), [Packet(request, EchoRequest(text))], []), ls[1..]);
  }

  /** From every state in which a connection is at rest, an echo can lose its callback. */
  lemma {:induction false} EchoCanBeLost(n: Net, p: Pid, request: Bytes, text: Bytes)
    requires NetInvariant(n) && p in n.conns && p in n.server.procs && AtRest(n.server.procs[p], n.conns[p])
    requires NewRequest(n.conns[p].client, request) && request !in n.conns[p].client.callbacks && |text| <= 997
    ensures var ls := LateEcho(p, request, text);
            && IsNetRun(n, ls) && p in NetAfter(n, ls).conns
            && request in NetAfter(n, ls).conns[p].client.callbacks
            && request in NetAfter(n, ls).conns[p].client.missed
  {
    SoundOf(n.server, p);
    hide IsNetRun, NetAfter, NetInvariant, NewRequest, Sound;
    var k := n.conns[p].client;
    LateRun(n, p, k, request, text);
    NetWithSelf(n, p, n.server.procs[p], Conn(k, [], []));
    assert k.typing.None?;
    hide AtRest, LateEcho;
    assert NetAfter(n, LateEcho(p, request, text)).conns[p].client == RegisteredTooLate(k, request, text);
  }

  lemma NetWithSelf(n: Net, p: Pid, q: Process, c: Conn)
    requires p in n.conns && p in n.server.procs && n.server.procs[p] == q && n.conns[p] == c
    ensures NetWith(n, p, q, c) == n
  {
  }
}
