/**
 * The server processes and the sessions table they share: server-process.cpp, server-db.cpp.
 * Any number of processes, interleaved between any two SQL statements and socket calls.
 */
module Sessions {
  import opened CBytes
  import opened Messages
  import opened Frame

  type Uuid = Bytes

  /** Column client_id, which is UNIQUE, to column session_id. */
  type Table = map<Uuid, Uuid>

  /** Where a process stands: what its next socket call or SQL statement is. */
  datatype Phase =
    | Idle                                        // in process_message
    | Checking(request: Bytes)                    // SELECT session_id of the client
    | Inserting(request: Bytes)                   // INSERT
    | Listing(request: Bytes)                     // SELECT of the partners
    | Replying(request: Bytes, reply: Message)    // write
    | Leaving                                     // DELETE
    | Gone                                        // has ended
    | Dead                                        // has ended in Logger::fatal

  /** m_connected, m_client_id and m_session_id; `inserted` notes that its INSERT took place. */
  datatype Process = Process(phase: Phase, connected: bool, client: Option<Uuid>, session: Option<Uuid>, inserted: bool)

  datatype Action =
    | Receive(request: Bytes, message: Message)
    | Select(generated: Uuid)
    | Insert
    | SelectPartners(rows: seq<Uuid>)
    | Reply
    | HangUp
    | Delete
    | Die

  const FORKED: Process := Process(Idle, false, None, None, false)

  predicate Live(q: Process) {
    q.phase != Gone && q.phase != Dead
  }

  /** The process runs and has put its row into the table. */
  predicate Registered(q: Process) {
    q.inserted && Live(q)
  }

  /** The rows other than the process's own, in whatever order the database gives them. */
  ghost predicate ListsOthers(rows: seq<Uuid>, t: Table, own: Option<Uuid>) {
    && (forall i, j :: 0 <= i < j < |rows| ==> rows[i] != rows[j])
    && (forall c :: c in rows <==> c in t && own != Some(c))
  }

  /** A first client id shorter than a uuid would leave bytes of the field that nothing has set. */
  predicate CanReceive(q: Process, m: Message) {
    && (q.connected ==> q.client.Some? && q.session.Some?)
    && (m.SessionStartRequest? && q.client.None? ==> |m.client_id| >= UUID_SIZE)
  }

  /** The field after string::copy of at most 16 bytes into it; the bytes not reached stay. */
  function CopiedId(field: Option<Uuid>, c: Bytes): (id: Uuid)
    requires field.Some? || |c| >= UUID_SIZE
    ensures field.None? || |field.value| == UUID_SIZE ==> |id| == UUID_SIZE
    ensures |c| == UUID_SIZE && (field.None? || |field.value| == UUID_SIZE) ==> id == c
    ensures forall i :: 0 <= i < |c| && i < UUID_SIZE ==> i < |id| && id[i] == c[i]
    ensures field.Some? ==>
              forall i :: |c| <= i < |field.value| && i < UUID_SIZE ==> i < |id| && id[i] == field.value[i]
  {
    if |c| >= UUID_SIZE then c[..UUID_SIZE]
    else c + if |c| <= |field.value| then field.value[|c|..] else []
  }

  ghost predicate CanAct(q: Process, t: Table, a: Action) {
    match a
    case Receive(_, m) => q.phase.Idle? && CanReceive(q, m)
    case Select(generated) => q.phase.Checking? && q.client.Some? && |generated| == UUID_SIZE
    case Insert => q.phase.Inserting? && q.client.Some? && q.session.Some?
    case SelectPartners(rows) => q.phase.Listing? && ListsOthers(rows, t, q.client)
    case Reply => q.phase.Replying? && Defined(q.phase.reply)
    case HangUp => q.phase.Idle?
    case Delete => q.phase.Leaving?
    case Die => Live(q)
  }

  /** What receiving a message does before the first SQL statement; a server ignores responses. */
  function Received(q: Process, request: Bytes, m: Message): Process
    requires CanReceive(q, m)
  {
    match m
    case SessionStartRequest(c) =>
      if q.connected then
        q.(phase := Replying(request, SessionStartResponse(q.client.value, q.session, SESSION_STARTED)))
      else q.(client := Some(CopiedId(q.client, c)), phase := Checking(request))
    case AvailableTradePartnersRequest => q.(phase := Listing(request))
    case EchoRequest(text) => q.(phase := Replying(request, EchoResponse(text)))
    case _ => q
  }

  function Selected(q: Process, t: Table, generated: Uuid): Process
    requires CanAct(q, t, Select(generated))
  {
    var c := q.client.value;
    if c in t then
      q.(phase := Replying(q.phase.request, SessionStartResponse(c, Some(t[c]), CLIENT_ALREADY_CONNECTED)))
    else q.(connected := true, session := Some(generated), phase := Inserting(q.phase.request))
  }

  /** An INSERT of an id that is there already violates the constraint, which is fatal. */
  function Inserted(q: Process, t: Table): Process
    requires CanAct(q, t, Insert)
  {
    if q.client.value in t then q.(phase := Dead)
    else q.(inserted := true,
            phase := Replying(q.phase.request, SessionStartResponse(q.client.value, q.session, OK)))
  }

  /** The acting process after the step. */
  function Moved(q: Process, t: Table, a: Action): Process
    requires CanAct(q, t, a)
  {
    match a
    case Receive(request, m) => Received(q, request, m)
    case Select(generated) => Selected(q, t, generated)
    case Insert => Inserted(q, t)
    case SelectPartners(rows) => q.(phase := Replying(q.phase.request, AvailableTradePartnersResponse(rows)))
    case Reply => q.(phase := if Fits(q.phase.reply) then Idle else Dead)
    case HangUp => q.(phase := Leaving)
    case Delete => q.(phase := Gone)
    case Die => q.(phase := Dead)
  }

  /** The table after the step; a process that never saw a client id has no row to delete. */
  function Changed(q: Process, t: Table, a: Action): Table
    requires CanAct(q, t, a)
  {
    match a
    case Insert => if q.client.value in t then t else t[q.client.value := q.session.value]
    case Delete => if q.client.Some? then t - {q.client.value} else t
    case _ => t
  }

  type Pid = nat

  datatype State = State(procs: map<Pid, Process>, table: Table)

  datatype Label = Fork(p: Pid) | Do(p: Pid, a: Action)

  /** uuid_generate gives an id that no process has had. */
  ghost predicate NewSession(s: State, sid: Uuid) {
    forall p :: p in s.procs ==> s.procs[p].session != Some(sid)
  }

  ghost predicate Enabled(s: State, l: Label) {
    match l
    case Fork(p) => p !in s.procs
    case Do(p, a) => p in s.procs && CanAct(s.procs[p], s.table, a) && (a.Select? ==> NewSession(s, a.generated))
  }

  function Step(s: State, l: Label): State
    requires Enabled(s, l)
  {
    match l
    case Fork(p) => State(s.procs[p := FORKED], s.table)
    case Do(p, a) => State(s.procs[p := Moved(s.procs[p], s.table, a)], Changed(s.procs[p], s.table, a))
  }

  /** The fields fit the place in the code. */
  predicate Sound(q: Process) {
    && (q.client.Some? ==> |q.client.value| == UUID_SIZE)
    && (q.session.Some? ==> |q.session.value| == UUID_SIZE)
    && (q.connected <==> q.session.Some?)
    && (q.connected ==> q.client.Some?)
    && (q.inserted ==> q.connected)
    && (q.connected && !q.inserted ==> q.phase.Inserting? || q.phase.Dead?)
    && (q.phase.Checking? ==> !q.connected && q.client.Some?)
    && (q.phase.Inserting? ==> q.connected && !q.inserted)
    && (q.phase.Replying? ==> RepliesTruly(q, q.phase.reply))
  }

  /** OK and SESSION_STARTED answers name the process's own client and session. */
  predicate RepliesTruly(q: Process, m: Message) {
    m.SessionStartResponse? ==>
      && q.client == Some(m.client_id)
      && (m.error.CLIENT_ALREADY_CONNECTED? ==> !q.connected)
      && (!m.error.CLIENT_ALREADY_CONNECTED? ==> q.inserted && q.session == m.session_id)
  }

  ghost predicate SessionsDiffer(s: State) {
    forall p, r | p in s.procs && r in s.procs && p != r ::
      s.procs[p].session.Some? ==> s.procs[p].session != s.procs[r].session
  }

  /** Only ids of 16 bytes get into the table. */
  ghost predicate UuidTable(t: Table) {
    forall c :: c in t ==> |c| == UUID_SIZE && |t[c]| == UUID_SIZE
  }

  ghost predicate Invariant(s: State) {
    (forall p :: p in s.procs ==> Sound(s.procs[p])) && SessionsDiffer(s) && UuidTable(s.table)
  }

  lemma MovedSound(q: Process, t: Table, a: Action)
    requires Sound(q) && CanAct(q, t, a)
    ensures Sound(Moved(q, t, a))
  {
    hide Fits, Defined, ListsOthers;
  }

  /** Only a SELECT that finds nothing gives a process a session id. */
  lemma MovedSession(q: Process, t: Table, a: Action)
    requires Sound(q) && CanAct(q, t, a)
    ensures Moved(q, t, a).session == q.session || (a.Select? && Moved(q, t, a).session == Some(a.generated))
  {
    hide Fits, Defined, ListsOthers;
  }

  lemma ChangedUuids(q: Process, t: Table, a: Action)
    requires Sound(q) && CanAct(q, t, a) && UuidTable(t)
    ensures UuidTable(Changed(q, t, a))
  {
    hide Fits, Defined, ListsOthers;
  }

  lemma StepKeepsInvariant(s: State, l: Label)
    requires Invariant(s) && Enabled(s, l)
    ensures Invariant(Step(s, l))
  {
    hide CanAct, Moved, Changed, Sound, UuidTable;
    match l
    case Fork(p) => assert Sound(FORKED) by { ForkedSound(); }
    case Do(p, a) =>
      ChangedUuids(s.procs[p], s.table, a);
      MovedSound(s.procs[p], s.table, a);
      MovedSession(s.procs[p], s.table, a);
  }

  lemma ForkedSound()
    ensures Sound(FORKED)
  {
  }

  /** A registered process keeps its identity, and so does whoever just becomes one. */
  lemma MovedRegistered(q: Process, t: Table, a: Action)
    requires Sound(q) && CanAct(q, t, a)
    ensures q.connected ==>
              Moved(q, t, a).connected && Moved(q, t, a).client == q.client && Moved(q, t, a).session == q.session
    ensures Registered(Moved(q, t, a)) && !Registered(q) ==> a == Insert && q.client.value !in t
    ensures q.inserted ==> Moved(q, t, a).inserted
    ensures q.inserted ==> Changed(q, t, a) == (if a.Delete? then t - {q.client.value} else t)
  {
    hide Fits, Defined, ListsOthers;
  }
}
