/** The server process as the code runs it, one method for every stretch between two SQL statements or socket calls. */
module ServerProcesses {
  import opened CBytes
  import opened Messages
  import opened Frame
  import opened Sessions
  import opened Connections

  /** The sessions table behind sqlite3_exec; each method is one statement. */
  class SessionsDb {
    var rows: Table

    constructor ()
      ensures rows == map[]
    {
      rows := map[];
    }

    /** SELECT session_id FROM sessions WHERE client_id = ... */
    method SelectSession(client_id: Uuid) returns (session_id: Option<Uuid>)
      ensures session_id.Some? <==> client_id in rows
      ensures session_id.Some? ==> session_id.value == rows[client_id]
    {
      session_id := if client_id in rows then Some(rows[client_id]) else None;
    }

    /** SELECT client_id FROM sessions WHERE client_id != ..., in any order. */
    method SelectOthers(client_id: Option<Uuid>) returns (client_ids: seq<Uuid>)
      ensures ListsOthers(client_ids, rows, client_id)
    {
      client_ids := [];
      var left := rows.Keys;
      while left != {}
        invariant left <= rows.Keys
        invariant forall i, j :: 0 <= i < j < |client_ids| ==> client_ids[i] != client_ids[j]
        invariant forall c :: c in client_ids <==> c in rows && c !in left && client_id != Some(c)
        decreases left
      {
        var c :| c in left;
        left := left - {c};
        if client_id != Some(c) {
          client_ids := client_ids + [c];
        }
      }
    }

    /** INSERT INTO sessions VALUES ...: false where the UNIQUE constraint fails. */
    method Insert(client_id: Uuid, session_id: Uuid) returns (ok: bool)
      modifies this
      ensures ok <==> client_id !in old(rows)
      ensures rows == if ok then old(rows)[client_id := session_id] else old(rows)
    {
      ok := client_id !in rows;
      if ok {
        rows := rows[client_id := session_id];
      }
    }

    /** DELETE FROM sessions WHERE client_id = ... */
    method Delete(client_id: Uuid)
      modifies this
      ensures rows == old(rows) - {client_id}
    {
      rows := rows - {client_id};
    }
  }

  class ServerProcess {
    var m_connected: bool
    var m_client_id: Option<Uuid>
    var m_session_id: Option<Uuid>
    const db: SessionsDb
    var phase: Phase
    ghost var inserted: bool

    constructor (db: SessionsDb)
      ensures this.db == db && Value() == FORKED
    {
      this.db := db;
      m_connected, m_client_id, m_session_id, phase := false, None, None, Idle;
      inserted := false;
    }

    ghost function Value(): Process
      reads this
    {
      Process(phase, m_connected, m_client_id, m_session_id, inserted)
    }

    /** A client id once used for a session stays; at most 16 bytes of a new one are copied. */
    method SetClientId(client_id: Bytes)
      requires m_client_id.Some? || |client_id| >= UUID_SIZE
      requires m_client_id.Some? ==> |m_client_id.value| == UUID_SIZE
      modifies `m_client_id
      ensures m_client_id == if m_connected then old(m_client_id) else Some(CopiedId(old(m_client_id), client_id))
    {
      if !m_connected {
        var n := if |client_id| < UUID_SIZE then |client_id| else UUID_SIZE;
        assert client_id[..n] + [] == client_id[..n] && (n == |client_id| ==> client_id[..n] == client_id);
        m_client_id := Some(client_id[..n] + if n < UUID_SIZE then m_client_id.value[n..] else []);
      }
    }

    /** A session id is generated once only. */
    method StartSession(generated: Uuid)
      modifies `m_session_id, `m_connected
      ensures m_connected
      ensures m_session_id == if old(m_connected) then old(m_session_id) else Some(generated)
    {
      if !m_connected {
        m_session_id := Some(generated);
        m_connected := true;
      }
    }

    /** Up to the first SQL statement or the reply. */
    method Receive(request: Bytes, m: Message)
      requires Sound(Value()) && CanAct(Value(), db.rows, Action.Receive(request, m))
      modifies this
      ensures Value() == Moved(old(Value()), db.rows, Action.Receive(request, m))
    {
      match m
      case SessionStartRequest(c) =>
        if m_connected {
          phase := Replying(request, SessionStartResponse(m_client_id.value, m_session_id, SESSION_STARTED));
        } else {
          SetClientId(c);
          phase := Checking(request);
        }
      case AvailableTradePartnersRequest =>
        phase := Listing(request);
      case EchoRequest(text) =>
        phase := Replying(request, EchoResponse(text));
      case _ =>
    }

    /** The duplicate check and, if there is none, the new session. */
    method CheckDuplicate(generated: Uuid)
      requires Sound(Value()) && CanAct(Value(), db.rows, Select(generated))
      modifies this
      ensures Value() == Moved(old(Value()), db.rows, Select(generated))
    {
      var results := db.SelectSession(m_client_id.value);
      if results.Some? {
        phase := Replying(phase.request, SessionStartResponse(m_client_id.value, results, CLIENT_ALREADY_CONNECTED));
      } else {
        StartSession(generated);
        phase := Inserting(phase.request);
      }
    }

    /** The INSERT; when it fails the process ends there. */
    method RecordSession()
      requires CanAct(Value(), db.rows, Insert)
      modifies this, db
      ensures Value() == Moved(old(Value()), old(db.rows), Insert)
      ensures db.rows == Changed(old(Value()), old(db.rows), Insert)
    {
      var ok := db.Insert(m_client_id.value, m_session_id.value);
      if ok {
        inserted := true;
        phase := Replying(phase.request, SessionStartResponse(m_client_id.value, m_session_id, OK));
      } else {
        phase := Dead;
      }
    }

    method ListPartners() returns (ghost rows: seq<Uuid>)
      requires phase.Listing?
      modifies this
      ensures CanAct(old(Value()), db.rows, SelectPartners(rows))
      ensures Value() == Moved(old(Value()), db.rows, SelectPartners(rows))
    {
      var results := db.SelectOthers(m_client_id);
      rows := results;
      phase := Replying(phase.request, AvailableTradePartnersResponse(results));
    }

    /** The reply's frame; a reply too long for one ends the process, or overruns the frame. */
    method WriteReply() returns (written: Writing)
      requires phase.Replying? && |phase.request| == UUID_SIZE
      modifies this
      ensures written == FrameOf(old(phase.reply), old(phase.request))
      ensures written.Overrun? <==> !Defined(old(phase.reply))
      ensures Value() == if written.Overrun? then old(Value()) else Moved(old(Value()), db.rows, Reply)
    {
      hide Framed, Serialized;
      written := SocketWriteMessage(phase.reply, Some(phase.request), phase.request);
      if !written.Overrun? {
        phase := if written.Sent? then Idle else Dead;
      }
    }

    /** The end of run: whatever id was last given goes out of the table. */
    method DeleteOwnRow()
      requires phase.Leaving?
      modifies this, db
      ensures Value() == Moved(old(Value()), old(db.rows), Delete)
      ensures db.rows == Changed(old(Value()), old(db.rows), Delete)
    {
      if m_client_id.Some? {
        db.Delete(m_client_id.value);
      }
      phase := Gone;
    }

    /**
     * The whole handler of a first SessionStartRequest, when nobody comes in between: refused with the
     * session that is there, or registered with the generated one.
     */
    method HandleSessionStart(request: Bytes, c: Uuid, generated: Uuid) returns (written: Writing)
      requires Sound(Value()) && phase.Idle? && !m_connected
      requires |request| == |c| == |generated| == UUID_SIZE && (c in db.rows ==> |db.rows[c]| == UUID_SIZE)
      modifies this, db
      ensures phase.Idle? && m_client_id == Some(c)
      ensures c in old(db.rows) ==> !m_connected && db.rows == old(db.rows)
      ensures c !in old(db.rows) ==>
                inserted && m_session_id == Some(generated) && db.rows == old(db.rows)[c := generated]
      ensures var m := if c in old(db.rows)
                       then SessionStartResponse(c, Some(old(db.rows)[c]), CLIENT_ALREADY_CONNECTED)
                       else SessionStartResponse(c, Some(generated), OK);
              written.Sent? && written == FrameOf(m, request)
    {
      hide Fits, Framed, Serialized, UUID_SIZE;
      SessionStartFits(c, if c in db.rows then db.rows[c] else generated, CLIENT_ALREADY_CONNECTED);
      SessionStartFits(c, generated, OK);
      Receive(request, SessionStartRequest(c));
      CheckDuplicate(generated);
      if phase.Inserting? {
        RecordSession();
      }
      written := WriteReply();
    }

    /** What is in the table of a process that runs alone: what was there, and its own row once inserted. */
    ghost predicate Alone(before: Table)
      reads this, db
    {
      && Sound(Value()) && UuidTable(db.rows)
      && (!inserted ==> db.rows == before)
      && (inserted ==> m_client_id.value !in before && db.rows == before[m_client_id.value := m_session_id.value])
    }

    ghost function WithOwnRow(before: Table): Table
      reads this
    {
      if inserted && m_client_id.Some? && m_session_id.Some? then before[m_client_id.value := m_session_id.value]
      else before
    }

    /** The SQL statements of a request, up to the reply. */
    method Prepare(request: Bytes, m: Message, generated: Uuid, ghost before: Table)
      requires Alone(before) && phase.Idle? && CanReceive(Value(), m) && |generated| == UUID_SIZE
      modifies this, db
      ensures Alone(before)
      ensures RequestKind(m).None? ==> phase.Idle?
      ensures RequestKind(m).Some? ==>
                phase.Replying? && phase.request == request && ReplyKind(phase.reply) == RequestKind(m)
    {
      hide Fits, Defined, ListsOthers;
      Receive(request, m);
      if phase.Checking? {
        CheckDuplicate(generated);
        if phase.Inserting? {
          RecordSession();
        }
      } else if phase.Listing? {
        ghost var rows := ListPartners();
      }
    }

    /** One message from receipt to reply. */
    method Serve(request: Bytes, m: Message, generated: Uuid, ghost before: Table) returns (answer: Option<Message>)
      requires Alone(before) && phase.Idle? && CanReceive(Value(), m) && |request| == |generated| == UUID_SIZE
      modifies this, db
      ensures Alone(before)
      ensures answer.None? <==> RequestKind(m).None?
      ensures answer.None? ==> phase.Idle?
      ensures answer.Some? ==>
                && ReplyKind(answer.value) == RequestKind(m)
                && match FrameOf(answer.value, request)
                   case Sent(_) => phase.Idle?
                   case Fatal => phase.Dead?
                   case Overrun => phase.Replying?
    {
      Prepare(request, m, generated, before);
      hide Fits, Defined, ListsOthers;
      if phase.Idle? {
        return None;
      }
      answer := Some(phase.reply);
      var written := WriteReply();
    }

    /**
     * run, when nobody comes in between: messages are answered in order, each in kind, until the client hangs up;
     * then the row of the id last given is gone, whoever had put it there, and no other row has changed.
     * An answer too long for a frame ends the process earlier, its own row, if any, left behind.
     */
    method Run(inbox: seq<Packet>, fresh_ids: seq<Uuid>) returns (answers: seq<Option<Message>>)
      requires Value() == FORKED && UuidTable(db.rows) && |fresh_ids| == |inbox|
      requires forall i :: 0 <= i < |inbox| ==> |inbox[i].request| == |fresh_ids[i]| == UUID_SIZE
      requires forall i :: 0 <= i < |inbox| && inbox[i].message.SessionStartRequest? ==>
                             |inbox[i].message.client_id| >= UUID_SIZE
      modifies this, db
      ensures |answers| <= |inbox|
      ensures forall i :: 0 <= i < |answers| ==> AnswersInKind(inbox[i].message, answers[i])
      ensures forall i :: 0 <= i < |answers| - 1 && answers[i].Some? ==> Fits(answers[i].value)
      ensures phase.Gone? ==> |answers| == |inbox| && db.rows == Without(old(db.rows), m_client_id)
      ensures !phase.Gone? ==>
                answers != [] && DoesNotFit(answers[|answers| - 1]) && db.rows == WithOwnRow(old(db.rows))
    {
      hide Fits, Defined, FrameOf, CanReceive;
      answers := [];
      ghost var before := db.rows;
      while |answers| < |inbox|
        invariant |answers| <= |inbox| && phase.Idle? && Alone(before) && before == old(db.rows)
        invariant forall i :: 0 <= i < |answers| ==> AnswersInKind(inbox[i].message, answers[i])
        invariant forall i :: 0 <= i < |answers| && answers[i].Some? ==> Fits(answers[i].value)
        decreases |inbox| - |answers|
      {
        var n := |answers|;
        MayReceive(Value(), inbox[n].message);
        var answer := Serve(inbox[n].request, inbox[n].message, fresh_ids[n], before);
        answers := answers + [answer];
        if !phase.Idle? {
          FitsIffSent(answer.value, inbox[n].request);
          return;
        }
        if answer.Some? {
          FitsIffSent(answer.value, inbox[n].request);
        }
      }
      phase := Leaving;
      DeleteOwnRow();
    }
  }

  function Without(t: Table, id: Option<Uuid>): Table {
    if id.Some? then t - {id.value} else t
  }

  predicate DoesNotFit(answer: Option<Message>) {
    answer.Some? && !Fits(answer.value)
  }

  predicate AnswersInKind(m: Message, answer: Option<Message>) {
    if RequestKind(m).None? then answer.None? else answer.Some? && ReplyKind(answer.value) == RequestKind(m)
  }

  lemma MayReceive(q: Process, m: Message)
    requires Sound(q) && (m.SessionStartRequest? ==> |m.client_id| >= UUID_SIZE)
    ensures CanReceive(q, m)
  {
  }

  lemma FitsIffSent(m: Message, request: Bytes)
    ensures Fits(m) <==> FrameOf(m, request).Sent?
  {
    hide Serialized, Framed;
  }
}
