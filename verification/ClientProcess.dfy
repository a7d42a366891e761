/** The client process as the code runs it: client-process.cpp and the callback map of BaseProcess.tpp. */
module ClientProcesses {
  import opened CBytes
  import opened Messages
  import opened Frame
  import opened Sessions
  import opened Connections

  class ClientProcess {
    const m_client_id: Uuid
    var m_session_set: bool
    var m_session_id: Uuid
    var m_callbacks: map<Bytes, Kind>
    ghost var history: Client

    constructor (generated: Uuid)
      ensures m_client_id == generated && history == NewClient(generated) && Value() == NewClient(generated)
    {
      m_client_id, m_session_set, m_session_id, m_callbacks := generated, false, [], map[];
      history := NewClient(generated);
    }

    /** The fields together with what has happened so far. */
    ghost function Value(): Client
      reads this
    {
      history.(id := m_client_id, sessionSet := m_session_set, session := m_session_id, callbacks := m_callbacks)
    }

    /** m_callbacks[request_id] = callback */
    method AddCallback(request_id: Bytes, callback: Kind)
      modifies this
      ensures Value() == Callback(old(Value()), request_id, callback)
    {
      m_callbacks := m_callbacks[request_id := callback];
      history := history.(registered := history.registered[request_id := callback]);
    }

    /** Calls and erases the callback of a request id, if it is there; the call is reported. */
    method InvokeCallback(request_id: Bytes, message: Message) returns (called: Option<Firing>)
      modifies this
      ensures Value() == Invoked(old(Value()), Packet(request_id, message))
      ensures called == if request_id in old(m_callbacks)
                        then Some(Firing(request_id, old(m_callbacks)[request_id], message)) else None
    {
      called := None;
      if request_id in m_callbacks {
        var f := Firing(request_id, m_callbacks[request_id], message);
        called := Some(f);
        m_callbacks := m_callbacks - {request_id};
        history := history.(fired := history.fired + [f]);
      } else if history.typing == Some(request_id) {
        history := history.(missed := history.missed + {request_id});
      }
    }

    /** handle for a SessionStartResponse: a refusal and a repeated start change nothing. */
    method HandleSessionStartResponse(client_id: Uuid, session_id: Option<Uuid>, error: StartError)
      modifies this
      ensures Value() == Handled(old(Value()), SessionStartResponse(client_id, session_id, error))
      ensures m_session_set <==> old(m_session_set) || error.OK?
      ensures m_session_id == if error.OK? && session_id.Some? then session_id.value else old(m_session_id)
    {
      match error
      case OK =>
        if session_id.Some? {
          m_session_id := session_id.value;
        }
        m_session_set := true;
      case CLIENT_ALREADY_CONNECTED =>
      case SESSION_STARTED =>
    }

    /** The request has no callback; its id is generated in socket_write_message. */
    method CmdSessionStartRequest(generated: Bytes) returns (written: Writing)
      requires |generated| == |m_client_id| == UUID_SIZE && ClientCan(Value(), ClientAction.StartSession(generated))
      modifies this
      ensures Value() == ClientMoved(old(Value()), ClientAction.StartSession(generated))
      ensures written.Sent? && written == FrameOf(SessionStartRequest(m_client_id), generated)
    {
      hide Framed, Serialized;
      SessionStartFits(m_client_id, m_client_id, OK);
      written := SocketWriteMessage(SessionStartRequest(m_client_id), None, generated);
      history := history.(sent := history.sent + [(generated, Start)]);
    }

    method CmdAvailableTradePartnersRequest(generated: Bytes) returns (written: Writing)
      requires |generated| == |m_client_id| == UUID_SIZE && ClientCan(Value(), AskPartners(generated))
      modifies this
      ensures Value() == ClientMoved(old(Value()), AskPartners(generated))
      ensures written.Sent? && written == FrameOf(AvailableTradePartnersRequest, generated)
    {
      hide Framed, Serialized;
      SessionStartFits(m_client_id, m_client_id, OK);
      written := SocketWriteMessage(AvailableTradePartnersRequest, Some(generated), generated);
      history := history.(sent := history.sent + [(generated, Partners)]);
      AddCallback(generated, Partners);
    }

    /** The first half of cmd_EchoRequest; replies may be processed before the second half. */
    method WriteEchoRequest(message: Bytes, generated: Bytes) returns (written: Writing)
      requires |generated| == UUID_SIZE && ClientCan(Value(), WriteEcho(generated, message))
      modifies this
      ensures Value() == ClientMoved(old(Value()), WriteEcho(generated, message))
      ensures written.Sent? && written == FrameOf(EchoRequest(message), generated)
    {
      hide Framed, Serialized;
      written := SocketWriteMessage(EchoRequest(message), Some(generated), generated);
      history := history.(sent := history.sent + [(generated, Echo)],
                          texts := history.texts[generated := message], typing := Some(generated));
    }

    /** The second half: the callback for the request just written. */
    method RegisterEchoCallback(request_id: Bytes)
      requires Value().typing == Some(request_id)
      modifies this
      ensures Value() == ClientMoved(old(Value()), RegisterEcho)
    {
      AddCallback(request_id, Echo);
      history := history.(typing := None);
    }

    /** process_message: what one receive brings is dispatched, handled, and its callback run. */
    method ProcessMessage(buffer: Bytes) returns (called: Option<Firing>)
      requires |buffer| <= MESSAGE_BUFFER_SIZE
      modifies this
      ensures match Dispatched(buffer)
              case Handed(request_id, m) =>
                if ReplyKind(m).Some? then Value() == ClientMoved(old(Value()), Take(Packet(request_id, m)))
                else Value() == Invoked(old(Value()), Packet(request_id, m))
              case _ => called == None && Value() == old(Value())
      ensures match Dispatched(buffer)
              case Handed(request_id, m) =>
                && called == (if request_id in old(m_callbacks)
                              then Some(Firing(request_id, old(m_callbacks)[request_id], m)) else None)
                && m_callbacks == old(m_callbacks) - {request_id}
                && (m_session_set <==> old(m_session_set) || IsOk(m))
                && m_session_id == if IsOk(m) && m.session_id.Some? then m.session_id.value else old(m_session_id)
              case _ => true
    {
      hide Dispatched;
      called := None;
      var r := MessageDispatch(buffer);
      if r.Handed? {
        var request_id, message := r.request, r.message;
        if message.SessionStartResponse? {
          HandleSessionStartResponse(message.client_id, message.session_id, message.error);
        }
        called := InvokeCallback(request_id, message);
        if ReplyKind(message).Some? {
          history := history.(taken := history.taken + [(request_id, ReplyKind(message).value)]);
        }
      }
    }

    /** start_session: a request, one receive, and whether there is a session now. */
    method StartSession(generated: Bytes, buffer: Bytes) returns (written: Writing, ok: bool)
      requires |generated| == |m_client_id| == UUID_SIZE && ClientCan(Value(), ClientAction.StartSession(generated))
      requires |buffer| <= MESSAGE_BUFFER_SIZE
      modifies this
      ensures written.Sent? && written == FrameOf(SessionStartRequest(m_client_id), generated)
      ensures ok == m_session_set
      ensures ok <==> old(m_session_set) || (Dispatched(buffer).Handed? && IsOk(Dispatched(buffer).message))
    {
      hide Framed, Serialized, Dispatched;
      written := CmdSessionStartRequest(generated);
      var called := ProcessMessage(buffer);
      ok := m_session_set;
    }
  }
}
