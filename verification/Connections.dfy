/**
 * A client, its server process and the two byte streams between them:
 * client-process.cpp, BaseProcess.tpp. Streams deliver whole frames in order.
 */
module Connections {
  import opened CBytes
  import opened Messages
  import opened Frame
  import opened Sessions

  /** Request id and message of a frame. */
  datatype Packet = Packet(request: Bytes, message: Message)

  /** What a request asks for, a reply answers and a callback downcasts to. */
  datatype Kind = Start | Partners | Echo

  function RequestKind(m: Message): Option<Kind> {
    match m
    case SessionStartRequest(_) => Some(Start)
    case AvailableTradePartnersRequest => Some(Partners)
    case EchoRequest(_) => Some(Echo)
    case _ => None
  }

  function ReplyKind(m: Message): Option<Kind> {
    match m
    case SessionStartResponse(_, _, _) => Some(Start)
    case AvailableTradePartnersResponse(_) => Some(Partners)
    case EchoResponse(_) => Some(Echo)
    case _ => None
  }

  /** A request id with its kind. */
  type Tag = (Bytes, Kind)

  /** A callback that ran, and what it was handed. */
  datatype Firing = Firing(request: Bytes, kind: Kind, message: Message)

  /**
   * m_client_id, m_session_set, m_session_id and m_callbacks, and the echo request that the other
   * thread has written but not yet registered a callback for. The rest is history.
   */
  datatype Client = Client(
    id: Uuid,
    sessionSet: bool,
    session: Uuid,
    callbacks: map<Bytes, Kind>,
    typing: Option<Bytes>,
    sent: seq<Tag>,
    texts: map<Bytes, Bytes>,
    taken: seq<Tag>,
    registered: map<Bytes, Kind>,
    fired: seq<Firing>,
    missed: set<Bytes>)

  function NewClient(id: Uuid): Client {
    Client(id, false, [], map[], None, [], map[], [], map[], [], {})
  }

  datatype ClientAction =
    | StartSession(request: Bytes)                // cmd_SessionStartRequest, which has no callback
    | AskPartners(request: Bytes)                 // write and add_callback, in the thread that also reads
    | WriteEcho(request: Bytes, text: Bytes)      // write, in the other thread
    | RegisterEcho                                // and its add_callback
    | Take(reply: Packet)                         // process_message

  /** uuid_generate gives an id that was not used before. */
  predicate NewRequest(c: Client, request: Bytes) {
    forall i :: 0 <= i < |c.sent| ==> c.sent[i].0 != request
  }

  predicate ClientCan(c: Client, a: ClientAction) {
    match a
    case StartSession(request) => NewRequest(c, request)
    case AskPartners(request) => NewRequest(c, request)
    case WriteEcho(request, text) => NewRequest(c, request) && c.typing.None? && Fits(EchoRequest(text))
    case RegisterEcho => c.typing.Some?
    case Take(reply) => ReplyKind(reply.message).Some?
  }

  /** The packet an action puts on the stream to the server. */
  function Written(c: Client, a: ClientAction): seq<Packet> {
    match a
    case StartSession(request) => [Packet(request, SessionStartRequest(c.id))]
    case AskPartners(request) => [Packet(request, AvailableTradePartnersRequest)]
    case WriteEcho(request, text) => [Packet(request, EchoRequest(text))]
    case _ => []
  }

  function Callback(c: Client, request: Bytes, kind: Kind): Client {
    c.(callbacks := c.callbacks[request := kind], registered := c.registered[request := kind])
  }

  /** handle for SessionStartResponse: only OK sets the session. */
  function Handled(c: Client, m: Message): Client {
    if m.SessionStartResponse? && m.error.OK? then
      c.(session := if m.session_id.Some? then m.session_id.value else c.session, sessionSet := true)
    else c
  }

  /** invoke_callback: run and forget the callback of that request id, if there is one. */
  function Invoked(c: Client, reply: Packet): Client {
    if reply.request in c.callbacks then
      c.(callbacks := c.callbacks - {reply.request},
         fired := c.fired + [Firing(reply.request, c.callbacks[reply.request], reply.message)])
    else if c.typing == Some(reply.request) then c.(missed := c.missed + {reply.request})
    else c
  }

  function ClientMoved(c: Client, a: ClientAction): Client
    requires ClientCan(c, a)
  {
    match a
    case StartSession(request) => c.(sent := c.sent + [(request, Start)])
    case AskPartners(request) => Callback(c, request, Partners).(sent := c.sent + [(request, Partners)])
    case WriteEcho(request, text) =>
      c.(sent := c.sent + [(request, Echo)], texts := c.texts[request := text], typing := Some(request))
    case RegisterEcho => Callback(c, c.typing.value, Echo).(typing := None)
    case Take(reply) =>
      Invoked(Handled(c, reply.message), reply)
      .(taken := c.taken + [(reply.request, ReplyKind(reply.message).value)])
  }

  lemma HandledFields(c: Client, m: Message)
    ensures var d := Handled(c, m);
            && d.id == c.id && d.callbacks == c.callbacks && d.typing == c.typing
            && d.sent == c.sent && d.texts == c.texts
            && d.taken == c.taken && d.registered == c.registered && d.fired == c.fired && d.missed == c.missed
  {
  }

  lemma InvokedFields(c: Client, reply: Packet)
    ensures var d := Invoked(c, reply);
            && d.registered == c.registered && d.typing == c.typing && d.sent == c.sent && d.texts == c.texts
            && d.taken == c.taken && d.id == c.id
            && if reply.request in c.callbacks then
                 && d.callbacks == c.callbacks - {reply.request} && d.missed == c.missed
                 && d.fired == c.fired + [Firing(reply.request, c.callbacks[reply.request], reply.message)]
               else
                 && d.callbacks == c.callbacks && d.fired == c.fired
                 && d.missed == if c.typing == Some(reply.request) then c.missed + {reply.request} else c.missed
  {
  }

  /** What taking a reply does to the accounts. */
  lemma TakeFields(c: Client, reply: Packet)
    requires ReplyKind(reply.message).Some?
    ensures var d := ClientMoved(c, Take(reply));
            && d.registered == c.registered && d.typing == c.typing && d.sent == c.sent && d.texts == c.texts
            && d.taken == c.taken + [(reply.request, ReplyKind(reply.message).value)] && d.id == c.id
            && if reply.request in c.callbacks then
                 && d.callbacks == c.callbacks - {reply.request} && d.missed == c.missed
                 && d.fired == c.fired + [Firing(reply.request, c.callbacks[reply.request], reply.message)]
               else
                 && d.callbacks == c.callbacks && d.fired == c.fired
                 && d.missed == if c.typing == Some(reply.request) then c.missed + {reply.request} else c.missed
  {
    hide Handled, Invoked, ReplyKind;
    HandledFields(c, reply.message);
    InvokedFields(Handled(c, reply.message), reply);
  }

  /** One connection: the client and the frames under way in either direction. */
  datatype Conn = Conn(client: Client, requests: seq<Packet>, replies: seq<Packet>)

  /** The server processes and their clients. */
  datatype Net = Net(server: State, conns: map<Pid, Conn>)

  datatype NetLabel =
    | Connect(p: Pid, id: Uuid)
    | Server(p: Pid, a: Action)
    | OnClient(p: Pid, c: ClientAction)

  ghost predicate NetEnabled(n: Net, l: NetLabel) {
    match l
    case Connect(p, id) => Enabled(n.server, Fork(p)) && p !in n.conns && |id| == UUID_SIZE
    case Server(p, a) =>
      && p in n.conns && Enabled(n.server, Do(p, a))
      && (a.Receive? ==> n.conns[p].requests != [] && n.conns[p].requests[0] == Packet(a.request, a.message))
    case OnClient(p, a) =>
      && p in n.conns && ClientCan(n.conns[p].client, a)
      && (a.Take? ==> n.conns[p].replies != [] && n.conns[p].replies[0] == a.reply)
  }

  /** What a server step does to the streams: receiving takes a frame, a reply that fits adds one. */
  function Streamed(c: Conn, q: Process, a: Action): Conn
    requires a.Receive? ==> c.requests != []
    requires a.Reply? ==> q.phase.Replying?
  {
    match a
    case Receive(_, _) => c.(requests := c.requests[1..])
    case Reply => if Fits(q.phase.reply) then c.(replies := c.replies + [Packet(q.phase.request, q.phase.reply)]) else c
    case _ => c
  }

  function ClientStreamed(c: Conn, a: ClientAction): Conn
    requires ClientCan(c.client, a) && (a.Take? ==> c.replies != [])
  {
    Conn(ClientMoved(c.client, a), c.requests + Written(c.client, a), if a.Take? then c.replies[1..] else c.replies)
  }

  ghost function NetStep(n: Net, l: NetLabel): Net
    requires NetEnabled(n, l)
  {
    match l
    case Connect(p, id) => Net(Step(n.server, Fork(p)), n.conns[p := Conn(NewClient(id), [], [])])
    case Server(p, a) => Net(Step(n.server, Do(p, a)), n.conns[p := Streamed(n.conns[p], n.server.procs[p], a)])
    case OnClient(p, a) => n.(conns := n.conns[p := ClientStreamed(n.conns[p], a)])
  }

  // ------------------------------------------------------------ requests and replies in order

  /** The tags of packets, by the kind that `of` gives their messages. */
  function Tags(ps: seq<Packet>, replies: bool): seq<Tag>
    requires forall i :: 0 <= i < |ps| ==> KindOf(ps[i].message, replies).Some?
  {
    seq(|ps|, i requires 0 <= i < |ps| => (ps[i].request, KindOf(ps[i].message, replies).value))
  }

  function KindOf(m: Message, reply: bool): Option<Kind> {
    if reply then ReplyKind(m) else RequestKind(m)
  }

  predicate Tagged(ps: seq<Packet>, reply: bool) {
    forall i :: 0 <= i < |ps| ==> KindOf(ps[i].message, reply).Some?
  }

  /** The request a process is at work on. */
  function InHand(q: Process): seq<Tag> {
    match q.phase
    case Checking(request) => [(request, Start)]
    case Inserting(request) => [(request, Start)]
    case Listing(request) => [(request, Partners)]
    case Replying(request, m) => if ReplyKind(m).Some? then [(request, ReplyKind(m).value)] else []
    case _ => []
  }

  /** Everything asked and not yet taken, oldest first. */
  function Flow(q: Process, c: Conn): seq<Tag>
    requires Tagged(c.replies, true) && Tagged(c.requests, false)
  {
    Tags(c.replies, true) + InHand(q) + Tags(c.requests, false)
  }

  /**
   * Replies come in the order of the requests, each with the id of its request and of its kind.
   * While the process lives nothing is lost; whatever happens, what is taken and under way is a prefix
   * of what was sent.
   */
  predicate InOrder(q: Process, c: Conn) {
    && Tagged(c.replies, true) && Tagged(c.requests, false)
    && (Live(q) ==> c.client.sent == c.client.taken + Flow(q, c))
    && c.client.taken + Tags(c.replies, true) <= c.client.sent
    && (q.phase.Replying? ==> ReplyKind(q.phase.reply).Some?)
  }

  lemma TagsAppend(ps: seq<Packet>, x: Packet, reply: bool)
    requires Tagged(ps, reply) && KindOf(x.message, reply).Some?
    ensures Tagged(ps + [x], reply)
    ensures Tags(ps + [x], reply) == Tags(ps, reply) + [(x.request, KindOf(x.message, reply).value)]
  {
  }

  lemma TagsRest(ps: seq<Packet>, reply: bool)
    requires Tagged(ps, reply) && ps != []
    ensures Tagged(ps[1..], reply)
    ensures Tags(ps, reply) == [(ps[0].request, KindOf(ps[0].message, reply).value)] + Tags(ps[1..], reply)
  {
  }

  /** A server step moves requests along without losing, adding or reordering any. */
  lemma ServerKeepsOrder(q: Process, t: Table, a: Action, c: Conn)
    requires Sound(q) && CanAct(q, t, a) && InOrder(q, c)
    requires a.Receive? ==> c.requests != [] && c.requests[0] == Packet(a.request, a.message)
    ensures InOrder(Moved(q, t, a), Streamed(c, q, a))
  {
    hide Fits, Defined, ListsOthers, Tags, Changed, Sound;
    var q', c' := Moved(q, t, a), Streamed(c, q, a);
    if a.Receive? {
      TagsRest(c.requests, false);
      assert InHand(q) == [];
      assert InHand(q') == [(a.request, RequestKind(a.message).value)] by { ReceivedInHand(q, a.request, a.message); }
      assert Flow(q', c') == Flow(q, c);
    } else if a.Reply? && Fits(q.phase.reply) {
      TagsAppend(c.replies, Packet(q.phase.request, q.phase.reply), true);
      assert Flow(q', c') == Flow(q, c);
      assert c'.client.taken + Tags(c'.replies, true) <= c'.client.sent;
    } else {
      assert c' == c;
      assert Live(q') ==> InHand(q') == InHand(q);
    }
  }

  lemma ReceivedInHand(q: Process, request: Bytes, m: Message)
    requires CanReceive(q, m) && RequestKind(m).Some?
    ensures InHand(Received(q, request, m)) == [(request, RequestKind(m).value)]
    ensures Received(q, request, m).phase.Replying? ==> ReplyKind(Received(q, request, m).phase.reply).Some?
    ensures Live(Received(q, request, m))
  {
  }

  lemma WrittenTags(c: Client, a: ClientAction)
    requires ClientCan(c, a)
    ensures Tagged(Written(c, a), false)
    ensures ClientMoved(c, a).sent == c.sent + Tags(Written(c, a), false)
    ensures !a.Take? ==> ClientMoved(c, a).taken == c.taken
  {
  }

  lemma TagsJoin(ps: seq<Packet>, xs: seq<Packet>, reply: bool)
    requires Tagged(ps, reply) && Tagged(xs, reply)
    ensures Tagged(ps + xs, reply) && Tags(ps + xs, reply) == Tags(ps, reply) + Tags(xs, reply)
  {
  }

  lemma TakeKeepsOrder(q: Process, c: Conn, reply: Packet)
    requires ClientCan(c.client, Take(reply)) && InOrder(q, c) && c.replies != [] && c.replies[0] == reply
    ensures InOrder(q, ClientStreamed(c, Take(reply)))
  {
    var c' := ClientStreamed(c, Take(reply));
    TakenTags(c.client, reply);
    TagsRest(c.replies, true);
    hide Tags, ClientMoved, Written, ClientCan, Live, InHand;
    assert c'.client.taken + Tags(c'.replies, true) == c.client.taken + Tags(c.replies, true);
    assert Live(q) ==> c'.client.taken + Flow(q, c') == c.client.taken + Flow(q, c);
  }

  lemma SendKeepsOrder(q: Process, c: Conn, a: ClientAction)
    requires ClientCan(c.client, a) && InOrder(q, c) && !a.Take?
    ensures InOrder(q, ClientStreamed(c, a))
  {
    var c' := ClientStreamed(c, a);
    WrittenTags(c.client, a);
    TagsJoin(c.requests, Written(c.client, a), false);
    hide Tags, ClientMoved, Written, ClientCan, Live, InHand;
    var added := Tags(Written(c.client, a), false);
    assert Live(q) ==> c.client.taken + Flow(q, c) + added == c'.client.taken + Flow(q, c');
  }

  lemma {:induction false} ClientKeepsOrder(q: Process, c: Conn, a: ClientAction)
    requires ClientCan(c.client, a) && InOrder(q, c)
    requires a.Take? ==> c.replies != [] && c.replies[0] == a.reply
    ensures InOrder(q, ClientStreamed(c, a))
  {
    hide InOrder, ClientStreamed, ClientCan;
    if a.Take? {
      TakeKeepsOrder(q, c, a.reply);
    } else {
      SendKeepsOrder(q, c, a);
    }
  }

  lemma TakenTags(c: Client, reply: Packet)
    requires ClientCan(c, Take(reply))
    ensures Written(c, Take(reply)) == [] && ClientMoved(c, Take(reply)).sent == c.sent
    ensures ClientMoved(c, Take(reply)).taken == c.taken + [(reply.request, ReplyKind(reply.message).value)]
  {
  }

  // ------------------------------------------------------------ session agreement

  /** A client that has set its session has the one that its process inserted for it. */
  predicate SessionAgrees(q: Process, c: Client) {
    c.sessionSet ==> q.inserted && q.session == Some(c.session) && q.client == Some(c.id)
  }

  predicate TrueReply(q: Process, m: Message) {
    m.SessionStartResponse? && m.error.OK? ==> q.inserted && m.session_id == q.session && q.client == Some(m.client_id)
  }

  predicate OwnId(id: Uuid, m: Message) {
    m.SessionStartRequest? ==> m.client_id == id
  }

  /** Only the client's own id goes to the server, and only true OKs come back. */
  predicate Truthful(q: Process, c: Conn) {
    && |c.client.id| == UUID_SIZE && (q.client.Some? ==> q.client == Some(c.client.id))
    && (forall i :: 0 <= i < |c.requests| ==> OwnId(c.client.id, c.requests[i].message))
    && (forall i :: 0 <= i < |c.replies| ==> TrueReply(q, c.replies[i].message))
    && SessionAgrees(q, c.client)
  }

  lemma MovedClient(q: Process, t: Table, a: Action, id: Uuid)
    requires Sound(q) && CanAct(q, t, a) && |id| == UUID_SIZE && (q.client.Some? ==> q.client == Some(id))
    requires a.Receive? ==> OwnId(id, a.message)
    ensures Moved(q, t, a).client.Some? ==> Moved(q, t, a).client == Some(id)
  {
    hide Fits, Defined, ListsOthers;
  }

  lemma ServerKeepsTruth(q: Process, t: Table, a: Action, c: Conn)
    requires Sound(q) && CanAct(q, t, a) && Truthful(q, c)
    requires a.Receive? ==> c.requests != [] && c.requests[0] == Packet(a.request, a.message)
    ensures Truthful(Moved(q, t, a), Streamed(c, q, a))
  {
    MovedClient(q, t, a, c.client.id);
    MovedRegistered(q, t, a);
    hide Moved, Changed, Fits, Defined, ListsOthers;
    if a.Reply? {
      assert TrueReply(q, q.phase.reply);
    }
  }

  lemma ClientKeepsTruth(q: Process, c: Conn, a: ClientAction)
    requires ClientCan(c.client, a) && Truthful(q, c) && Sound(q)
    requires a.Take? ==> c.replies != [] && c.replies[0] == a.reply
    ensures Truthful(q, ClientStreamed(c, a))
  {
    assert a.Take? ==> TrueReply(q, a.reply.message);
    assert OwnId(c.client.id, SessionStartRequest(c.client.id));
  }

  // ------------------------------------------------------------ the way of an OK

  predicate IsOk(m: Message) {
    m.SessionStartResponse? && m.error.OK?
  }

  predicate OkUnderWay(replies: seq<Packet>) {
    exists i :: 0 <= i < |replies| && IsOk(replies[i].message)
  }

  /** Once a process has inserted its row its client hears of it, unless the process dies first. */
  predicate OkArrives(q: Process, c: Conn) {
    q.inserted && !q.phase.Dead? ==>
      (q.phase.Replying? && IsOk(q.phase.reply)) || OkUnderWay(c.replies) || c.client.sessionSet
  }

  lemma OkAppended(replies: seq<Packet>, x: Packet)
    ensures OkUnderWay(replies + [x]) <==> OkUnderWay(replies) || IsOk(x.message)
  {
    assert (replies + [x])[|replies|] == x;
    assert forall i :: 0 <= i < |replies| ==> (replies + [x])[i] == replies[i];
  }

  lemma OkTaken(replies: seq<Packet>)
    requires replies != []
    ensures OkUnderWay(replies) <==> IsOk(replies[0].message) || OkUnderWay(replies[1..])
  {
    assert forall i :: 0 < i < |replies| ==> replies[i] == replies[1..][i - 1];
  }

  /** Only its INSERT registers a process, which then answers OK; no other answer is dropped on the way. */
  lemma ServerDeliversOk(q: Process, t: Table, a: Action, c: Conn)
    requires Sound(q) && CanAct(q, t, a) && OkArrives(q, c) && (a.Receive? ==> c.requests != [])
    ensures OkArrives(Moved(q, t, a), Streamed(c, q, a))
  {
    hide Fits, Defined, ListsOthers, OkUnderWay;
    if a.Reply? {
      OkAppended(c.replies, Packet(q.phase.request, q.phase.reply));
    }
  }

  /** Taking an OK sets the session to the one it names. */
  lemma TakesOk(c: Client, request: Bytes, id: Uuid, sid: Uuid)
    ensures ClientMoved(c, Take(Packet(request, SessionStartResponse(id, Some(sid), OK)))).sessionSet
    ensures ClientMoved(c, Take(Packet(request, SessionStartResponse(id, Some(sid), OK)))).session == sid
  {
  }

  /** No action takes a session away or changes it. */
  lemma ClientKeepsSession(q: Process, c: Conn, a: ClientAction)
    requires ClientCan(c.client, a) && Truthful(q, c) && c.client.sessionSet
    requires a.Take? ==> c.replies != [] && c.replies[0] == a.reply
    ensures ClientStreamed(c, a).client.sessionSet && ClientStreamed(c, a).client.session == c.client.session
  {
    assert a.Take? ==> TrueReply(q, a.reply.message);
    hide Fits, NewRequest;
  }

  lemma ClientHearsOk(q: Process, c: Conn, a: ClientAction)
    requires ClientCan(c.client, a) && OkArrives(q, c) && (a.Take? ==> c.replies != [] && c.replies[0] == a.reply)
    ensures OkArrives(q, ClientStreamed(c, a))
  {
    hide OkUnderWay, Fits, NewRequest;
    if a.Take? {
      OkTaken(c.replies);
    }
  }

  // ------------------------------------------------------------ echoes

  /** An echo request or reply carries the text that was asked to be echoed under its id. */
  predicate EchoOf(texts: map<Bytes, Bytes>, request: Bytes, m: Message) {
    m.EchoRequest? || m.EchoResponse? ==> request in texts && texts[request] == m.message
  }

  predicate EchoesIn(texts: map<Bytes, Bytes>, ps: seq<Packet>) {
    forall i :: 0 <= i < |ps| ==> EchoOf(texts, ps[i].request, ps[i].message)
  }

  predicate EchoesFired(texts: map<Bytes, Bytes>, fired: seq<Firing>) {
    forall i :: 0 <= i < |fired| ==> EchoOf(texts, fired[i].request, fired[i].message)
  }

  predicate TextsSent(texts: map<Bytes, Bytes>, sent: seq<Tag>) {
    forall r :: r in texts ==> exists i :: 0 <= i < |sent| && sent[i].0 == r
  }

  /** Echoes are faithful wherever they are: under way, at the server, or handed to a callback. */
  predicate Faithful(q: Process, c: Conn) {
    && EchoesIn(c.client.texts, c.requests) && EchoesIn(c.client.texts, c.replies)
    && EchoesFired(c.client.texts, c.client.fired) && TextsSent(c.client.texts, c.client.sent)
    && (q.phase.Replying? ==> EchoOf(c.client.texts, q.phase.request, q.phase.reply))
  }

  lemma MovedEcho(q: Process, t: Table, a: Action, texts: map<Bytes, Bytes>)
    requires CanAct(q, t, a) && (q.phase.Replying? ==> EchoOf(texts, q.phase.request, q.phase.reply))
    requires a.Receive? ==> EchoOf(texts, a.request, a.message)
    ensures var q' := Moved(q, t, a); q'.phase.Replying? ==> EchoOf(texts, q'.phase.request, q'.phase.reply)
  {
    hide Fits, Defined, ListsOthers;
  }

  lemma ServerKeepsEchoes(q: Process, t: Table, a: Action, c: Conn)
    requires CanAct(q, t, a) && Faithful(q, c)
    requires a.Receive? ==> c.requests != [] && c.requests[0] == Packet(a.request, a.message)
    ensures Faithful(Moved(q, t, a), Streamed(c, q, a))
  {
    MovedEcho(q, t, a, c.client.texts);
    hide Moved, Fits, Defined, ListsOthers, EchoOf, EchoesFired, TextsSent;
  }

  lemma SentText(c: Client, request: Bytes, k: Kind, text: Bytes)
    requires TextsSent(c.texts, c.sent)
    ensures TextsSent(c.texts, c.sent + [(request, k)])
    ensures TextsSent(c.texts[request := text], c.sent + [(request, k)])
  {
    var sent := c.sent + [(request, k)];
    assert sent[|c.sent|].0 == request;
    forall r | r in c.texts
      ensures exists i :: 0 <= i < |sent| && sent[i].0 == r
    {
      var i :| 0 <= i < |c.sent| && c.sent[i].0 == r;
      assert sent[i].0 == r;
    }
  }

  lemma WriteKeepsEchoes(q: Process, c: Conn, request: Bytes, text: Bytes)
    requires ClientCan(c.client, WriteEcho(request, text)) && Faithful(q, c)
    ensures Faithful(q, ClientStreamed(c, WriteEcho(request, text)))
  {
    var k := c.client;
    SentText(k, request, Echo, text);
    forall r, m | EchoOf(k.texts, r, m)
      ensures EchoOf(k.texts[request := text], r, m)
    {
    }
    assert EchoOf(k.texts[request := text], request, EchoRequest(text));
    hide EchoOf, TextsSent, Fits, NewRequest;
  }

  lemma ClientKeepsEchoes(q: Process, c: Conn, a: ClientAction)
    requires ClientCan(c.client, a) && Faithful(q, c)
    requires a.Take? ==> c.replies != [] && c.replies[0] == a.reply
    ensures Faithful(q, ClientStreamed(c, a))
  {
    match a
    case WriteEcho(request, text) => WriteKeepsEchoes(q, c, request, text);
    case StartSession(request) =>
      SentText(c.client, request, Start, []);
      hide TextsSent, NewRequest;
    case AskPartners(request) =>
      SentText(c.client, request, Partners, []);
      hide TextsSent, NewRequest;
    case RegisterEcho =>
      hide TextsSent, EchoOf;
    case Take(reply) => TakeKeepsEchoes(q, c, reply);
  }

  lemma TakeKeepsEchoes(q: Process, c: Conn, reply: Packet)
    requires ClientCan(c.client, Take(reply)) && Faithful(q, c) && c.replies != [] && c.replies[0] == reply
    ensures Faithful(q, ClientStreamed(c, Take(reply)))
  {
    TakeFields(c.client, reply);
    assert EchoOf(c.client.texts, reply.request, reply.message);
    hide TextsSent, EchoOf, ClientMoved, ReplyKind;
  }
}
