/** What becomes of every callback: BaseProcess.tpp 5-19, client-process.cpp 28-51. */
module Callbacks {
  import opened CBytes
  import opened Messages
  import opened Frame
  import opened Sessions
  import opened Connections

  type Pending = map<Bytes, Kind>

  predicate Among(tags: seq<Tag>, request: Bytes) {
    exists i :: 0 <= i < |tags| && tags[i].0 == request
  }

  predicate Fired(fired: seq<Firing>, request: Bytes) {
    exists i :: 0 <= i < |fired| && fired[i].request == request
  }

  lemma AmongAppend(tags: seq<Tag>, x: Tag)
    ensures forall r :: Among(tags + [x], r) <==> Among(tags, r) || x.0 == r
  {
    forall r
      ensures Among(tags + [x], r) <==> Among(tags, r) || x.0 == r
    {
      assert (tags + [x])[|tags|] == x;
      if i :| 0 <= i < |tags| && tags[i].0 == r {
        assert (tags + [x])[i] == tags[i];
      }
    }
  }

  lemma FiredAppend(fired: seq<Firing>, x: Firing)
    ensures forall r :: Fired(fired + [x], r) <==> Fired(fired, r) || x.request == r
  {
    forall r
      ensures Fired(fired + [x], r) <==> Fired(fired, r) || x.request == r
    {
      assert (fired + [x])[|fired|] == x;
      if i :| 0 <= i < |fired| && fired[i].request == r {
        assert (fired + [x])[i] == fired[i];
      }
    }
  }

  /** The request ids are all different. */
  ghost predicate SentOnce(sent: seq<Tag>) {
    forall i, j :: 0 <= i < j < |sent| ==> sent[i].0 != sent[j].0
  }

  /** Callbacks are registered for requests that were sent, under their kind. */
  ghost predicate RegisteredAsSent(registered: Pending, sent: seq<Tag>) {
    forall r :: r in registered ==> (r, registered[r]) in sent
  }

  /** Pending is registered minus fired. */
  ghost predicate PendingIs(callbacks: Pending, registered: Pending, fired: seq<Firing>) {
    && (forall r :: r in callbacks <==> r in registered && !Fired(fired, r))
    && (forall r :: r in callbacks ==> callbacks[r] == registered[r])
  }

  predicate FiredRightly(registered: Pending, f: Firing) {
    f.request in registered && registered[f.request] == f.kind && ReplyKind(f.message) == Some(f.kind)
  }

  /** Every firing is for a registered callback and hands it a message of its kind. */
  ghost predicate AllRight(registered: Pending, fired: seq<Firing>) {
    forall i :: 0 <= i < |fired| ==> FiredRightly(registered, fired[i])
  }

  ghost predicate FiredOnce(fired: seq<Firing>) {
    forall i, j :: 0 <= i < j < |fired| ==> fired[i].request != fired[j].request
  }

  ghost predicate FiredWhenTaken(fired: seq<Firing>, taken: seq<Tag>) {
    forall r :: Fired(fired, r) ==> Among(taken, r)
  }

  /** A taken reply has fired its callback, unless it came before the callback was registered. */
  ghost predicate MissedRightly(missed: set<Bytes>, taken: seq<Tag>, callbacks: Pending, typing: Option<Bytes>) {
    && (forall r :: r in missed ==> Among(taken, r) && (r in callbacks || typing == Some(r)))
    && (forall r :: (r in callbacks || typing == Some(r)) && Among(taken, r) ==> r in missed)
  }

  /** The request being typed was sent, and its callback is not registered yet. */
  ghost predicate TypedRightly(typing: Option<Bytes>, registered: Pending, sent: seq<Tag>) {
    typing.Some? ==> (typing.value, Echo) in sent && typing.value !in registered
  }

  ghost predicate Served(sent: seq<Tag>, registered: Pending, typing: Option<Bytes>) {
    forall t :: t in sent && t.1 != Start ==> t.0 in registered || typing == Some(t.0)
  }

  ghost predicate Ledger(c: Client) {
    && PendingIs(c.callbacks, c.registered, c.fired) && AllRight(c.registered, c.fired)
    && FiredOnce(c.fired) && RegisteredAsSent(c.registered, c.sent)
  }

  ghost predicate Fates(c: Client) {
    && FiredWhenTaken(c.fired, c.taken) && MissedRightly(c.missed, c.taken, c.callbacks, c.typing)
    && TypedRightly(c.typing, c.registered, c.sent) && Served(c.sent, c.registered, c.typing)
  }

  ghost predicate Accounted(c: Client) {
    SentOnce(c.sent) && c.taken <= c.sent && Ledger(c) && Fates(c)
  }

  /** The reply a client takes is the answer to the oldest request not answered yet. */
  predicate IsNext(c: Client, reply: Packet) {
    ReplyKind(reply.message).Some? && c.taken + [(reply.request, ReplyKind(reply.message).value)] <= c.sent
  }

  lemma NextIsNew(c: Client, reply: Packet)
    requires SentOnce(c.sent) && IsNext(c, reply)
    ensures !Among(c.taken, reply.request)
    ensures forall k :: (reply.request, k) in c.sent ==> Some(k) == ReplyKind(reply.message)
  {
    var n := |c.taken|;
    assert c.sent[n] == (reply.request, ReplyKind(reply.message).value);
    forall i | 0 <= i < n
      ensures c.taken[i].0 != reply.request
    {
      assert c.taken[i] == c.sent[i];
    }
  }

  lemma FiringOf(fired: seq<Firing>, r: Bytes, registered: Pending)
    requires AllRight(registered, fired) && r !in registered
    ensures !Fired(fired, r)
  {
    assert forall i :: 0 <= i < |fired| ==> FiredRightly(registered, fired[i]);
  }

  lemma FireOnce(fired: seq<Firing>, f: Firing)
    requires FiredOnce(fired) && !Fired(fired, f.request)
    ensures FiredOnce(fired + [f])
  {
  }

  lemma FireRightly(registered: Pending, fired: seq<Firing>, f: Firing)
    requires AllRight(registered, fired) && FiredRightly(registered, f)
    ensures AllRight(registered, fired + [f])
  {
  }

  lemma FirePending(callbacks: Pending, registered: Pending, fired: seq<Firing>, f: Firing)
    requires PendingIs(callbacks, registered, fired)
    ensures PendingIs(callbacks - {f.request}, registered, fired + [f])
  {
    FiredAppend(fired, f);
    hide Fired;
  }

  lemma FireTaken(fired: seq<Firing>, taken: seq<Tag>, f: Firing, tag: Tag)
    requires FiredWhenTaken(fired, taken) && f.request == tag.0
    ensures FiredWhenTaken(fired + [f], taken + [tag])
  {
    FiredAppend(fired, f);
    AmongAppend(taken, tag);
    hide Fired, Among;
  }

  lemma FireMissed(missed: set<Bytes>, taken: seq<Tag>, callbacks: Pending, typing: Option<Bytes>, tag: Tag)
    requires MissedRightly(missed, taken, callbacks, typing) && !Among(taken, tag.0) && typing != Some(tag.0)
    ensures MissedRightly(missed, taken + [tag], callbacks - {tag.0}, typing)
  {
    AmongAppend(taken, tag);
    hide Among;
  }

  lemma TakeTaken(fired: seq<Firing>, taken: seq<Tag>, tag: Tag)
    requires FiredWhenTaken(fired, taken)
    ensures FiredWhenTaken(fired, taken + [tag])
  {
    AmongAppend(taken, tag);
    hide Fired, Among;
  }

  lemma TakeMissed(missed: set<Bytes>, taken: seq<Tag>, callbacks: Pending, typing: Option<Bytes>, tag: Tag)
    requires MissedRightly(missed, taken, callbacks, typing) && tag.0 !in callbacks
    ensures MissedRightly(if typing == Some(tag.0) then missed + {tag.0} else missed, taken + [tag], callbacks, typing)
  {
    AmongAppend(taken, tag);
    hide Among;
  }

  lemma NextFires(c: Client, reply: Packet)
    requires Accounted(c) && IsNext(c, reply) && reply.request in c.callbacks
    ensures FiredRightly(c.registered, Firing(reply.request, c.callbacks[reply.request], reply.message))
    ensures !Fired(c.fired, reply.request) && c.typing != Some(reply.request)
  {
    NextIsNew(c, reply);
    hide Fired, SentOnce, FiredWhenTaken, MissedRightly, Served, IsNext;
    assert (reply.request, c.registered[reply.request]) in c.sent;
  }

  lemma {:induction false} FireKeepsAccounts(c: Client, reply: Packet)
    requires Accounted(c) && IsNext(c, reply) && reply.request in c.callbacks
    ensures Accounted(ClientMoved(c, Take(reply)))
  {
    var tag := (reply.request, ReplyKind(reply.message).value);
    var f := Firing(reply.request, c.callbacks[reply.request], reply.message);
    NextIsNew(c, reply);
    NextFires(c, reply);
    hide SentOnce, PendingIs, AllRight, FiredOnce, RegisteredAsSent;
    hide FiredWhenTaken, MissedRightly, TypedRightly, Served;
    TakeFields(c, reply);
    hide Fired, Among, ReplyKind, FiredRightly, ClientMoved;
    FireOnce(c.fired, f);
    FireRightly(c.registered, c.fired, f);
    FirePending(c.callbacks, c.registered, c.fired, f);
    FireTaken(c.fired, c.taken, f, tag);
    FireMissed(c.missed, c.taken, c.callbacks, c.typing, tag);
  }

  lemma MissKeepsAccounts(c: Client, reply: Packet)
    requires Accounted(c) && IsNext(c, reply) && reply.request !in c.callbacks
    ensures Accounted(ClientMoved(c, Take(reply)))
  {
    var tag := (reply.request, ReplyKind(reply.message).value);
    hide SentOnce, PendingIs, AllRight, FiredOnce, RegisteredAsSent;
    hide FiredWhenTaken, MissedRightly, TypedRightly, Served;
    TakeFields(c, reply);
    hide Fired, Among, ReplyKind, ClientMoved;
    TakeTaken(c.fired, c.taken, tag);
    TakeMissed(c.missed, c.taken, c.callbacks, c.typing, tag);
  }

  lemma SentAppend(c: Client, tag: Tag)
    requires SentOnce(c.sent) && NewRequest(c, tag.0) && RegisteredAsSent(c.registered, c.sent)
    ensures SentOnce(c.sent + [tag]) && RegisteredAsSent(c.registered, c.sent + [tag]) && tag.0 !in c.registered
    ensures tag in c.sent + [tag]
  {
    assert tag in c.sent + [tag];
  }

  lemma NewIsNotTaken(c: Client, request: Bytes)
    requires c.taken <= c.sent && NewRequest(c, request)
    ensures !Among(c.taken, request)
  {
  }

  lemma ServedAppend(sent: seq<Tag>, registered: Pending, typing: Option<Bytes>, tag: Tag)
    requires Served(sent, registered, typing) && (tag.1 == Start || tag.0 in registered || typing == Some(tag.0))
    ensures Served(sent + [tag], registered, typing)
  {
  }

  lemma RegisterPending(callbacks: Pending, registered: Pending, fired: seq<Firing>, r: Bytes, k: Kind)
    requires PendingIs(callbacks, registered, fired) && AllRight(registered, fired) && r !in registered
    ensures PendingIs(callbacks[r := k], registered[r := k], fired)
  {
    FiringOf(fired, r, registered);
    hide Fired, AllRight;
  }

  lemma RegisterRightly(registered: Pending, fired: seq<Firing>, r: Bytes, k: Kind)
    requires AllRight(registered, fired) && r !in registered
    ensures AllRight(registered[r := k], fired)
  {
    forall i | 0 <= i < |fired|
      ensures FiredRightly(registered[r := k], fired[i])
    {
      assert FiredRightly(registered, fired[i]);
    }
  }

  lemma RegisterSent(registered: Pending, sent: seq<Tag>, r: Bytes, k: Kind)
    requires RegisteredAsSent(registered, sent) && (r, k) in sent
    ensures RegisteredAsSent(registered[r := k], sent)
  {
  }

  lemma SendKeepsAccounts(c: Client, request: Bytes)
    requires Accounted(c) && NewRequest(c, request)
    ensures Accounted(c.(sent := c.sent + [(request, Start)]))
  {
    SentAppend(c, (request, Start));
    ServedAppend(c.sent, c.registered, c.typing, (request, Start));
    hide SentOnce, PendingIs, AllRight, FiredOnce, RegisteredAsSent, FiredWhenTaken, MissedRightly, Served, NewRequest;
  }

  lemma WriteKeepsAccounts(c: Client, request: Bytes, text: Bytes)
    requires Accounted(c) && NewRequest(c, request) && c.typing.None?
    ensures Accounted(c.(sent := c.sent + [(request, Echo)], texts := c.texts[request := text],
                         typing := Some(request)))
  {
    SentAppend(c, (request, Echo));
    NewIsNotTaken(c, request);
    assert Served(c.sent, c.registered, Some(request));
    ServedAppend(c.sent, c.registered, Some(request), (request, Echo));
    hide SentOnce, PendingIs, AllRight, FiredOnce, RegisteredAsSent;
    hide FiredWhenTaken, MissedRightly, Served, NewRequest, Among;
  }

  lemma AskMissed(c: Client, request: Bytes, k: Kind)
    requires MissedRightly(c.missed, c.taken, c.callbacks, c.typing) && !Among(c.taken, request)
    ensures MissedRightly(c.missed, c.taken, c.callbacks[request := k], c.typing)
  {
    hide Among;
  }

  lemma RegisterServed(sent: seq<Tag>, registered: Pending, typing: Option<Bytes>, r: Bytes, k: Kind)
    requires Served(sent, registered, typing)
    ensures Served(sent, registered[r := k], typing)
    ensures typing == Some(r) ==> Served(sent, registered[r := k], None)
  {
  }

  lemma TypedAsk(c: Client, request: Bytes)
    requires TypedRightly(c.typing, c.registered, c.sent) && NewRequest(c, request)
    ensures TypedRightly(c.typing, c.registered[request := Partners], c.sent + [(request, Partners)])
  {
    assert c.typing.Some? ==> (c.typing.value, Echo) in c.sent + [(request, Partners)];
  }

  lemma {:induction false} AskKeepsAccounts(c: Client, request: Bytes)
    requires Accounted(c) && NewRequest(c, request)
    ensures Accounted(Callback(c, request, Partners).(sent := c.sent + [(request, Partners)]))
  {
    var tag := (request, Partners);
    SentAppend(c, tag);
    NewIsNotTaken(c, request);
    TypedAsk(c, request);
    hide SentOnce, TypedRightly, PendingIs, AllRight, FiredOnce, RegisteredAsSent;
    hide FiredWhenTaken, MissedRightly, Served, NewRequest, Among;
    RegisterPending(c.callbacks, c.registered, c.fired, request, Partners);
    RegisterRightly(c.registered, c.fired, request, Partners);
    RegisterSent(c.registered, c.sent + [tag], request, Partners);
    AskMissed(c, request, Partners);
    RegisterServed(c.sent, c.registered, c.typing, request, Partners);
    ServedAppend(c.sent, c.registered[request := Partners], c.typing, tag);
  }

  lemma RegisterMissed(c: Client, request: Bytes)
    requires MissedRightly(c.missed, c.taken, c.callbacks, Some(request))
    ensures MissedRightly(c.missed, c.taken, c.callbacks[request := Echo], None)
  {
    hide Among;
  }

  lemma RegisterKeepsAccounts(c: Client)
    requires Accounted(c) && c.typing.Some?
    ensures Accounted(Callback(c, c.typing.value, Echo).(typing := None))
  {
    var request := c.typing.value;
    hide SentOnce, PendingIs, AllRight, FiredOnce, RegisteredAsSent, FiredWhenTaken, MissedRightly, Served;
    RegisterPending(c.callbacks, c.registered, c.fired, request, Echo);
    RegisterRightly(c.registered, c.fired, request, Echo);
    RegisterSent(c.registered, c.sent, request, Echo);
    RegisterMissed(c, request);
    RegisterServed(c.sent, c.registered, c.typing, request, Echo);
  }

  /** Every action of the client keeps the accounts in order. */
  lemma {:induction false} ClientKeepsAccounts(c: Client, a: ClientAction)
    requires Accounted(c) && ClientCan(c, a) && (a.Take? ==> IsNext(c, a.reply))
    ensures Accounted(ClientMoved(c, a))
  {
    hide Accounted, NewRequest, IsNext, Fits, Invoked, Handled;
    match a
    case StartSession(request) => SendKeepsAccounts(c, request);
    case AskPartners(request) => AskKeepsAccounts(c, request);
    case WriteEcho(request, text) => WriteKeepsAccounts(c, request, text);
    case RegisterEcho => RegisterKeepsAccounts(c);
    case Take(reply) =>
      if reply.request in c.callbacks {
        FireKeepsAccounts(c, reply);
      } else {
        MissKeepsAccounts(c, reply);
      }
  }

  /**
   * Which callbacks are still pending once their requests are answered: exactly those whose reply was
   * taken between the write of the request and add_callback.
   */
  lemma LostExactly(c: Client, r: Bytes)
    requires Accounted(c) && r in c.registered && Among(c.taken, r)
    ensures r in c.callbacks <==> r in c.missed
    ensures Fired(c.fired, r) <==> r !in c.missed
  {
  }

  /** With everything answered and nobody typing, the pending callbacks are exactly the missed ones. */
  lemma QuiescentExactly(c: Client)
    requires Accounted(c) && c.taken == c.sent && c.typing.None?
    ensures c.callbacks.Keys == c.missed
  {
    forall r | r in c.callbacks
      ensures r in c.missed
    {
      assert (r, c.registered[r]) in c.sent;
      assert Among(c.taken, r);
    }
  }
}
