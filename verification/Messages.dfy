/** The six messages of protos and their sizes on the wire. */
module Messages {
  import opened CBytes
  import opened ProtobufWire

  const UUID_SIZE: nat := 16

  /** SessionStartError of session.proto. */
  datatype StartError = OK | CLIENT_ALREADY_CONNECTED | SESSION_STARTED

  datatype Message =
    | EchoRequest(message: Bytes)
    | EchoResponse(message: Bytes)
    | SessionStartRequest(client_id: Bytes)
    | SessionStartResponse(client_id: Bytes, session_id: Option<Bytes>, error: StartError)
    | AvailableTradePartnersRequest
    | AvailableTradePartnersResponse(client_ids: seq<Bytes>)

  /** The MSG_ID_ constants of messageformat.h 22-27. */
  function MessageId(m: Message): (id: nat)
    ensures 1 <= id <= 6
  {
    match m
    case EchoRequest(_) => 1
    case EchoResponse(_) => 2
    case SessionStartRequest(_) => 3
    case SessionStartResponse(_, _, _) => 4
    case AvailableTradePartnersRequest => 5
    case AvailableTradePartnersResponse(_) => 6
  }

  function ErrorCode(e: StartError): nat {
    match e
    case OK => 0
    case CLIENT_ALREADY_CONNECTED => 1
    case SESSION_STARTED => 2
  }

  function ErrorOf(code: nat): Option<StartError> {
    if code == 0 then Some(OK)
    else if code == 1 then Some(CLIENT_ALREADY_CONNECTED)
    else if code == 2 then Some(SESSION_STARTED)
    else None
  }

  function IdFields(ids: seq<Bytes>): (fs: seq<Field>)
    ensures |fs| == |ids| && AllNumbered(fs)
    ensures forall i :: 0 <= i < |fs| ==> fs[i] == Length(1, ids[i])
  {
    seq(|ids|, i requires 0 <= i < |ids| => Length(1, ids[i]))
  }

  function Fields(m: Message): (fs: seq<Field>)
    ensures AllNumbered(fs)
  {
    match m
    case EchoRequest(text) => [Length(1, text)]
    case EchoResponse(text) => [Length(1, text)]
    case SessionStartRequest(c) => [Length(1, c)]
    case SessionStartResponse(c, s, e) =>
      [Length(1, c)] + (if s.Some? then [Length(2, s.value)] else []) + [Number(3, ErrorCode(e))]
    case AvailableTradePartnersRequest => []
    case AvailableTradePartnersResponse(ids) => IdFields(ids)
  }

  /** All values of a repeated field. */
  function Values(fs: seq<Field>, number: nat): seq<Bytes> {
    if fs == [] then []
    else (if fs[0].Length? && fs[0].number == number then [fs[0].data] else []) + Values(fs[1..], number)
  }

  /** A single field holds the last of its values. */
  function LastOf(values: seq<Bytes>): Option<Bytes> {
    if values == [] then None else Some(values[|values| - 1])
  }

  /** An enum field; codes the enum does not have count as unknown fields. */
  function ErrorIn(fs: seq<Field>): Option<StartError> {
    if fs == [] then None
    else
      var later := ErrorIn(fs[1..]);
      if later.Some? then later
      else if fs[0].Number? && fs[0].number == 3 then ErrorOf(fs[0].value)
      else None
  }

  /** Parsing by message id; a message with a required field missing does not parse. */
  function FromFields(id: int, fs: seq<Field>): Option<Message> {
    var first := LastOf(Values(fs, 1));
    if id == 1 then if first.None? then None else Some(EchoRequest(first.value))
    else if id == 2 then if first.None? then None else Some(EchoResponse(first.value))
    else if id == 3 then if first.None? then None else Some(SessionStartRequest(first.value))
    else if id == 4 then
      var e := ErrorIn(fs);
      if first.None? || e.None? then None
      else Some(SessionStartResponse(first.value, LastOf(Values(fs, 2)), e.value))
    else if id == 5 then Some(AvailableTradePartnersRequest)
    else if id == 6 then Some(AvailableTradePartnersResponse(Values(fs, 1)))
    else None
  }

  lemma {:induction false} IdsComeBack(ids: seq<Bytes>)
    ensures Values(IdFields(ids), 1) == ids
  {
    if ids != [] {
      assert IdFields(ids)[1..] == IdFields(ids[1..]);
      IdsComeBack(ids[1..]);
    }
  }

  lemma ResponseComesBack(c: Bytes, s: Option<Bytes>, e: StartError)
    ensures FromFields(4, Fields(SessionStartResponse(c, s, e))) == Some(SessionStartResponse(c, s, e))
  {
    var last := [Number(3, ErrorCode(e))];
    assert last == [Number(3, ErrorCode(e))] + [];
    var rest := if s.Some? then [Length(2, s.value)] + last else last;
    assert Fields(SessionStartResponse(c, s, e)) == [Length(1, c)] + rest;
    forall number | 1 <= number <= 2
      ensures Values(last, number) == [] && ErrorIn(last) == Some(e)
      ensures Values(rest, number) == (if s.Some? && number == 2 then [s.value] else []) && ErrorIn(rest) == Some(e)
      ensures Values([Length(1, c)] + rest, number) == (if number == 1 then [c] else []) + Values(rest, number)
      ensures ErrorIn([Length(1, c)] + rest) == Some(e)
    {
    }
    hide Values, ErrorIn;
    assert Values([Length(1, c)] + rest, 1) == [c];
    assert Values([Length(1, c)] + rest, 2) == if s.Some? then [s.value] else [];
  }

  lemma SingleComesBack(data: Bytes)
    ensures LastOf(Values([Length(1, data)], 1)) == Some(data)
  {
    assert [Length(1, data)][1..] == [];
  }

  lemma MessageComesBackFromFields(m: Message)
    ensures FromFields(MessageId(m), Fields(m)) == Some(m)
  {
    hide Values, ErrorIn, IdFields, LastOf;
    match m
    case EchoRequest(text) => SingleComesBack(text);
    case EchoResponse(text) => SingleComesBack(text);
    case SessionStartRequest(c) => SingleComesBack(c);
    case SessionStartResponse(c, s, e) => ResponseComesBack(c, s, e);
    case AvailableTradePartnersRequest =>
    case AvailableTradePartnersResponse(ids) => IdsComeBack(ids);
  }

  /** SerializeToArray. */
  function Serialized(m: Message): Bytes {
    EncodeAll(Fields(m))
  }

  /** ParseFromArray, for the message class that the id selects. */
  function Parsed(id: int, body: Bytes): Option<Message> {
    var fs := ReadAll(body, 0);
    if fs.None? then None else FromFields(id, fs.value)
  }

  lemma MessageComesBack(m: Message)
    ensures Parsed(MessageId(m), Serialized(m)) == Some(m)
  {
    hide Fields, FromFields, EncodeAll, ReadAll;
    FieldsComeBack(Fields(m));
    MessageComesBackFromFields(m);
  }

  predicate Uuids(ids: seq<Bytes>) {
    forall i :: 0 <= i < |ids| ==> |ids[i]| == UUID_SIZE
  }

  lemma UuidField(number: nat, id: Bytes)
    requires 1 <= number < 16 && |id| == UUID_SIZE
    ensures |Encode(Length(number, id))| == 18
  {
  }

  lemma {:induction false} PartnersSize(ids: seq<Bytes>)
    requires Uuids(ids)
    ensures |EncodeAll(IdFields(ids))| == 18 * |ids|
  {
    hide Encode;
    if ids != [] {
      assert IdFields(ids)[1..] == IdFields(ids[1..]);
      UuidField(1, ids[0]);
      PartnersSize(ids[1..]);
    }
  }

  lemma EncodeOne(f: Field)
    requires Numbered(f)
    ensures EncodeAll([f]) == Encode(f)
  {
    assert [f][1..] == [];
  }

  lemma EchoSize(text: Bytes)
    ensures |Serialized(EchoResponse(text))| == |Serialized(EchoRequest(text))| == 1 + |Varint(|text|)| + |text|
  {
    EncodeOne(Length(1, text));
  }

  lemma StartSize(c: Bytes, s: Bytes, e: StartError)
    requires |c| == |s| == UUID_SIZE
    ensures |Serialized(SessionStartRequest(c))| == 18
    ensures |Serialized(SessionStartResponse(c, Some(s), e))| == 38
  {
    hide Encode;
    EncodeOne(Length(1, c));
    UuidField(1, c);
    UuidField(2, s);
    var fs := Fields(SessionStartResponse(c, Some(s), e));
    var rest := [Length(2, s), Number(3, ErrorCode(e))];
    assert fs == [Length(1, c)] + rest && fs[1..] == rest;
    assert rest[1..] == [Number(3, ErrorCode(e))];
    EncodeOne(Number(3, ErrorCode(e)));
    ErrorField(e);
    assert EncodeAll(rest) == Encode(rest[0]) + EncodeAll(rest[1..]);
  }

  lemma ErrorField(e: StartError)
    ensures |Encode(Number(3, ErrorCode(e)))| == 2
  {
  }

  /** A field of bytes: its key, its length and the bytes themselves. */
  function BytesField(key: Byte, data: Bytes): Bytes
    requires |data| < 128
  {
    [key, |data|] + data
  }

  lemma BytesFieldIs(number: nat, data: Bytes)
    requires 1 <= number < 16 && |data| < 128
    ensures Encode(Length(number, data)) == BytesField(8 * number + 2, data)
  {
  }

  /** All partner ids, each as field 1. */
  function IdBytes(ids: seq<Bytes>): Bytes
    requires Uuids(ids)
  {
    if ids == [] then [] else BytesField(10, ids[0]) + IdBytes(ids[1..])
  }

  lemma {:induction false} IdsOnTheWire(ids: seq<Bytes>)
    requires Uuids(ids)
    ensures EncodeAll(IdFields(ids)) == IdBytes(ids)
    decreases |ids|
  {
    hide Encode, BytesField;
    if ids != [] {
      assert IdFields(ids)[1..] == IdFields(ids[1..]);
      BytesFieldIs(1, ids[0]);
      IdsOnTheWire(ids[1..]);
    }
  }

  /** The bytes of the requests and of an echo: number and type of a field in one byte, then its length. */
  lemma RequestsOnTheWire(text: Bytes, c: Bytes)
    requires |text| < 128 && |c| == UUID_SIZE
    ensures Serialized(EchoRequest(text)) == Serialized(EchoResponse(text)) == BytesField(10, text)
    ensures Serialized(SessionStartRequest(c)) == BytesField(10, c)
    ensures Serialized(AvailableTradePartnersRequest) == []
  {
    BytesFieldIs(1, text);
    BytesFieldIs(1, c);
    EncodeOne(Length(1, text));
    EncodeOne(Length(1, c));
    hide Encode, BytesField;
  }

  /** The bytes of an answer to a session request; the error is a number. */
  lemma ResponseOnTheWire(c: Bytes, s: Bytes, e: StartError)
    requires |c| == |s| == UUID_SIZE
    ensures Serialized(SessionStartResponse(c, Some(s), e)) ==
            BytesField(10, c) + BytesField(18, s)
            + [24, if e.OK? then 0 else if e.CLIENT_ALREADY_CONNECTED? then 1 else 2]
  {
    BytesFieldIs(1, c);
    BytesFieldIs(2, s);
    var error := Number(3, ErrorCode(e));
    assert Encode(error) == [24, ErrorCode(e)];
    EncodeOne(error);
    hide Encode, BytesField;
    var fs := Fields(SessionStartResponse(c, Some(s), e));
    EncodeTwo(Length(2, s), [error]);
    EncodeTwo(Length(1, c), [Length(2, s)] + [error]);
    assert fs == [Length(1, c)] + ([Length(2, s)] + [error]);
    Associative(BytesField(10, c), BytesField(18, s), [24, ErrorCode(e)]);
  }

  lemma EncodeTwo(f: Field, rest: seq<Field>)
    requires Numbered(f) && AllNumbered(rest)
    ensures EncodeAll([f] + rest) == Encode(f) + EncodeAll(rest)
  {
    assert ([f] + rest)[1..] == rest;
  }
}
