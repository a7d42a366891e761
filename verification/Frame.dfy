/** The message frame: messageformat.h, shared.cpp and BaseProcess.tpp 134-144. */
module Frame {
  import opened CBytes
  import opened Messages
  import opened ProtobufWire

  const MESSAGE_BUFFER_SIZE: nat := 1024
  const HEADER_SIZE: nat := 24
  const MESSAGE_MAX_BODY_SIZE: nat := 1000

  newtype Int32 = x: int | -0x8000_0000 <= x < 0x8000_0000

  /** Four bytes, low one first, two's complement. */
  function Word(v: Int32): (s: Bytes)
    ensures |s| == 4
  {
    var u := if v < 0 then v as int + 0x1_0000_0000 else v as int;
    var u1 := u / 256;
    var u2 := u1 / 256;
    [u % 256, u1 % 256, u2 % 256, u2 / 256]
  }

  function WordValue(s: Bytes): Int32
    requires |s| == 4
  {
    var u: int := s[0] as int + 256 * (s[1] as int + 256 * (s[2] as int + 256 * s[3] as int));
    (if u >= 0x8000_0000 then u - 0x1_0000_0000 else u) as Int32
  }

  lemma WordComesBack(v: Int32)
    ensures WordValue(Word(v)) == v
  {
  }

  /** The bytes of a frame that are written: the header and the used part of the body. */
  function Framed(message_id: Int32, request_id: Bytes, body: Bytes): Bytes
    requires |body| <= MESSAGE_MAX_BODY_SIZE
  {
    Word(message_id) + Word(|body| as Int32) + request_id + body
  }

  /** The structure as it lies in memory. */
  class MessageWrapper {
    const memory: array<Byte>

    constructor ()
      ensures Valid() && fresh(memory)
    {
      memory := new Byte[MESSAGE_BUFFER_SIZE];
    }

    predicate Valid() {
      memory.Length == MESSAGE_BUFFER_SIZE
    }

    function MessageId(): Int32
      requires Valid()
      reads memory
    {
      WordValue(memory[0..4])
    }

    function BodySize(): Int32
      requires Valid()
      reads memory
    {
      WordValue(memory[4..8])
    }

    function RequestId(): Bytes
      requires Valid()
      reads memory
    {
      memory[8..24]
    }

    function Body(): Bytes
      requires Valid() && 0 <= BodySize() as int <= MESSAGE_MAX_BODY_SIZE
      reads memory
    {
      memory[24..24 + BodySize() as int]
    }

    /** memcpy to an offset of the structure. */
    method Memcpy(at: nat, src: Bytes)
      requires Valid() && at + |src| <= MESSAGE_BUFFER_SIZE
      modifies memory
      ensures memory[..] == old(memory[..at]) + src + old(memory[at + |src|..])
    {
      for i := 0 to |src|
        invariant memory[..] == old(memory[..at]) + src[..i] + old(memory[at + i..])
      {
        memory[at + i] := src[i];
      }
      assert src[..|src|] == src;
    }
  }

  /** How filling the structure ends: copying more than the body holds runs past the structure. */
  datatype Framing = Filled | TooLong | RanOver

  /** Fills the structure; nothing is done when the serializer reports that its buffer is too small. */
  method CreateWrapperFromProtobuf(protobuf: Bytes, message_id: Int32, request_id: Bytes, wrapper: MessageWrapper)
    returns (r: Framing)
    requires wrapper.Valid() && |request_id| == UUID_SIZE
    modifies wrapper.memory
    ensures r == if |protobuf| <= MESSAGE_MAX_BODY_SIZE then Filled
                 else if |protobuf| <= MESSAGE_BUFFER_SIZE then RanOver else TooLong
    ensures r.Filled? ==> HasAt(wrapper.memory[..], 0, Framed(message_id, request_id, protobuf))
    ensures r.RanOver? ==> HasAt(wrapper.memory[..], 24, protobuf[..MESSAGE_MAX_BODY_SIZE])
    ensures r.TooLong? ==> wrapper.memory[..] == old(wrapper.memory[..])
  {
    hide Word;
    if |protobuf| > MESSAGE_BUFFER_SIZE {
      return TooLong;
    }
    wrapper.Memcpy(0, Word(message_id));
    wrapper.Memcpy(4, Word(|protobuf| as Int32));
    wrapper.Memcpy(8, request_id);
    if |protobuf| > MESSAGE_MAX_BODY_SIZE {
      wrapper.Memcpy(24, protobuf[..MESSAGE_MAX_BODY_SIZE]);
      return RanOver;
    }
    wrapper.Memcpy(24, protobuf);
    r := Filled;
  }

  /** Overlays what was received; the rest of the structure keeps what it held. */
  method CreateWrapperFromBuffer(buffer: Bytes, wrapper: MessageWrapper) returns (ok: bool)
    requires wrapper.Valid() && |buffer| <= MESSAGE_BUFFER_SIZE
    modifies wrapper.memory
    ensures ok && HasAt(wrapper.memory[..], 0, buffer)
    ensures forall i :: |buffer| <= i < MESSAGE_BUFFER_SIZE ==> wrapper.memory[i] == old(wrapper.memory[i])
  {
    wrapper.Memcpy(0, buffer);
    ok := true;
  }

  lemma WordAt(memory: Bytes, p: nat, v: Int32)
    requires HasAt(memory, p, Word(v))
    ensures WordValue(memory[p..p + 4]) == v
  {
    hide Word, WordValue;
    SliceIs(memory, p, Word(v));
    WordComesBack(v);
  }

  /** Whatever follows a frame in memory, its fields read back. */
  lemma FrameComesBack(memory: Bytes, message_id: Int32, request_id: Bytes, body: Bytes)
    requires |body| <= MESSAGE_MAX_BODY_SIZE && |request_id| == UUID_SIZE
    requires HasAt(memory, 0, Framed(message_id, request_id, body))
    ensures 24 + |body| <= |memory| && |Framed(message_id, request_id, body)| == 24 + |body| <= MESSAGE_BUFFER_SIZE
    ensures WordValue(memory[0..4]) == message_id && WordValue(memory[4..8]) as int == |body|
    ensures memory[8..24] == request_id && memory[24..24 + |body|] == body
  {
    hide HasAt, Word, WordValue;
    var size := |body| as Int32;
    HasAtSplit3(memory, 0, Word(message_id) + Word(size), request_id, body);
    HasAtSplit(memory, 0, Word(message_id), Word(size));
    WordAt(memory, 0, message_id);
    WordAt(memory, 4, size);
    SliceIs(memory, 8, request_id);
    SliceIs(memory, 24, body);
  }

  /** The bytes of a frame: id and size, low bytes first, the request id from byte 8, the body from byte 24. */
  lemma FrameLayout(m: Message, request_id: Bytes)
    requires Fits(m) && |request_id| == UUID_SIZE
    ensures var frame, size := FrameOf(m, request_id).frame, |Serialized(m)|;
            && |frame| == 24 + size
            && frame[0] == (match m case EchoRequest(_) => 1 case EchoResponse(_) => 2
                                    case SessionStartRequest(_) => 3 case SessionStartResponse(_, _, _) => 4
                                    case AvailableTradePartnersRequest => 5 case AvailableTradePartnersResponse(_) => 6)
            && frame[1] == frame[2] == frame[3] == 0
            && frame[4] == size % 256 && frame[5] == size / 256 && frame[6] == frame[7] == 0
            && frame[8..24] == request_id && frame[24..] == Serialized(m)
  {
    var f := Framed(MessageId(m) as Int32, request_id, Serialized(m));
    hide Serialized, Word;
  }

  /** The body of a message fits into a frame. */
  predicate Fits(m: Message) {
    |Serialized(m)| <= MESSAGE_MAX_BODY_SIZE
  }

  /** Overrunning the body without filling the serializer's buffer is not defined. */
  predicate Defined(m: Message) {
    Fits(m) || |Serialized(m)| > MESSAGE_BUFFER_SIZE
  }

  /** How writing a message ends: sent, with the process ended, or past the structure's end. */
  datatype Writing = Sent(frame: Bytes) | Fatal | Overrun

  function FrameOf(m: Message, request_id: Bytes): Writing {
    if Fits(m) then Sent(Framed(MessageId(m) as Int32, request_id, Serialized(m)))
    else if Defined(m) then Fatal else Overrun
  }

  /** The bytes written to the socket, unless the process ends itself or overruns the structure. */
  method SocketWriteMessage(m: Message, request_id: Option<Bytes>, generated: Bytes) returns (written: Writing)
    requires |generated| == UUID_SIZE && (request_id.Some? ==> |request_id.value| == UUID_SIZE)
    ensures written == FrameOf(m, if request_id.Some? then request_id.value else generated)
  {
    hide Serialized, Framed, Word, WordValue, HasAt;
    var responseFrame := new MessageWrapper();
    var actual_request_id := if request_id.Some? then request_id.value else generated;
    var body := Serialized(m);
    var r := CreateWrapperFromProtobuf(body, MessageId(m) as Int32, actual_request_id, responseFrame);
    if !r.Filled? {
      return if r.TooLong? then Fatal else Overrun;
    }
    ghost var frame := Framed(MessageId(m) as Int32, actual_request_id, body);
    FrameComesBack(responseFrame.memory[..], MessageId(m) as Int32, actual_request_id, body);
    SliceIs(responseFrame.memory[..], 0, frame);
    written := Sent(responseFrame.memory[..][..24 + responseFrame.BodySize() as int]);
  }

  /** What was received has a header and as many bytes of body as that says, possibly more. */
  predicate HasFrame(buffer: Bytes) {
    HEADER_SIZE <= |buffer| && 0 <= WordValue(buffer[4..8]) as int <= |buffer| - HEADER_SIZE
  }

  /** What one receive hands to the handler; without a whole frame the handler reads bytes nobody sent. */
  datatype Dispatch = Handed(request: Bytes, message: Message) | Dropped | Garbled

  /** Unknown ids and bodies that do not parse are dropped, and so is whatever follows the first frame. */
  function Dispatched(buffer: Bytes): Dispatch {
    if !HasFrame(buffer) then Garbled
    else
      var size := WordValue(buffer[4..8]) as int;
      var m := Parsed(WordValue(buffer[0..4]) as int, buffer[HEADER_SIZE..HEADER_SIZE + size]);
      if m.None? then Dropped else Handed(buffer[8..24], m.value)
  }

  method MessageDispatch(buffer: Bytes) returns (r: Dispatch)
    requires |buffer| <= MESSAGE_BUFFER_SIZE
    ensures r == Dispatched(buffer)
  {
    if !HasFrame(buffer) {
      return Garbled;
    }
    hide WordValue, Parsed, HasAt;
    var requestFrame := new MessageWrapper();
    var copied := CreateWrapperFromBuffer(buffer, requestFrame);
    SliceIs(requestFrame.memory[..], 0, buffer);
    SlicesAgree(requestFrame.memory[..], buffer, requestFrame.BodySize() as int);
    var m := Parsed(requestFrame.MessageId() as int, requestFrame.Body());
    r := if m.None? then Dropped else Handed(requestFrame.RequestId(), m.value);
  }

  lemma SlicesAgree(memory: Bytes, buffer: Bytes, size: int)
    requires HEADER_SIZE <= |buffer| <= |memory| && memory[..|buffer|] == buffer
    ensures memory[0..4] == buffer[0..4] && memory[4..8] == buffer[4..8] && memory[8..24] == buffer[8..24]
    ensures 0 <= size <= |buffer| - 24 ==> memory[24..24 + size] == buffer[24..24 + size]
  {
    PrefixSlice(memory, |buffer|, 0, 4);
    PrefixSlice(memory, |buffer|, 4, 8);
    PrefixSlice(memory, |buffer|, 8, 24);
    if 0 <= size <= |buffer| - 24 {
      PrefixSlice(memory, |buffer|, 24, 24 + size);
    }
  }

  lemma PrefixSlice(memory: Bytes, n: nat, a: nat, b: nat)
    requires a <= b <= n <= |memory|
    ensures memory[..n][a..b] == memory[a..b]
  {
    assert forall i :: 0 <= i < b - a ==> memory[..n][a..b][i] == memory[a..b][i];
  }

  /** Only the first of the frames that one receive brings is handled; the others are lost. */
  lemma FirstFrameOnly(m: Message, request_id: Bytes, rest: Bytes)
    requires Fits(m) && |request_id| == UUID_SIZE
    ensures Dispatched(FrameOf(m, request_id).frame + rest) == Handed(request_id, m)
  {
    var f := Framed(MessageId(m) as Int32, request_id, Serialized(m));
    var buffer := f + rest;
    assert HasAt(buffer, 0, f);
    hide Serialized, Parsed, Framed, WordValue, HasAt;
    FrameComesBack(buffer, MessageId(m) as Int32, request_id, Serialized(m));
    MessageComesBack(m);
    assert buffer[HEADER_SIZE..HEADER_SIZE + |Serialized(m)|] == Serialized(m);
    assert FrameOf(m, request_id).frame == f;
  }

  /** End to end: what is dispatched is the message that was written, under its request id. */
  method Transmit(m: Message, request_id: Bytes) returns (r: Dispatch)
    requires Fits(m) && |request_id| == UUID_SIZE
    ensures r == Handed(request_id, m)
  {
    hide Serialized, Framed, Dispatched, Parsed, WordValue;
    var written := SocketWriteMessage(m, Some(request_id), request_id);
    FirstFrameOnly(m, request_id, []);
    assert written.frame + [] == written.frame;
    FrameLength(m, request_id);
    r := MessageDispatch(written.frame);
  }

  lemma FrameLength(m: Message, request_id: Bytes)
    requires Fits(m) && |request_id| == UUID_SIZE
    ensures |FrameOf(m, request_id).frame| <= MESSAGE_BUFFER_SIZE
  {
    hide Serialized, Word;
  }

  /** A partner list fits exactly when it has at most 55 ids; with 57 or more the answering process ends itself. */
  lemma PartnersFitExactly(ids: seq<Bytes>)
    requires Uuids(ids)
    ensures Fits(AvailableTradePartnersResponse(ids)) <==> |ids| <= 55
    ensures Defined(AvailableTradePartnersResponse(ids)) <==> |ids| != 56
  {
    hide EncodeAll, IdFields;
    PartnersSize(ids);
  }

  /** An echo fits exactly when its text has at most 997 bytes. */
  lemma EchoFitsExactly(text: Bytes)
    ensures Fits(EchoResponse(text)) <==> |text| <= 997
    ensures Fits(EchoRequest(text)) <==> |text| <= 997
  {
    hide Serialized;
    EchoSize(text);
  }

  /** The other messages always fit. */
  lemma SessionStartFits(c: Bytes, s: Bytes, e: StartError)
    requires |c| == |s| == UUID_SIZE
    ensures Fits(SessionStartRequest(c)) && Fits(SessionStartResponse(c, Some(s), e))
    ensures Fits(AvailableTradePartnersRequest)
  {
    StartSize(c, s, e);
  }
}
