/** SPOP frames (SPOE.txt v3.2.0, section 3.2): payload by type, and the length-framed envelope. */
module Frames {
  import opened Results
  import opened Bytes
  import opened Varints
  import opened DataTypes
  import opened Payloads
  import opened SpopLists

  const HAPROXY_HELLO: byte := 1
  const HAPROXY_DISCONNECT: byte := 2
  const NOTIFY: byte := 3
  const AGENT_HELLO: byte := 101
  const AGENT_DISCONNECT: byte := 102
  const ACK: byte := 103

  /** One constructor per Frame subclass. Fields the source never converts keep whatever
      typed value the wire carried. */
  datatype Payload =
    | HaproxyHello(versions: seq<string>, maxFrameSize: Value, capabilities: seq<string>,
                   engineId: Value, healthcheck: Value)
    | AgentHello(version: Value, maxFrameSize: Value, capabilities: seq<string>)
    | Disconnect(fromAgent: bool, statusCode: Value, message: Value)
    | Notify(messages: seq<Message>)
    | Ack(actions: seq<Action>)

  datatype Frame = Frame(meta: Metadata, payload: Payload)

  /** `Frame.construct`: FIN set, ABORT clear. */
  function Construct(streamId: int, frameId: int, payload: Payload): Frame {
    Frame(Metadata(Flags(true, false), streamId, frameId), payload)
  }

  function FrameType(p: Payload): byte {
    match p
    case HaproxyHello(_, _, _, _, _) => HAPROXY_HELLO
    case AgentHello(_, _, _) => AGENT_HELLO
    case Disconnect(fromAgent, _, _) => if fromAgent then AGENT_DISCONNECT else HAPROXY_DISCONNECT
    case Notify(_) => NOTIFY
    case Ack(_) => ACK
  }

  // ----- payloads kept as key-value lists -----

  function HelloEntries(p: Payload): (d: Dict)
    requires p.HaproxyHello?
  {
    [Entry("supported-versions", Str(ToList(p.versions))),
     Entry("max-frame-size", p.maxFrameSize),
     Entry("capabilities", Str(ToList(p.capabilities))),
     Entry("healthcheck", p.healthcheck)]
    + if p.engineId == Null then [] else [Entry("engine-id", p.engineId)]
  }

  function AgentHelloEntries(p: Payload): (d: Dict)
    requires p.AgentHello?
  {
    [Entry("version", p.version),
     Entry("max-frame-size", p.maxFrameSize),
     Entry("capabilities", Str(ToList(p.capabilities)))]
  }

  function DisconnectEntries(p: Payload): (d: Dict)
    requires p.Disconnect?
  {
    [Entry("status-code", p.statusCode), Entry("message", p.message)]
  }

  /** `payload[key]`, with the KeyError already turned into a decode error. */
  function Field(d: Dict, key: string): Result<Value> {
    match Lookup(d, key)
    case Some(v) => Ok(v)
    case None => Err(DecodeError)
  }

  function FieldOr(d: Dict, key: string, default: Value): Value {
    match Lookup(d, key)
    case Some(v) => v
    case None => default
  }

  /** `from_spop_list(payload[key])`: anything but a string has no usable `split`. */
  function ListField(d: Dict, key: string): Result<seq<string>> {
    var v :- Field(d, key);
    if v.Str? then Ok(FromList(v.s)) else Err(TypeFault)
  }

  function HelloFields(d: Dict): Result<Payload> {
    var versions :- ListField(d, "supported-versions");
    var maxFrameSize :- Field(d, "max-frame-size");
    var capabilities :- ListField(d, "capabilities");
    Ok(HaproxyHello(versions, maxFrameSize, capabilities,
                    FieldOr(d, "engine-id", Null), FieldOr(d, "healthcheck", Bool(false))))
  }

  function AgentHelloFields(d: Dict): Result<Payload> {
    var version :- Field(d, "version");
    var maxFrameSize :- Field(d, "max-frame-size");
    var capabilities :- ListField(d, "capabilities");
    Ok(AgentHello(version, maxFrameSize, capabilities))
  }

  function DisconnectFields(fromAgent: bool, d: Dict): Result<Payload> {
    var statusCode :- Field(d, "status-code");
    var message :- Field(d, "message");
    Ok(Disconnect(fromAgent, statusCode, message))
  }

  // ----- encoding -----

  function EncodePayload(p: Payload): (r: Result<bytes>)
    ensures r.Err? ==> r.error == EncodeError
  {
    match p
    case HaproxyHello(_, _, _, _, _) => EncodeEntries(HelloEntries(p))
    case AgentHello(_, _, _) => EncodeEntries(AgentHelloEntries(p))
    case Disconnect(_, _, _) => EncodeEntries(DisconnectEntries(p))
    case Notify(messages) => EncodeMessages(messages)
    case Ack(actions) => EncodeActions(actions)
  }

  /** The frame without its length prefix. */
  function EncodeBody(f: Frame): (r: Result<bytes>)
    ensures r.Err? ==> r.error == EncodeError
    ensures r.Ok? ==> |r.value| >= 7
  {
    var meta :- EncodeMetadata(f.meta);
    var payload :- EncodePayload(f.payload);
    Ok([FrameType(f.payload)] + (meta + payload))
  }

  /** `struct.pack("!I", n)`. */
  function BigEndian(n: nat): (b: bytes)
    requires n < TWO_TO_32
    ensures |b| == 4
  {
    [n / 0x100_0000, n / 0x1_0000 % 0x100, n / 0x100 % 0x100, n % 0x100]
  }

  function FromBigEndian(b: bytes): nat
    requires |b| == 4
  {
    b[0] as int * 0x100_0000 + b[1] as int * 0x1_0000 + b[2] as int * 0x100 + b[3]
  }

  /** The prefix is packed before the size is compared with the negotiated maximum. */
  function EncodeFrame(f: Frame, max: int): (r: Result<bytes>)
    ensures r.Err? ==> r.error == EncodeError || r.error == FrameTooBig
    ensures r.Ok? ==> EncodeBody(f).Ok? && |r.value| == 4 + |EncodeBody(f).value|
    ensures r.Ok? <==> EncodeBody(f).Ok? && |EncodeBody(f).value| < TWO_TO_32
                       && |EncodeBody(f).value| <= max
  {
    var body :- EncodeBody(f);
    if |body| >= TWO_TO_32 then Err(EncodeError)
    else if |body| > max then Err(FrameTooBig)
    else Ok(BigEndian(|body|) + body)
  }

  // ----- decoding -----

  /** `get_frame_class(frame_type)(...).decode_payload(buf, offset, end)`. */
  function DecodePayload(kind: byte, buf: bytes, offset: nat, end: nat): (r: Result<(Payload, nat)>)
    ensures r.Err? ==> r.error == DecodeError || r.error == TypeFault
    ensures r.Ok? ==> FrameType(r.value.0) == kind
  {
    if kind == HAPROXY_HELLO then
      var (d, last) :- DecodeEntries(buf, offset, end, []);
      var p :- HelloFields(d);
      Ok((p, last))
    else if kind == AGENT_HELLO then
      var (d, last) :- DecodeEntries(buf, offset, end, []);
      var p :- AgentHelloFields(d);
      Ok((p, last))
    else if kind == HAPROXY_DISCONNECT || kind == AGENT_DISCONNECT then
      var (d, last) :- DecodeEntries(buf, offset, end, []);
      var p :- DisconnectFields(kind == AGENT_DISCONNECT, d);
      Ok((p, last))
    else if kind == NOTIFY then
      var (ms, last) :- DecodeMessages(buf, offset, end);
      Ok((Notify(ms), last))
    else if kind == ACK then
      var (actions, last) :- DecodeActions(buf, offset, end);
      Ok((Ack(actions), last))
    else Err(DecodeError)
  }

  function DecodeBody(buf: bytes): (r: Result<Frame>)
    ensures r.Err? ==> r.error == DecodeError || r.error == TypeFault
  {
    if |buf| < 1 then Err(DecodeError) else
    var (meta, offset) :- DecodeMetadata(buf, 1);
    var (payload, last) :- DecodePayload(buf[0], buf, offset, |buf|);
    if last != |buf| then Err(DecodeError) else Ok(Frame(meta, payload))
  }

  /** `Frame.decode` on everything the peer will still send before closing: the frame and
      the number of bytes taken from the stream. */
  function DecodeFrame(stream: bytes, max: int): (r: Result<(Frame, nat)>)
    ensures r.Ok? ==> 4 < r.value.1 <= |stream| && r.value.1 - 4 <= max
    ensures r.Err? ==> r.error != EncodeError
  {
    if |stream| < 4 then Err(EndOfStream) else
    var size := FromBigEndian(stream[..4]);
    if size > max then Err(FrameTooBig)
    else if |stream| < 4 + size then Err(DecodeError)
    else
      var f :- DecodeBody(stream[4..4 + size]);
      Ok((f, 4 + size))
  }

  // ----- round trip -----

  /** The frame a peer reads when this one was written. */
  function NormalPayload(p: Payload): Payload {
    match p
    case HaproxyHello(versions, size, capabilities, engineId, healthcheck) =>
      HaproxyHello(FromList(ToList(versions)), size, FromList(ToList(capabilities)), engineId, healthcheck)
    case AgentHello(version, size, capabilities) =>
      AgentHello(version, size, FromList(ToList(capabilities)))
    case _ => p
  }

  function Normal(f: Frame): Frame {
    Frame(NormalMetadata(f.meta), NormalPayload(f.payload))
  }

  /** What a caller can check before sending: ids below 2^63 and clean list items. */
  predicate Faithful(f: Frame) {
    && -TWO_TO_63 <= f.meta.streamId < TWO_TO_63
    && -TWO_TO_63 <= f.meta.frameId < TWO_TO_63
    && match f.payload
       case HaproxyHello(versions, _, capabilities, _, _) => Clean(versions) && Clean(capabilities)
       case AgentHello(_, _, capabilities) => Clean(capabilities)
       case _ => true
  }

  lemma FaithfulIsNormal(f: Frame)
    ensures Faithful(f) <==> Normal(f) == f
  {
    hide ToList, FromList;
    SignedIdentity(f.meta.streamId, TWO_TO_64);
    SignedIdentity(f.meta.frameId, TWO_TO_64);
    match f.payload {
      case HaproxyHello(versions, _, capabilities, _, _) =>
        ListSurvives(versions);
        ListSurvives(capabilities);
      case AgentHello(_, _, capabilities) => ListSurvives(capabilities);
      case _ =>
    }
  }

  lemma HelloFieldsRoundTrip(p: Payload)
    requires p.HaproxyHello?
    ensures HelloFields(HelloEntries(p)) == Ok(NormalPayload(p))
  {
    hide ToList, FromList;
    var d := HelloEntries(p);
    LookupAt(d, 0);
    LookupAt(d, 1);
    LookupAt(d, 2);
    LookupAt(d, 3);
    if p.engineId != Null {
      LookupAt(d, 4);
    } else {
      assert forall i | 0 <= i < |d| :: |d[i].key| != |"engine-id"|;
      assert !HasKey(d, "engine-id");
    }
  }

  lemma AgentHelloFieldsRoundTrip(p: Payload)
    requires p.AgentHello?
    ensures AgentHelloFields(AgentHelloEntries(p)) == Ok(NormalPayload(p))
  {
    hide ToList, FromList;
    var d := AgentHelloEntries(p);
    LookupAt(d, 0);
    LookupAt(d, 1);
    LookupAt(d, 2);
  }

  lemma DisconnectFieldsRoundTrip(p: Payload)
    requires p.Disconnect?
    ensures DisconnectFields(p.fromAgent, DisconnectEntries(p)) == Ok(p)
  {
    var d := DisconnectEntries(p);
    LookupAt(d, 0);
    LookupAt(d, 1);
  }

  lemma PayloadRoundTrip(p: Payload, buf: bytes, offset: nat)
    requires EncodePayload(p).Ok? && At(buf, offset, EncodePayload(p).value)
    ensures var end := offset + |EncodePayload(p).value|;
            DecodePayload(FrameType(p), buf, offset, end) == Ok((NormalPayload(p), end))
  {
    hide EncodeEntries, DecodeEntries, EncodeMessages, DecodeMessages, EncodeActions, DecodeActions,
         HelloEntries, HelloFields, AgentHelloEntries, AgentHelloFields, DisconnectEntries, DisconnectFields,
         ToList, FromList;
    match p {
      case HaproxyHello(_, _, _, _, _) =>
        HelloFieldsRoundTrip(p);
        assert [] + HelloEntries(p) == HelloEntries(p);
        EntriesRoundTrip(HelloEntries(p), [], buf, offset);
      case AgentHello(_, _, _) =>
        AgentHelloFieldsRoundTrip(p);
        assert [] + AgentHelloEntries(p) == AgentHelloEntries(p);
        EntriesRoundTrip(AgentHelloEntries(p), [], buf, offset);
      case Disconnect(_, _, _) =>
        DisconnectFieldsRoundTrip(p);
        assert [] + DisconnectEntries(p) == DisconnectEntries(p);
        EntriesRoundTrip(DisconnectEntries(p), [], buf, offset);
      case Notify(messages) => MessagesRoundTrip(messages, buf, offset);
      case Ack(actions) => ActionsRoundTrip(actions, buf, offset);
    }
  }

  lemma BodyRoundTrip(f: Frame)
    requires EncodeBody(f).Ok?
    ensures DecodeBody(EncodeBody(f).value) == Ok(Normal(f))
  {
    hide EncodeMetadata, DecodeMetadata, EncodePayload, DecodePayload, NormalPayload, NormalMetadata;
    var body := EncodeBody(f).value;
    var meta, payload := EncodeMetadata(f.meta).value, EncodePayload(f.payload).value;
    assert At(body, 0, [FrameType(f.payload)] + (meta + payload));
    AtHead(body, 0, FrameType(f.payload), meta + payload);
    AtSplit(body, 1, meta, payload);
    MetadataRoundTrip(f.meta, body, 1);
    PayloadRoundTrip(f.payload, body, 1 + |meta|);
  }

  lemma BigEndianRoundTrip(n: nat)
    requires n < TWO_TO_32
    ensures FromBigEndian(BigEndian(n)) == n
  {
  }

  /** Every frame that can be written is read back as its normal form, whatever follows it on
      the stream, by any reader that accepts its size. */
  lemma FrameRoundTrip(f: Frame, max: int, rest: bytes, readerMax: int)
    requires EncodeFrame(f, max).Ok?
    requires |EncodeFrame(f, max).value| - 4 <= readerMax
    ensures DecodeFrame(EncodeFrame(f, max).value + rest, readerMax)
            == Ok((Normal(f), |EncodeFrame(f, max).value|))
  {
    hide EncodeBody, DecodeBody, BigEndian, FromBigEndian;
    var body := EncodeBody(f).value;
    var stream := EncodeFrame(f, max).value + rest;
    assert stream[..4] == BigEndian(|body|);
    assert stream[4..4 + |body|] == body;
    BigEndianRoundTrip(|body|);
    BodyRoundTrip(f);
  }

  /** A frame survives the wire unchanged exactly when it is faithful. */
  lemma FrameRoundTripExactly(f: Frame, max: int, rest: bytes, readerMax: int)
    requires EncodeFrame(f, max).Ok?
    requires |EncodeFrame(f, max).value| - 4 <= readerMax
    ensures Faithful(f) <==> DecodeFrame(EncodeFrame(f, max).value + rest, readerMax)
                             == Ok((f, |EncodeFrame(f, max).value|))
  {
    hide EncodeFrame, DecodeFrame, Normal, Faithful;
    FrameRoundTrip(f, max, rest, readerMax);
    FaithfulIsNormal(f);
  }

  /** Without a precondition the round trip fails: an id of 2^63 comes back negative. */
  lemma HugeIdIsLost()
    ensures var f := Construct(TWO_TO_63, 0, Ack([]));
            && EncodeFrame(f, 4096).Ok?
            && exists g: Frame :: DecodeFrame(EncodeFrame(f, 4096).value, 4096) == Ok((g, |EncodeFrame(f, 4096).value|))
                           && g.meta.streamId == -TWO_TO_63
  {
    hide DecodeFrame, Varint;
    var f := Construct(TWO_TO_63, 0, Ack([]));
    Varint64Length(TWO_TO_63);
    Varint64Length(0);
    FrameRoundTrip(f, 4096, [], 4096);
    var code := EncodeFrame(f, 4096).value;
    assert code + [] == code;
    assert Normal(f).meta.streamId == -TWO_TO_63;
  }

  // ----- streams -----

  function EncodeAll(fs: seq<Frame>, max: int): Result<bytes> {
    if fs == [] then Ok([]) else
    var first :- EncodeFrame(fs[0], max);
    var rest :- EncodeAll(fs[1..], max);
    Ok(first + rest)
  }

  /** Repeated `Frame.decode` until the stream is used up. */
  function DecodeAll(stream: bytes, max: int): Result<seq<Frame>>
    decreases |stream|
  {
    if stream == [] then Ok([]) else
    var (f, used) :- DecodeFrame(stream, max);
    var rest :- DecodeAll(stream[used..], max);
    Ok([f] + rest)
  }

  function NormalAll(fs: seq<Frame>): (r: seq<Frame>)
    ensures |r| == |fs|
  {
    if fs == [] then [] else [Normal(fs[0])] + NormalAll(fs[1..])
  }

  lemma {:induction false} StreamRoundTrip(fs: seq<Frame>, max: int, readerMax: int)
    requires max <= readerMax
    requires EncodeAll(fs, max).Ok?
    ensures DecodeAll(EncodeAll(fs, max).value, readerMax) == Ok(NormalAll(fs))
  {
    hide EncodeFrame, DecodeFrame, Normal;
    if fs != [] {
      var first, rest := EncodeFrame(fs[0], max).value, EncodeAll(fs[1..], max).value;
      FrameRoundTrip(fs[0], max, rest, readerMax);
      assert (first + rest)[|first|..] == rest;
      StreamRoundTrip(fs[1..], max, readerMax);
    }
  }

  lemma {:induction false} FaithfulStream(fs: seq<Frame>)
    requires forall i | 0 <= i < |fs| :: Faithful(fs[i])
    ensures NormalAll(fs) == fs
  {
    hide Normal, Faithful;
    if fs != [] {
      FaithfulIsNormal(fs[0]);
      FaithfulStream(fs[1..]);
      assert fs == [fs[0]] + fs[1..];
    }
  }

  /** No frame on the wire is a proper prefix of another. */
  lemma FramePrefixFree(f: Frame, g: Frame, max: int, rest: bytes)
    requires EncodeFrame(f, max).Ok? && EncodeFrame(g, max).Ok?
    requires EncodeFrame(f, max).value + rest == EncodeFrame(g, max).value
    ensures rest == [] && Normal(f) == Normal(g)
  {
    hide EncodeFrame, DecodeFrame, Normal;
    EncodedWithin(f, max);
    EncodedWithin(g, max);
    FrameRoundTrip(f, max, rest, max);
    FrameRoundTrip(g, max, [], max);
    assert EncodeFrame(g, max).value + [] == EncodeFrame(g, max).value;
  }

  lemma EncodedWithin(f: Frame, max: int)
    requires EncodeFrame(f, max).Ok?
    ensures |EncodeFrame(f, max).value| - 4 <= max
  {
    hide EncodeBody;
  }

  // ----- decoding normalises -----

  lemma PayloadDecodesNormal(kind: byte, buf: bytes, offset: nat, end: nat)
    requires DecodePayload(kind, buf, offset, end).Ok?
    ensures var p := DecodePayload(kind, buf, offset, end).value.0;
            Faithful(Construct(0, 0, p))
  {
    hide DecodeEntries, DecodeMessages, DecodeActions, FromList, Clean;
    var p := DecodePayload(kind, buf, offset, end).value.0;
    if p.HaproxyHello? {
      var d := DecodeEntries(buf, offset, end, []).value.0;
      FromListClean(Field(d, "supported-versions").value.s);
      FromListClean(Field(d, "capabilities").value.s);
    } else if p.AgentHello? {
      var d := DecodeEntries(buf, offset, end, []).value.0;
      FromListClean(Field(d, "capabilities").value.s);
    }
  }

  lemma DecodedIsFaithful(stream: bytes, max: int)
    requires DecodeFrame(stream, max).Ok?
    ensures Faithful(DecodeFrame(stream, max).value.0)
  {
    hide DecodePayload, FromBigEndian, ParseVarint, Clean;
    var size := FromBigEndian(stream[..4]);
    var buf := stream[4..4 + size];
    var (meta, offset) := DecodeMetadata(buf, 1).value;
    PayloadDecodesNormal(buf[0], buf, offset, |buf|);
  }

  /** Decode, re-encode, decode: the second decoding gives the first one again, although the
      bytes between them may differ. */
  lemma DecodingNormalises(stream: bytes, max: int, reMax: int, rest: bytes, readerMax: int)
    requires DecodeFrame(stream, max).Ok?
    requires EncodeFrame(DecodeFrame(stream, max).value.0, reMax).Ok?
    requires reMax <= readerMax
    ensures var f := DecodeFrame(stream, max).value.0;
            var again := EncodeFrame(f, reMax).value;
            DecodeFrame(again + rest, readerMax) == Ok((f, |again|))
  {
    hide EncodeFrame, DecodeFrame, Faithful;
    DecodedIsFaithful(stream, max);
    FrameRoundTripExactly(DecodeFrame(stream, max).value.0, reMax, rest, readerMax);
  }

  // ----- exact consumption -----

  /** A payload that decodes at all ends exactly at the end of the frame, so the last guard of
      `Frame.decode` never fires. */
  lemma ExactConsumption(buf: bytes, offset: nat)
    requires offset <= |buf|
    requires 0 < |buf| && DecodePayload(buf[0], buf, offset, |buf|).Ok?
    ensures DecodePayload(buf[0], buf, offset, |buf|).value.1 == |buf|
  {
    hide HelloFields, AgentHelloFields, DisconnectFields;
  }

  /** A NOTIFY has two bytes at least for every message and every argument. */
  lemma NotifyIsDense(stream: bytes, max: int)
    requires DecodeFrame(stream, max).Ok? && DecodeFrame(stream, max).value.0.payload.Notify?
    ensures var (f, used) := DecodeFrame(stream, max).value;
            2 * Weight(f.payload.messages) <= used - 4 - 7
  {
    hide DecodeMetadata, FromBigEndian, HelloFields, AgentHelloFields, DisconnectFields;
  }

  // ----- the loops and buffers of the source -----

  method FrameEncode(f: Frame, max: int) returns (r: Result<bytes>)
    ensures r == EncodeFrame(f, max)
  {
    hide EncodeEntries, EncodeMessages, EncodeActions, EncodeMetadata, HelloEntries, AgentHelloEntries,
         DisconnectEntries, BigEndian;
    var out: bytes := [FrameType(f.payload)];
    var meta := EncodeMetadataFrame(f.meta);
    if meta.Err? {
      return meta;
    }
    out := out + meta.value;
    var payload: Result<bytes>;
    match f.payload {
      case HaproxyHello(_, _, _, _, _) => payload := EncodeKvList(HelloEntries(f.payload));
      case AgentHello(_, _, _) => payload := EncodeKvList(AgentHelloEntries(f.payload));
      case Disconnect(_, _, _) => payload := EncodeKvList(DisconnectEntries(f.payload));
      case Notify(messages) => payload := EncodeMessageList(messages);
      case Ack(actions) => payload := EncodeActionList(actions);
    }
    assert payload == EncodePayload(f.payload);
    if payload.Err? {
      return payload;
    }
    out := out + payload.value;
    assert out == [FrameType(f.payload)] + (meta.value + payload.value);
    if |out| >= TWO_TO_32 {
      return Err(EncodeError);
    }
    if |out| > max {
      return Err(FrameTooBig);
    }
    return Ok(BigEndian(|out|) + out);
  }

  method PayloadDecode(kind: byte, buf: bytes, offset: nat, end: nat) returns (r: Result<(Payload, nat)>)
    ensures r == DecodePayload(kind, buf, offset, end)
  {
    hide DecodeEntries, DecodeMessages, DecodeActions, HelloFields, AgentHelloFields, DisconnectFields;
    if kind in {HAPROXY_HELLO, AGENT_HELLO, HAPROXY_DISCONNECT, AGENT_DISCONNECT} {
      var pairs :- DecodeKvList(buf, offset, end);
      var p :- if kind == HAPROXY_HELLO then HelloFields(pairs.0)
               else if kind == AGENT_HELLO then AgentHelloFields(pairs.0)
               else DisconnectFields(kind == AGENT_DISCONNECT, pairs.0);
      return Ok((p, pairs.1));
    } else if kind == NOTIFY {
      var ms :- DecodeListOfMessages(buf, offset, end);
      return Ok((Notify(ms.0), ms.1));
    } else if kind == ACK {
      var actions :- DecodeListOfActions(buf, offset, end);
      return Ok((Ack(actions.0), actions.1));
    }
    return Err(DecodeError);
  }

  method FrameDecode(stream: bytes, max: int) returns (r: Result<(Frame, nat)>)
    ensures r == DecodeFrame(stream, max)
  {
    hide DecodeMetadata, DecodePayload, FromBigEndian;
    if |stream| < 4 {
      return Err(EndOfStream);
    }
    var size := FromBigEndian(stream[..4]);
    if size > max {
      return Err(FrameTooBig);
    }
    if |stream| < 4 + size {
      return Err(DecodeError);
    }
    var buf := stream[4..4 + size];
    var offset := 0;
    if |buf| < offset + 1 {
      return Err(DecodeError);
    }
    var kind := buf[offset];
    offset := offset + 1;
    var meta :- DecodeMetadata(buf, offset);
    offset := meta.1;
    var payload :- PayloadDecode(kind, buf, offset, size);
    offset := payload.1;
    if offset != size {
      return Err(DecodeError);
    }
    return Ok((Frame(meta.0, payload.0), 4 + size));
  }
}
