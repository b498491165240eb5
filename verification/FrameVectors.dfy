/** Concrete frames whose payload is a key-value list: HELLO and DISCONNECT. */
module FrameVectors {
  import opened Results
  import opened Bytes
  import opened Varints
  import opened DataTypes
  import opened Payloads
  import opened SpopLists
  import opened Frames
  import opened WireFormat
  import opened Vectors

  // ----- lists of a few pairs -----

  function Code(e: Entry): bytes {
    var r := EncodePair(e.key, e.value);
    if r.Ok? then r.value else []
  }

  predicate Encodes(e: Entry) {
    EncodePair(e.key, e.value).Ok?
  }

  lemma {:induction false} EntriesConcat(a: seq<Entry>, b: seq<Entry>)
    requires EncodeEntries(a).Ok? && EncodeEntries(b).Ok?
    ensures EncodeEntries(a + b).Ok? && EncodeEntries(a + b).value == EncodeEntries(a).value + EncodeEntries(b).value
  {
    hide EncodePair;
    if a == [] {
      assert a + b == b;
    } else {
      assert (a + b)[1..] == a[1..] + b;
      EntriesConcat(a[1..], b);
    }
  }

  lemma OneEntry(e: Entry)
    requires Encodes(e)
    ensures Yields(EncodeEntries([e]), Code(e))
  {
    hide EncodePair;
    assert [e][1..] == [];
  }

  lemma TwoEntries(a: Entry, b: Entry)
    requires Encodes(a) && Encodes(b)
    ensures Yields(EncodeEntries([a, b]), Code(a) + Code(b))
  {
    hide EncodePair, EncodeEntries;
    OneEntry(a);
    OneEntry(b);
    EntriesConcat([a], [b]);
    assert [a] + [b] == [a, b];
  }

  lemma ThreeEntries(a: Entry, b: Entry, c: Entry)
    requires Encodes(a) && Encodes(b) && Encodes(c)
    ensures Yields(EncodeEntries([a, b, c]), Code(a) + Code(b) + Code(c))
  {
    hide EncodePair, EncodeEntries;
    TwoEntries(a, b);
    OneEntry(c);
    EntriesConcat([a, b], [c]);
    assert [a, b] + [c] == [a, b, c];
  }

  // ----- HELLO -----

  function VersionsCode(): bytes {
    Text("supported-versions") + ([8] + Text("2.0"))
  }

  function SizeCode(): bytes {
    Text("max-frame-size") + [4, 0xfc, 0xf0, 0x06]
  }

  function CapabilitiesCode(): bytes {
    Text("capabilities") + ([8] + Text("pipelining"))
  }

  lemma HelloPairs()
    ensures Yields(EncodePair("supported-versions", Str("2.0")), VersionsCode())
    ensures Yields(EncodePair("max-frame-size", Int(16380)), SizeCode())
    ensures Yields(EncodePair("capabilities", Str("pipelining")), CapabilitiesCode())
  {
    hide EncodePair, Varint;
    TextPair("supported-versions", "2.0");
    NumberPair("max-frame-size", 16380);
    SizeVectors();
    assert [4] + [0xfc, 0xf0, 0x06] == [4, 0xfc, 0xf0, 0x06];
    TextPair("capabilities", "pipelining");
  }

  function RequiredEntries(): Dict {
    [Entry("supported-versions", Str("2.0")), Entry("max-frame-size", Int(16380)),
     Entry("capabilities", Str("pipelining"))]
  }

  lemma RequiredVector()
    ensures Yields(EncodeEntries(RequiredEntries()), VersionsCode() + SizeCode() + CapabilitiesCode())
  {
    hide EncodePair, EncodeEntries, VersionsCode, SizeCode, CapabilitiesCode;
    HelloPairs();
    var d := RequiredEntries();
    ThreeEntries(d[0], d[1], d[2]);
  }

  lemma BodyVector(f: Frame, kind: byte, payload: bytes)
    requires f.meta == Metadata(Flags(true, false), 0, 0) && FrameType(f.payload) == kind
    requires Yields(EncodePayload(f.payload), payload)
    ensures Yields(EncodeBody(f), [kind, 0, 0, 0, 1, 0, 0] + payload)
  {
    hide EncodePayload, FrameType;
    assert EncodeMetadata(f.meta).value == [0, 0, 0, 1, 0, 0];
    assert [kind] + ([0, 0, 0, 1, 0, 0] + payload) == [kind, 0, 0, 0, 1, 0, 0] + payload;
  }

  function OptionalCode(): bytes {
    Text("healthcheck") + [0x11] + (Text("engine-id") + ([8] + Text("e")))
  }

  function OptionalEntries(): Dict {
    [Entry("healthcheck", Bool(true)), Entry("engine-id", Str("e"))]
  }

  lemma OptionalVector()
    ensures Yields(EncodeEntries(OptionalEntries()), OptionalCode())
  {
    hide EncodePair, EncodeEntries, Text;
    FlagPair("healthcheck", true);
    TextPair("engine-id", "e");
    TwoEntries(OptionalEntries()[0], OptionalEntries()[1]);
  }

  function FullHello(): Payload {
    HaproxyHello(["2.0"], Int(16380), ["pipelining"], Str("e"), Bool(true))
  }

  lemma FullEntries()
    ensures HelloEntries(FullHello()) == RequiredEntries() + OptionalEntries()
  {
    hide ToList;
    ListVectors();
  }

  lemma FullPayload()
    ensures Yields(EncodePayload(FullHello()), VersionsCode() + SizeCode() + CapabilitiesCode() + OptionalCode())
  {
    hide EncodeEntries, HelloEntries, RequiredEntries, OptionalEntries, VersionsCode, SizeCode, CapabilitiesCode,
         OptionalCode;
    RequiredVector();
    OptionalVector();
    FullEntries();
    EntriesConcat(RequiredEntries(), OptionalEntries());
  }

  /** A HELLO with every key: type 1, FIN, ids 0, and the five pairs. */
  lemma HelloVector()
    ensures Yields(EncodeBody(Construct(0, 0, FullHello())),
                   [1, 0, 0, 0, 1, 0, 0] + (VersionsCode() + SizeCode() + CapabilitiesCode() + OptionalCode()))
  {
    hide EncodePayload, VersionsCode, SizeCode, CapabilitiesCode, OptionalCode;
    FullPayload();
    BodyVector(Construct(0, 0, FullHello()), 1, VersionsCode() + SizeCode() + CapabilitiesCode() + OptionalCode());
  }

  function ShortHello(): bytes {
    [1, 0, 0, 0, 1, 0, 0] + (VersionsCode() + SizeCode() + CapabilitiesCode())
  }

  lemma ShortFields()
    ensures HelloFields(RequiredEntries())
            == Ok(HaproxyHello(["2.0"], Int(16380), ["pipelining"], Null, Bool(false)))
  {
    hide FromList, HelloFields, Lookup;
    ListVectors();
    var d := RequiredEntries();
    LookupAt(d, 0);
    LookupAt(d, 1);
    LookupAt(d, 2);
    Absent(d);
    HelloOutcome(d);
  }

  lemma ShortPayload(buf: bytes)
    requires buf == ShortHello()
    ensures DecodePayload(1, buf, 7, |buf|)
            == Ok((HaproxyHello(["2.0"], Int(16380), ["pipelining"], Null, Bool(false)), |buf|))
  {
    hide EncodeEntries, DecodeEntries, RequiredEntries, VersionsCode, SizeCode, CapabilitiesCode, HelloFields;
    RequiredVector();
    ShortFields();
    var d := RequiredEntries();
    assert buf[7..] == EncodeEntries(d).value;
    assert [] + d == d;
    EntriesRoundTrip(d, [], buf, 7);
  }

  /** A HELLO without the optional keys is no healthcheck and has no engine. */
  lemma ShortHelloVector()
    ensures DecodeBody(ShortHello())
            == Ok(Frame(Metadata(Flags(true, false), 0, 0),
                        HaproxyHello(["2.0"], Int(16380), ["pipelining"], Null, Bool(false))))
  {
    hide DecodePayload, DecodeMetadata, VersionsCode, SizeCode, CapabilitiesCode;
    var buf := ShortHello();
    assert buf[1..7] == [0, 0, 0, 1, 0, 0] && buf[0] == 1;
    ZeroMetadata(buf);
    ShortPayload(buf);
  }

  lemma ZeroMetadata(buf: bytes)
    requires |buf| >= 7 && buf[1..7] == [0, 0, 0, 1, 0, 0]
    ensures DecodeMetadata(buf, 1) == Ok((Metadata(Flags(true, false), 0, 0), 7))
  {
    assert buf[4] == buf[1..7][3] && buf[5] == buf[1..7][4] && buf[6] == buf[1..7][5];
  }

  lemma Absent(d: Dict)
    requires d == RequiredEntries()
    ensures Lookup(d, "engine-id") == None && Lookup(d, "healthcheck") == None
  {
    assert |"supported-versions"| == 18 && |"max-frame-size"| == 14 && |"capabilities"| == 12;
    assert |"engine-id"| == 9 && |"healthcheck"| == 11;
    assert !HasKey(d, "engine-id") && !HasKey(d, "healthcheck");
  }

  function AgentCode(): bytes {
    Text("version") + ([8] + Text("2.0")) + SizeCode() + CapabilitiesCode()
  }

  function SentHello(): Payload {
    AgentHello(Str("2.0"), Int(16380), ["pipelining"])
  }

  lemma AgentPairs(d: Dict)
    requires |d| == 3 && d == AgentHelloEntries(SentHello())
    ensures d[0] == Entry("version", Str("2.0")) && d[1] == Entry("max-frame-size", Int(16380))
    ensures d[2] == Entry("capabilities", Str("pipelining"))
  {
    hide ToList;
    ListVectors();
  }

  lemma AgentPayload()
    ensures Yields(EncodePayload(SentHello()), AgentCode())
  {
    hide EncodePair, EncodeEntries, SizeCode, CapabilitiesCode, VersionsCode, Text, ToList;
    HelloPairs();
    TextPair("version", "2.0");
    var d := AgentHelloEntries(SentHello());
    AgentPairs(d);
    ThreeEntries(d[0], d[1], d[2]);
    assert d == [d[0], d[1], d[2]];
  }

  /** AGENT_HELLO as the agent sends it: type 101. */
  lemma AgentHelloVector()
    ensures Yields(EncodeBody(Construct(0, 0, SentHello())), [101, 0, 0, 0, 1, 0, 0] + AgentCode())
  {
    hide EncodePayload, AgentCode;
    AgentPayload();
    BodyVector(Construct(0, 0, SentHello()), 101, AgentCode());
  }

  // ----- DISCONNECT -----

  function DisconnectCode(code: nat): bytes {
    Text("status-code") + ([4] + Varint(code)) + (Text("message") + ([8] + Text("bye")))
  }

  lemma DisconnectPairs(code: nat)
    requires code < TWO_TO_63
    ensures var d := DisconnectEntries(Disconnect(true, Int(code), Str("bye")));
            Yields(EncodeEntries(d), DisconnectCode(code))
  {
    hide EncodePair, EncodeEntries, Text, Varint;
    NumberPair("status-code", code);
    TextPair("message", "bye");
    var d := DisconnectEntries(Disconnect(true, Int(code), Str("bye")));
    TwoEntries(d[0], d[1]);
  }

  /** A whole AGENT_DISCONNECT, type 102, and its counterpart from HAProxy, type 2. */
  lemma DisconnectVectors()
    ensures var f := Construct(0, 0, Disconnect(true, Int(102), Str("bye")));
            Yields(EncodeFrame(f, 34), [0, 0, 0, 34, 102, 0, 0, 0, 1, 0, 0]
                                       + (Text("status-code") + [4, 102] + (Text("message") + ([8] + Text("bye")))))
    ensures var f := Construct(0, 0, Disconnect(false, Int(0), Str("bye")));
            Yields(EncodeBody(f), [2, 0, 0, 0, 1, 0, 0]
                                  + (Text("status-code") + [4, 0] + (Text("message") + ([8] + Text("bye")))))
  {
    hide EncodePair, EncodeEntries, BigEndian;
    assert [4] + Varint(102) == [4, 102] && [4] + Varint(0) == [4, 0];
    DisconnectPairs(102);
    DisconnectPairs(0);
    BodyVector(Construct(0, 0, Disconnect(true, Int(102), Str("bye"))), 102, DisconnectCode(102));
    BodyVector(Construct(0, 0, Disconnect(false, Int(0), Str("bye"))), 2, DisconnectCode(0));
    assert BigEndian(34) == [0, 0, 0, 34] by {
      Prefix34();
    }
    assert [0, 0, 0, 34] + ([102, 0, 0, 0, 1, 0, 0] + DisconnectCode(102))
        == [0, 0, 0, 34, 102, 0, 0, 0, 1, 0, 0] + DisconnectCode(102);
  }

  lemma Prefix34()
    ensures BigEndian(34) == [0, 0, 0, 34]
  {
  }
}
