/** The wire format in numbers (SPOE.txt v3.2.0, sections 3.1, 3.2 and 3.4): what each decoder makes
    of arbitrary bytes, and exactly what the encoders refuse. */
module WireFormat {
  import opened Results
  import opened Bytes
  import opened Varints
  import opened DataTypes
  import opened Payloads
  import opened SpopLists
  import opened Frames

  // ----- typed data -----

  /** `m` is `v` reduced to the range that starts at `low`. */
  predicate Reduced(m: int, v: int, low: int, modulus: nat)
    requires modulus > 0
  {
    low <= m < low + modulus && (m - v) % modulus == 0
  }

  /** The four integer types, by the low nibble of their type byte. */
  predicate ReducedBy(tag: nat, m: int, v: int) {
    match tag
    case 2 => Reduced(m, v, -0x8000_0000, 0x1_0000_0000)
    case 3 => Reduced(m, v, 0, 0x1_0000_0000)
    case 4 => Reduced(m, v, -0x8000_0000_0000_0000, 0x1_0000_0000_0000_0000)
    case 5 => Reduced(m, v, 0, 0x1_0000_0000_0000_0000)
    case _ => false
  }

  lemma IntegerOutcome(buf: bytes, offset: nat)
    requires offset < |buf| && 2 <= buf[offset] % 16 <= 5
    ensures var wire := ParseVarint(buf, offset + 1);
            match DecodeValue(buf, offset)
            case Err(e) => wire.Err? && e == DecodeError
            case Ok((v, end)) =>
              wire.Ok? && v.Int? && ReducedBy(buf[offset] % 16, v.n, wire.value.0) && end == wire.value.1
  {
    hide ParseVarint, Signed, Reduced;
    if ParseVarint(buf, offset + 1).Ok? {
      ReducedOutcome(buf, offset + 1);
    }
  }

  lemma ReducedOutcome(buf: bytes, offset: nat)
    requires ParseVarint(buf, offset).Ok?
    ensures var v := ParseVarint(buf, offset).value.0;
            && ReducedBy(2, DecodeInt32(buf, offset).value.0, v)
            && ReducedBy(3, DecodeUint32(buf, offset).value.0, v)
            && ReducedBy(4, DecodeInt64(buf, offset).value.0, v)
            && ReducedBy(5, DecodeUint64(buf, offset).value.0, v)
  {
    hide ParseVarint, Signed;
    TypedIntUnique(buf, offset, DecodeInt32(buf, offset).value.0);
    TypedIntUnique(buf, offset, DecodeUint32(buf, offset).value.0);
    TypedIntUnique(buf, offset, DecodeInt64(buf, offset).value.0);
    TypedIntUnique(buf, offset, DecodeUint64(buf, offset).value.0);
  }

  /** The types without a varint: the boolean in the high nibble, addresses of 4 and 16 bytes. */
  lemma FixedOutcome(buf: bytes, offset: nat)
    requires offset < |buf|
    ensures var tag := buf[offset] % 16;
            var start := offset + 1;
            && (tag == 0 ==> DecodeValue(buf, offset) == Ok((Null, start)))
            && (tag == 1 ==> DecodeValue(buf, offset) == Ok((Bool(16 <= buf[offset] < 32), start)))
            && (tag == 6 ==> DecodeValue(buf, offset) == if start + 4 > |buf| then Err(DecodeError)
                                                         else Ok((IPv4(buf[start..start + 4]), start + 4)))
            && (tag == 7 ==> DecodeValue(buf, offset) == if start + 16 > |buf| then Err(DecodeError)
                                                         else Ok((IPv6(buf[start..start + 16]), start + 16)))
            && (tag >= 10 ==> DecodeValue(buf, offset) == Err(DecodeError))
  {
    hide ParseVarint;
  }

  /** Text is one character for each byte. */
  predicate Spells(s: string, data: bytes) {
    |s| == |data| && forall i | 0 <= i < |s| :: s[i] as int == data[i]
  }

  /** Strings and binaries: a varint length, then as many bytes. */
  lemma SizedOutcome(buf: bytes, offset: nat)
    requires offset < |buf| && 8 <= buf[offset] % 16 <= 9
    ensures var size := ParseVarint(buf, offset + 1);
            if size.Err? || size.value.1 + size.value.0 > |buf| then DecodeValue(buf, offset) == Err(DecodeError)
            else
              var start, end := size.value.1, size.value.1 + size.value.0;
              match DecodeValue(buf, offset)
              case Err(_) => false
              case Ok((v, last)) =>
                && last == end
                && if buf[offset] % 16 == 8 then v.Str? && Spells(v.s, buf[start..end])
                   else v == Binary(buf[start..end])
  {
    hide ParseVarint;
  }

  /** What the `encode_dt_*` functions accept. */
  lemma IntegersEncodable(n: int)
    ensures EncodeInt32(n).Ok? <==> -0x8000_0000 <= n <= 0x7fff_ffff
    ensures EncodeUint32(n).Ok? <==> 0 <= n <= 0xffff_ffff
    ensures EncodeInt64(n).Ok? <==> -0x8000_0000_0000_0000 <= n <= 0x7fff_ffff_ffff_ffff
    ensures EncodeUint64(n).Ok? <==> 0 <= n <= 0xffff_ffff_ffff_ffff
  {
    hide Varint;
  }

  lemma ValuesEncodable(v: Value)
    ensures EncodeValue(v).Ok? <==> match v
                                    case Int(n) => -0x8000_0000_0000_0000 <= n <= 0x7fff_ffff_ffff_ffff
                                    case Str(s) => forall i | 0 <= i < |s| :: s[i] as int <= 255
                                    case _ => true
  {
    hide Varint;
  }

  // ----- lists -----

  /** The entries of `d` put into a dictionary, one after the other. */
  function PutAll(payload: Dict, d: seq<Entry>): Dict
    decreases |d|
  {
    if d == [] then payload else PutAll(Put(payload, d[0].key, d[0].value), d[1..])
  }

  /** Key-value lists may repeat a key: reading them assigns in order. */
  lemma {:induction false} EntriesAssign(d: seq<Entry>, payload: Dict, buf: bytes, offset: nat)
    requires EncodeEntries(d).Ok? && At(buf, offset, EncodeEntries(d).value)
    ensures var end := offset + |EncodeEntries(d).value|;
            DecodeEntries(buf, offset, end, payload) == Ok((PutAll(payload, d), end))
    decreases |d|
  {
    hide ParsePair, EncodePair, Put;
    if d != [] {
      var first, rest := EncodePair(d[0].key, d[0].value).value, EncodeEntries(d[1..]).value;
      AtSplit(buf, offset, first, rest);
      PairRoundTrip(d[0], buf, offset);
      EntriesAssign(d[1..], Put(payload, d[0].key, d[0].value), buf, offset + |first|);
    }
  }

  /** So the last value of a key is the one that counts. */
  lemma {:induction false} LastValueCounts(payload: Dict, d: seq<Entry>, key: string, i: nat)
    requires i < |d| && d[i].key == key && forall j | i < j < |d| :: d[j].key != key
    ensures Lookup(PutAll(payload, d), key) == Some(d[i].value)
    decreases |d|
  {
    hide Put, Lookup;
    PutLookup(payload, d[0].key, d[0].value, key);
    if i == 0 {
      OthersKeep(Put(payload, d[0].key, d[0].value), d[1..], key);
    } else {
      LastValueCounts(Put(payload, d[0].key, d[0].value), d[1..], key, i - 1);
    }
  }

  lemma {:induction false} OthersKeep(payload: Dict, d: seq<Entry>, key: string)
    requires forall j | 0 <= j < |d| :: d[j].key != key
    ensures Lookup(PutAll(payload, d), key) == Lookup(payload, key)
    decreases |d|
  {
    hide Put, Lookup;
    if d != [] {
      PutLookup(payload, d[0].key, d[0].value, key);
      OthersKeep(Put(payload, d[0].key, d[0].value), d[1..], key);
    }
  }

  /** Arguments of a message may not: a repeated one is refused. */
  lemma {:induction false} RepeatedArgRefused(d: seq<Entry>, args: Dict, buf: bytes, offset: nat)
    requires !DistinctKeys(args + d)
    requires EncodeEntries(d).Ok? && At(buf, offset, EncodeEntries(d).value)
    ensures DecodeArgs(buf, offset, |d|, args) == Err(DecodeError)
    decreases |d|
  {
    hide ParsePair, EncodePair;
    if d != [] {
      var first, rest := EncodePair(d[0].key, d[0].value).value, EncodeEntries(d[1..]).value;
      AtSplit(buf, offset, first, rest);
      PairRoundTrip(d[0], buf, offset);
      if !HasKey(args, d[0].key) {
        assert args + [d[0]] + d[1..] == args + d;
        RepeatedArgRefused(d[1..], args + [d[0]], buf, offset + |first|);
      }
    }
  }

  /** A message is refused for its name, for more than 255 arguments, or for one of them. */
  lemma MessagesEncodable(m: Message)
    ensures EncodeMessage(m).Ok? <==>
            && IsLatin1(m.name)
            && |m.args| <= 255
            && forall i | 0 <= i < |m.args| :: IsLatin1(m.args[i].key) && EncodeValue(m.args[i].value).Ok?
  {
    hide EncodeValue;
    EntriesEncodable(m.args);
  }

  lemma {:induction false} EntriesEncodable(d: seq<Entry>)
    ensures EncodeEntries(d).Ok? <==>
            forall i | 0 <= i < |d| :: IsLatin1(d[i].key) && EncodeValue(d[i].value).Ok?
  {
    hide EncodeValue, IsLatin1;
    if d != [] {
      EntriesEncodable(d[1..]);
      assert forall i | 0 < i < |d| :: d[i] == d[1..][i - 1];
    }
  }

  lemma ActionsEncodable(a: Action)
    ensures EncodeAction(a).Ok? <==> IsLatin1(a.name) && (a.SetVar? ==> EncodeValue(a.value).Ok?)
  {
    hide EncodeValue;
  }

  function ScopeAt(n: nat): Scope
    requires n <= 4
  {
    match n
    case 0 => Process
    case 1 => Session
    case 2 => Transaction
    case 3 => Request
    case _ => Response
  }

  /** An action: type 1 or 2, with 3 or 2 arguments, a scope from 0 to 4, and a pair or a name. */
  lemma ActionOutcome(buf: bytes, offset: nat)
    ensures if offset + 3 > |buf| || buf[offset + 2] > 4 then DecodeAction(buf, offset) == Err(DecodeError)
            else
              var scope := ScopeAt(buf[offset + 2]);
              match (buf[offset], buf[offset + 1])
              case (1, 3) =>
                var pair := ParsePair(buf, offset + 3);
                DecodeAction(buf, offset) == if pair.Err? then Err(DecodeError)
                  else Ok((SetVar(scope, pair.value.0.key, pair.value.0.value), pair.value.1))
              case (2, 2) =>
                var name := DecodeString(buf, offset + 3);
                DecodeAction(buf, offset) == if name.Err? then Err(DecodeError)
                  else Ok((UnsetVar(scope, name.value.0), name.value.1))
              case _ => DecodeAction(buf, offset) == Err(DecodeError)
  {
    hide ParsePair, DecodeString;
  }

  // ----- metadata and frames -----

  /** Only two bits of the four flag bytes are read; the ids are two signed 64-bit varints. */
  lemma MetadataOutcome(buf: bytes, offset: nat)
    ensures match DecodeMetadata(buf, offset)
            case Err(e) =>
              && e == DecodeError
              && (|buf| < offset + 4 || ParseVarint(buf, offset + 4).Err?
                  || ParseVarint(buf, ParseVarint(buf, offset + 4).value.1).Err?)
            case Ok((m, end)) =>
              && offset + 4 <= |buf|
              && m.flags.fin == (buf[offset + 3] % 2 == 1)
              && m.flags.abort == (buf[offset + 3] / 2 % 2 == 1)
              && var first := ParseVarint(buf, offset + 4);
                 first.Ok? && ReducedBy(4, m.streamId, first.value.0)
                 && var second := ParseVarint(buf, first.value.1);
                    second.Ok? && ReducedBy(4, m.frameId, second.value.0) && end == second.value.1
  {
    hide ParseVarint, Signed, Reduced;
    if offset + 4 <= |buf| && ParseVarint(buf, offset + 4).Ok? {
      ReducedOutcome(buf, offset + 4);
      var mid := ParseVarint(buf, offset + 4).value.1;
      if ParseVarint(buf, mid).Ok? {
        ReducedOutcome(buf, mid);
      }
    }
  }

  /** The type byte of each kind of frame. */
  predicate HasType(p: Payload, kind: nat) {
    match kind
    case 1 => p.HaproxyHello?
    case 2 => p.Disconnect? && !p.fromAgent
    case 3 => p.Notify?
    case 101 => p.AgentHello?
    case 102 => p.Disconnect? && p.fromAgent
    case 103 => p.Ack?
    case _ => false
  }

  lemma TypeOutcome(buf: bytes)
    requires DecodeBody(buf).Ok?
    ensures buf != [] && HasType(DecodeBody(buf).value.payload, buf[0])
  {
    hide DecodeMetadata, DecodeEntries, DecodeMessages, DecodeActions, HelloFields, AgentHelloFields, DisconnectFields;
  }

  /** The big-endian number in the first four bytes. */
  function Announced(stream: bytes): nat
    requires |stream| >= 4
  {
    stream[0] as int * 0x100_0000 + stream[1] as int * 0x1_0000 + stream[2] as int * 0x100 + stream[3]
  }

  /** In this order: no whole prefix, a size beyond the maximum, a frame cut short, and then what
      the body decodes to. */
  lemma FrameOutcome(stream: bytes, max: int)
    ensures if |stream| < 4 then DecodeFrame(stream, max) == Err(EndOfStream)
            else if Announced(stream) > max then DecodeFrame(stream, max) == Err(FrameTooBig)
            else if |stream| < 4 + Announced(stream) then DecodeFrame(stream, max) == Err(DecodeError)
            else match DecodeBody(stream[4..4 + Announced(stream)])
                 case Err(e) => DecodeFrame(stream, max) == Err(e) && (e == DecodeError || e == TypeFault)
                 case Ok(f) => DecodeFrame(stream, max) == Ok((f, 4 + Announced(stream)))
  {
    hide DecodeBody;
    if |stream| >= 4 {
      assert stream[..4][0] == stream[0] && stream[..4][1] == stream[1];
      assert stream[..4][2] == stream[2] && stream[..4][3] == stream[3];
    }
  }

  /** A body of 2^32 bytes is an encode error, a smaller one beyond the maximum too big; every other
      goes out behind its length. */
  lemma EncodeOutcome(f: Frame, max: int)
    ensures var body := EncodeBody(f);
            if body.Err? || |body.value| > 0xffff_ffff then EncodeFrame(f, max) == Err(EncodeError)
            else if |body.value| > max then EncodeFrame(f, max) == Err(FrameTooBig)
            else
              var code := EncodeFrame(f, max);
              code.Ok? && |code.value| == 4 + |body.value|
              && code.value[4..] == body.value && Announced(code.value) == |body.value|
              && body.value != [] && HasType(f.payload, body.value[0])
  {
    hide EncodeMetadata, EncodePayload;
    if EncodeFrame(f, max).Ok? {
      BigEndianRoundTrip(|EncodeBody(f).value|);
    }
  }

  // ----- the fields of HELLO and DISCONNECT -----

  predicate IsText(v: Option<Value>) {
    v.Some? && v.value.Str?
  }

  /** HAPROXY_HELLO needs three keys, two of them lists; a missing engine id is null, a missing
      healthcheck false. A key that is absent counts before a list that is no text. */
  lemma HelloOutcome(d: Dict)
    ensures var versions, size, caps :=
              Lookup(d, "supported-versions"), Lookup(d, "max-frame-size"), Lookup(d, "capabilities");
            var engine, check := Lookup(d, "engine-id"), Lookup(d, "healthcheck");
            match HelloFields(d)
            case Ok(p) =>
              && IsText(versions) && size.Some? && IsText(caps) && p.HaproxyHello?
              && p.versions == FromList(versions.value.s)
              && p.maxFrameSize == size.value
              && p.capabilities == FromList(caps.value.s)
              && p.engineId == (if engine.Some? then engine.value else Null)
              && p.healthcheck == (if check.Some? then check.value else Bool(false))
            case Err(e) =>
              && !(IsText(versions) && size.Some? && IsText(caps))
              && e == if versions == None || (IsText(versions) && (size == None || caps == None)) then DecodeError
                      else TypeFault
  {
    hide FromList, Lookup;
  }

  lemma AgentHelloOutcome(d: Dict)
    ensures var version, size, caps := Lookup(d, "version"), Lookup(d, "max-frame-size"), Lookup(d, "capabilities");
            match AgentHelloFields(d)
            case Ok(p) =>
              && version.Some? && size.Some? && IsText(caps)
              && p == AgentHello(version.value, size.value, FromList(caps.value.s))
            case Err(e) =>
              && !(version.Some? && size.Some? && IsText(caps))
              && e == if version == None || size == None || caps == None then DecodeError else TypeFault
  {
    hide FromList, Lookup;
  }

  lemma DisconnectOutcome(d: Dict, fromAgent: bool)
    ensures var code, message := Lookup(d, "status-code"), Lookup(d, "message");
            DisconnectFields(fromAgent, d)
            == if code == None || message == None then Err(DecodeError)
               else Ok(Disconnect(fromAgent, code.value, message.value))
  {
    hide Lookup;
  }
}
