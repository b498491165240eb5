/** Frame metadata and the three list payloads (SPOE.txt v3.2.0, sections 3.2 and 3.4). */
module Payloads {
  import opened Results
  import opened Bytes
  import opened Varints
  import opened DataTypes

  // ----- dictionaries, in insertion order -----

  datatype Entry = Entry(key: string, value: Value)

  predicate DistinctKeys(d: seq<Entry>) {
    forall i, j | 0 <= i < j < |d| :: d[i].key != d[j].key
  }

  type Dict = d: seq<Entry> | DistinctKeys(d) witness []

  predicate HasKey(d: seq<Entry>, key: string) {
    exists i | 0 <= i < |d| :: d[i].key == key
  }

  function Lookup(d: seq<Entry>, key: string): (r: Option<Value>)
    ensures r.Some? <==> HasKey(d, key)
  {
    if d == [] then None
    else if d[0].key == key then Some(d[0].value)
    else
      assert HasKey(d[1..], key) ==> HasKey(d, key);
      Lookup(d[1..], key)
  }

  /** `payload[key] = value`: a known key keeps its place. */
  function Put(d: Dict, key: string, value: Value): (r: Dict)
    ensures !HasKey(d, key) ==> r == d + [Entry(key, value)]
  {
    if HasKey(d, key) then
      var i :| 0 <= i < |d| && d[i].key == key;
      var r := d[i := Entry(key, value)];
      assert forall j | 0 <= j < |d| :: r[j].key == d[j].key;
      r
    else d + [Entry(key, value)]
  }

  /** Assignment changes what one key maps to, and nothing else. */
  lemma PutLookup(d: Dict, key: string, value: Value, k: string)
    ensures Lookup(Put(d, key, value), k) == if k == key then Some(value) else Lookup(d, k)
  {
    if HasKey(d, key) {
      var i :| 0 <= i < |d| && d[i].key == key;
      LookupUpdate(d, i, value, k);
    } else {
      LookupAppend(d, key, value, k);
    }
  }

  lemma {:induction false} LookupAppend(d: seq<Entry>, key: string, value: Value, k: string)
    requires !HasKey(d, key)
    ensures Lookup(d + [Entry(key, value)], k) == if k == key then Some(value) else Lookup(d, k)
  {
    if d != [] {
      assert (d + [Entry(key, value)])[1..] == d[1..] + [Entry(key, value)];
      assert d[0].key != key;
      LookupAppend(d[1..], key, value, k);
    }
  }

  lemma {:induction false} LookupUpdate(d: Dict, i: nat, value: Value, k: string)
    requires i < |d|
    ensures Lookup(d[i := Entry(d[i].key, value)], k) == if k == d[i].key then Some(value) else Lookup(d, k)
  {
    var r := d[i := Entry(d[i].key, value)];
    if i == 0 {
      assert r[1..] == d[1..];
    } else {
      assert r[1..] == d[1..][i - 1 := Entry(d[i].key, value)];
      assert d[0].key != d[i].key;
      LookupUpdate(d[1..], i - 1, value, k);
    }
  }

  lemma {:induction false} LookupAt(d: Dict, i: nat)
    requires i < |d|
    ensures Lookup(d, d[i].key) == Some(d[i].value)
  {
    if i > 0 {
      LookupAt(d[1..], i - 1);
    }
  }

  // ----- key-value pairs -----

  function EncodePair(key: string, value: Value): (r: Result<bytes>)
    ensures r.Ok? <==> IsLatin1(key) && EncodeValue(value).Ok?
    ensures r.Ok? ==> |r.value| >= 2
    ensures r.Err? ==> r.error == EncodeError
  {
    var k :- EncodeString(key);
    var v :- EncodeValue(value);
    Ok(k + v)
  }

  function ParsePair(buf: bytes, offset: nat): (r: Result<(Entry, nat)>)
    ensures r.Ok? ==> offset + 2 <= r.value.1 <= |buf|
    ensures r.Err? ==> r.error == DecodeError
  {
    var (key, mid) :- DecodeString(buf, offset);
    var (value, end) :- DecodeValue(buf, mid);
    Ok((Entry(key, value), end))
  }

  lemma PairRoundTrip(e: Entry, buf: bytes, offset: nat)
    requires EncodePair(e.key, e.value).Ok?
    requires At(buf, offset, EncodePair(e.key, e.value).value)
    ensures ParsePair(buf, offset) == Ok((e, offset + |EncodePair(e.key, e.value).value|))
  {
    hide DecodeString, DecodeValue, EncodeString, EncodeValue;
    var k, v := EncodeString(e.key).value, EncodeValue(e.value).value;
    AtSplit(buf, offset, k, v);
    StringRoundTrip(e.key, buf, offset);
    ValueRoundTrip(e.value, buf, offset + |k|);
  }

  lemma PairLocal(buf: bytes, offset: nat, other: bytes, at: nat)
    requires ParsePair(buf, offset).Ok?
    requires At(other, at, buf[offset..ParsePair(buf, offset).value.1])
    ensures var (e, end) := ParsePair(buf, offset).value;
            ParsePair(other, at) == Ok((e, at + (end - offset)))
  {
    hide DecodeString, DecodeValue;
    var (key, mid) := DecodeString(buf, offset).value;
    var (e, end) := ParsePair(buf, offset).value;
    AtWindow(other, at, buf, offset, mid, end);
    StringLocal(buf, offset, other, at);
    ValueLocal(buf, mid, other, at + (mid - offset));
  }

  // ----- key-value lists -----

  /** Bytes already written, followed by the outcome of writing the rest. */
  function Prepend(out: bytes, rest: Result<bytes>): Result<bytes> {
    match rest
    case Ok(b) => Ok(out + b)
    case Err(e) => Err(e)
  }

  lemma PrependNothing(rest: Result<bytes>)
    ensures Prepend([], rest) == rest
  {
    assert rest.Ok? ==> [] + rest.value == rest.value;
  }

  function EncodeEntries(d: seq<Entry>): (r: Result<bytes>)
    ensures r.Err? ==> r.error == EncodeError
  {
    if d == [] then Ok([]) else
    var first :- EncodePair(d[0].key, d[0].value);
    var rest :- EncodeEntries(d[1..]);
    Ok(first + rest)
  }

  function DecodeEntries(buf: bytes, offset: nat, end: nat, payload: Dict): (r: Result<(Dict, nat)>)
    ensures r.Ok? ==> r.value.1 >= end && r.value.1 >= offset
    ensures r.Ok? && offset <= |buf| ==> r.value.1 <= |buf|
    ensures r.Err? ==> r.error == DecodeError
    decreases |buf| - offset
  {
    if offset >= end then Ok((payload, offset)) else
    var (e, next) :- ParsePair(buf, offset);
    DecodeEntries(buf, next, end, Put(payload, e.key, e.value))
  }

  lemma {:induction false} EntriesRoundTrip(d: seq<Entry>, payload: Dict, buf: bytes, offset: nat)
    requires DistinctKeys(payload + d)
    requires EncodeEntries(d).Ok? && At(buf, offset, EncodeEntries(d).value)
    ensures var end := offset + |EncodeEntries(d).value|;
            DecodeEntries(buf, offset, end, payload) == Ok((payload + d, end))
    decreases |d|
  {
    hide ParsePair, EncodePair, Put;
    if d == [] {
      assert payload + d == payload;
    } else {
      var first, rest := EncodePair(d[0].key, d[0].value).value, EncodeEntries(d[1..]).value;
      AtSplit(buf, offset, first, rest);
      PairRoundTrip(d[0], buf, offset);
      assert (payload + d)[|payload|] == d[0];
      assert forall i | 0 <= i < |payload| :: (payload + d)[i] == payload[i];
      assert !HasKey(payload, d[0].key);
      assert payload + [d[0]] + d[1..] == payload + d;
      EntriesRoundTrip(d[1..], payload + [d[0]], buf, offset + |first|);
    }
  }

  method EncodeKvList(payload: seq<Entry>) returns (r: Result<bytes>)
    ensures r == EncodeEntries(payload)
  {
    hide EncodePair;
    var out: bytes := [];
    PrependNothing(EncodeEntries(payload));
    assert payload[0..] == payload;
    for i := 0 to |payload|
      invariant EncodeEntries(payload) == Prepend(out, EncodeEntries(payload[i..]))
    {
      var pair := EncodePair(payload[i].key, payload[i].value);
      assert payload[i..][1..] == payload[i + 1..];
      if pair.Err? {
        return Err(EncodeError);
      }
      ghost var rest := EncodeEntries(payload[i + 1..]);
      assert rest.Ok? ==> out + (pair.value + rest.value) == (out + pair.value) + rest.value;
      out := out + pair.value;
    }
    assert out + [] == out;
    return Ok(out);
  }

  method DecodeKvList(buf: bytes, start: nat, end: nat) returns (r: Result<(Dict, nat)>)
    ensures r == DecodeEntries(buf, start, end, [])
  {
    hide ParsePair, Put;
    var payload: Dict := [];
    var offset := start;
    while offset < end
      invariant DecodeEntries(buf, start, end, []) == DecodeEntries(buf, offset, end, payload)
      decreases |buf| - offset
    {
      var pair :- ParsePair(buf, offset);
      payload := Put(payload, pair.0.key, pair.0.value);
      offset := pair.1;
    }
    return Ok((payload, offset));
  }

  // ----- messages -----

  datatype Message = Message(name: string, args: Dict)

  function EncodeMessage(m: Message): (r: Result<bytes>)
    ensures r.Ok? ==> |r.value| >= 2
    ensures r.Err? ==> r.error == EncodeError
  {
    if |m.args| > 255 then Err(EncodeError) else
    var name :- EncodeString(m.name);
    var args :- EncodeEntries(m.args);
    Ok(name + ([|m.args|] + args))
  }

  function EncodeMessages(ms: seq<Message>): (r: Result<bytes>)
    ensures r.Err? ==> r.error == EncodeError
  {
    if ms == [] then Ok([]) else
    var first :- EncodeMessage(ms[0]);
    var rest :- EncodeMessages(ms[1..]);
    Ok(first + rest)
  }

  /** Exactly `count` pairs, each under a new key. */
  function DecodeArgs(buf: bytes, offset: nat, count: nat, args: Dict): (r: Result<(Dict, nat)>)
    ensures r.Ok? ==> offset + 2 * count <= r.value.1 && |r.value.0| == |args| + count
    ensures r.Ok? && offset <= |buf| ==> r.value.1 <= |buf|
    ensures r.Err? ==> r.error == DecodeError
    decreases count
  {
    if count == 0 then Ok((args, offset)) else
    var (e, next) :- ParsePair(buf, offset);
    if HasKey(args, e.key) then Err(DecodeError)
    else DecodeArgs(buf, next, count - 1, args + [e])
  }

  function DecodeMessage(buf: bytes, offset: nat): (r: Result<(Message, nat)>)
    ensures r.Ok? ==> offset + 2 + 2 * |r.value.0.args| <= r.value.1 <= |buf|
    ensures r.Err? ==> r.error == DecodeError
  {
    var (name, mid) :- DecodeString(buf, offset);
    var (count, start) :- DecodeTinyInt(buf, mid);
    var (args, end) :- DecodeArgs(buf, start, count, []);
    Ok((Message(name, args), end))
  }

  function DecodeMessages(buf: bytes, offset: nat, end: nat): (r: Result<(seq<Message>, nat)>)
    ensures r.Ok? ==> r.value.1 >= end && offset + 2 * Weight(r.value.0) <= r.value.1
    ensures r.Ok? && offset <= |buf| ==> r.value.1 <= |buf|
    ensures r.Err? ==> r.error == DecodeError
    decreases |buf| - offset
  {
    if offset >= end then Ok(([], offset)) else
    var (m, next) :- DecodeMessage(buf, offset);
    var (ms, last) :- DecodeMessages(buf, next, end);
    assert ([m] + ms)[1..] == ms;
    Ok(([m] + ms, last))
  }

  /** The number of messages plus the number of their arguments. */
  function Weight(ms: seq<Message>): nat {
    if ms == [] then 0 else 1 + |ms[0].args| + Weight(ms[1..])
  }

  lemma {:induction false} ArgsRoundTrip(d: seq<Entry>, args: Dict, buf: bytes, offset: nat)
    requires DistinctKeys(args + d)
    requires EncodeEntries(d).Ok? && At(buf, offset, EncodeEntries(d).value)
    ensures DecodeArgs(buf, offset, |d|, args) == Ok((args + d, offset + |EncodeEntries(d).value|))
    decreases |d|
  {
    hide ParsePair, EncodePair;
    if d == [] {
      assert args + d == args;
    } else {
      var first, rest := EncodePair(d[0].key, d[0].value).value, EncodeEntries(d[1..]).value;
      AtSplit(buf, offset, first, rest);
      PairRoundTrip(d[0], buf, offset);
      assert (args + d)[|args|] == d[0];
      assert forall i | 0 <= i < |args| :: (args + d)[i] == args[i];
      assert !HasKey(args, d[0].key);
      assert args + [d[0]] + d[1..] == args + d;
      ArgsRoundTrip(d[1..], args + [d[0]], buf, offset + |first|);
    }
  }

  lemma MessageRoundTrip(m: Message, buf: bytes, offset: nat)
    requires EncodeMessage(m).Ok? && At(buf, offset, EncodeMessage(m).value)
    ensures DecodeMessage(buf, offset) == Ok((m, offset + |EncodeMessage(m).value|))
  {
    hide DecodeString, DecodeArgs, EncodeString, EncodeEntries;
    var name, args := EncodeString(m.name).value, EncodeEntries(m.args).value;
    AtSplit(buf, offset, name, [|m.args|] + args);
    AtHead(buf, offset + |name|, |m.args|, args);
    StringRoundTrip(m.name, buf, offset);
    assert [] + m.args == m.args;
    ArgsRoundTrip(m.args, [], buf, offset + |name| + 1);
  }

  lemma {:induction false} MessagesRoundTrip(ms: seq<Message>, buf: bytes, offset: nat)
    requires EncodeMessages(ms).Ok? && At(buf, offset, EncodeMessages(ms).value)
    ensures var end := offset + |EncodeMessages(ms).value|;
            DecodeMessages(buf, offset, end) == Ok((ms, end))
    decreases |ms|
  {
    hide DecodeMessage, EncodeMessage;
    if ms != [] {
      var first, rest := EncodeMessage(ms[0]).value, EncodeMessages(ms[1..]).value;
      AtSplit(buf, offset, first, rest);
      MessageRoundTrip(ms[0], buf, offset);
      MessagesRoundTrip(ms[1..], buf, offset + |first|);
      assert [ms[0]] + ms[1..] == ms;
    }
  }

  method EncodeMessageList(messages: seq<Message>) returns (r: Result<bytes>)
    ensures r == EncodeMessages(messages)
  {
    hide EncodeString, EncodeEntries;
    var out: bytes := [];
    PrependNothing(EncodeMessages(messages));
    assert messages[0..] == messages;
    for i := 0 to |messages|
      invariant EncodeMessages(messages) == Prepend(out, EncodeMessages(messages[i..]))
    {
      var m := messages[i];
      assert messages[i..][1..] == messages[i + 1..];
      if |m.args| > 255 {
        return Err(EncodeError);
      }
      var name := EncodeString(m.name);
      if name.Err? {
        return Err(EncodeError);
      }
      var args := EncodeKvList(m.args);
      if args.Err? {
        return Err(EncodeError);
      }
      var whole := name.value + ([|m.args|] + args.value);
      ghost var rest := EncodeMessages(messages[i + 1..]);
      assert rest.Ok? ==> out + (whole + rest.value) == (out + whole) + rest.value;
      out := out + whole;
    }
    assert out + [] == out;
    return Ok(out);
  }

  /** Messages already decoded, followed by the outcome of decoding the rest. */
  function Onto<T>(done: seq<T>, rest: Result<(seq<T>, nat)>): Result<(seq<T>, nat)> {
    match rest
    case Ok((items, end)) => Ok((done + items, end))
    case Err(e) => Err(e)
  }

  lemma OntoNothing<T>(rest: Result<(seq<T>, nat)>)
    ensures Onto([], rest) == rest
  {
    assert rest.Ok? ==> [] + rest.value.0 == rest.value.0;
  }

  /** The inner loop of the message decoder. */
  method DecodeArgList(buf: bytes, start: nat, count: nat) returns (r: Result<(Dict, nat)>)
    ensures r == DecodeArgs(buf, start, count, [])
  {
    hide ParsePair;
    var args: Dict := [];
    var offset := start;
    for i := 0 to count
      invariant DecodeArgs(buf, start, count, []) == DecodeArgs(buf, offset, count - i, args)
    {
      var pair :- ParsePair(buf, offset);
      if HasKey(args, pair.0.key) {
        return Err(DecodeError);
      }
      args := args + [pair.0];
      offset := pair.1;
    }
    return Ok((args, offset));
  }

  method DecodeListOfMessages(buf: bytes, start: nat, end: nat) returns (r: Result<(seq<Message>, nat)>)
    ensures r == DecodeMessages(buf, start, end)
  {
    hide DecodeString, DecodeTinyInt, DecodeArgs;
    var payload: seq<Message> := [];
    var offset := start;
    OntoNothing(DecodeMessages(buf, start, end));
    while offset < end
      invariant DecodeMessages(buf, start, end) == Onto(payload, DecodeMessages(buf, offset, end))
      decreases |buf| - offset
    {
      var name :- DecodeString(buf, offset);
      var count :- DecodeTinyInt(buf, name.1);
      var args :- DecodeArgList(buf, count.1, count.0);
      var m := Message(name.0, args.0);
      OntoStep(payload, m, DecodeMessages(buf, args.1, end));
      payload := payload + [m];
      offset := args.1;
    }
    assert payload + [] == payload;
    return Ok((payload, offset));
  }

  lemma OntoStep<T>(done: seq<T>, item: T, rest: Result<(seq<T>, nat)>)
    ensures rest.Ok? ==> Onto(done + [item], rest) == Onto(done, Ok(([item] + rest.value.0, rest.value.1)))
    ensures rest.Err? ==> Onto(done + [item], rest) == Onto(done, rest)
  {
    assert rest.Ok? ==> done + ([item] + rest.value.0) == (done + [item]) + rest.value.0;
  }

  // ----- actions -----

  datatype Scope = Process | Session | Transaction | Request | Response

  function ScopeCode(s: Scope): byte {
    match s
    case Process => 0
    case Session => 1
    case Transaction => 2
    case Request => 3
    case Response => 4
  }

  function ScopeOf(b: byte): (r: Option<Scope>)
    ensures r.Some? ==> ScopeCode(r.value) == b
  {
    if b == 0 then Some(Process)
    else if b == 1 then Some(Session)
    else if b == 2 then Some(Transaction)
    else if b == 3 then Some(Request)
    else if b == 4 then Some(Response)
    else None
  }

  const SET_VAR: byte := 1
  const UNSET_VAR: byte := 2
  const SET_VAR_ARGS: byte := 3
  const UNSET_VAR_ARGS: byte := 2

  datatype Action =
    | SetVar(scope: Scope, name: string, value: Value)
    | UnsetVar(scope: Scope, name: string)

  function EncodeAction(a: Action): (r: Result<bytes>)
    ensures r.Ok? ==> |r.value| >= 4
    ensures r.Err? ==> r.error == EncodeError
  {
    match a
    case SetVar(scope, name, value) =>
      var body :- EncodePair(name, value);
      Ok([SET_VAR, SET_VAR_ARGS, ScopeCode(scope)] + body)
    case UnsetVar(scope, name) =>
      var body :- EncodeString(name);
      Ok([UNSET_VAR, UNSET_VAR_ARGS, ScopeCode(scope)] + body)
  }

  function EncodeActions(actions: seq<Action>): (r: Result<bytes>)
    ensures r.Err? ==> r.error == EncodeError
  {
    if actions == [] then Ok([]) else
    var first :- EncodeAction(actions[0]);
    var rest :- EncodeActions(actions[1..]);
    Ok(first + rest)
  }

  function DecodeAction(buf: bytes, offset: nat): (r: Result<(Action, nat)>)
    ensures r.Ok? ==> offset + 4 <= r.value.1 <= |buf|
    ensures r.Err? ==> r.error == DecodeError
  {
    if offset + 3 > |buf| then Err(DecodeError)
    else if buf[offset] != SET_VAR && buf[offset] != UNSET_VAR then Err(DecodeError)
    else match ScopeOf(buf[offset + 2])
    case None => Err(DecodeError)
    case Some(scope) =>
      if buf[offset] == SET_VAR then
        if buf[offset + 1] != SET_VAR_ARGS then Err(DecodeError) else
        var (e, end) :- ParsePair(buf, offset + 3);
        Ok((SetVar(scope, e.key, e.value), end))
      else
        if buf[offset + 1] != UNSET_VAR_ARGS then Err(DecodeError) else
        var (name, end) :- DecodeString(buf, offset + 3);
        Ok((UnsetVar(scope, name), end))
  }

  function DecodeActions(buf: bytes, offset: nat, end: nat): (r: Result<(seq<Action>, nat)>)
    ensures r.Ok? ==> r.value.1 >= end && offset + 4 * |r.value.0| <= r.value.1
    ensures r.Ok? && offset <= |buf| ==> r.value.1 <= |buf|
    ensures r.Err? ==> r.error == DecodeError
    decreases |buf| - offset
  {
    if offset >= end then Ok(([], offset)) else
    var (a, next) :- DecodeAction(buf, offset);
    var (rest, last) :- DecodeActions(buf, next, end);
    Ok(([a] + rest, last))
  }

  lemma ActionRoundTrip(a: Action, buf: bytes, offset: nat)
    requires EncodeAction(a).Ok? && At(buf, offset, EncodeAction(a).value)
    ensures DecodeAction(buf, offset) == Ok((a, offset + |EncodeAction(a).value|))
  {
    hide DecodeString, ParsePair, EncodeString, EncodePair;
    var code := EncodeAction(a).value;
    assert code == code[..3] + code[3..];
    AtSplit(buf, offset, code[..3], code[3..]);
    var head := buf[offset..offset + 3];
    assert buf[offset] == head[0] && buf[offset + 1] == head[1] && buf[offset + 2] == head[2];
    match a {
      case SetVar(scope, name, value) =>
        assert code[3..] == EncodePair(name, value).value;
        PairRoundTrip(Entry(name, value), buf, offset + 3);
      case UnsetVar(scope, name) =>
        assert code[3..] == EncodeString(name).value;
        StringRoundTrip(name, buf, offset + 3);
    }
  }

  lemma {:induction false} ActionsRoundTrip(actions: seq<Action>, buf: bytes, offset: nat)
    requires EncodeActions(actions).Ok? && At(buf, offset, EncodeActions(actions).value)
    ensures var end := offset + |EncodeActions(actions).value|;
            DecodeActions(buf, offset, end) == Ok((actions, end))
    decreases |actions|
  {
    hide DecodeAction, EncodeAction;
    if actions != [] {
      var first, rest := EncodeAction(actions[0]).value, EncodeActions(actions[1..]).value;
      AtSplit(buf, offset, first, rest);
      ActionRoundTrip(actions[0], buf, offset);
      ActionsRoundTrip(actions[1..], buf, offset + |first|);
      assert [actions[0]] + actions[1..] == actions;
    }
  }

  method EncodeActionList(actions: seq<Action>) returns (r: Result<bytes>)
    ensures r == EncodeActions(actions)
  {
    hide EncodeAction;
    var out: bytes := [];
    PrependNothing(EncodeActions(actions));
    assert actions[0..] == actions;
    for i := 0 to |actions|
      invariant EncodeActions(actions) == Prepend(out, EncodeActions(actions[i..]))
    {
      var one := EncodeAction(actions[i]);
      assert actions[i..][1..] == actions[i + 1..];
      if one.Err? {
        return Err(EncodeError);
      }
      ghost var rest := EncodeActions(actions[i + 1..]);
      assert rest.Ok? ==> out + (one.value + rest.value) == (out + one.value) + rest.value;
      out := out + one.value;
    }
    assert out + [] == out;
    return Ok(out);
  }

  method DecodeListOfActions(buf: bytes, start: nat, end: nat) returns (r: Result<(seq<Action>, nat)>)
    ensures r == DecodeActions(buf, start, end)
  {
    hide DecodeAction;
    var actions: seq<Action> := [];
    var offset := start;
    OntoNothing(DecodeActions(buf, start, end));
    while offset < end
      invariant DecodeActions(buf, start, end) == Onto(actions, DecodeActions(buf, offset, end))
      decreases |buf| - offset
    {
      var step :- DecodeAction(buf, offset);
      OntoStep(actions, step.0, DecodeActions(buf, step.1, end));
      actions := actions + [step.0];
      offset := step.1;
    }
    assert actions + [] == actions;
    return Ok((actions, offset));
  }

  // ----- metadata -----

  datatype Flags = Flags(fin: bool, abort: bool)

  datatype Metadata = Metadata(flags: Flags, streamId: int, frameId: int)

  function FlagByte(f: Flags): byte {
    (if f.fin then 1 else 0) + (if f.abort then 2 else 0)
  }

  function EncodeMetadata(m: Metadata): (r: Result<bytes>)
    ensures r.Ok? <==> 0 <= m.streamId && 0 <= m.frameId
    ensures r.Ok? ==> |r.value| == 4 + |Varint(m.streamId)| + |Varint(m.frameId)|
    ensures r.Err? ==> r.error == EncodeError
  {
    var sid :- EncodeVarint(m.streamId);
    var fid :- EncodeVarint(m.frameId);
    Ok([0, 0, 0, FlagByte(m.flags)] + (sid + fid))
  }

  function DecodeMetadata(buf: bytes, offset: nat): (r: Result<(Metadata, nat)>)
    ensures r.Ok? ==> offset + 6 <= r.value.1 <= |buf|
    ensures r.Err? ==> r.error == DecodeError
  {
    if offset + 4 > |buf| then Err(DecodeError) else
    var last := buf[offset + 3];
    var flags := Flags(last % 2 == 1, last / 2 % 2 == 1);
    var (sid, mid) :- DecodeInt64(buf, offset + 4);
    var (fid, end) :- DecodeInt64(buf, mid);
    Ok((Metadata(flags, sid, fid), end))
  }

  /** What ids become on the wire and back: reduced to signed 64-bit. */
  function NormalMetadata(m: Metadata): Metadata {
    m.(streamId := Signed(m.streamId, TWO_TO_64), frameId := Signed(m.frameId, TWO_TO_64))
  }

  lemma MetadataRoundTrip(m: Metadata, buf: bytes, offset: nat)
    requires EncodeMetadata(m).Ok? && At(buf, offset, EncodeMetadata(m).value)
    ensures DecodeMetadata(buf, offset) == Ok((NormalMetadata(m), offset + |EncodeMetadata(m).value|))
  {
    hide ParseVarint, Varint;
    var head, sid, fid := [0, 0, 0, FlagByte(m.flags)], Varint(m.streamId), Varint(m.frameId);
    AtSplit(buf, offset, head, sid + fid);
    assert buf[offset + 3] == buf[offset..offset + 4][3];
    AtSplit(buf, offset + 4, sid, fid);
    VarintRoundTrip(m.streamId, buf, offset + 4);
    VarintRoundTrip(m.frameId, buf, offset + 4 + |sid|);
  }

  lemma MetadataLocal(buf: bytes, offset: nat, other: bytes, at: nat)
    requires DecodeMetadata(buf, offset).Ok?
    requires At(other, at, buf[offset..DecodeMetadata(buf, offset).value.1])
    ensures var (m, end) := DecodeMetadata(buf, offset).value;
            DecodeMetadata(other, at) == Ok((m, at + (end - offset)))
  {
    hide ParseVarint, Varint;
    var mid := ParseVarint(buf, offset + 4).value.1;
    var (m, end) := DecodeMetadata(buf, offset).value;
    AtWindow(other, at, buf, offset, offset + 4, end);
    assert buf[offset + 3] == buf[offset..offset + 4][3] == other[at..at + 4][3] == other[at + 3];
    AtWindow(other, at + 4, buf, offset + 4, mid, end);
    VarintLocal(buf, offset + 4, other, at + 4);
    VarintLocal(buf, mid, other, at + 4 + (mid - offset - 4));
  }

  /** Re-encoding decoded ids never takes more bytes than they took on the wire, even
      when the wire varint did not fit in 64 bits. */
  lemma IdsNeverGrow(buf: bytes, offset: nat)
    requires DecodeMetadata(buf, offset).Ok?
    ensures var (m, end) := DecodeMetadata(buf, offset).value;
            EncodeMetadata(m).Ok? ==> |EncodeMetadata(m).value| <= end - offset
  {
    hide ParseVarint, Varint;
    var (m, end) := DecodeMetadata(buf, offset).value;
    var (s, mid) := ParseVarint(buf, offset + 4).value;
    var (f, _) := ParseVarint(buf, mid).value;
    VarintCanonical(buf, offset + 4);
    VarintCanonical(buf, mid);
    if EncodeMetadata(m).Ok? {
      VarintLengthMonotone(m.streamId, s);
      VarintLengthMonotone(m.frameId, f);
    }
  }

  method EncodeMetadataFrame(m: Metadata) returns (r: Result<bytes>)
    ensures r == EncodeMetadata(m)
  {
    var flags := new byte[4](i => 0);
    if m.flags.fin {
      flags[3] := flags[3] + 1;
    }
    if m.flags.abort {
      flags[3] := flags[3] + 2;
    }
    var out: bytes := flags[..];
    assert out == [0, 0, 0, FlagByte(m.flags)];
    var sid := ComposeVarint(m.streamId);
    if sid.Err? {
      return Err(EncodeError);
    }
    var fid := ComposeVarint(m.frameId);
    if fid.Err? {
      return Err(EncodeError);
    }
    assert out + sid.value + fid.value == out + (sid.value + fid.value);
    return Ok(out + sid.value + fid.value);
  }
}
