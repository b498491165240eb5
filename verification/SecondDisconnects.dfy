/** Every stream that invites two disconnects has a run that writes them. */
module SecondDisconnects {
  import opened Results
  import opened Bytes
  import opened Varints
  import opened DataTypes
  import opened Payloads
  import opened Frames
  import opened Acks
  import opened Disconnects
  import opened Sessions
  import opened SessionCases
  import opened Acknowledgements
  import opened Outputs
  import opened Feeds
  import opened Uniqueness
  import opened DisconnectRuns

  /** The reader is about to take a slot, every slot is free and every task is over; some may have
      failed with a protocol error, and the group has not noticed. */
  predicate Idle(s: State) {
    && s.phase.InGroup? && s.body == Acquiring && !s.holding && !s.aborting && !s.closing && s.raised == None
    && s.free == s.limit > 0
    && |s.tasks| == |s.notifies|
    && !SomeLive(s.tasks)
    && (forall k | 0 <= k < |s.failures| :: s.failures[k].exc == Protocol)
    && DisconnectCount(s.sent) == 0
  }

  /** The NOTIFY `n` stands next on the stream. */
  predicate NextIs(stream: bytes, max: int, n: Arrival) {
    && DecodeFrame(stream, max) == Ok((Frame(n.meta, Payload.Notify(n.messages)), n.size + 4))
    && n.size + 4 <= |stream|
  }

  lemma NextFits(stream: bytes, max: int, n: Arrival)
    requires NextIs(stream, max, n)
    ensures Fits(n, max)
  {
    hide DecodeFrame, EmptyAckFits, Faithful;
    AcceptedLeavesRoom(stream, max);
    DecodedIsFaithful(stream, max);
    FaithfulIds(DecodeFrame(stream, max).value.0);
    DecodedSize(stream, max);
  }

  lemma DecodedSize(stream: bytes, max: int)
    requires DecodeFrame(stream, max).Ok?
    ensures DecodeFrame(stream, max).value.1 - 4 <= max
  {
    hide DecodeBody, FromBigEndian;
  }

  /** The state with `n` in its handler. */
  function Working(s: State, n: Arrival): State
    requires n.size + 4 <= |s.input|
    requires s.free > 0
  {
    s.(input := s.input[n.size + 4..], body := Acquiring, free := s.free - 1, notifies := s.notifies + [n],
       tasks := s.tasks + [Handling], marks := s.marks + [Began(|s.tasks|)])
  }

  lemma TakeOne(env: Env, s: State, n: Arrival) returns (run: seq<Event>)
    requires Idle(s) && NextIs(s.input, s.max, n)
    ensures Legal(env, s, run) && After(env, s, run) == Working(s, n)
  {
    hide DecodeFrame, Legal, After, DisconnectCount;
    EmptyRun(env, s);
    Extend(env, s, [], Acquire);
    Extend(env, s, [] + [Acquire], Read);
    run := [] + [Acquire] + [Read] + [Start(|s.tasks|)];
    Extend(env, s, [] + [Acquire] + [Read], Start(|s.tasks|));
    assert (s.tasks + [Created])[|s.tasks| := Handling] == s.tasks + [Handling];
  }

  /** What serving one NOTIFY leads to. */
  predicate Served(env: Env, s: State, u: State, n: Arrival) {
    && Idle(u)
    && u.notifies == s.notifies + [n]
    && u.max == s.max && u.limit == s.limit
    && s.failures <= u.failures
    && (Answer(env, |s.notifies|, n, s.max).Err? ==> SomeProtocol(u.failures))
  }

  lemma FailOne(env: Env, s: State, n: Arrival)
    requires Idle(s) && n.size + 4 <= |s.input| && Fits(n, s.max)
    requires Answer(env, |s.notifies|, n, s.max).Err?
    ensures var w := Working(s, n);
            && Enabled(w, Finish(|s.tasks|))
            && Served(env, s, Apply(env, w, Finish(|s.tasks|)), n)
            && Apply(env, w, Finish(|s.tasks|)).input == w.input
  {
    hide Answer, EmptyAckFits, DisconnectCount;
    ReplyFailsJustly(env, |s.notifies|, n, s.max);
    var u := Apply(env, Working(s, n), Finish(|s.tasks|));
    assert u.failures[|s.failures|].exc == Protocol;
    NoneLive(s.tasks, Ended(true, false));
  }

  lemma NoneLive(tasks: seq<Status>, t: Status)
    requires !SomeLive(tasks) && !Live(t)
    ensures !SomeLive((tasks + [Handling])[|tasks| := t])
  {
  }

  lemma AnswerOne(env: Env, s: State, n: Arrival)
    requires Idle(s) && n.size + 4 <= |s.input| && Fits(n, s.max)
    requires Answer(env, |s.notifies|, n, s.max).Ok?
    ensures var w := Working(s, n);
            && Enabled(w, Finish(|s.tasks|))
            && var v := Apply(env, w, Finish(|s.tasks|));
               && Enabled(v, Flushed(|s.tasks|))
               && Served(env, s, Apply(env, v, Flushed(|s.tasks|)), n)
               && Apply(env, v, Flushed(|s.tasks|)).input == w.input
  {
    hide Reply, EncodeFrame, EmptyAckFits, DisconnectCount;
    var ack := Answer(env, |s.notifies|, n, s.max).value;
    ReplyIsEcho(env, ack, |s.notifies|, n, s.max);
    DisconnectCountAppend(s.sent, Sent(ack, FromTask(|s.tasks|)));
    NoneLive(s.tasks, Ended(true, true));
    assert ((s.tasks + [Handling])[|s.tasks| := Flushing])[|s.tasks| := Ended(true, true)]
        == (s.tasks + [Handling])[|s.tasks| := Ended(true, true)];
  }

  lemma ServeOne(env: Env, s: State, n: Arrival) returns (run: seq<Event>)
    requires Idle(s) && NextIs(s.input, s.max, n)
    ensures Legal(env, s, run)
    ensures Served(env, s, After(env, s, run), n) && After(env, s, run).input == s.input[n.size + 4..]
  {
    hide Answer, DecodeFrame, Legal, After, Apply, Enabled, EmptyAckFits, DisconnectCount;
    NextFits(s.input, s.max, n);
    var id := |s.tasks|;
    run := TakeOne(env, s, n);
    if Answer(env, |s.notifies|, n, s.max).Err? {
      FailOne(env, s, n);
      Extend(env, s, run, Finish(id));
      run := run + [Finish(id)];
    } else {
      AnswerOne(env, s, n);
      Extend(env, s, run, Finish(id));
      Extend(env, s, run + [Finish(id)], Flushed(id));
      run := run + [Finish(id)] + [Flushed(id)];
    }
  }

  /** Some NOTIFY from `from` on has no reply. */
  predicate UnanswerableFrom(env: Env, notifies: seq<Arrival>, max: int, from: nat) {
    exists i | from <= i < |notifies| :: Answer(env, i, notifies[i], max).Err?
  }

  lemma {:induction false} ServeAll(env: Env, s: State, ns: seq<Arrival>, rest: bytes) returns (run: seq<Event>)
    requires Idle(s) && FeedsTo(s.input, s.max, ns, rest)
    ensures Legal(env, s, run)
    ensures var u := After(env, s, run);
            && Idle(u) && u.input == rest && u.max == s.max && s.failures <= u.failures
            && u.notifies == s.notifies + ns
            && (UnanswerableFrom(env, s.notifies + ns, s.max, |s.notifies|) ==> SomeProtocol(u.failures))
    decreases |ns|
  {
    hide Answer, DecodeFrame, Legal, After, DisconnectCount, SomeProtocol;
    if ns == [] {
      run := [];
      EmptyRun(env, s);
    } else {
      var first := ServeOne(env, s, ns[0]);
      var u := After(env, s, first);
      var others := ServeAll(env, u, ns[1..], rest);
      LegalConcat(env, s, first, others);
      run := first + others;
      assert u.notifies + ns[1..] == s.notifies + ns;
      if UnanswerableFrom(env, s.notifies + ns, s.max, |s.notifies|) {
        var i :| |s.notifies| <= i < |s.notifies + ns| && Answer(env, i, (s.notifies + ns)[i], s.max).Err?;
        if i == |s.notifies| {
          ProtocolGrows(u.failures, After(env, s, run).failures);
        }
      }
    }
  }

  // ----- the end -----

  lemma FrameNameIsLatin1(p: Payload)
    ensures IsLatin1(FrameName(p)) && |FrameName(p)| <= 20
  {
  }

  /** The two disconnects of the reader encode wherever they are short enough. */
  lemma ReaderTexts(p: Payload)
    ensures IsLatin1("Disconnecting normally")
    ensures IsLatin1("Expected NOTIFY or HAPROXY_DISCONNECT, received " + FrameName(p))
  {
    hide FrameName, IsLatin1;
    FrameNameIsLatin1(p);
    Latin1Concat("Expected NOTIFY or HAPROXY_DISCONNECT, received ", FrameName(p));
    PlainTexts();
  }

  lemma PlainTexts()
    ensures IsLatin1("Disconnecting normally") && IsLatin1("Expected NOTIFY or HAPROXY_DISCONNECT, received ")
  {
    hide IsLatin1;
    PlainParts();
    Latin1Concat("Expected NOTIFY or HA", "PROXY_DISCONNECT, received ");
    var text := "Expected NOTIFY or HAPROXY_DISCONNECT, received ";
    assert text[..21] == "Expected NOTIFY or HA";
    assert text[21..] == "PROXY_DISCONNECT, received ";
    assert text == text[..21] + text[21..];
  }

  lemma PlainParts()
    ensures IsLatin1("Disconnecting normally")
    ensures IsLatin1("Expected NOTIFY or HA") && IsLatin1("PROXY_DISCONNECT, received ")
  {
  }

  lemma Latin1Concat(a: string, b: string)
    ensures IsLatin1(a + b) <==> IsLatin1(a) && IsLatin1(b)
  {
    if IsLatin1(a + b) {
      assert forall i | 0 <= i < |a| :: a[i] == (a + b)[i];
      assert forall i | 0 <= i < |b| :: b[i] == (a + b)[|a| + i];
    }
  }

  lemma RefusedAsTooBig(code: int, text: string, max: int)
    requires IsDisconnectCode(code) && IsLatin1(text) && |text| <= MESSAGE_MAX_LENGTH
    ensures EncodeFrame(DisconnectFrame(code, text), max).Err? ==>
              EncodeFrame(DisconnectFrame(code, text), max) == Err(FrameTooBig)
  {
    hide EncodeBody, Varint, IsLatin1;
    DisconnectSize(code, text);
    DisconnectIsBounded(code, text, max);
    assert Truncate(text) == text;
  }

  /** The reader has written its disconnect, or has raised for a frame too big. */
  predicate Told(s: State, u: State) {
    && u == s.(input := u.input, sent := u.sent, wire := u.wire, body := u.body, raised := u.raised,
               aborting := u.aborting)
    && (|| (u.raised == Some(TooBig) && u.body == Stopped && u.aborting && u.sent == s.sent)
        || (u.raised == None && u.body == Draining(ThenClose) && !u.aborting
            && DisconnectCount(u.sent) == DisconnectCount(s.sent) + 1))
  }

  lemma ToldBySend(s: State, code: int, text: string)
    requires IsDisconnectCode(code) && IsLatin1(text) && |text| <= MESSAGE_MAX_LENGTH
    requires !s.closing && s.raised == None && !s.aborting
    ensures Told(s, SendFromBody(s, DisconnectFrame(code, text), FromReader, ThenClose))
  {
    hide EncodeFrame, IsLatin1, DisconnectCount;
    RefusedAsTooBig(code, text, s.max);
    DisconnectCountAppend(s.sent, Sent(DisconnectFrame(code, text), FromReader));
  }

  lemma ReaderTells(s: State)
    requires EndsSession(s.input, s.max) && !s.closing && s.raised == None && !s.aborting
    ensures Told(s, ApplyRead(s))
  {
    hide DecodeFrame, SendFromBody, FrameName, DisconnectFrame, IsLatin1, DisconnectCount;
    match DecodeFrame(s.input, s.max) {
      case Err(_) =>
      case Ok((f, used)) =>
        var text := "Expected NOTIFY or HAPROXY_DISCONNECT, received " + FrameName(f.payload);
        FrameNameIsLatin1(f.payload);
        ReaderTexts(f.payload);
        assert Truncate(text) == text;
        ToldBySend(s.(input := s.input[used..]), NORMAL, "Disconnecting normally");
        ToldBySend(s.(input := s.input[used..]), INVALID_FRAME_RECEIVED, text);
    }
  }

  predicate ClausesFit(max: int) {
    && EncodeFrame(ErrorDisconnect(FRAME_TOO_BIG, ""), max).Ok?
    && EncodeFrame(ErrorDisconnect(PROTOCOL_ERROR, ""), max).Ok?
  }

  lemma ClauseWrites(s: State, code: int)
    requires !s.closing && EncodeFrame(ErrorDisconnect(code, ""), s.max).Ok?
    ensures var u := SendFromClause(s, code, "");
            && u == s.(sent := u.sent, wire := u.wire)
            && DisconnectCount(u.sent) == DisconnectCount(s.sent) + 1
  {
    hide EncodeFrame, ErrorDisconnect, DisconnectCount;
    DisconnectPayload(code, "");
    DisconnectCountAppend(s.sent, Sent(ErrorDisconnect(code, ""), FromClause));
  }

  /** The group has stopped, with a protocol error among its failures, after one disconnect or a
      frame too big. */
  predicate LeavesTwo(s: State) {
    && s.phase.InGroup? && s.body == Stopped && s.aborting && !s.closing && !SomeLive(s.tasks)
    && (forall k | 0 <= k < |s.failures| :: s.failures[k].exc == Protocol) && s.failures != []
    && (|| (s.raised == Some(TooBig) && DisconnectCount(s.sent) == 0)
        || (s.raised == Some(Closing) && DisconnectCount(s.sent) == 1))
  }

  lemma LastClause(env: Env, s: State) returns (run: seq<Event>)
    requires s.phase == InClauses(false, true) && !s.closing && ClausesFit(s.max) && DisconnectCount(s.sent) == 1
    ensures Legal(env, s, run) && DisconnectCount(After(env, s, run).sent) == 2
  {
    hide Legal, After, EncodeFrame, ErrorDisconnect, DisconnectCount, SendFromClause;
    EmptyRun(env, s);
    ClauseWrites(s, PROTOCOL_ERROR);
    Extend(env, s, [], ProtocolClause(""));
    run := [] + [ProtocolClause("")];
  }

  lemma BothClauses(env: Env, s: State) returns (run: seq<Event>)
    requires s.phase == InClauses(true, true) && !s.closing && ClausesFit(s.max) && DisconnectCount(s.sent) == 0
    ensures Legal(env, s, run) && DisconnectCount(After(env, s, run).sent) == 2
  {
    hide Legal, After, EncodeFrame, ErrorDisconnect, DisconnectCount, SendFromClause;
    EmptyRun(env, s);
    ClauseWrites(s, FRAME_TOO_BIG);
    Extend(env, s, [], TooBigClause(""));
    var first := [] + [TooBigClause("")];
    var last := LastClause(env, After(env, s, first));
    LegalConcat(env, s, first, last);
    run := first + last;
  }

  lemma RunClauses(env: Env, s: State) returns (run: seq<Event>)
    requires LeavesTwo(s) && ClausesFit(s.max)
    ensures Legal(env, s, run) && DisconnectCount(After(env, s, run).sent) == 2
  {
    hide Legal, After, ClausesFit, DisconnectCount;
    EmptyRun(env, s);
    assert s.failures[0].exc == Protocol;
    Extend(env, s, [], LeaveGroup);
    var first := [] + [LeaveGroup];
    var last;
    if s.raised == Some(TooBig) {
      last := BothClauses(env, After(env, s, first));
    } else {
      last := LastClause(env, After(env, s, first));
    }
    LegalConcat(env, s, first, last);
    run := first + last;
  }

  lemma Finale(env: Env, s: State) returns (run: seq<Event>)
    requires Idle(s) && EndsSession(s.input, s.max) && SomeProtocol(s.failures) && ClausesFit(s.max)
    ensures Legal(env, s, run) && DisconnectCount(After(env, s, run).sent) == 2
  {
    hide Legal, After, EndsSession, ClausesFit, DisconnectCount, ApplyRead;
    EmptyRun(env, s);
    Extend(env, s, [], Acquire);
    run := [] + [Acquire];
    var r := After(env, s, run);
    ReaderTells(r);
    Extend(env, s, run, Read);
    run := run + [Read];
    var u := After(env, s, run);
    if u.raised == None {
      Extend(env, s, run, Drained);
      run := run + [Drained];
    }
    var last := RunClauses(env, After(env, s, run));
    LegalConcat(env, s, run, last);
    run := run + last;
  }

  // ----- the session -----

  lemma {:induction false} EntriesAreLong(d: seq<Entry>)
    requires EncodeEntries(d).Ok?
    ensures |EncodeEntries(d).value| >= KeyBytes(d)
  {
    hide EncodePair;
    if d != [] {
      PairIsLong(d[0].key, d[0].value);
      EntriesAreLong(d[1..]);
    }
  }

  function KeyBytes(d: seq<Entry>): nat {
    if d == [] then 0 else |d[0].key| + KeyBytes(d[1..])
  }

  lemma ThreeKeys(a: Entry, b: Entry, c: Entry)
    ensures KeyBytes([a, b, c]) == |a.key| + |b.key| + |c.key|
  {
    assert [a, b, c][1..] == [b, c] && [b, c][1..] == [c] && [c][1..] == [];
    assert KeyBytes([c]) == |c.key| + KeyBytes([]);
    assert KeyBytes([b, c]) == |b.key| + KeyBytes([c]);
  }

  lemma PairIsLong(key: string, value: Value)
    requires EncodePair(key, value).Ok?
    ensures |EncodePair(key, value).value| >= |key|
  {
    hide EncodeValue, Varint;
  }

  /** A frame size that admits AGENT-HELLO admits a disconnect without text. */
  lemma HelloMeansRoom(f: Frame, max: int)
    requires f.payload.AgentHello? && EncodeFrame(f, max).Ok?
    ensures ClausesFit(max)
  {
    hide EncodeEntries, Varint, ClausesFit, EncodeMetadata;
    var d := AgentHelloEntries(f.payload);
    EntriesAreLong(d);
    ThreeKeys(d[0], d[1], d[2]);
    assert d == [d[0], d[1], d[2]];
    ShortestFit(max);
  }

  lemma ShortestFit(max: int)
    ensures max >= 31 ==> ClausesFit(max)
  {
    hide EncodeFrame, Varint, ErrorDisconnect;
    DisconnectIsBounded(FRAME_TOO_BIG, "", max);
    DisconnectIsBounded(PROTOCOL_ERROR, "", max);
    SmallVarints(0);
  }

  lemma OpenedIsIdle(env: Env, input: bytes)
    requires var g := Opened(env, input); g.body == Draining(ThenLoop) && g.limit > 0
    ensures var g := Opened(env, input);
            && Idle(g.(body := Acquiring)) && ClausesFit(g.max) && g.input == g.afterHello && g.phase.InGroup?
            && g.notifies == []
  {
    hide ApplyGreet, EncodeFrame, Faithful, ClausesFit, DisconnectCount;
    var s1, move := GreetCases(env, Initial(env, input));
    if move.Answers? {
      HelloMeansRoomIf(move.f, s1.max);
      DisconnectCountAppend(s1.sent, Sent(move.f, FromHandshake));
      assert DisconnectCount([]) == 0 by {
        NoDisconnect([]);
      }
    }
  }

  lemma HelloMeansRoomIf(f: Frame, max: int)
    ensures f.payload.AgentHello? && EncodeFrame(f, max).Ok? ==> ClausesFit(max)
  {
    hide EncodeFrame, ClausesFit;
    if f.payload.AgentHello? && EncodeFrame(f, max).Ok? {
      HelloMeansRoom(f, max);
    }
  }

  lemma TwoByInvitation(env: Env, input: bytes) returns (run: seq<Event>)
    requires InvitesTwo(env, input)
    ensures Legal(env, Initial(env, input), run) && DisconnectCount(After(env, Initial(env, input), run).sent) == 2
  {
    hide Legal, After, ApplyGreet, FeedsTo, EndsSession, ClausesFit, DisconnectCount, Answer, Idle;
    var s0 := Initial(env, input);
    var g := Opened(env, input);
    var ns :| FeedsToEnd(g.afterHello, g.max, ns) && SomeUnanswerable(env, ns, g.max);
    var rest :| FeedsTo(g.afterHello, g.max, ns, rest) && EndsSession(rest, g.max);
    OpenedIsIdle(env, input);
    EmptyRun(env, s0);
    Extend(env, s0, [], Greet);
    Extend(env, s0, [] + [Greet], Drained);
    run := [] + [Greet] + [Drained];
    var s := g.(body := Acquiring);
    var serving := ServeAll(env, s, ns, rest);
    assert [] + ns == ns;
    LegalConcat(env, s0, run, serving);
    run := run + serving;
    var last := Finale(env, After(env, s0, run));
    LegalConcat(env, s0, run, last);
    run := run + last;
  }

  /** Two disconnects can be written exactly for the streams that invite them: a session whose
      NOTIFYs include one without a reply, ended by an oversized frame or anything but a NOTIFY. */
  lemma TwoDisconnectsExactly(env: Env, input: bytes)
    ensures InvitesTwo(env, input) <==>
            exists run :: Legal(env, Initial(env, input), run)
                          && DisconnectCount(After(env, Initial(env, input), run).sent) == 2
  {
    hide Legal, After, InvitesTwo, DisconnectCount;
    if InvitesTwo(env, input) {
      var run := TwoByInvitation(env, input);
    } else {
      forall run | Legal(env, Initial(env, input), run)
        ensures DisconnectCount(After(env, Initial(env, input), run).sent) != 2
      {
        AtMostTwoDisconnects(env, input, run);
      }
    }
  }

  /** Under a frame size that fits the length prefix, a NOTIFY on the stream has no reply exactly
      when one of its ids decodes as negative. */
  lemma {:induction false} UnanswerableExactly(env: Env, stream: bytes, max: int, ns: seq<Arrival>, rest: bytes, i: nat)
    requires FeedsTo(stream, max, ns, rest) && i < |ns| && max < TWO_TO_32
    ensures forall id: nat :: Answer(env, id, ns[i], max).Err? <==> Unanswerable(ns[i].meta)
    decreases i
  {
    hide DecodeFrame, Answer, EmptyAckFits;
    if i > 0 {
      UnanswerableExactly(env, stream[ns[0].size + 4..], max, ns[1..], rest, i - 1);
    } else {
      NextFits(stream, max, ns[0]);
      forall id: nat
        ensures Answer(env, id, ns[0], max).Err? <==> Unanswerable(ns[0].meta)
      {
        ReplyFailsJustly(env, id, ns[0], max);
      }
    }
  }
}
