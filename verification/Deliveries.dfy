/** Runs in which an answer reaches the wire. */
module Deliveries {
  import opened Results
  import opened Bytes
  import opened Varints
  import opened DataTypes
  import opened Payloads
  import opened Frames
  import opened Acks
  import opened Configurations
  import opened Sessions
  import opened SessionCases
  import opened Acknowledgements
  import opened Outputs
  import opened Feeds
  import opened Uniqueness
  import opened DisconnectRuns
  import opened SecondDisconnects
  import opened Contents
  import opened Vectors
  import opened Witnesses

  /** The stream between one NOTIFY and those before it. */
  lemma {:induction false} FeedsBefore(stream: bytes, max: int, ns: seq<Arrival>, n: Arrival, rest: bytes)
    returns (mid: bytes)
    requires FeedsTo(stream, max, ns + [n], rest)
    ensures FeedsTo(stream, max, ns, mid) && NextIs(mid, max, n)
    decreases |ns|
  {
    hide DecodeFrame;
    if ns == [] {
      mid := stream;
      assert ([] + [n])[0] == n;
    } else {
      assert (ns + [n])[0] == ns[0] && (ns + [n])[1..] == ns[1..] + [n];
      mid := FeedsBefore(stream[ns[0].size + 4..], max, ns[1..], n, rest);
    }
  }

  /** Every NOTIFY of a session that has a reply gets it written in some run, with the actions its
      handler returns for its messages. */
  lemma AnswerIsReachable(env: Env, input: bytes, ns: seq<Arrival>, n: Arrival, rest: bytes) returns (run: seq<Event>)
    requires var g := Opened(env, input); g.body == Draining(ThenLoop) && g.limit > 0
    requires FeedsTo(Opened(env, input).afterHello, Opened(env, input).max, ns + [n], rest)
    requires Answer(env, |ns|, n, Opened(env, input).max).Ok?
    ensures Legal(env, Initial(env, input), run)
    ensures var s := After(env, Initial(env, input), run);
            && s.sent != []
            && s.sent[|s.sent| - 1].origin == FromTask(|ns|)
            && CarriesActions(env, s.sent[|s.sent| - 1].frame, |ns|, n, Opened(env, input).max)
  {
    hide Legal, After, ApplyGreet, FeedsTo, ClausesFit, DisconnectCount, Answer, Idle, DecodeFrame, CarriesActions;
    var s0 := Initial(env, input);
    var g := Opened(env, input);
    var mid := FeedsBefore(g.afterHello, g.max, ns, n, rest);
    OpenedIsIdle(env, input);
    EmptyRun(env, s0);
    Extend(env, s0, [], Greet);
    Extend(env, s0, [] + [Greet], Drained);
    run := [] + [Greet] + [Drained];
    var s := g.(body := Acquiring);
    var serving := ServeAll(env, s, ns, mid);
    assert [] + ns == ns;
    LegalConcat(env, s0, run, serving);
    run := run + serving;
    var last := AnswerNext(env, After(env, s0, run), n);
    LegalConcat(env, s0, run, last);
    run := run + last;
  }

  lemma AnswerNext(env: Env, s: State, n: Arrival) returns (run: seq<Event>)
    requires Idle(s) && NextIs(s.input, s.max, n) && Answer(env, |s.notifies|, n, s.max).Ok?
    ensures Legal(env, s, run)
    ensures var u := After(env, s, run);
            && u.sent != []
            && u.sent[|u.sent| - 1].origin == FromTask(|s.notifies|)
            && CarriesActions(env, u.sent[|u.sent| - 1].frame, |s.notifies|, n, s.max)
  {
    hide Legal, After, Answer, DecodeFrame, EmptyAckFits, EncodeFrame, CarriesActions, DisconnectCount;
    NextFits(s.input, s.max, n);
    var taking := TakeOne(env, s, n);
    var id := |s.tasks|;
    ReplyCarries(env, Answer(env, id, n, s.max).value, id, n, s.max);
    Extend(env, s, taking, Finish(id));
    run := taking + [Finish(id)];
  }

  // ----- a handler that looks at its messages -----

  function AskMessages(): seq<Message> {
    [Message("m", [Entry("a", Int(1)), Entry("b", Bool(true))])]
  }

  /** A NOTIFY with one message. */
  function Ask(): Frame {
    Construct(1, 1, Payload.Notify(AskMessages()))
  }

  lemma AskFits()
    ensures Sendable(Ask()) && Normal(Ask()) == Ask() && |Code(Ask())| == 21
  {
    hide EncodeMessage, EncodeMetadata;
    MessageVector();
    MetadataVectors();
    assert AskMessages()[1..] == [];
    SignedIdentity(1, TWO_TO_64);
    assert EncodeMessages(AskMessages()).value == EncodeMessage(AskMessages()[0]).value + [];
  }

  lemma OneActionFits(budget: int)
    requires budget >= 7
    ensures Salvage([SetVar(Session, "x", Int(1))], budget) == [SetVar(Session, "x", Int(1))]
  {
    hide EncodeAction, Keep, Pick;
    var actions := [SetVar(Session, "x", Int(1))];
    ActionVectors();
    assert actions[1..] == [];
    assert EncodeActions(actions).value == EncodeAction(actions[0]).value + [];
    SalvageWhole(actions, budget);
  }

  lemma AskArrives(env: Env)
    requires Ready(env)
    ensures var n := Arrival(Ask().meta, AskMessages(), 17);
            NextIs(Code(Ask()), PEER_MAX, n) && FeedsTo(Code(Ask()), PEER_MAX, [n], [])
  {
    hide DecodeFrame, Code, EncodeFrame;
    AskFits();
    StreamDecodes(env, 1, Ask());
    var n := Arrival(Ask().meta, AskMessages(), 17);
    assert [n][1..] == [] && Code(Ask())[21..] == [];
  }

  /** A first NOTIFY without messages, then one that asks. */
  function Asked(): (ns: seq<Arrival>) {
    [Arrival(Normal(PeerNotify(1)).meta, [], if |Code(PeerNotify(1))| >= 4 then |Code(PeerNotify(1))| - 4 else 0),
     Arrival(Ask().meta, AskMessages(), 17)]
  }

  lemma AskedIsFed(env: Env)
    requires Ready(env)
    ensures FeedsTo(Code(PeerNotify(1)) + Code(Ask()), PEER_MAX, Asked(), [])
  {
    hide DecodeFrame, Code, EncodeFrame, Normal, PeerNotify, Ask;
    AskFits();
    AskArrives(env);
    StreamDecodes(env, 1, Ask());
    DecodedIsLong(1);
    PeerNotifyFits(1);
    assert Asked()[1..] == [Asked()[1]];
  }

  /** The action a handler returns for the messages of the second NOTIFY reaches the wire. */
  lemma ActionReachesWire(env: Env)
    requires Ready(env) && env.maxConcurrent >= 1
    requires env.handler(1, AskMessages()) == [SetVar(Session, "x", Int(1))]
    ensures exists run :: Legal(env, Initial(env, PeerStream(1, Ask())), run)
                          && var sent := After(env, Initial(env, PeerStream(1, Ask())), run).sent;
                             && sent != []
                             && sent[|sent| - 1].frame == Construct(1, 1, Ack([SetVar(Session, "x", Int(1))]))
  {
    hide Legal, After, FeedsTo, DecodeFrame, Code, EncodeFrame, PeerStream, PeerNotify, Normal, ApplyGreet, Answer,
         Salvage, HelloReply, EmptyAckFits, Asked;
    AskFits();
    AskedIsFed(env);
    GreetPeer(env, 1, Ask());
    AskArrives(env);
    var n := Arrival(Ask().meta, AskMessages(), 17);
    NextFits(Code(Ask()), PEER_MAX, n);
    ReplyFailsJustly(env, 1, n, PEER_MAX);
    assert Asked() == [Asked()[0]] + [n] by {
      AskedParts(n);
    }
    var run := AnswerIsReachable(env, PeerStream(1, Ask()), [Asked()[0]], n, []);
    SmallIds();
    OneActionFits(PEER_MAX - 7);
  }

  lemma AskedParts(n: Arrival)
    requires n == Arrival(Ask().meta, AskMessages(), 17)
    ensures |Asked()| == 2 && Asked()[1] == n
  {
  }

  lemma SmallIds()
    ensures |Varint(1)| == 1
  {
  }
}
