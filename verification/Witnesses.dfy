/** Concrete runs that show where the safety results are tight. */
module Witnesses {
  import opened Results
  import opened Bytes
  import opened Varints
  import opened DataTypes
  import opened Payloads
  import opened SpopLists
  import opened Frames
  import opened Acks
  import opened Disconnects
  import opened Configurations
  import opened Sessions
  import opened SlotAccounting
  import opened Outputs
  import opened SerialOrder
  import opened Histories
  import opened Feeds
  import opened Uniqueness
  import opened DisconnectRuns
  import opened SecondDisconnects
  import opened Progress
  import opened Runs

  const PEER_MAX := 4096

  function PeerHello(): Frame {
    Construct(0, 0, HaproxyHello([SPOE_VERSION], Int(PEER_MAX), [PIPELINING], Null, Bool(false)))
  }

  function PeerNotify(id: nat): Frame {
    Construct(id, 1, Payload.Notify([]))
  }

  function PeerBye(): Frame {
    Construct(0, 0, Disconnect(false, Int(NORMAL), Str("")))
  }

  // ----- the frames fit -----

  lemma ShortPair(key: string, value: Value)
    requires IsLatin1(key) && |key| < 240
    requires || value.Bool?
             || (value.Int? && 0 <= value.n < TWO_TO_63)
             || (value.Str? && IsLatin1(value.s) && |value.s| < 240)
    ensures var r := EncodePair(key, value);
            r.Ok? && |r.value| <= |key| + 12 + if value.Str? then |value.s| else 0
  {
    if value.Int? {
      Varint64Length(value.n % TWO_TO_64);
    }
  }

  lemma ItemList(item: string)
    requires CleanItem(item)
    ensures ToList([item]) == item && Clean([item])
  {
    StripTrims(item);
    assert Stripped([item]) == [item];
  }

  lemma VersionIsClean()
    ensures CleanItem(SPOE_VERSION)
  {
    var v := SPOE_VERSION;
    assert |v| == 3 && !IsSpace(v[0]) && !IsSpace(v[2]);
  }

  lemma {:induction false} ShortEntries(d: seq<Entry>, bound: nat)
    requires forall i | 0 <= i < |d| ::
               && EncodePair(d[i].key, d[i].value).Ok?
               && |EncodePair(d[i].key, d[i].value).value| <= bound
    ensures EncodeEntries(d).Ok? && |EncodeEntries(d).value| <= |d| * bound
  {
    hide EncodePair;
    if d != [] {
      ShortEntries(d[1..], bound);
      assert |d| * bound == |d[1..]| * bound + bound;
    }
  }

  lemma PeerHelloFits()
    ensures EncodeFrame(PeerHello(), PEER_MAX).Ok? && Faithful(PeerHello())
  {
    hide EncodePair, EncodeEntries, Varint, ToList, Clean;
    VersionIsClean();
    PipeliningIsClean();
    ItemList(SPOE_VERSION);
    ItemList(PIPELINING);
    var d := HelloEntries(PeerHello().payload);
    ShortPair("supported-versions", Str(SPOE_VERSION));
    ShortPair("max-frame-size", Int(PEER_MAX));
    ShortPair("capabilities", Str(PIPELINING));
    ShortPair("healthcheck", Bool(false));
    ShortEntries(d, 40);
    SmallVarints(0);
  }

  lemma HelloReplyFits()
    ensures EncodeFrame(HelloReply(PEER_MAX, [PIPELINING]), PEER_MAX).Ok?
  {
    hide EncodePair, EncodeEntries, Varint, ToList;
    PipeliningIsClean();
    ItemList(PIPELINING);
    var d := AgentHelloEntries(HelloReply(PEER_MAX, [PIPELINING]).payload);
    ShortPair("version", Str(SPOE_VERSION));
    ShortPair("max-frame-size", Int(PEER_MAX));
    ShortPair("capabilities", Str(PIPELINING));
    ShortEntries(d, 40);
    SmallVarints(0);
  }

  lemma PeerNotifyFits(id: nat)
    requires id < TWO_TO_64
    ensures EncodeFrame(PeerNotify(id), PEER_MAX).Ok?
    ensures Normal(PeerNotify(id)).payload == Payload.Notify([])
  {
    hide Varint;
    Varint64Length(id);
    Varint64Length(1);
  }

  lemma PeerByeFits()
    ensures EncodeFrame(PeerBye(), PEER_MAX).Ok? && Faithful(PeerBye())
  {
    hide EncodePair, EncodeEntries, Varint;
    ShortPair("status-code", Int(NORMAL));
    ShortPair("message", Str(""));
    ShortEntries(DisconnectEntries(PeerBye().payload), 40);
    SmallVarints(0);
  }

  // ----- the runs -----

  function Code(f: Frame): bytes {
    var r := EncodeFrame(f, PEER_MAX);
    if r.Ok? then r.value else []
  }

  /** HELLO, one NOTIFY, and one more frame. */
  function PeerStream(id: nat, last: Frame): bytes {
    Code(PeerHello()) + (Code(PeerNotify(id)) + Code(last))
  }

  predicate Ready(env: Env) {
    env.agentMax >= PEER_MAX && ReadsOwnVersion(env.toInt)
  }

  predicate Sendable(f: Frame) {
    EncodeFrame(f, PEER_MAX).Ok?
  }

  lemma StreamDecodes(env: Env, id: nat, last: Frame)
    requires Ready(env) && id < TWO_TO_64 && Sendable(last)
    ensures var rest := Code(PeerNotify(id)) + Code(last);
            && DecodeFrame(PeerStream(id, last), env.agentMax) == Ok((PeerHello(), |Code(PeerHello())|))
            && PeerStream(id, last)[|Code(PeerHello())|..] == rest
            && DecodeFrame(rest, PEER_MAX) == Ok((Normal(PeerNotify(id)), |Code(PeerNotify(id))|))
            && rest[|Code(PeerNotify(id))|..] == Code(last)
            && DecodeFrame(Code(last), PEER_MAX) == Ok((Normal(last), |Code(last)|))
  {
    hide EncodeFrame, DecodeFrame, Normal, Faithful, PeerHello, PeerNotify;
    PeerHelloFits();
    PeerNotifyFits(id);
    FaithfulIsNormal(PeerHello());
    var rest := Code(PeerNotify(id)) + Code(last);
    CodeSize(PeerHello());
    CodeSize(PeerNotify(id));
    CodeSize(last);
    FrameRoundTrip(PeerHello(), PEER_MAX, rest, env.agentMax);
    FrameRoundTrip(PeerNotify(id), PEER_MAX, Code(last), PEER_MAX);
    FrameRoundTrip(last, PEER_MAX, [], PEER_MAX);
    assert Code(last) + [] == Code(last);
  }

  lemma CodeSize(f: Frame)
    requires EncodeFrame(f, PEER_MAX).Ok?
    ensures |EncodeFrame(f, PEER_MAX).value| - 4 <= PEER_MAX
  {
    hide EncodeBody;
  }

  function DispatchRun(): seq<Event> {
    [] + [Greet] + [Drained] + [Acquire] + [Read]
  }

  function OpeningRun(): seq<Event> {
    DispatchRun() + [Start(0)]
  }

  /** The state after the handshake, with one NOTIFY dispatched and a DISCONNECT to come. */
  function DispatchState(env: Env, id: nat, last: Frame): State {
    var rest := Code(PeerNotify(id)) + Code(last);
    var n := Normal(PeerNotify(id));
    State(Code(last), rest, Some(PEER_MAX), PEER_MAX, Acquiring, false, env.maxConcurrent,
          if env.maxConcurrent >= 1 then env.maxConcurrent - 1 else 0,
          [Arrival(n.meta, [], if |Code(PeerNotify(id))| >= 4 then |Code(PeerNotify(id))| - 4 else 0)], [Created],
          false, None, [], InGroup, false,
          [Sent(HelloReply(PEER_MAX, [PIPELINING]), FromHandshake)],
          [] + Code(HelloReply(PEER_MAX, [PIPELINING])), [] + [Began(0)])
  }

  function OpeningState(env: Env, id: nat, last: Frame): State {
    DispatchState(env, id, last).(tasks := [Handling])
  }

  lemma PeerOutcome(env: Env)
    requires Ready(env)
    ensures Outcome(env.agentMax, [SPOE_VERSION], PEER_MAX, [PIPELINING], env.toInt)
            == Negotiated(true, PEER_MAX, [PIPELINING])
  {
    hide Speaks;
    OwnVersionSpeaks(env.toInt);
    assert [SPOE_VERSION][0] == SPOE_VERSION;
    assert [PIPELINING][0] == PIPELINING;
  }

  lemma GreetsPeer(env: Env, s: State, used: nat)
    requires Ready(env) && used <= |s.input|
    requires DecodeFrame(s.input, s.max) == Ok((PeerHello(), used))
    ensures var s1 := s.(input := s.input[used..], afterHello := s.input[used..], peerMax := Some(PEER_MAX),
                         max := PEER_MAX, limit := env.maxConcurrent, free := env.maxConcurrent);
            ApplyGreet(env, s) == SendFromBody(s1, HelloReply(PEER_MAX, [PIPELINING]), FromHandshake, ThenLoop)
  {
    hide DecodeFrame, HelloReply, Outcome, SendFromBody, ErrorDisconnect;
    PeerOutcome(env);
  }

  lemma GreetPeer(env: Env, id: nat, last: Frame)
    requires Ready(env) && id < TWO_TO_64 && Sendable(last)
    ensures var s := ApplyGreet(env, Initial(env, PeerStream(id, last)));
            var rest := Code(PeerNotify(id)) + Code(last);
            s == State(rest, rest, Some(PEER_MAX), PEER_MAX, Draining(ThenLoop), false, env.maxConcurrent,
                       env.maxConcurrent, [], [], false, None, [], InGroup, false,
                       [Sent(HelloReply(PEER_MAX, [PIPELINING]), FromHandshake)],
                       [] + Code(HelloReply(PEER_MAX, [PIPELINING])), [])
  {
    hide DecodeFrame, EncodeFrame, HelloReply, PeerStream, PeerHello, PeerNotify, Code, Normal, SendFromBody,
         ApplyGreet;
    StreamDecodes(env, id, last);
    var rest := Code(PeerNotify(id)) + Code(last);
    GreetsPeer(env, Initial(env, PeerStream(id, last)), |Code(PeerHello())|);
    var s1 := Initial(env, rest).(afterHello := rest, peerMax := Some(PEER_MAX), max := PEER_MAX,
                                  limit := env.maxConcurrent, free := env.maxConcurrent);
    SendHello(s1);
  }

  lemma SendHello(s: State)
    requires s.max == PEER_MAX && !s.closing
    ensures SendFromBody(s, HelloReply(PEER_MAX, [PIPELINING]), FromHandshake, ThenLoop)
            == s.(sent := s.sent + [Sent(HelloReply(PEER_MAX, [PIPELINING]), FromHandshake)],
                  wire := s.wire + Code(HelloReply(PEER_MAX, [PIPELINING])), body := Draining(ThenLoop))
  {
    hide EncodeFrame, HelloReply;
    HelloReplyFits();
  }

  lemma OwnVersionSpeaks(toInt: IntParser)
    requires ReadsOwnVersion(toInt)
    ensures Speaks(SPOE_VERSION, toInt)
  {
    OwnVersion(toInt);
  }

  lemma Dispatching(env: Env, id: nat, last: Frame)
    requires Ready(env) && id < TWO_TO_64 && Sendable(last) && env.maxConcurrent >= 1
    ensures var s0 := Initial(env, PeerStream(id, last));
            Legal(env, s0, DispatchRun()) && After(env, s0, DispatchRun()) == DispatchState(env, id, last)
  {
    hide DecodeFrame, EncodeFrame, HelloReply, Normal, Code, ApplyGreet, Legal, After, PeerStream, PeerNotify;
    var s0 := Initial(env, PeerStream(id, last));
    EmptyRun(env, s0);
    Extend(env, s0, [], Greet);
    GreetPeer(env, id, last);
    Extend(env, s0, [] + [Greet], Drained);
    Extend(env, s0, [] + [Greet] + [Drained], Acquire);
    StreamDecodes(env, id, last);
    DecodedIsLong(id);
    assert Normal(PeerNotify(id)).payload == Payload.Notify([]) by {
      PeerNotifyFits(id);
    }
    Extend(env, s0, [] + [Greet] + [Drained] + [Acquire], Read);
  }

  lemma Opening(env: Env, id: nat, last: Frame)
    requires Ready(env) && id < TWO_TO_64 && Sendable(last) && env.maxConcurrent >= 1
    ensures var s0 := Initial(env, PeerStream(id, last));
            Legal(env, s0, OpeningRun()) && After(env, s0, OpeningRun()) == OpeningState(env, id, last)
  {
    hide HelloReply, Normal, Code, Legal, After, PeerStream, PeerNotify, DispatchRun;
    Dispatching(env, id, last);
    Extend(env, Initial(env, PeerStream(id, last)), DispatchRun(), Start(0));
  }

  /** What a leak takes: one task that fails, and one dispatched before the group notices. */
  function LeakRun(): seq<Event> {
    [] + [HandlerFails(0, Foreign)] + [Acquire] + [Read] + [NoticeFailure] + [Event.Cancelled(1)]
  }

  lemma NotifyDecodes()
    ensures var code := Code(PeerNotify(1));
            && |code| > 4
            && DecodeFrame(code, PEER_MAX) == Ok((Normal(PeerNotify(1)), |code|))
            && Normal(PeerNotify(1)).payload == Payload.Notify([])
  {
    hide EncodeFrame, DecodeFrame, Normal, PeerNotify;
    PeerNotifyFits(1);
    CodeSize(PeerNotify(1));
    FrameRoundTrip(PeerNotify(1), PEER_MAX, [], PEER_MAX);
    assert Code(PeerNotify(1)) + [] == Code(PeerNotify(1));
  }

  lemma ReadNotify(s: State, f: Frame)
    requires |s.input| > 4 && DecodeFrame(s.input, s.max) == Ok((f, |s.input|))
    requires f.payload == Payload.Notify([])
    ensures ApplyRead(s) == Dispatch(s.(input := []), Arrival(f.meta, [], |s.input| - 4))
  {
    hide DecodeFrame, SendFromBody, Dispatch, ErrorDisconnect, DisconnectFrame;
    assert s.input[|s.input|..] == [];
  }

  lemma FailThenDispatch(env: Env, s: State)
    requires s.phase.InGroup? && s.body == Acquiring && s.tasks == [Handling] && |s.notifies| == 1
    requires s.input == Code(PeerNotify(1)) && s.max == PEER_MAX
    ensures var run := [] + [HandlerFails(0, Foreign)] + [Acquire] + [Read];
            && Legal(env, s, run)
            && var u := After(env, s, run);
               && u.phase.InGroup? && u.aborting == s.aborting && u.failures == s.failures + [Failure(0, Foreign)]
               && u.tasks == [Ended(true, false), Created] && |u.notifies| == 2
               && u.marks == s.marks + [Freed(0)] + [Began(1)]
  {
    hide Legal, After, Code, DecodeFrame, Normal, PeerNotify, ApplyRead, ApplyGreet, ApplyFinish, ApplyCancelled,
         SendFromClause;
    EmptyRun(env, s);
    Extend(env, s, [], HandlerFails(0, Foreign));
    Extend(env, s, [] + [HandlerFails(0, Foreign)], Acquire);
    var run := [] + [HandlerFails(0, Foreign)] + [Acquire];
    NotifyDecodes();
    ReadNotify(After(env, s, run), Normal(PeerNotify(1)));
    Extend(env, s, run, Read);
  }

  lemma LeakFrom(env: Env, s: State)
    requires s.phase.InGroup? && s.body == Acquiring && !s.aborting && s.failures == []
    requires |s.notifies| == 1 && s.tasks == [Handling] && s.marks == [] + [Began(0)]
    requires s.input == Code(PeerNotify(1)) && s.max == PEER_MAX
    ensures Legal(env, s, LeakRun())
    ensures var u := After(env, s, LeakRun());
            u.tasks == [Ended(true, false), Ended(false, false)]
            && u.marks == [] + [Began(0)] + [Freed(0)] + [Began(1)]
  {
    hide Legal, After, Code, PeerNotify;
    FailThenDispatch(env, s);
    var run := [] + [HandlerFails(0, Foreign)] + [Acquire] + [Read];
    Extend(env, s, run, NoticeFailure);
    Extend(env, s, run + [NoticeFailure], Event.Cancelled(1));
  }

  /** A slot can be lost, even the only one: a task cancelled before its first step never reaches its
      `finally`. */
  lemma LeakHappens(env: Env)
    requires Ready(env) && env.maxConcurrent >= 1
    ensures var s0 := Initial(env, PeerStream(1, PeerNotify(1)));
            var run := OpeningRun() + LeakRun();
            && Legal(env, s0, run)
            && var s := After(env, s0, run);
               s.tasks == [Ended(true, false), Ended(false, false)] && FreedCount(s.marks, 1) == 0
  {
    hide HelloReply, Code, Normal, Legal, After, PeerStream, PeerNotify, OpeningRun, LeakRun;
    var s0 := Initial(env, PeerStream(1, PeerNotify(1)));
    PeerNotifyFits(1);
    Opening(env, 1, PeerNotify(1));
    LeakFrom(env, After(env, s0, OpeningRun()));
    LegalConcat(env, s0, OpeningRun(), LeakRun());
    MarkAppend([], Began(0), 1);
    MarkAppend([] + [Began(0)], Freed(0), 1);
    MarkAppend([] + [Began(0)] + [Freed(0)], Began(1), 1);
    NothingFreed();
  }

  lemma NothingFreed()
    ensures FreedCount([], 1) == 0
  {
  }

  lemma DecodedIsLong(id: nat)
    requires id < TWO_TO_64
    ensures |Code(PeerNotify(id))| > 4
  {
    hide EncodeFrame, DecodeFrame, Normal;
    PeerNotifyFits(id);
    CodeSize(PeerNotify(id));
    FrameRoundTrip(PeerNotify(id), PEER_MAX, [], PEER_MAX);
  }

  /** An ACK on the wire behind the reader's own disconnect. */
  predicate AckBehindDisconnect(sent: seq<Sent>) {
    exists j, k | 0 <= j < k < |sent| :: sent[j].origin == FromReader && sent[k].origin.FromTask?
  }

  lemma ShortDisconnectFits(code: int, text: string)
    requires IsDisconnectCode(code) && IsLatin1(text) && |text| <= 256
    ensures EncodeFrame(DisconnectFrame(code, text), PEER_MAX).Ok?
    ensures EncodeFrame(ErrorDisconnect(code, text), PEER_MAX).Ok?
  {
    hide EncodeFrame, Varint, IsLatin1;
    DisconnectIsBounded(code, text, PEER_MAX);
  }

  lemma PeerDisconnectFits()
    ensures EncodeFrame(DisconnectFrame(NORMAL, "Disconnecting normally"), PEER_MAX).Ok?
  {
    hide EncodeFrame, DisconnectFrame, ErrorDisconnect;
    ShortDisconnectFits(NORMAL, "Disconnecting normally");
  }

  lemma ReplyToOne(env: Env)
    requires Ready(env)
    ensures forall actions :: Reply(Normal(PeerNotify(1)).meta, actions, PEER_MAX).Ok?
  {
    hide DecodeFrame, Reply, EmptyAckFits, Code, Varint;
    PeerByeFits();
    StreamDecodes(env, 1, PeerBye());
    AcceptedLeavesRoom(Code(PeerNotify(1)) + Code(PeerBye()), PEER_MAX);
    SignedIdentity(1, TWO_TO_64);
    forall actions
      ensures Reply(Normal(PeerNotify(1)).meta, actions, PEER_MAX).Ok?
    {
      ReplyOutcome(Normal(PeerNotify(1)).meta, actions, PEER_MAX);
    }
  }

  lemma ReadBye(s: State)
    requires s.input == Code(PeerBye()) && s.max == PEER_MAX && !s.closing
    ensures var f := DisconnectFrame(NORMAL, "Disconnecting normally");
            EncodeFrame(f, s.max).Ok?
            && ApplyRead(s) == Write(s.(input := []), f, FromReader).(body := Draining(ThenClose))
  {
    hide EncodeFrame, DecodeFrame, Normal, PeerBye, DisconnectFrame;
    PeerByeFits();
    CodeSize(PeerBye());
    FrameRoundTrip(PeerBye(), PEER_MAX, [], PEER_MAX);
    assert s.input + [] == s.input;
    ByeIsDisconnect();
    PeerDisconnectFits();
  }

  lemma ByeIsDisconnect()
    ensures Normal(PeerBye()).payload.Disconnect?
  {
  }

  function OvertakingRun(): seq<Event> {
    [] + [Acquire] + [Read] + [Finish(0)]
  }

  lemma FinishWrites(env: Env, s: State)
    requires Ready(env) && s.max == PEER_MAX && !s.closing
    requires |s.tasks| == 1 && |s.notifies| == 1 && s.notifies[0].meta == Normal(PeerNotify(1)).meta
    ensures var u := ApplyFinish(env, s, 0);
            |u.sent| == |s.sent| + 1 && u.sent[..|s.sent|] == s.sent && u.sent[|s.sent|].origin == FromTask(0)
  {
    hide EncodeFrame, Normal, PeerNotify, Reply;
    ReplyToOne(env);
  }

  lemma ByeAnswered(env: Env, s: State)
    requires s.phase.InGroup? && s.body == Acquiring && s.free > 0 && !s.closing && |s.sent| == 1
    requires s.input == Code(PeerBye()) && s.max == PEER_MAX
    ensures var run := [] + [Acquire] + [Read];
            && Legal(env, s, run)
            && var u := After(env, s, run);
               && u.phase.InGroup? && !u.closing && u.max == s.max && u.tasks == s.tasks && u.notifies == s.notifies
               && |u.sent| == 2 && u.sent[1].origin == FromReader
  {
    hide Legal, After, EncodeFrame, Code, PeerBye, DisconnectFrame, ApplyRead, ApplyGreet, ApplyFinish, ApplyCancelled,
         SendFromClause;
    EmptyRun(env, s);
    Extend(env, s, [], Acquire);
    ReadBye(After(env, s, [] + [Acquire]));
    Extend(env, s, [] + [Acquire], Read);
  }

  lemma OvertakeFrom(env: Env, s: State)
    requires Ready(env) && s.phase.InGroup? && s.body == Acquiring && s.free > 0 && !s.closing && |s.sent| == 1
    requires s.tasks == [Handling] && |s.notifies| == 1 && s.notifies[0].meta == Normal(PeerNotify(1)).meta
    requires s.input == Code(PeerBye()) && s.max == PEER_MAX
    ensures Legal(env, s, OvertakingRun()) && AckBehindDisconnect(After(env, s, OvertakingRun()).sent)
  {
    hide Legal, After, Code, Normal, PeerNotify, PeerBye, ApplyFinish;
    ByeAnswered(env, s);
    var u := After(env, s, [] + [Acquire] + [Read]);
    FinishWrites(env, u);
    Extend(env, s, [] + [Acquire] + [Read], Finish(0));
    var sent := After(env, s, OvertakingRun()).sent;
    assert sent[1] == u.sent[1] && sent[2].origin == FromTask(0);
  }

  lemma OvertakenDisconnect(env: Env)
    requires Ready(env) && env.maxConcurrent >= 2
    ensures var s0 := Initial(env, PeerStream(1, PeerBye()));
            var run := OpeningRun() + OvertakingRun();
            Legal(env, s0, run) && AckBehindDisconnect(After(env, s0, run).sent)
  {
    hide HelloReply, Normal, Code, Legal, After, PeerStream, PeerNotify, PeerBye, OpeningRun, OvertakingRun,
         AckBehindDisconnect, EncodeFrame;
    var s0 := Initial(env, PeerStream(1, PeerBye()));
    PeerByeFits();
    Opening(env, 1, PeerBye());
    OvertakeFrom(env, After(env, s0, OpeningRun()));
    LegalConcat(env, s0, OpeningRun(), OvertakingRun());
  }

  /** Whether an ACK can follow the agent's disconnect is decided by the configured concurrency
      alone: it can exactly when two NOTIFYs may be in flight. */
  lemma DisconnectIsLastExactly(env: Env)
    requires Ready(env)
    ensures env.maxConcurrent >= 2 <==>
            exists input, run :: Legal(env, Initial(env, input), run)
                                 && AckBehindDisconnect(After(env, Initial(env, input), run).sent)
  {
    hide Legal, After, AckBehindDisconnect, Ready, OpeningRun, PeerStream;
    if env.maxConcurrent >= 2 {
      OvertakenDisconnect(env);
    } else {
      forall input, run | Legal(env, Initial(env, input), run)
        ensures !AckBehindDisconnect(After(env, Initial(env, input), run).sent)
      {
        GrantedAtMost(env, input);
        SerialRefinement(env, input, run);
        NothingBehind(After(env, Initial(env, input), run).sent);
      }
    }
  }

  lemma GrantedAtMost(env: Env, input: bytes)
    requires env.maxConcurrent <= 1
    ensures Granted(env, input) <= 1
  {
    hide DecodeFrame;
  }

  lemma NothingBehind(sent: seq<Sent>)
    requires NoAckAfterReader(sent)
    ensures !AckBehindDisconnect(sent)
  {
  }

  /** The bound of two disconnects is reached, even with one slot, by every id of 2^63 or more with a
      DISCONNECT behind it. */
  lemma TwoDisconnectsHappen(env: Env, id: nat)
    requires Ready(env) && env.maxConcurrent >= 1
    requires TWO_TO_63 <= id < TWO_TO_64
    ensures InvitesTwo(env, PeerStream(id, PeerBye()))
    ensures exists run :: Legal(env, Initial(env, PeerStream(id, PeerBye())), run)
                          && DisconnectCount(After(env, Initial(env, PeerStream(id, PeerBye())), run).sent) == 2
  {
    hide Legal, After, DisconnectCount, DecodeFrame, EncodeFrame, Code, Normal, PeerStream, PeerNotify, Answer,
         ApplyGreet;
    PeerByeFits();
    GreetPeer(env, id, PeerBye());
    StreamDecodes(env, id, PeerBye());
    HugeIdFails(env, id);
    DecodedIsLong(id);
    var rest := Code(PeerNotify(id)) + Code(PeerBye());
    var n := Arrival(Normal(PeerNotify(id)).meta, [], |Code(PeerNotify(id))| - 4);
    assert [n][1..] == [];
    assert FeedsTo(rest, PEER_MAX, [n], Code(PeerBye()));
    PeerByeEnds();
    assert FeedsToEnd(rest, PEER_MAX, [n]);
    assert Answer(env, 0, [n][0], PEER_MAX).Err?;
    TwoDisconnectsExactly(env, PeerStream(id, PeerBye()));
  }

  lemma PeerByeEnds()
    ensures EndsSession(Code(PeerBye()), PEER_MAX)
  {
    hide DecodeFrame, EncodeFrame, PeerBye;
    PeerByeFits();
    CodeSize(PeerBye());
    FrameRoundTrip(PeerBye(), PEER_MAX, [], PEER_MAX);
    assert Code(PeerBye()) + [] == Code(PeerBye());
    ByeIsDisconnect();
  }

  lemma HugeIdFails(env: Env, id: nat)
    requires TWO_TO_63 <= id < TWO_TO_64
    ensures forall size :: Answer(env, 0, Arrival(Normal(PeerNotify(id)).meta, [], size), PEER_MAX).Err?
    ensures Normal(PeerNotify(id)).payload == Payload.Notify([])
  {
    hide Reply;
    forall size: nat
      ensures Answer(env, 0, Arrival(Normal(PeerNotify(id)).meta, [], size), PEER_MAX).Err?
    {
      NegativeIdIsNeverAnswered(Normal(PeerNotify(id)).meta, env.handler(0, []), PEER_MAX);
    }
  }

  // ----- no slots at all -----

  /** With a concurrency of zero a session with pipelining waits for its first slot forever. */
  lemma DeadlockHappens(env: Env, id: nat)
    requires Ready(env) && env.maxConcurrent == 0 && id < TWO_TO_64
    ensures var s0 := Initial(env, PeerStream(id, PeerBye()));
            var run := [] + [Greet] + [Drained];
            && Legal(env, s0, run)
            && Stuck(After(env, s0, run)) && !Finished(After(env, s0, run))
  {
    hide Legal, After, EncodeFrame, HelloReply, Code, PeerStream, ApplyGreet, Stuck, Count;
    var s0 := Initial(env, PeerStream(id, PeerBye()));
    PeerByeFits();
    EmptyRun(env, s0);
    Extend(env, s0, [], Greet);
    GreetPeer(env, id, PeerBye());
    Extend(env, s0, [] + [Greet], Drained);
    var s := After(env, s0, [] + [Greet] + [Drained]);
    Reached(env, PeerStream(id, PeerBye()), [] + [Greet] + [Drained]);
    SlotPart(env, s);
    StuckExactly(s);
  }

  /** The connection is free of deadlock exactly when the configured concurrency is not zero. */
  lemma NeverStuckExactly(env: Env)
    requires Ready(env)
    ensures env.maxConcurrent > 0 <==>
            forall input, run | Legal(env, Initial(env, input), run) ::
              Stuck(After(env, Initial(env, input), run)) ==> Finished(After(env, Initial(env, input), run))
  {
    hide Legal, After, Stuck, Finished, PeerStream;
    if env.maxConcurrent > 0 {
      forall input, run | Legal(env, Initial(env, input), run)
        ensures Stuck(After(env, Initial(env, input), run)) ==> Finished(After(env, Initial(env, input), run))
      {
        NeverStuck(env, input, run);
      }
    } else {
      DeadlockHappens(env, 0);
    }
  }
}
