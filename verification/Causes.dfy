/** Over whole runs: AGENT_HELLO announces what was negotiated, and every disconnect has its cause. */
module Causes {
  import opened Results
  import opened Bytes
  import opened DataTypes
  import opened Payloads
  import opened SpopLists
  import opened Frames
  import opened Acks
  import opened Disconnects
  import opened Configurations
  import opened Sessions
  import opened SessionCases
  import opened SlotAccounting
  import opened Acknowledgements
  import opened Outputs
  import opened SerialOrder
  import opened Feeds
  import opened Histories
  import opened Losses
  import opened Uniqueness
  import opened Runs
  import opened DisconnectRuns
  import opened SecondDisconnects
  import opened Contents

  // ----- the handshake -----

  /** A number for the frame size, where Python's booleans count as 0 and 1. */
  predicate Announces(v: Value, n: int) {
    v == Int(n) || (v == Bool(false) && n == 0) || (v == Bool(true) && n == 1)
  }

  /** A HELLO the agent can work with: a version 2.x and a positive frame size on both sides. */
  predicate Agreeable(env: Env, p: Payload, size: int) {
    p.HaproxyHello? && 0 < size && 0 < env.agentMax
    && exists i | 0 <= i < |p.versions| :: Speaks(p.versions[i], env.toInt)
  }

  /** AGENT_HELLO as it answers this HELLO: the agent's version, the smaller frame size, and pipelining
      exactly when offered; with it the configured concurrency, without it one. */
  predicate Agreed(env: Env, p: Payload, size: int, s: State, f: Frame)
    requires p.HaproxyHello?
  {
    var offered := exists i | 0 <= i < |p.capabilities| :: p.capabilities[i] == "pipelining";
    && f == Frame(Metadata(Flags(true, false), 0, 0),
                  AgentHello(Str("2.0"), Int(s.max), if offered then ["pipelining"] else []))
    && s.max <= env.agentMax && s.max <= size && (s.max == env.agentMax || s.max == size)
    && s.limit == if offered then env.maxConcurrent else 1
  }

  /** What the agent writes first, by the first frame it reads. */
  predicate FirstAnswer(env: Env, input: bytes, s: State, f: Frame) {
    match DecodeFrame(input, env.agentMax)
    case Err(_) => false
    case Ok((g, _)) =>
      if !g.payload.HaproxyHello? then IsAgentDisconnect(f, 4)
      else
        && s.peerMax.Some?
        && Announces(g.payload.maxFrameSize, s.peerMax.value)
        && if Agreeable(env, g.payload, s.peerMax.value) then Agreed(env, g.payload, s.peerMax.value, s, f)
           else IsAgentDisconnect(f, 101)
  }

  lemma NumberAnnounces(v: Value)
    ensures match Number(v) case Some(n) => Announces(v, n) case None => forall n: int :: !Announces(v, n)
  {
  }

  /** A healthcheck flag that is not set: absent, false, zero or empty. */
  predicate NotSet(v: Value) {
    v == Null || v == Bool(false) || v == Int(0) || v == Str("") || v == Binary([])
  }

  /** The session goes on exactly behind AGENT_HELLO to a HELLO that is no healthcheck. */
  predicate GoesOn(env: Env, input: bytes, s: State) {
    match DecodeFrame(input, env.agentMax)
    case Err(_) => false
    case Ok((g, _)) =>
      g.payload.HaproxyHello? && NotSet(g.payload.healthcheck)
      && s.peerMax.Some? && Agreeable(env, g.payload, s.peerMax.value)
  }

  lemma SendsOne()
    ensures forall s: State, f, origin, next {:trigger SendFromBody(s, f, origin, next)} ::
              s.sent == [] ==>
                var u := SendFromBody(s, f, origin, next);
                && u.max == s.max && u.limit == s.limit && u.peerMax == s.peerMax
                && ((u.sent == [] && u.body == Stopped) || (u.sent == [Sent(f, origin)] && u.body == Draining(next)))
  {
    hide EncodeFrame;
  }

  /** The answer to a HELLO, if it is written at all, is that one. */
  lemma HelloOutcomes(env: Env, s: State, g: Frame, used: nat)
    requires DecodeFrame(s.input, s.max) == Ok((g, used)) && used <= |s.input|
    requires s.max == env.agentMax && s.sent == [] && g.payload.HaproxyHello?
    ensures var u := ApplyGreet(env, s);
            && |u.sent| <= 1
            && (|u.sent| == 1 ==>
                  && u.sent[0].origin == FromHandshake
                  && FirstAnswer(env, s.input, u, u.sent[0].frame)
                  && (u.body == Draining(ThenLoop) <==> GoesOn(env, s.input, u)))
  {
    hide DecodeFrame, SendFromBody, ErrorDisconnect, IsAgentDisconnect, Speaks;
    SendsOne();
    ErrorDisconnectIs(SERVER_INCOMPATIBLE, "Handshake failed to find compatibility.");
    NumberAnnounces(g.payload.maxFrameSize);
    assert PIPELINING in g.payload.capabilities <==>
           exists i | 0 <= i < |g.payload.capabilities| :: g.payload.capabilities[i] == "pipelining";
  }

  lemma GreetOutcome(env: Env, s: State)
    requires s.max == env.agentMax && s.sent == []
    ensures var u := ApplyGreet(env, s);
            && |u.sent| <= 1
            && (|u.sent| == 1 ==>
                  && u.sent[0].origin == FromHandshake
                  && FirstAnswer(env, s.input, u, u.sent[0].frame)
                  && (u.body == Draining(ThenLoop) <==> GoesOn(env, s.input, u)))
            && (u.sent == [] ==> u.body == Stopped)
            && match DecodeFrame(s.input, s.max)
               case Err(e) => u.raised == Some(if e == EndOfStream then Protocol else Meaning(e))
               case Ok(_) => true
  {
    hide DecodeFrame, SendFromBody, ErrorDisconnect, IsAgentDisconnect, FrameName, GreetWith, Agreed, Agreeable;
    SendsOne();
    match DecodeFrame(s.input, s.max) {
      case Err(_) =>
      case Ok((g, used)) =>
        var p := g.payload;
        if p.HaproxyHello? {
          HelloOutcomes(env, s, g, used);
          assert ApplyGreet(env, s).sent == [] ==> ApplyGreet(env, s).body == Stopped by {
            GreetStops(env, s);
          }
        } else {
          OtherFirst(env, s, g, used);
        }
    }
  }

  lemma GreetStops(env: Env, s: State)
    requires s.sent == []
    ensures ApplyGreet(env, s).sent == [] ==> ApplyGreet(env, s).body == Stopped
  {
    hide DecodeFrame, SendFromBody, ErrorDisconnect, HelloReply, Outcome;
    SendsOne();
  }

  lemma OtherFirst(env: Env, s: State, g: Frame, used: nat)
    requires DecodeFrame(s.input, s.max) == Ok((g, used)) && used <= |s.input|
    requires s.max == env.agentMax && s.sent == [] && !g.payload.HaproxyHello?
    ensures var u := ApplyGreet(env, s);
            && |u.sent| <= 1
            && (|u.sent| == 1 ==>
                  && u.sent[0].origin == FromHandshake
                  && FirstAnswer(env, s.input, u, u.sent[0].frame)
                  && u.body != Draining(ThenLoop))
            && (u.sent == [] ==> u.body == Stopped)
  {
    hide DecodeFrame, SendFromBody, ErrorDisconnect, IsAgentDisconnect, FrameName;
    SendsOne();
    ErrorDisconnectIs(INVALID_FRAME_RECEIVED, "Expected HAPROXY-HELLO, received " + FrameName(g.payload));
  }

  // ----- what the first frame leaves behind -----

  /** The session is the one the first frame opens, on a transport still open then; where nothing was
      answered, the exception is that of the first frame, or the loss of the connection. */
  predicate SessionInv(env: Env, input: bytes, s: State) {
    var g := Opened(env, input);
    && (s.body == Greeting ==> s == Initial(env, input).(closing := s.closing))
    && (s.sent != [] && s.sent[0].origin == FromHandshake ==>
          && g.sent == [s.sent[0]]
          && s.afterHello == g.afterHello && s.max == g.max && s.limit == g.limit && s.peerMax == g.peerMax)
    && (s.body != Greeting && (s.sent == [] || s.sent[0].origin != FromHandshake) ==>
          || s.raised == Some(Closing)
          || s.raised == Some(Connection)
          || (g.body == Stopped && s.raised == g.raised && g.sent == []))
  }

  lemma SessionInit(env: Env, input: bytes)
    ensures SessionInv(env, input, Initial(env, input))
  {
    hide ApplyGreet;
  }

  lemma GreetClosed(env: Env, input: bytes)
    ensures var s := Initial(env, input).(closing := true);
            var u := ApplyGreet(env, s);
            var g := Opened(env, input);
            && u.sent == [] && u.body == Stopped
            && (u.raised == Some(Closing) || (g.body == Stopped && u.raised == g.raised && g.sent == []))
  {
    hide DecodeFrame, SendFromBody, ErrorDisconnect, HelloReply, Outcome;
    ClosedStops();
  }

  lemma SessionKeeps(env: Env, input: bytes, s: State, u: State)
    requires SessionInv(env, input, s) && s.body != Greeting && u.body != Greeting
    requires s.sent <= u.sent && (s.sent == [] && u.sent != [] ==> u.sent[0].origin != FromHandshake)
    requires u.afterHello == s.afterHello && u.max == s.max && u.limit == s.limit && u.peerMax == s.peerMax
    requires u.raised == s.raised || u.raised == Some(Closing) || u.raised == Some(Connection)
             || (s.sent != [] && s.sent[0].origin == FromHandshake)
    ensures SessionInv(env, input, u)
  {
    hide Opened;
    assert s.sent != [] ==> u.sent[0] == s.sent[0];
  }

  lemma SessionStepGreet(env: Env, input: bytes, s: State)
    requires SessionInv(env, input, s) && s.body == Greeting
    ensures SessionInv(env, input, ApplyGreet(env, s))
  {
    hide ApplyGreet, FirstAnswer, GoesOn;
    if s.closing {
      GreetClosed(env, input);
    } else {
      GreetOutcome(env, s);
    }
    assert ApplyGreet(env, s).body != Greeting by {
      GreetEndsTurn(env, s);
    }
  }

  lemma ReadGrows(s: State)
    ensures var u := ApplyRead(s);
            && s.sent <= u.sent && u.body != Greeting
            && u.afterHello == s.afterHello && u.max == s.max && u.limit == s.limit && u.peerMax == s.peerMax
  {
    hide ApplyRead, SendFromBody, Faithful, Fits;
    var s1, move := ReadCases(s);
    SendsGrow();
  }

  lemma SendsGrow()
    ensures forall s: State, f, origin, next {:trigger SendFromBody(s, f, origin, next)} ::
              var u := SendFromBody(s, f, origin, next);
              && s.sent <= u.sent && u.body != Greeting
              && u.afterHello == s.afterHello && u.max == s.max && u.limit == s.limit && u.peerMax == s.peerMax
  {
    hide EncodeFrame;
  }

  lemma SessionStepTask(env: Env, input: bytes, s: State, e: Event)
    requires SessionInv(env, input, s) && s.body != Greeting && IsTaskEvent(e) && Enabled(s, e)
    requires s.sent != []
    ensures SessionInv(env, input, Apply(env, s, e))
  {
    hide Apply, SessionInv, IsReply, ReplyFails, EncodeFrame;
    TaskKeeps(env, s, e);
    var move := TaskCases(env, s, e);
    SessionKeeps(env, input, s, Apply(env, s, e));
  }

  lemma SessionStepClause(env: Env, input: bytes, s: State, code: int, text: string, phase: Phase)
    requires SessionInv(env, input, s) && s.body != Greeting
    ensures SessionInv(env, input, SendFromClause(s, code, text).(phase := phase))
  {
    hide EncodeFrame, ErrorDisconnect, SessionInv;
    SessionKeeps(env, input, s, SendFromClause(s, code, text).(phase := phase));
  }

  lemma SessionStep(env: Env, input: bytes, s: State, e: Event)
    requires SessionInv(env, input, s) && OrderInv(s) && SlotInv(s) && Enabled(s, e)
    ensures SessionInv(env, input, Apply(env, s, e))
  {
    hide Count, ApplyGreet, ApplyRead, ApplyFinish, ApplyCancelled, SendFromClause, SessionInv;
    if e.Greet? {
      SessionStepGreet(env, input, s);
    } else if s.body == Greeting {
      AtGreeting(env, input, s, e);
    } else if e.Read? {
      ReadGrows(s);
      SessionKeeps(env, input, s, ApplyRead(s));
    } else if IsTaskEvent(e) {
      SessionStepTask(env, input, s, e);
    } else if e.TooBigClause? {
      SessionStepClause(env, input, s, FRAME_TOO_BIG, e.text, InClauses(false, s.phase.protocol));
    } else if e.ProtocolClause? {
      SessionStepClause(env, input, s, PROTOCOL_ERROR, e.text, InClauses(false, false));
    } else {
      SessionKeeps(env, input, s, Apply(env, s, e));
    }
  }

  /** Before the first frame is read only the transport can go. */
  lemma AtGreeting(env: Env, input: bytes, s: State, e: Event)
    requires SessionInv(env, input, s) && s.body == Greeting && Enabled(s, e) && !e.Greet?
    ensures SessionInv(env, input, Apply(env, s, e))
  {
    hide Opened;
  }

  // ----- the reader -----

  /** The exception that this end of the stream raises in the reader. */
  predicate Raises(stream: bytes, max: int, e: Exc) {
    match DecodeFrame(stream, max)
    case Err(error) => e == Meaning(error)
    case Ok((g, _)) => !g.payload.Notify? && e == TooBig
  }

  /** Behind the NOTIFYs dispatched stands a frame that this disconnect answers. */
  ghost predicate ReaderSaid(s: State, f: Frame) {
    exists rest :: FeedsTo(s.afterHello, s.max, s.notifies, rest)
                   && DecodeFrame(rest, s.max).Ok? && Rejects(DecodeFrame(rest, s.max).value.0, f)
  }

  /** Behind the NOTIFYs dispatched stands what raises this exception. */
  ghost predicate ReaderRaised(s: State, e: Exc) {
    exists rest :: FeedsTo(s.afterHello, s.max, s.notifies, rest) && Raises(rest, s.max, e)
  }

  predicate Reported(e: Option<Exc>) {
    e == Some(TooBig) || e == Some(Protocol) || e == Some(Foreign)
  }

  ghost predicate ReaderInv(s: State) {
    && (forall k | 0 <= k < |s.sent| && s.sent[k].origin == FromReader :: ReaderSaid(s, s.sent[k].frame))
    && (HelloFirst(s) && Reported(s.raised) ==> ReaderRaised(s, s.raised.value))
  }

  lemma ReaderKeeps(s: State, u: State)
    requires ReaderInv(s) && u.afterHello == s.afterHello && u.max == s.max && u.notifies == s.notifies
    requires s.sent <= u.sent && forall k | |s.sent| <= k < |u.sent| :: u.sent[k].origin != FromReader
    requires s.sent == [] && u.sent != [] ==> u.sent[0].origin != FromHandshake
    requires u.raised == s.raised || !Reported(u.raised)
    ensures ReaderInv(u)
  {
    hide FeedsTo, Raises, Rejects, DecodeFrame;
    forall k | 0 <= k < |u.sent| && u.sent[k].origin == FromReader
      ensures ReaderSaid(u, u.sent[k].frame)
    {
      assert u.sent[k] == s.sent[k];
      assert ReaderSaid(s, s.sent[k].frame);
    }
    if HelloFirst(u) && Reported(u.raised) {
      assert HelloFirst(s);
      assert ReaderRaised(s, s.raised.value);
    }
  }

  lemma ReaderStepRead(s: State)
    requires ReaderInv(s) && FeedInv(s) && OrderInv(s) && SlotInv(s) && Enabled(s, Read)
    ensures ReaderInv(ApplyRead(s))
  {
    hide ApplyRead, FeedsTo, Rejects, DecodeFrame, Count;
    ReadOutcome(s);
    ReadGrows(s);
    var u := ApplyRead(s);
    assert FeedsTo(s.afterHello, s.max, s.notifies, s.input);
    assert forall k | 0 <= k < |s.sent| :: s.sent[k].origin != FromReader;
    ReadNotifies(s);
  }

  /** A read that yields no NOTIFY dispatches none. */
  lemma ReadNotifies(s: State)
    ensures var r := DecodeFrame(s.input, s.max);
            !(r.Ok? && r.value.0.payload.Notify?) ==> ApplyRead(s).notifies == s.notifies
  {
    hide DecodeFrame, SendFromBody, ErrorDisconnect, DisconnectFrame;
    SendAllKeep();
  }

  lemma ReaderStepGreet(env: Env, s: State)
    requires FreshInv(env, s) && s.body == Greeting && s.raised == None
    ensures ReaderInv(ApplyGreet(env, s))
  {
    hide ApplyGreet, FirstAnswer, GoesOn, DecodeFrame;
    GreetOutcome(env, s);
    GreetQuiet(env, s);
    NothingRead(ApplyGreet(env, s));
  }

  /** With the first answer on the wire and nothing raised, or nothing on the wire at all. */
  lemma NothingRead(u: State)
    requires u.sent == [] || (|u.sent| == 1 && u.sent[0].origin == FromHandshake && u.raised == None)
    ensures ReaderInv(u)
  {
    hide ReaderSaid, ReaderRaised;
  }

  /** An answered first frame raises nothing yet. */
  lemma GreetQuiet(env: Env, s: State)
    requires s.max == env.agentMax && s.peerMax == None && s.sent == []
    ensures ApplyGreet(env, s).sent != [] ==> ApplyGreet(env, s).raised == s.raised
  {
    hide ApplyGreet, Faithful, EncodeFrame;
    var s1, move := GreetCases(env, s);
  }

  lemma ReaderStepTask(env: Env, s: State, e: Event)
    requires ReaderInv(s) && s.sent != [] && IsTaskEvent(e) && Enabled(s, e)
    ensures ReaderInv(Apply(env, s, e))
  {
    hide Apply, ReaderInv, IsReply, ReplyFails, EncodeFrame;
    TaskKeeps(env, s, e);
    var move := TaskCases(env, s, e);
    ReaderKeeps(s, Apply(env, s, e));
  }

  lemma ReaderStepClause(s: State, code: int, text: string, phase: Phase)
    requires ReaderInv(s)
    ensures ReaderInv(SendFromClause(s, code, text).(phase := phase))
  {
    hide EncodeFrame, ErrorDisconnect, ReaderInv;
    ReaderKeeps(s, SendFromClause(s, code, text).(phase := phase));
  }

  lemma ReaderStep(env: Env, s: State, e: Event)
    requires ReaderInv(s) && FreshInv(env, s) && FeedInv(s) && OrderInv(s) && SlotInv(s) && Enabled(s, e)
    ensures ReaderInv(Apply(env, s, e))
  {
    hide Count, ApplyGreet, ApplyRead, ApplyFinish, ApplyCancelled, SendFromClause, ReaderInv, FeedInv;
    if e.Greet? {
      assert s.raised == None;
      ReaderStepGreet(env, s);
    } else if e.Read? {
      ReaderStepRead(s);
    } else if IsTaskEvent(e) {
      ReaderStepTask(env, s, e);
    } else if e.TooBigClause? {
      ReaderStepClause(s, FRAME_TOO_BIG, e.text, InClauses(false, s.phase.protocol));
    } else if e.ProtocolClause? {
      ReaderStepClause(s, PROTOCOL_ERROR, e.text, InClauses(false, false));
    } else {
      ReaderKeeps(s, Apply(env, s, e));
    }
  }

  lemma ReaderInit(env: Env, input: bytes)
    ensures ReaderInv(Initial(env, input))
  {
  }

  // ----- the clauses -----

  /** A disconnect of a clause: 3 for a frame too big, 102 for a protocol error of the body or a task. */
  predicate ClauseSaid(s: State, f: Frame) {
    || (IsAgentDisconnect(f, 3) && s.raised == Some(TooBig))
    || (IsAgentDisconnect(f, 102) && ProtocolCause(s))
  }

  predicate ClauseInv(s: State) {
    && (s.phase.InClauses? ==>
          && (s.phase.tooBig ==> s.raised == Some(TooBig))
          && (s.phase.protocol ==> ProtocolCause(s)))
    && forall k | 0 <= k < |s.sent| && s.sent[k].origin == FromClause :: ClauseSaid(s, s.sent[k].frame)
  }

  lemma ClauseInit(env: Env, input: bytes)
    ensures ClauseInv(Initial(env, input))
  {
  }

  lemma ClauseStepWrite(env: Env, s: State, e: Event)
    requires ClauseInv(s) && Enabled(s, e) && (e.TooBigClause? || e.ProtocolClause?)
    ensures ClauseInv(Apply(env, s, e))
  {
    hide IsAgentDisconnect, IsLatin1, ProtocolCause, SendFromClause;
    ClauseOutcome(env, s, e);
    ClauseKeepsSession(s, FRAME_TOO_BIG, e.text);
    ClauseKeepsSession(s, PROTOCOL_ERROR, e.text);
    var u := Apply(env, s, e);
    assert ProtocolCause(s) ==> ProtocolCause(u) by {
      SameCause(s, u);
    }
    forall k | 0 <= k < |u.sent| && u.sent[k].origin == FromClause
      ensures ClauseSaid(u, u.sent[k].frame)
    {
      if k < |s.sent| {
        assert u.sent[k] == s.sent[k];
        assert ClauseSaid(s, s.sent[k].frame);
      }
    }
  }

  lemma SameCause(s: State, u: State)
    requires u.raised == s.raised && u.failures == s.failures
    ensures ProtocolCause(s) <==> ProtocolCause(u)
  {
  }

  /** In the group no clause has written yet. */
  lemma ClauseInGroup(s: State)
    requires s.phase.InGroup? && OrderInv(s)
    ensures ClauseInv(s)
  {
  }

  lemma ClauseStep(env: Env, s: State, e: Event)
    requires ClauseInv(s) && OrderInv(s) && FailureInv(env, s) && Enabled(s, e)
    requires OrderInv(Apply(env, s, e))
    ensures ClauseInv(Apply(env, s, e))
  {
    hide OrderInv, ClauseInv, FailureInv, ApplyGreet, ApplyRead, ApplyFinish, ApplyCancelled, SendFromClause;
    if e.TooBigClause? || e.ProtocolClause? {
      ClauseStepWrite(env, s, e);
    } else if e.LeaveGroup? {
      ClauseStepLeave(env, s);
    } else if e.LoseTransport? {
      ClauseSame(s, s.(closing := true));
    } else {
      StaysInGroup(env, s, e);
      ClauseInGroup(Apply(env, s, e));
    }
  }

  lemma ClauseSame(s: State, u: State)
    requires ClauseInv(s) && u == s.(closing := true)
    ensures ClauseInv(u)
  {
    hide IsAgentDisconnect;
    assert forall f :: ClauseSaid(s, f) ==> ClauseSaid(u, f);
  }

  lemma ClauseStepLeave(env: Env, s: State)
    requires OrderInv(s) && FailureInv(env, s) && Enabled(s, LeaveGroup)
    ensures ClauseInv(Apply(env, s, LeaveGroup))
  {
    hide FailureInv, ProtocolCause;
    LeaveOutcome(env, s);
    SameCause(s, Apply(env, s, LeaveGroup));
  }

  lemma StaysInGroup(env: Env, s: State, e: Event)
    requires Enabled(s, e) && !e.LeaveGroup? && !e.TooBigClause? && !e.ProtocolClause? && !e.LoseTransport?
    ensures Apply(env, s, e).phase.InGroup?
  {
    hide DecodeFrame, EncodeFrame, Answer, ApplyGreet, ApplyRead;
    if e.Greet? {
      GreetKeepsPhase(env, s);
    } else if e.Read? {
      ReadKeepsPhase(s);
    }
  }

  lemma GreetKeepsPhase(env: Env, s: State)
    ensures ApplyGreet(env, s).phase == s.phase
  {
    hide DecodeFrame, SendFromBody, ErrorDisconnect, HelloReply, Outcome;
    SendsKeepPhase();
  }

  lemma ReadKeepsPhase(s: State)
    ensures ApplyRead(s).phase == s.phase
  {
    hide ApplyRead, SendFromBody, Faithful, Fits;
    var s1, move := ReadCases(s);
    SendsKeepPhase();
  }

  lemma SendsKeepPhase()
    ensures forall s: State, f, origin, next {:trigger SendFromBody(s, f, origin, next)} ::
              SendFromBody(s, f, origin, next).phase == s.phase
  {
    hide EncodeFrame;
  }

  // ----- over runs -----

  ghost predicate CauseInv(env: Env, input: bytes, s: State) {
    SessionInv(env, input, s) && ReaderInv(s) && ClauseInv(s)
  }

  lemma CauseStep(env: Env, input: bytes, s: State, e: Event)
    requires Invariant(env, s) && CauseInv(env, input, s) && Enabled(s, e)
    ensures CauseInv(env, input, Apply(env, s, e))
  {
    hide Apply, Enabled, SessionInv, ReaderInv, ClauseInv, SlotInv, FreshInv, RoomInv, CountInv, EchoInv, FailureInv,
         WireInv, OrderInv, DisconnectInv, SerialInv, FeedInv, MarkInv, LossInv;
    SessionStep(env, input, s, e);
    ReaderStep(env, s, e);
    OrderStep(env, s, e);
    ClauseStep(env, s, e);
  }

  lemma {:induction false} CauseRun(env: Env, input: bytes, s: State, run: seq<Event>)
    requires Invariant(env, s) && CauseInv(env, input, s) && Legal(env, s, run)
    ensures CauseInv(env, input, After(env, s, run))
    decreases |run|
  {
    hide Invariant, CauseInv, Apply, Enabled;
    if run != [] {
      InvariantStep(env, s, run[0]);
      CauseStep(env, input, s, run[0]);
      CauseRun(env, input, Apply(env, s, run[0]), run[1..]);
    }
  }

  lemma CauseReached(env: Env, input: bytes, run: seq<Event>)
    requires Legal(env, Initial(env, input), run)
    ensures CauseInv(env, input, After(env, Initial(env, input), run))
  {
    hide Invariant, SessionInv, ReaderInv, ClauseInv, Legal, After;
    InvariantInit(env, input);
    SessionInit(env, input);
    ReaderInit(env, input);
    ClauseInit(env, input);
    CauseRun(env, input, Initial(env, input), run);
  }

  // ----- what a run says -----

  /** AGENT_HELLO stands first, answers a HELLO the agent can work with, and announces the frame size
      in force: the smaller of both sides'. */
  lemma HelloSaysWhatWasAgreed(env: Env, input: bytes, run: seq<Event>, k: nat)
    requires Legal(env, Initial(env, input), run)
    requires var s := After(env, Initial(env, input), run); k < |s.sent| && s.sent[k].frame.payload.AgentHello?
    ensures var s := After(env, Initial(env, input), run);
            && k == 0
            && DecodeFrame(input, env.agentMax).Ok?
            && var p := DecodeFrame(input, env.agentMax).value.0.payload;
               && p.HaproxyHello? && s.peerMax.Some? && Announces(p.maxFrameSize, s.peerMax.value)
               && Agreeable(env, p, s.peerMax.value)
               && Agreed(env, p, s.peerMax.value, s, s.sent[0].frame)
  {
    hide Legal, After, Invariant, SessionInv, ReaderInv, ClauseInv, DecodeFrame, ApplyGreet, Agreeable, Agreed;
    var s := After(env, Initial(env, input), run);
    Reached(env, input, run);
    CauseReached(env, input, run);
    OriginOf(env, s, k);
    FirstAnswered(env, input, s);
  }

  lemma OriginOf(env: Env, s: State, k: nat)
    requires Invariant(env, s) && k < |s.sent|
    ensures s.sent[k].origin == FromHandshake ==> k == 0
    ensures s.sent[k].frame.payload.AgentHello? ==> s.sent[k].origin == FromHandshake
    ensures s.sent[k].frame.payload.Disconnect? ==> !s.sent[k].origin.FromTask?
    ensures s.sent[k].origin == FromReader ==> HelloFirst(s)
  {
    hide SlotInv, FreshInv, RoomInv, CountInv, FailureInv, WireInv, DisconnectInv, SerialInv, FeedInv, MarkInv, LossInv,
         IsReply;
    assert Echoes(env, s, s.sent[k]);
  }

  lemma FirstAnswered(env: Env, input: bytes, s: State)
    requires SessionInv(env, input, s) && s.sent != [] && s.sent[0].origin == FromHandshake
    ensures FirstAnswer(env, input, s, s.sent[0].frame)
  {
    hide ApplyGreet, DecodeFrame, GoesOn, Agreeable, IsAgentDisconnect;
    GreetOutcome(env, Initial(env, input));
  }

  /** Every disconnect on the wire is an AGENT_DISCONNECT with the status code of its cause: 4 for a first
      frame that is no HELLO and 101 for one the agent cannot work with, 0 for HAProxy's disconnect and
      4 for a frame out of place, 3 for a frame too big and 102 for a protocol error. */
  lemma DisconnectsHaveCauses(env: Env, input: bytes, run: seq<Event>, k: nat)
    requires Legal(env, Initial(env, input), run)
    requires var s := After(env, Initial(env, input), run); k < |s.sent| && s.sent[k].frame.payload.Disconnect?
    ensures var s := After(env, Initial(env, input), run);
            match s.sent[k].origin
            case FromHandshake => k == 0 && FirstAnswer(env, input, s, s.sent[k].frame)
            case FromReader => ReaderSaid(s, s.sent[k].frame)
            case FromClause => ClauseSaid(s, s.sent[k].frame)
            case FromTask(_) => false
  {
    hide Legal, After, Invariant, SessionInv, ReaderSaid, ClauseSaid, DecodeFrame, FirstAnswer, FeedsTo;
    var s := After(env, Initial(env, input), run);
    Reached(env, input, run);
    CauseReached(env, input, run);
    OriginOf(env, s, k);
    if s.sent[k].origin == FromHandshake {
      FirstAnswered(env, input, s);
    }
  }

  // ----- a clean end -----

  predicate NoNotify(stream: bytes, max: int) {
    !(DecodeFrame(stream, max).Ok? && DecodeFrame(stream, max).value.0.payload.Notify?)
  }

  /** The NOTIFYs of a stream are determined by it: what leads to something else leads no further. */
  lemma {:induction false} FeedsAgree(stream: bytes, max: int, a: seq<Arrival>, ra: bytes, b: seq<Arrival>, rb: bytes)
    requires FeedsTo(stream, max, a, ra) && FeedsTo(stream, max, b, rb) && NoNotify(rb, max)
    ensures a <= b
    ensures NoNotify(ra, max) ==> a == b && ra == rb
    decreases |a|
  {
    hide DecodeFrame;
    if a != [] {
      assert b != [];
      assert a[0] == b[0];
      FeedsAgree(stream[a[0].size + 4..], max, a[1..], ra, b[1..], rb);
      assert a == [a[0]] + a[1..] && b == [b[0]] + b[1..];
    } else {
      assert b != [] ==> !NoNotify(stream, max);
    }
  }

  /** A session of NOTIFYs that can all be answered, ended by the end of the stream. */
  ghost predicate EndsCleanly(env: Env, input: bytes) {
    var g := Opened(env, input);
    && g.body == Draining(ThenLoop)
    && exists ns, rest :: FeedsTo(g.afterHello, g.max, ns, rest)
                          && DecodeFrame(rest, g.max) == Err(EndOfStream)
                          && AllAnswerable(env, ns, g.max)
  }

  lemma NoReport(env: Env, input: bytes, s: State)
    requires EndsCleanly(env, input) && SessionInv(env, input, s) && ReaderInv(s) && FeedInv(s) && HelloFirst(s)
    ensures !ReaderDone(s.sent) && !Reported(s.raised)
    ensures AllAnswerable(env, s.notifies, s.max)
  {
    hide ApplyGreet, DecodeFrame, FeedsTo, Answer, IsAgentDisconnect;
    var g := Opened(env, input);
    var ns, rest :| FeedsTo(g.afterHello, g.max, ns, rest) && DecodeFrame(rest, g.max) == Err(EndOfStream)
                    && AllAnswerable(env, ns, g.max);
    var mid :| FeedsTo(s.afterHello, s.max, s.notifies, mid);
    FeedsAgree(s.afterHello, s.max, s.notifies, mid, ns, rest);
    assert forall i | 0 <= i < |s.notifies| :: s.notifies[i] == ns[i];
    forall other | FeedsTo(s.afterHello, s.max, s.notifies, other) && NoNotify(other, s.max)
      ensures DecodeFrame(other, s.max) == Err(EndOfStream)
    {
      FeedsAgree(s.afterHello, s.max, s.notifies, other, ns, rest);
    }
    forall k | 0 <= k < |s.sent|
      ensures s.sent[k].origin != FromReader
    {
      assert s.sent[k].origin == FromReader ==> ReaderSaid(s, s.sent[k].frame);
    }
  }

  lemma SilentState(env: Env, input: bytes, s: State)
    requires EndsCleanly(env, input) && Invariant(env, s) && CauseInv(env, input, s)
    ensures forall k | 0 <= k < |s.sent| :: !s.sent[k].frame.payload.Disconnect?
  {
    hide Invariant, CauseInv, EndsCleanly;
    forall k | 0 <= k < |s.sent|
      ensures !s.sent[k].frame.payload.Disconnect?
    {
      QuietAt(env, input, s, k);
    }
  }

  lemma FeedPart(env: Env, s: State)
    requires Invariant(env, s)
    ensures FeedInv(s) && OrderInv(s) && SlotInv(s)
  {
    hide FreshInv, AckInv, WireInv, DisconnectInv, SerialInv, MarkInv, LossInv, FeedsTo, Count;
  }

  /** None of the four origins yields a disconnect. */
  lemma QuietAt(env: Env, input: bytes, s: State, k: nat)
    requires EndsCleanly(env, input) && Invariant(env, s) && CauseInv(env, input, s) && k < |s.sent|
    ensures !s.sent[k].frame.payload.Disconnect?
  {
    hide Invariant, SessionInv, ReaderInv, EndsCleanly, IsAgentDisconnect, FailureInv, FeedInv, SlotInv, OrderInv;
    OriginOf(env, s, k);
    FeedPart(env, s);
    FailurePart(env, s);
    if s.sent[k].frame.payload.Disconnect? {
      if HelloFirst(s) {
        NoReport(env, input, s);
        NoProtocolFailure(env, s);
      } else {
        NoHelloNoClause(env, input, s);
      }
    }
  }

  lemma NoProtocolFailure(env: Env, s: State)
    requires FailureInv(env, s) && AllAnswerable(env, s.notifies, s.max)
    ensures forall j | 0 <= j < |s.failures| :: s.failures[j].exc != Protocol
  {
    hide Answer;
    forall j | 0 <= j < |s.failures|
      ensures s.failures[j].exc != Protocol
    {
      assert FailureIsJust(env, s, s.failures[j]);
    }
  }

  /** A session that could open but was not answered met a closed transport. */
  lemma NoHelloNoClause(env: Env, input: bytes, s: State)
    requires EndsCleanly(env, input) && SessionInv(env, input, s) && OrderInv(s) && SlotInv(s) && FailureInv(env, s)
    requires !HelloFirst(s)
    ensures forall k | 0 <= k < |s.sent| :: s.sent[k].origin != FromHandshake
    ensures s.sent != [] ==> s.raised != Some(TooBig) && !ProtocolCause(s)
  {
    hide ApplyGreet, DecodeFrame, FeedsTo, Answer, Count;
    var g := Opened(env, input);
    OpenedIsHello(env, input);
    forall j | 0 <= j < |s.failures|
      ensures s.failures[j].exc != Protocol
    {
      assert FailureIsJust(env, s, s.failures[j]);
    }
  }

  lemma OpenedIsHello(env: Env, input: bytes)
    requires Opened(env, input).body == Draining(ThenLoop)
    ensures var g := Opened(env, input);
            g.sent != [] && g.sent[0].origin == FromHandshake && g.sent[0].frame.payload.AgentHello?
  {
    hide ApplyGreet, DecodeFrame, IsAgentDisconnect, Agreeable;
    GreetOutcome(env, Initial(env, input));
  }

  /** A connection that ends cleanly writes no disconnect at all, in any run. */
  lemma CleanEndIsSilent(env: Env, input: bytes, run: seq<Event>)
    requires EndsCleanly(env, input) && Legal(env, Initial(env, input), run)
    ensures DisconnectCount(After(env, Initial(env, input), run).sent) == 0
  {
    hide Legal, After, Invariant, CauseInv, EndsCleanly, DisconnectCount;
    var s := After(env, Initial(env, input), run);
    Reached(env, input, run);
    CauseReached(env, input, run);
    SilentState(env, input, s);
    NoDisconnect(s.sent);
  }
}
