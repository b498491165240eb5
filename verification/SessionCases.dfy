/** The outcomes of the two steps that read from the stream, each as one of a few moves. */
module SessionCases {
  import opened Results
  import opened DataTypes
  import opened SpopLists
  import opened Frames
  import opened Acks
  import opened Disconnects
  import opened Configurations
  import opened Sessions

  /** What is known of every NOTIFY that was accepted under `max`. */
  predicate Fits(n: Arrival, max: int) {
    && EmptyAckFits(n.meta, max)
    && n.size <= max
    && -TWO_TO_63 <= n.meta.streamId < TWO_TO_63
    && -TWO_TO_63 <= n.meta.frameId < TWO_TO_63
  }

  /** The moves of the body after a read. */
  datatype Move = Stops(e: Exc) | Answers(f: Frame, next: AfterDrain) | Takes(n: Arrival)

  lemma DisconnectIsFaithful(code: int, text: string)
    ensures Faithful(DisconnectFrame(code, text)) && Faithful(ErrorDisconnect(code, text))
  {
  }

  predicate IsReadMove(s: State, s1: State, move: Move) {
    && s1 == s.(input := s1.input)
    && match move
       case Stops(e) => ApplyRead(s) == RaiseBody(s1, e)
       case Answers(f, next) =>
         f.payload.Disconnect? && Faithful(f) && next == ThenClose
         && ApplyRead(s) == SendFromBody(s1, f, FromReader, ThenClose)
       case Takes(n) =>
         && Fits(n, s.max)
         && DecodeFrame(s.input, s.max) == Ok((Frame(n.meta, Payload.Notify(n.messages)), n.size + 4))
         && s1.input == s.input[n.size + 4..]
         && ApplyRead(s) == Dispatch(s1, n)
  }

  /** Reading in the loop either stops the body, or answers with a disconnect and then closes,
      or dispatches exactly the NOTIFY that stands next on the stream. */
  lemma ReadCases(s: State) returns (s1: State, move: Move)
    ensures IsReadMove(s, s1, move)
  {
    hide DecodeFrame, SendFromBody, Faithful, EmptyAckFits, ErrorDisconnect, DisconnectFrame;
    s1 := s;
    match DecodeFrame(s.input, s.max) {
      case Err(error) => move := Stops(if error == EndOfStream then Closing else ExcOf(error));
      case Ok((g, used)) =>
        s1 := s.(input := s.input[used..]);
        match g.payload {
          case Disconnect(_, _, _) =>
            move := Answers(DisconnectFrame(NORMAL, "Disconnecting normally"), ThenClose);
            DisconnectIsFaithful(NORMAL, "Disconnecting normally");
            DisconnectPayload(NORMAL, "Disconnecting normally");
          case Notify(messages) =>
            move := Takes(Arrival(g.meta, messages, used - 4));
            AcceptedLeavesRoom(s.input, s.max);
            DecodedIsFaithful(s.input, s.max);
            FaithfulIds(g);
          case _ =>
            var text := "Expected NOTIFY or HAPROXY_DISCONNECT, received " + FrameName(g.payload);
            move := Answers(ErrorDisconnect(INVALID_FRAME_RECEIVED, text), ThenClose);
            DisconnectIsFaithful(INVALID_FRAME_RECEIVED, text);
            DisconnectPayload(INVALID_FRAME_RECEIVED, text);
        }
    }
  }

  lemma DisconnectPayload(code: int, text: string)
    ensures DisconnectFrame(code, text).payload.Disconnect? && ErrorDisconnect(code, text).payload.Disconnect?
  {
  }

  lemma FaithfulIds(f: Frame)
    requires Faithful(f)
    ensures -TWO_TO_63 <= f.meta.streamId < TWO_TO_63 && -TWO_TO_63 <= f.meta.frameId < TWO_TO_63
  {
  }

  predicate IsGreetMove(env: Env, s: State, s1: State, move: Move) {
    && s1 == s.(input := s1.input, afterHello := s1.afterHello, peerMax := s1.peerMax, max := s1.max,
                limit := s1.limit, free := s1.free)
    && ((s1.limit == s.limit && s1.free == s.free) || s1.limit == s1.free)
    && s1.max <= env.agentMax && (s1.peerMax.Some? ==> s1.max <= s1.peerMax.value)
    && match move
       case Stops(e) => ApplyGreet(env, s) == RaiseBody(s1, e)
       case Answers(f, next) =>
         && ApplyGreet(env, s) == SendFromBody(s1, f, FromHandshake, next)
         && Faithful(f)
         && ((f.payload.Disconnect? && next == ThenClose) || (f.payload.AgentHello? && s1.peerMax.Some?))
         && s1.input == s1.afterHello
       case Takes(_) => false
  }

  /** The handshake either stops the body, or answers with a disconnect and then closes, or
      answers with AGENT-HELLO under the negotiated frame size. */
  lemma GreetCases(env: Env, s: State) returns (s1: State, move: Move)
    requires s.max == env.agentMax && s.peerMax == None
    ensures IsGreetMove(env, s, s1, move)
  {
    hide DecodeFrame, SendFromBody, Faithful, Outcome, ErrorDisconnect, HelloReply;
    s1, move := s, Stops(Foreign);
    match DecodeFrame(s.input, s.max) {
      case Err(error) => move := Stops(ExcOf(error));
      case Ok((g, used)) =>
        s1 := s.(input := s.input[used..], afterHello := s.input[used..]);
        var p := g.payload;
        if !p.HaproxyHello? {
          var text := "Expected HAPROXY-HELLO, received " + FrameName(p);
          move := Answers(ErrorDisconnect(INVALID_FRAME_RECEIVED, text), ThenClose);
          DisconnectIsFaithful(INVALID_FRAME_RECEIVED, text);
          DisconnectPayload(INVALID_FRAME_RECEIVED, text);
        } else if Number(p.maxFrameSize).Some? {
          var haMax := Number(p.maxFrameSize).value;
          var o := Outcome(env.agentMax, p.versions, haMax, p.capabilities, env.toInt);
          s1 := s1.(peerMax := Some(haMax), max := o.maxFrameSize);
          if o.compatible {
            var limit := if PIPELINING in o.capabilities then env.maxConcurrent else 1;
            s1 := s1.(limit := limit, free := limit);
            move := Answers(HelloReply(o.maxFrameSize, o.capabilities),
                            if Truthy(p.healthcheck) then ThenClose else ThenLoop);
            HelloIsFaithful(o.maxFrameSize, o.capabilities);
          } else {
            var text := "Handshake failed to find compatibility.";
            move := Answers(ErrorDisconnect(SERVER_INCOMPATIBLE, text), ThenClose);
            DisconnectIsFaithful(SERVER_INCOMPATIBLE, text);
            DisconnectPayload(SERVER_INCOMPATIBLE, text);
          }
        }
    }
  }

  lemma HelloIsFaithful(max: int, capabilities: seq<string>)
    requires Clean(capabilities)
    ensures Faithful(HelloReply(max, capabilities)) && HelloReply(max, capabilities).payload.AgentHello?
  {
  }

  predicate IsTaskEvent(e: Event) {
    e.Start? || e.Finish? || e.HandlerFails? || e.Flushed? || e.FlushFails? || e.Cancelled?
  }

  predicate IsReply(env: Env, f: Frame, id: nat, n: Arrival, max: int) {
    Answer(env, id, n, max) == Ok(f)
  }

  /** The reply to this NOTIFY cannot be sent, and this is the exception that says so. */
  predicate ReplyFails(env: Env, id: nat, n: Arrival, max: int, x: Exc) {
    Answer(env, id, n, max).Err? && x == ExcOf(Answer(env, id, n, max).error)
  }

  /** The moves of one task. */
  datatype TaskMove = Starts | Vanishes | Ends | Fails(x: Exc) | Replies(f: Frame)

  ghost predicate IsTaskMove(env: Env, s: State, e: Event, move: TaskMove)
    requires IsTaskEvent(e) && Enabled(s, e)
  {
    var u := Apply(env, s, e);
    var was := s.tasks[e.id];
    var over := Ended(true, was == Flushing);
    match move
    case Starts => was == Created && !s.aborting && u == s.(tasks := s.tasks[e.id := Handling])
    case Vanishes => was == Created && s.aborting && u == s.(tasks := s.tasks[e.id := Ended(false, false)])
    case Ends =>
      && was in {Handling, Flushing}
      && u == EndTask(s, e.id, was == Flushing)
      && (was == Handling ==> s.closing || s.aborting)
    case Fails(x) =>
      && was in {Handling, Flushing}
      && u == FailTask(s, e.id, was == Flushing, x)
      && (x == Foreign || x == Connection || ReplyFails(env, e.id, s.notifies[e.id], s.max, x))
    case Replies(f) =>
      && was == Handling
      && IsReply(env, f, e.id, s.notifies[e.id], s.max)
      && EncodeFrame(f, s.max).Ok?
      && u == Write(s, f, FromTask(e.id)).(tasks := s.tasks[e.id := Flushing], marks := s.marks + [Acked(e.id)])
  }

  /** A task event changes the status of its own task, and ends it, fails it, or sends its ACK. */
  lemma TaskCases(env: Env, s: State, e: Event) returns (move: TaskMove)
    requires IsTaskEvent(e) && Enabled(s, e)
    ensures IsTaskMove(env, s, e, move)
  {
    hide Reply, EncodeFrame;
    match e {
      case Start(_) => move := Starts;
      case HandlerFails(_, exc) => move := Fails(exc);
      case FlushFails(_) => move := Fails(Connection);
      case Flushed(_) => move := Ends;
      case Cancelled(id) => move := if s.tasks[id] == Created then Vanishes else Ends;
      case Finish(id) =>
        var reply := Answer(env, id, s.notifies[id], s.max);
        move := if s.closing then Ends else if reply.Ok? then Replies(reply.value) else Fails(ExcOf(reply.error));
    }
  }

  /** Task events leave the body, the stream and the history of dispatches alone. */
  lemma TaskKeeps(env: Env, s: State, e: Event)
    requires IsTaskEvent(e) && Enabled(s, e)
    ensures var u := Apply(env, s, e);
            u == s.(tasks := u.tasks, free := u.free, failures := u.failures, sent := u.sent, wire := u.wire,
                    marks := u.marks)
  {
    hide EncodeFrame, Reply;
    match e {
      case Start(_) =>
      case Finish(_) =>
      case HandlerFails(_, _) =>
      case Flushed(_) =>
      case FlushFails(_) =>
      case Cancelled(_) =>
    }
  }
}
