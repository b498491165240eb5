/** The handler of one connection, updating its fields in place. Each method is what the source
    does between two suspension points; it takes the state to what the transition system says. */
module Handlers {
  import opened Results
  import opened Bytes
  import opened Frames
  import opened Acks
  import opened Disconnects
  import opened Configurations
  import opened Sessions
  import opened Outputs
  import opened Runs

  /** How `send_frame` ends up before its `drain()`. */
  datatype Delivery = Written | StreamClosing | Refused(error: Error)

  class ForgeHandler {
    const env: Env
    const config: ServerConfiguration
    var input: bytes                 // reader
    var wire: bytes                  // writer
    var closing: bool
    var slots: nat                   // semaphore
    var holding: bool
    var notifies: seq<Arrival>       // task group
    var tasks: seq<Status>
    var body: Body
    var aborting: bool
    var raised: Option<Exc>
    var failures: seq<Failure>
    var phase: Phase
    ghost var afterHello: bytes
    ghost var peerMax: Option<int>
    ghost var limit: nat
    ghost var sent: seq<Sent>
    ghost var marks: seq<Mark>

    ghost function View(): State
      reads this, config
    {
      State(input, afterHello, peerMax, config.maxFrameSize, body, holding, limit, slots, notifies, tasks, aborting,
            raised, failures, phase, closing, sent, wire, marks)
    }

    ghost predicate Valid()
      reads this, config
    {
      && ReadsOwnVersion(env.toInt)
      && config.maxConcurrentFrames == env.maxConcurrent
      && (body == Greeting ==> config.maxFrameSize == env.agentMax)
    }

    constructor (env: Env, config: ServerConfiguration, input: bytes)
      requires ReadsOwnVersion(env.toInt)
      requires config.maxFrameSize == env.agentMax && config.maxConcurrentFrames == env.maxConcurrent
      ensures Valid() && View() == Initial(env, input)
      ensures this.env == env && this.config == config
    {
      this.env, this.config, this.input := env, config, input;
      wire, closing, slots, holding, notifies, tasks := [], false, 0, false, [], [];
      body, aborting, raised, failures, phase := Greeting, false, None, [], InGroup;
      afterHello, peerMax, limit, sent, marks := [], None, 0, [], [];
    }

    // ----- sending -----

    /** `send_frame` up to its `drain()`: one `write` of the whole frame, or nothing. */
    method SendFrame(f: Frame, ghost origin: Origin) returns (d: Delivery)
      modifies this`wire, this`sent
      ensures var s := old(View());
              match d
              case StreamClosing => s.closing && View() == s
              case Refused(e) => !s.closing && EncodeFrame(f, s.max) == Err(e) && View() == s
              case Written => !s.closing && EncodeFrame(f, s.max).Ok? && View() == Write(s, f, origin)
    {
      hide EncodeFrame;
      if closing {
        return StreamClosing;
      }
      var code := FrameEncode(f, config.maxFrameSize);
      if code.Err? {
        return Refused(code.error);
      }
      wire := wire + code.value;
      sent := sent + [Sent(f, origin)];
      return Written;
    }

    method RaiseInBody(e: Exc)
      modifies this`body, this`raised, this`aborting
      ensures View() == RaiseBody(old(View()), e) && body != Greeting
    {
      body, raised, aborting := Stopped, Some(e), true;
    }

    method SendInBody(f: Frame, ghost origin: Origin, next: AfterDrain)
      modifies this`wire, this`sent, this`body, this`raised, this`aborting
      ensures View() == SendFromBody(old(View()), f, origin, next)
      ensures body != Greeting
    {
      hide EncodeFrame;
      var d := SendFrame(f, origin);
      match d {
        case StreamClosing => RaiseInBody(Closing);
        case Refused(e) => RaiseInBody(ExcOf(e));
        case Written => body := Draining(next);
      }
    }

    // ----- the body of the task group -----

    /** `Frame.decode(reader, max_frame_size)`; a frame is taken off the stream. */
    method NextFrame() returns (r: Result<(Frame, nat)>)
      modifies this`input
      ensures r == DecodeFrame(old(View()).input, old(View()).max)
      ensures View() == if r.Ok? then old(View()).(input := old(View()).input[r.value.1..]) else old(View())
    {
      hide DecodeFrame;
      r := FrameDecode(input, config.maxFrameSize);
      if r.Ok? {
        input := input[r.value.1..];
      }
    }

    /** `handle_handshake` up to the `drain()` of its answer. */
    method HandleHandshake()
      requires Valid() && Enabled(View(), Greet)
      modifies this, config
      ensures Valid() && View() == Apply(env, old(View()), Greet)
    {
      hide DecodeFrame, GreetWith;
      var decoded := NextFrame();
      if decoded.Err? {
        RaiseInBody(ExcOf(decoded.error));
        return;
      }
      afterHello := input;
      AnswerFirstFrame(decoded.value.0.payload);
    }

    method AnswerFirstFrame(p: Payload)
      requires Valid() && body == Greeting
      modifies this, config
      ensures Valid() && View() == GreetWith(env, old(View()), p)
    {
      hide View, SendFromBody, Outcome, ErrorDisconnect, HelloReply;
      if !p.HaproxyHello? {
        SendInBody(ErrorDisconnect(INVALID_FRAME_RECEIVED, "Expected HAPROXY-HELLO, received " + FrameName(p)),
                   FromHandshake, ThenClose);
        return;
      }
      var haMax := Number(p.maxFrameSize);
      if haMax == None {
        RaiseInBody(Foreign);
        return;
      }
      Negotiate(p.versions, haMax.value, p.capabilities);
      if !config.serverCompatible {
        SendInBody(ErrorDisconnect(SERVER_INCOMPATIBLE, "Handshake failed to find compatibility."),
                   FromHandshake, ThenClose);
        return;
      }
      CreateSlots(if PIPELINING in config.capabilities then env.maxConcurrent else 1);
      SendInBody(HelloReply(config.maxFrameSize, config.capabilities), FromHandshake,
                 if Truthy(p.healthcheck) then ThenClose else ThenLoop);
    }

    /** `asyncio.Semaphore(limit)`. */
    method CreateSlots(n: nat)
      modifies this`slots, this`limit
      ensures View() == old(View()).(limit := n, free := n)
    {
      slots, limit := n, n;
    }

    method Negotiate(versions: seq<string>, haMax: int, capabilities: seq<string>)
      requires Valid() && body == Greeting
      modifies this`peerMax, config
      ensures Negotiated(config.serverCompatible, config.maxFrameSize, config.capabilities)
              == Outcome(env.agentMax, versions, haMax, capabilities, env.toInt)
      ensures View() == old(View()).(peerMax := Some(haMax), max := config.maxFrameSize)
      ensures config.maxConcurrentFrames == old(config.maxConcurrentFrames)
    {
      hide Outcome;
      peerMax := Some(haMax);
      config.NegotiateServerCompatibility(versions, haMax, capabilities, env.toInt);
    }

    /** The body's `drain()` returned. */
    method ResumeBody()
      requires Valid() && Enabled(View(), Drained)
      modifies this`body, this`raised, this`aborting
      ensures Valid() && View() == Apply(env, old(View()), Drained)
    {
      if body.next == ThenClose {
        RaiseInBody(Closing);
      } else {
        body := Acquiring;
      }
    }

    /** `slots.acquire()` returned. */
    method AcquireSlot()
      requires Valid() && Enabled(View(), Acquire)
      modifies this`slots, this`holding, this`body
      ensures Valid() && View() == Apply(env, old(View()), Acquire)
    {
      slots := slots - 1;
      holding, body := true, Reading;
    }

    /** One turn of `_read_frames` from `Frame.decode` on. */
    method ReadFrame()
      requires Valid() && Enabled(View(), Read)
      modifies this
      ensures Valid() && View() == Apply(env, old(View()), Read)
    {
      hide View, DecodeFrame, SendFromBody, Dispatch, ErrorDisconnect, DisconnectFrame;
      var decoded := NextFrame();
      if decoded.Err? {
        RaiseInBody(if decoded.error == EndOfStream then Closing else ExcOf(decoded.error));
        return;
      }
      var (f, used) := decoded.value;
      if f.payload.Disconnect? {
        SendInBody(DisconnectFrame(NORMAL, "Disconnecting normally"), FromReader, ThenClose);
        return;
      }
      if !f.payload.Notify? {
        SendInBody(ErrorDisconnect(INVALID_FRAME_RECEIVED,
                                   "Expected NOTIFY or HAPROXY_DISCONNECT, received " + FrameName(f.payload)),
                   FromReader, ThenClose);
        return;
      }
      CreateTask(Arrival(f.meta, f.payload.messages, used - 4));
    }

    /** `tg.create_task`. */
    method CreateTask(n: Arrival)
      modifies this`notifies, this`tasks, this`holding, this`body, this`marks
      ensures View() == Dispatch(old(View()), n) && body != Greeting
    {
      notifies, tasks, marks := notifies + [n], tasks + [Created], marks + [Began(|tasks|)];
      holding, body := false, Acquiring;
    }

    method ResetBody()
      requires Valid() && Enabled(View(), Reset)
      modifies this`body, this`raised, this`aborting
      ensures Valid() && View() == Apply(env, old(View()), Reset)
    {
      RaiseInBody(Connection);
    }

    // ----- the task of a NOTIFY -----

    /** `finally: slots.release()`. */
    method Release(id: nat, acked: bool)
      requires id < |View().tasks|
      modifies this`tasks, this`slots, this`marks
      ensures View() == EndTask(old(View()), id, acked)
    {
      tasks := tasks[id := Ended(true, acked)];
      slots := slots + 1;
      marks := marks + [Freed(id)];
    }

    method Fail(id: nat, acked: bool, e: Exc)
      requires id < |View().tasks|
      modifies this`tasks, this`slots, this`marks, this`failures
      ensures View() == FailTask(old(View()), id, acked, e)
    {
      Release(id, acked);
      failures := failures + [Failure(id, e)];
    }

    method StartNotify(id: nat)
      requires Valid() && Enabled(View(), Start(id))
      modifies this`tasks
      ensures Valid() && View() == Apply(env, old(View()), Start(id))
    {
      tasks := tasks[id := Handling];
    }

    /** Sends the whole ACK, or a salvaged one where that is refused. */
    method SendAck(id: nat) returns (d: Delivery)
      requires id < |View().notifies|
      modifies this`wire, this`sent
      ensures var s := old(View());
              var answer := Answer(env, id, s.notifies[id], s.max);
              match d
              case StreamClosing => s.closing && View() == s
              case Refused(e) => !s.closing && answer == Err(e) && View() == s
              case Written => !s.closing && answer.Ok? && View() == Write(s, answer.value, FromTask(id))
    {
      hide EncodeFrame, SalvagedAck, Write;
      var n := notifies[id];
      var actions := env.handler(id, n.messages);
      d := SendFrame(AckFrame(n.meta, actions), FromTask(id));
      if d.Refused? {
        var salvaged := SalvageLoop(n.meta, actions, config.maxFrameSize);
        if salvaged.Err? {
          return Refused(salvaged.error);
        }
        d := SendFrame(salvaged.value, FromTask(id));
      }
    }

    /** `_process_notify` from the return of the handler to the `drain()` of its ACK. */
    method FinishNotify(id: nat)
      requires Valid() && Enabled(View(), Finish(id))
      modifies this`wire, this`sent, this`tasks, this`slots, this`marks, this`failures
      ensures Valid() && View() == Apply(env, old(View()), Finish(id))
    {
      hide View, EncodeFrame, Answer;
      var d := SendAck(id);
      match d {
        case StreamClosing => Release(id, false);
        case Refused(e) => Fail(id, false, ExcOf(e));
        case Written => AwaitFlush(id);
      }
    }

    /** The task waits in the `drain()` of its ACK. */
    method AwaitFlush(id: nat)
      requires id < |View().tasks|
      modifies this`tasks, this`marks
      ensures View() == old(View()).(tasks := old(View()).tasks[id := Flushing],
                                     marks := old(View()).marks + [Acked(id)])
    {
      tasks, marks := tasks[id := Flushing], marks + [Acked(id)];
    }

    method FailHandler(id: nat, e: Exc)
      requires Valid() && Enabled(View(), HandlerFails(id, e))
      modifies this`tasks, this`slots, this`marks, this`failures
      ensures Valid() && View() == Apply(env, old(View()), HandlerFails(id, e))
    {
      Fail(id, false, e);
    }

    /** The `drain()` after an ACK returned, or failed. */
    method EndFlush(id: nat, lost: bool)
      requires Valid() && Enabled(View(), if lost then FlushFails(id) else Flushed(id))
      modifies this`tasks, this`slots, this`marks, this`failures
      ensures Valid() && View() == Apply(env, old(View()), if lost then FlushFails(id) else Flushed(id))
    {
      if lost {
        Fail(id, true, Connection);
      } else {
        Release(id, true);
      }
    }

    method CancelTask(id: nat)
      requires Valid() && Enabled(View(), Event.Cancelled(id))
      modifies this`tasks, this`slots, this`marks
      ensures Valid() && View() == Apply(env, old(View()), Event.Cancelled(id))
    {
      if tasks[id] == Created {
        tasks := tasks[id := Ended(false, false)];
      } else {
        Release(id, tasks[id] == Flushing);
      }
    }

    // ----- the group and the except* clauses -----

    method AbortGroup()
      requires Valid() && Enabled(View(), NoticeFailure)
      modifies this`aborting, this`body
      ensures Valid() && View() == Apply(env, old(View()), NoticeFailure)
    {
      aborting, body := true, Stopped;
    }

    /** Whether the exception group holds one of the given kind. */
    method GroupHas(e: Exc) returns (found: bool)
      ensures found == Raised(View(), e)
    {
      found := raised == Some(e);
      for i := 0 to |failures|
        invariant found <==> raised == Some(e) || exists k | 0 <= k < i :: failures[k].exc == e
      {
        if failures[i].exc == e {
          found := true;
        }
      }
    }

    method ExitGroup()
      requires Valid() && Enabled(View(), LeaveGroup)
      modifies this`phase
      ensures Valid() && View() == Apply(env, old(View()), LeaveGroup)
    {
      var tooBig := GroupHas(TooBig);
      var protocol := GroupHas(Protocol);
      phase := InClauses(tooBig, protocol);
    }

    method SendInClause(code: int, text: string)
      modifies this`wire, this`sent
      ensures View() == SendFromClause(old(View()), code, text)
    {
      hide EncodeFrame, ErrorDisconnect;
      var d := SendFrame(ErrorDisconnect(code, text), FromClause);
    }

    method OnFrameTooBig(text: string)
      requires Valid() && Enabled(View(), TooBigClause(text))
      modifies this`wire, this`sent, this`phase
      ensures Valid() && View() == Apply(env, old(View()), TooBigClause(text))
    {
      hide SendFromClause;
      SendInClause(FRAME_TOO_BIG, text);
      phase := InClauses(false, phase.protocol);
    }

    method OnProtocolError(text: string)
      requires Valid() && Enabled(View(), ProtocolClause(text))
      modifies this`wire, this`sent, this`phase
      ensures Valid() && View() == Apply(env, old(View()), ProtocolClause(text))
    {
      hide SendFromClause;
      SendInClause(PROTOCOL_ERROR, text);
      phase := InClauses(false, false);
    }

    method Close()
      requires Valid()
      modifies this`closing
      ensures Valid() && View() == Apply(env, old(View()), LoseTransport)
    {
      closing := true;
    }

    // ----- the event loop -----

    method Step(e: Event)
      requires Valid() && Enabled(View(), e)
      modifies this, config
      ensures Valid() && View() == Apply(env, old(View()), e)
    {
      hide Apply, Enabled;
      match e {
        case Greet => HandleHandshake();
        case Drained => ResumeBody();
        case Acquire => AcquireSlot();
        case Read => ReadFrame();
        case Reset => ResetBody();
        case Start(id) => StartNotify(id);
        case Finish(id) => FinishNotify(id);
        case HandlerFails(id, exc) => FailHandler(id, exc);
        case Flushed(id) => EndFlush(id, false);
        case FlushFails(id) => EndFlush(id, true);
        case Cancelled(id) => CancelTask(id);
        case NoticeFailure => AbortGroup();
        case LeaveGroup => ExitGroup();
        case TooBigClause(text) => OnFrameTooBig(text);
        case ProtocolClause(text) => OnProtocolError(text);
        case LoseTransport => Close();
      }
    }

    /** Whatever schedule the event loop picks, the handler ends where the run ends. */
    method CoreHandler(schedule: seq<Event>)
      requires Valid() && Legal(env, View(), schedule)
      modifies this, config
      ensures Valid() && View() == After(env, old(View()), schedule)
    {
      hide Apply, Enabled;
      for i := 0 to |schedule|
        invariant Valid() && Legal(env, View(), schedule[i..])
        invariant After(env, View(), schedule[i..]) == After(env, old(View()), schedule)
      {
        assert schedule[i..][0] == schedule[i] && schedule[i..][1..] == schedule[i + 1..];
        Step(schedule[i]);
      }
    }
  }

  /** A connection from its first byte: under every schedule the object ends in the state of the
      run, and HAProxy can read back from its writer exactly the frames it sent. */
  method ServeConnection(env: Env, input: bytes, schedule: seq<Event>) returns (h: ForgeHandler)
    requires ReadsOwnVersion(env.toInt)
    requires Legal(env, Initial(env, input), schedule)
    ensures h.View() == After(env, Initial(env, input), schedule)
    ensures DecodeAll(h.wire, env.agentMax) == Ok(FramesOf(h.sent))
  {
    hide Legal, After, DecodeAll;
    var config := new ServerConfiguration(env.agentMax, env.maxConcurrent);
    h := new ForgeHandler(env, config, input);
    h.CoreHandler(schedule);
    WireIsReadable(env, input, schedule, env.agentMax);
  }
}
