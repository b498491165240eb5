/** One connection as a labelled transition system. An event is what happens between two
    suspension points of one coroutine; any order of enabled events is a run. */
module Sessions {
  import opened Results
  import opened Bytes
  import opened DataTypes
  import opened Payloads
  import opened Frames
  import opened Acks
  import opened Disconnects
  import opened Configurations

  /** The exception groups `core_handler` tells apart. */
  datatype Exc =
    | Closing      // CloseConnection
    | TooBig       // SpopFrameTooBigError
    | Protocol     // any other SpoeForgeError
    | Connection   // ConnectionError
    | Foreign      // everything else

  function ExcOf(e: Error): Exc {
    match e
    case FrameTooBig => TooBig
    case TypeFault => Foreign
    case _ => Protocol
  }

  /** Where the body of the task group is suspended. */
  datatype Body =
    | Greeting                   // reading the first frame
    | Draining(next: AfterDrain) // in drain() after a write of its own
    | Acquiring                  // in slots.acquire()
    | Reading                    // in Frame.decode()
    | Stopped                    // raised or was cancelled

  datatype AfterDrain = ThenClose | ThenLoop

  datatype Arrival = Arrival(meta: Metadata, messages: seq<Message>, size: nat)

  /** Where the task of a NOTIFY is: created but not yet run, inside the handler, in drain()
      after its ACK, or over. */
  datatype Status = Created | Handling | Flushing | Ended(started: bool, acked: bool)

  datatype Origin = FromHandshake | FromReader | FromTask(id: nat) | FromClause

  datatype Sent = Sent(frame: Frame, origin: Origin)

  datatype Failure = Failure(id: nat, exc: Exc)

  /** What an observer of one NOTIFY sees. */
  datatype Mark = Began(id: nat) | Acked(id: nat) | Freed(id: nat)

  datatype Phase = InGroup | InClauses(tooBig: bool, protocol: bool)

  /** What the user's handlers return for the NOTIFY with a given ordinal: since each NOTIFY is
      handled once, any behaviour of theirs, stateful or not, is such a function. */
  type Handler = (nat, seq<Message>) -> seq<Action>

  datatype Env = Env(agentMax: int, maxConcurrent: nat, toInt: IntParser, handler: Handler)

  datatype State = State(
    input: bytes,              // what the peer sends from here on
    afterHello: bytes,         // history: the stream after the first frame
    peerMax: Option<int>,      // history: the frame size HAProxy advertised
    max: int,                  // current max frame size
    body: Body,
    holding: bool,             // the reader holds a slot
    limit: nat,
    free: nat,
    notifies: seq<Arrival>,     // history: every NOTIFY dispatched
    tasks: seq<Status>,        // the task of each
    aborting: bool,            // the group is cancelling its tasks
    raised: Option<Exc>,       // what the body raised
    failures: seq<Failure>,    // what tasks raised
    phase: Phase,
    closing: bool,             // writer.is_closing()
    sent: seq<Sent>,           // history: every frame written
    wire: bytes,               // the bytes written
    marks: seq<Mark>)          // history

  datatype Event =
    | Greet                            // first frame read, answer written
    | Drained                          // the body's drain() returned
    | Acquire
    | Read
    | Reset                            // ConnectionError in the body
    | Start(id: nat)                   // first step of a task
    | Finish(id: nat)                  // the handler returned
    | HandlerFails(id: nat, exc: Exc)
    | Flushed(id: nat)                 // the task's drain() returned
    | FlushFails(id: nat)
    | Cancelled(id: nat)               // CancelledError reaches a task
    | NoticeFailure                    // the group sees a failed task
    | LeaveGroup
    | TooBigClause(text: string)
    | ProtocolClause(text: string)
    | LoseTransport

  function Initial(env: Env, input: bytes): State {
    State(input, [], None, env.agentMax, Greeting, false, 0, 0, [], [], false, None, [],
          InGroup, false, [], [], [])
  }

  predicate Live(t: Status) {
    !t.Ended?
  }

  predicate SomeLive(tasks: seq<Status>) {
    exists i | 0 <= i < |tasks| :: Live(tasks[i])
  }

  function FrameName(p: Payload): string {
    match p
    case HaproxyHello(_, _, _, _, _) => "HAPROXY_HELLO"
    case AgentHello(_, _, _) => "AGENT_HELLO"
    case Disconnect(fromAgent, _, _) => if fromAgent then "AGENT_DISCONNECT" else "HAPROXY_DISCONNECT"
    case Notify(_) => "NOTIFY"
    case Ack(_) => "ACK"
  }

  /** `bool(v)`. */
  predicate Truthy(v: Value) {
    match v
    case Null => false
    case Bool(b) => b
    case Int(n) => n != 0
    case IPv4(_) => true
    case IPv6(_) => true
    case Str(s) => s != ""
    case Binary(data) => data != []
  }

  /** A value that compares with a number: Python's booleans do. */
  function Number(v: Value): Option<int> {
    match v
    case Int(n) => Some(n)
    case Bool(b) => Some(if b then 1 else 0)
    case _ => None
  }

  // ----- the body of the task group -----

  /** An exception leaves the body: the group aborts at once. */
  function RaiseBody(s: State, e: Exc): State {
    s.(body := Stopped, raised := Some(e), aborting := true)
  }

  /** `writer.write(frame.encode(max))`. */
  function Write(s: State, f: Frame, origin: Origin): State
    requires EncodeFrame(f, s.max).Ok?
  {
    s.(sent := s.sent + [Sent(f, origin)], wire := s.wire + EncodeFrame(f, s.max).value)
  }

  /** `await send_frame(f)` in the body. Nothing is written on a closing stream, and every
      caller in the body then closes the connection. */
  function SendFromBody(s: State, f: Frame, origin: Origin, next: AfterDrain): State {
    if s.closing then RaiseBody(s, Closing) else
    match EncodeFrame(f, s.max)
    case Ok(_) => Write(s, f, origin).(body := Draining(next))
    case Err(e) => RaiseBody(s, ExcOf(e))
  }

  function HelloReply(max: int, capabilities: seq<string>): Frame {
    Construct(0, 0, AgentHello(Str(SPOE_VERSION), Int(max), capabilities))
  }

  /** `handle_handshake`, from the first frame to its answer. */
  function GreetWith(env: Env, s: State, p: Payload): State {
    if !p.HaproxyHello? then
      SendFromBody(s, ErrorDisconnect(INVALID_FRAME_RECEIVED, "Expected HAPROXY-HELLO, received " + FrameName(p)),
                   FromHandshake, ThenClose)
    else match Number(p.maxFrameSize)
    case None => RaiseBody(s, Foreign)
    case Some(haMax) =>
      var n := Outcome(env.agentMax, p.versions, haMax, p.capabilities, env.toInt);
      var limit := if PIPELINING in n.capabilities then env.maxConcurrent else 1;
      var s1 := s.(peerMax := Some(haMax), max := n.maxFrameSize);
      if !n.compatible then
        SendFromBody(s1, ErrorDisconnect(SERVER_INCOMPATIBLE, "Handshake failed to find compatibility."),
                     FromHandshake, ThenClose)
      else
        SendFromBody(s1.(limit := limit, free := limit), HelloReply(n.maxFrameSize, n.capabilities), FromHandshake,
                     if Truthy(p.healthcheck) then ThenClose else ThenLoop)
  }

  function ApplyGreet(env: Env, s: State): State {
    match DecodeFrame(s.input, s.max)
    case Err(e) => RaiseBody(s, ExcOf(e))
    case Ok((f, used)) =>
      GreetWith(env, s.(input := s.input[used..], afterHello := s.input[used..]), f.payload)
  }

  /** One turn of `_read_frames`, from the decode on. */
  function ApplyRead(s: State): State {
    match DecodeFrame(s.input, s.max)
    case Err(e) => RaiseBody(s, if e == EndOfStream then Closing else ExcOf(e))
    case Ok((f, used)) =>
      var s1 := s.(input := s.input[used..]);
      match f.payload
      case Disconnect(_, _, _) =>
        SendFromBody(s1, DisconnectFrame(NORMAL, "Disconnecting normally"), FromReader, ThenClose)
      case Notify(messages) => Dispatch(s1, Arrival(f.meta, messages, used - 4))
      case _ =>
        SendFromBody(s1, ErrorDisconnect(INVALID_FRAME_RECEIVED,
                                         "Expected NOTIFY or HAPROXY_DISCONNECT, received " + FrameName(f.payload)),
                     FromReader, ThenClose)
  }

  /** `tg.create_task`: the slot goes to the task. */
  function Dispatch(s: State, n: Arrival): State {
    s.(notifies := s.notifies + [n], tasks := s.tasks + [Created], holding := false, body := Acquiring,
       marks := s.marks + [Began(|s.tasks|)])
  }

  // ----- the task of a NOTIFY -----

  /** The task ends and its `finally` releases the slot. */
  function EndTask(s: State, id: nat, acked: bool): State
    requires id < |s.tasks|
  {
    s.(tasks := s.tasks[id := Ended(true, acked)], free := s.free + 1, marks := s.marks + [Freed(id)])
  }

  function FailTask(s: State, id: nat, acked: bool, e: Exc): State
    requires id < |s.tasks|
  {
    EndTask(s, id, acked).(failures := s.failures + [Failure(id, e)])
  }

  /** The frame that answers a NOTIFY, or the exception its task fails with. */
  function Answer(env: Env, id: nat, n: Arrival, max: int): Result<Frame> {
    Reply(n.meta, env.handler(id, n.messages), max)
  }

  /** `_process_notify` once the handler has returned. */
  function ApplyFinish(env: Env, s: State, id: nat): State
    requires id < |s.tasks| && id < |s.notifies|
  {
    if s.closing then EndTask(s, id, false) else
    match Answer(env, id, s.notifies[id], s.max)
    case Ok(ack) =>
      Write(s, ack, FromTask(id)).(tasks := s.tasks[id := Flushing], marks := s.marks + [Acked(id)])
    case Err(e) => FailTask(s, id, false, ExcOf(e))
  }

  /** A task cancelled before its first step never enters its `try`, so it releases nothing. */
  function ApplyCancelled(s: State, id: nat): State
    requires id < |s.tasks|
  {
    match s.tasks[id]
    case Created => s.(tasks := s.tasks[id := Ended(false, false)])
    case Flushing => EndTask(s, id, true)
    case _ => EndTask(s, id, false)
  }

  // ----- after the group -----

  predicate Raised(s: State, e: Exc) {
    s.raised == Some(e) || exists i | 0 <= i < |s.failures| :: s.failures[i].exc == e
  }

  /** A disconnect from an `except*` clause; when it cannot be sent nothing is written. */
  function SendFromClause(s: State, code: int, text: string): State {
    var f := ErrorDisconnect(code, text);
    if s.closing || EncodeFrame(f, s.max).Err? then s else Write(s, f, FromClause)
  }

  // ----- the transition system -----

  predicate TaskIs(s: State, id: nat, t: Status) {
    id < |s.tasks| && id < |s.notifies| && s.tasks[id] == t
  }

  predicate Enabled(s: State, e: Event) {
    match e
    case Greet => s.phase.InGroup? && s.body == Greeting
    case Drained => s.phase.InGroup? && s.body.Draining?
    case Acquire => s.phase.InGroup? && s.body == Acquiring && s.free > 0
    case Read => s.phase.InGroup? && s.body == Reading
    case Reset => s.phase.InGroup? && (s.body == Greeting || s.body == Reading || s.body.Draining?)
    case Start(id) => s.phase.InGroup? && TaskIs(s, id, Created) && !s.aborting
    case Finish(id) => s.phase.InGroup? && TaskIs(s, id, Handling)
    case HandlerFails(id, exc) =>
      s.phase.InGroup? && TaskIs(s, id, Handling) && (exc == Foreign || exc == Connection)
    case Flushed(id) => s.phase.InGroup? && TaskIs(s, id, Flushing)
    case FlushFails(id) => s.phase.InGroup? && TaskIs(s, id, Flushing)
    case Cancelled(id) =>
      s.phase.InGroup? && id < |s.tasks| && id < |s.notifies| && Live(s.tasks[id]) && s.aborting
    case NoticeFailure => s.phase.InGroup? && s.failures != [] && !s.aborting
    case LeaveGroup => s.phase.InGroup? && s.aborting && s.body == Stopped && !SomeLive(s.tasks)
    case TooBigClause(_) => s.phase.InClauses? && s.phase.tooBig
    case ProtocolClause(_) => s.phase.InClauses? && !s.phase.tooBig && s.phase.protocol
    case LoseTransport => true
  }

  function Apply(env: Env, s: State, e: Event): State
    requires Enabled(s, e)
  {
    match e
    case Greet => ApplyGreet(env, s)
    case Drained => if s.body.next == ThenClose then RaiseBody(s, Closing) else s.(body := Acquiring)
    case Acquire => s.(body := Reading, holding := true, free := s.free - 1)
    case Read => ApplyRead(s)
    case Reset => RaiseBody(s, Connection)
    case Start(id) => s.(tasks := s.tasks[id := Handling])
    case Finish(id) => ApplyFinish(env, s, id)
    case HandlerFails(id, exc) => FailTask(s, id, false, exc)
    case Flushed(id) => EndTask(s, id, true)
    case FlushFails(id) => FailTask(s, id, true, Connection)
    case Cancelled(id) => ApplyCancelled(s, id)
    case NoticeFailure => s.(aborting := true, body := Stopped)
    case LeaveGroup => s.(phase := InClauses(Raised(s, TooBig), Raised(s, Protocol)))
    case TooBigClause(text) =>
      SendFromClause(s, FRAME_TOO_BIG, text).(phase := InClauses(false, s.phase.protocol))
    case ProtocolClause(text) =>
      SendFromClause(s, PROTOCOL_ERROR, text).(phase := InClauses(false, false))
    case LoseTransport => s.(closing := true)
  }

  predicate Legal(env: Env, s: State, run: seq<Event>)
    decreases |run|
  {
    run == [] || (Enabled(s, run[0]) && Legal(env, Apply(env, s, run[0]), run[1..]))
  }

  function After(env: Env, s: State, run: seq<Event>): State
    requires Legal(env, s, run)
    decreases |run|
  {
    if run == [] then s else After(env, Apply(env, s, run[0]), run[1..])
  }

  lemma {:induction false} LegalConcat(env: Env, s: State, a: seq<Event>, b: seq<Event>)
    requires Legal(env, s, a) && Legal(env, After(env, s, a), b)
    ensures Legal(env, s, a + b) && After(env, s, a + b) == After(env, After(env, s, a), b)
    decreases |a|
  {
    hide Apply, Enabled;
    if a == [] {
      assert a + b == b;
    } else {
      assert (a + b)[0] == a[0] && (a + b)[1..] == a[1..] + b;
      LegalConcat(env, Apply(env, s, a[0]), a[1..], b);
    }
  }

  lemma EmptyRun(env: Env, s: State)
    ensures Legal(env, s, []) && After(env, s, []) == s
  {
  }

  lemma Extend(env: Env, s: State, run: seq<Event>, e: Event)
    requires Legal(env, s, run) && Enabled(After(env, s, run), e)
    ensures Legal(env, s, run + [e]) && After(env, s, run + [e]) == Apply(env, After(env, s, run), e)
  {
    hide Enabled, Apply;
    var t := After(env, s, run);
    assert [e][1..] == [];
    assert Legal(env, t, [e]) && After(env, t, [e]) == Apply(env, t, e);
    LegalConcat(env, s, run, [e]);
  }
}
