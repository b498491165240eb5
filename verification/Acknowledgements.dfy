/** Every NOTIFY and its ACK, in every reachable state. */
module Acknowledgements {
  import opened Results
  import opened Bytes
  import opened DataTypes
  import opened Payloads
  import opened Frames
  import opened Acks
  import opened Disconnects
  import opened Sessions
  import opened SessionCases
  import opened SlotAccounting

  /** How often the task `id` was answered on the wire. */
  function AckCount(sent: seq<Sent>, id: nat): nat {
    if sent == [] then 0
    else AckCount(sent[..|sent| - 1], id) + if sent[|sent| - 1].origin == FromTask(id) then 1 else 0
  }

  lemma AckCountAppend(sent: seq<Sent>, x: Sent, id: nat)
    ensures AckCount(sent + [x], id) == AckCount(sent, id) + if x.origin == FromTask(id) then 1 else 0
  {
    assert (sent + [x])[..|sent|] == sent;
  }

  predicate HasAcked(t: Status) {
    t == Flushing || (t.Ended? && t.acked)
  }

  predicate RoomInv(s: State) {
    forall i | 0 <= i < |s.notifies| :: Fits(s.notifies[i], s.max)
  }

  /** A task has one ACK on the wire exactly when its status says so, and none otherwise. */
  ghost predicate CountInv(s: State) {
    forall id: nat :: AckCount(s.sent, id) == if id < |s.tasks| && HasAcked(s.tasks[id]) then 1 else 0
  }

  /** Each ACK on the wire is a reply to the NOTIFY of its task; nothing else is an ACK. */
  ghost predicate EchoInv(env: Env, s: State) {
    forall k | 0 <= k < |s.sent| :: Echoes(env, s, s.sent[k])
  }

  ghost predicate Echoes(env: Env, s: State, x: Sent) {
    match x.origin
    case FromTask(id) =>
      id < |s.notifies| && x.frame.payload.Ack? && IsReply(env, x.frame, id, s.notifies[id], s.max)
    case FromHandshake => x.frame.payload.Disconnect? || x.frame.payload.AgentHello?
    case _ => x.frame.payload.Disconnect?
  }

  /** An id the agent cannot write back: it was 2^63 or more on the wire. */
  predicate Unanswerable(m: Metadata) {
    m.streamId < 0 || m.frameId < 0
  }

  /** Tasks never fail with a frame-too-big error, and with a protocol error only for
      a NOTIFY whose reply cannot be sent. */
  predicate FailureInv(env: Env, s: State) {
    forall k | 0 <= k < |s.failures| :: FailureIsJust(env, s, s.failures[k])
  }

  predicate FailureIsJust(env: Env, s: State, f: Failure) {
    && f.exc != TooBig
    && f.exc != Closing
    && (f.exc == Protocol ==> f.id < |s.notifies| && Answer(env, f.id, s.notifies[f.id], s.max).Err?)
  }

  ghost predicate AckInv(env: Env, s: State) {
    RoomInv(s) && CountInv(s) && EchoInv(env, s) && FailureInv(env, s)
  }

  lemma AckInit(env: Env, input: bytes)
    ensures AckInv(env, Initial(env, input))
  {
  }

  lemma AckSend(env: Env, s: State, f: Frame, origin: Origin, next: AfterDrain)
    requires AckInv(env, s) && Echoes(env, s, Sent(f, origin)) && !origin.FromTask?
    ensures AckInv(env, SendFromBody(s, f, origin, next))
  {
    hide EncodeFrame, AckCount, Fits, IsReply;
    AckWrite(env, s, f, origin);
  }

  lemma AckWrite(env: Env, s: State, f: Frame, origin: Origin)
    requires AckInv(env, s) && Echoes(env, s, Sent(f, origin)) && !origin.FromTask?
    ensures EncodeFrame(f, s.max).Ok? ==> AckInv(env, Write(s, f, origin))
  {
    hide EncodeFrame, AckCount, Fits, IsReply;
    forall id: nat
      ensures AckCount(s.sent + [Sent(f, origin)], id) == AckCount(s.sent, id)
    {
      AckCountAppend(s.sent, Sent(f, origin), id);
    }
  }

  lemma AckDispatch(env: Env, s: State, n: Arrival)
    requires AckInv(env, s) && SlotInv(s) && Fits(n, s.max)
    ensures AckInv(env, Dispatch(s, n))
  {
    hide AckCount, Fits, IsReply, Count;
  }

  lemma AckStepGreet(env: Env, s: State)
    requires AckInv(env, s) && SlotInv(s) && FreshInv(env, s) && s.body == Greeting
    ensures AckInv(env, ApplyGreet(env, s))
  {
    hide SendFromBody, ApplyGreet, AckCount, Fits, Count, IsReply;
    var s1, move := GreetCases(env, s);
    assert AckInv(env, s1);
    if move.Answers? {
      AckSend(env, s1, move.f, FromHandshake, move.next);
    }
  }

  lemma AckStepRead(env: Env, s: State)
    requires AckInv(env, s) && SlotInv(s)
    ensures AckInv(env, ApplyRead(s))
  {
    hide SendFromBody, ApplyRead, Dispatch, AckCount, Fits, Count, IsReply;
    var s1, move := ReadCases(s);
    assert AckInv(env, s1);
    match move {
      case Stops(_) =>
      case Answers(f, next) => AckSend(env, s1, f, FromReader, next);
      case Takes(n) => AckDispatch(env, s1, n);
    }
  }

  lemma ReplyIsEcho(env: Env, f: Frame, id: nat, n: Arrival, max: int)
    requires Fits(n, max) && IsReply(env, f, id, n, max)
    ensures f.payload.Ack? && f.meta == Metadata(Flags(true, false), n.meta.streamId, n.meta.frameId)
    ensures !Unanswerable(n.meta)
  {
    hide Reply, EmptyAckFits;
    ReplyOutcome(n.meta, env.handler(id, n.messages), max);
  }

  /** Under a frame size that fits the length prefix, the ids alone decide whether a reply exists. */
  lemma ReplyFailsJustly(env: Env, id: nat, n: Arrival, max: int)
    requires Fits(n, max)
    ensures Answer(env, id, n, max).Err? ==> Answer(env, id, n, max).error == EncodeError
    ensures Unanswerable(n.meta) ==> Answer(env, id, n, max).Err?
    ensures max < TWO_TO_32 ==> (Answer(env, id, n, max).Err? <==> Unanswerable(n.meta))
  {
    hide Reply, EmptyAckFits;
    ReplyOutcome(n.meta, env.handler(id, n.messages), max);
  }

  /** A change of status that does not touch the wire. */
  lemma AckSwitch(env: Env, s: State, id: nat, t: Status)
    requires AckInv(env, s) && id < |s.tasks| && HasAcked(t) == HasAcked(s.tasks[id])
    ensures AckInv(env, s.(tasks := s.tasks[id := t]))
  {
    hide AckCount, Fits, IsReply;
  }

  lemma AckIgnores(env: Env, s: State, u: State)
    requires AckInv(env, s) && u == s.(free := u.free, marks := u.marks)
    ensures AckInv(env, u)
  {
    hide AckCount, Fits, IsReply;
  }

  lemma AckFails(env: Env, s: State, f: Failure)
    requires AckInv(env, s) && FailureIsJust(env, s, f)
    ensures AckInv(env, s.(failures := s.failures + [f]))
  {
    hide AckCount, Fits, IsReply;
  }

  lemma AckReplies(env: Env, s: State, id: nat, f: Frame)
    requires AckInv(env, s) && id < |s.tasks| && id < |s.notifies| && s.tasks[id] == Handling
    requires IsReply(env, f, id, s.notifies[id], s.max) && EncodeFrame(f, s.max).Ok?
    ensures AckInv(env, Write(s, f, FromTask(id)).(tasks := s.tasks[id := Flushing]))
  {
    hide EncodeFrame, AckCount, EmptyAckFits, IsReply;
    var u := Write(s, f, FromTask(id)).(tasks := s.tasks[id := Flushing]);
    assert Fits(s.notifies[id], s.max);
    ReplyIsEcho(env, f, id, s.notifies[id], s.max);
    forall j: nat
      ensures AckCount(u.sent, j) == if j < |u.tasks| && HasAcked(u.tasks[j]) then 1 else 0
    {
      AckCountAppend(s.sent, Sent(f, FromTask(id)), j);
    }
  }

  lemma AckEnds(env: Env, s: State, id: nat)
    requires AckInv(env, s) && id < |s.tasks| && s.tasks[id] in {Handling, Flushing}
    ensures AckInv(env, EndTask(s, id, s.tasks[id] == Flushing))
  {
    hide AckInv;
    var over := Ended(true, s.tasks[id] == Flushing);
    AckSwitch(env, s, id, over);
    AckIgnores(env, s.(tasks := s.tasks[id := over]), EndTask(s, id, s.tasks[id] == Flushing));
  }

  lemma AckFailsTask(env: Env, s: State, id: nat, x: Exc)
    requires AckInv(env, s) && id < |s.tasks| && s.tasks[id] in {Handling, Flushing}
    requires FailureIsJust(env, s, Failure(id, x))
    ensures AckInv(env, FailTask(s, id, s.tasks[id] == Flushing, x))
  {
    hide AckInv, Answer;
    AckEnds(env, s, id);
    AckFails(env, EndTask(s, id, s.tasks[id] == Flushing), Failure(id, x));
  }

  lemma AckRepliesTask(env: Env, s: State, id: nat, f: Frame)
    requires AckInv(env, s) && id < |s.tasks| && id < |s.notifies| && s.tasks[id] == Handling
    requires IsReply(env, f, id, s.notifies[id], s.max) && EncodeFrame(f, s.max).Ok?
    ensures AckInv(env, Write(s, f, FromTask(id)).(tasks := s.tasks[id := Flushing], marks := s.marks + [Acked(id)]))
  {
    hide AckInv, IsReply, EncodeFrame;
    AckReplies(env, s, id, f);
    AckIgnores(env, Write(s, f, FromTask(id)).(tasks := s.tasks[id := Flushing]),
               Write(s, f, FromTask(id)).(tasks := s.tasks[id := Flushing], marks := s.marks + [Acked(id)]));
  }

  lemma AckStepTask(env: Env, s: State, e: Event)
    requires AckInv(env, s) && IsTaskEvent(e) && Enabled(s, e)
    ensures AckInv(env, Apply(env, s, e))
  {
    hide Apply, AckInv, IsReply, ReplyFails, FailureIsJust, EncodeFrame;
    var move := TaskCases(env, s, e);
    match move {
      case Starts => AckSwitch(env, s, e.id, Handling);
      case Vanishes => AckSwitch(env, s, e.id, Ended(false, false));
      case Ends => AckEnds(env, s, e.id);
      case Fails(x) =>
        FailsJustly(env, s, e.id, x);
        AckFailsTask(env, s, e.id, x);
      case Replies(f) => AckRepliesTask(env, s, e.id, f);
    }
  }

  lemma FailsJustly(env: Env, s: State, id: nat, x: Exc)
    requires AckInv(env, s) && id < |s.notifies|
    requires x == Foreign || x == Connection || ReplyFails(env, id, s.notifies[id], s.max, x)
    ensures FailureIsJust(env, s, Failure(id, x))
  {
    hide Answer, EmptyAckFits, AckCount, IsReply;
    assert Fits(s.notifies[id], s.max);
    if x != Foreign && x != Connection {
      ReplyFailsJustly(env, id, s.notifies[id], s.max);
    }
  }

  lemma AckStepClause(env: Env, s: State, code: int, text: string)
    requires AckInv(env, s)
    ensures AckInv(env, SendFromClause(s, code, text))
  {
    hide EncodeFrame, AckCount, Fits, IsReply, ErrorDisconnect;
    DisconnectPayload(code, text);
    AckWrite(env, s, ErrorDisconnect(code, text), FromClause);
  }

  lemma AckStep(env: Env, s: State, e: Event)
    requires AckInv(env, s) && SlotInv(s) && FreshInv(env, s) && Enabled(s, e)
    ensures AckInv(env, Apply(env, s, e))
  {
    hide AckCount, Fits, Count, IsReply, ApplyRead, ApplyGreet, ApplyFinish, ApplyCancelled, SendFromClause;
    if e.Greet? {
      AckStepGreet(env, s);
    } else if e.Read? {
      AckStepRead(env, s);
    } else if IsTaskEvent(e) {
      AckStepTask(env, s, e);
    } else if e.TooBigClause? {
      AckStepClause(env, s, FRAME_TOO_BIG, e.text);
    } else if e.ProtocolClause? {
      AckStepClause(env, s, PROTOCOL_ERROR, e.text);
    }
  }
}
