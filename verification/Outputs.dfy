/** What stands on the wire, in every reachable state. */
module Outputs {
  import opened Results
  import opened Bytes
  import opened Frames
  import opened Acks
  import opened Disconnects
  import opened Sessions
  import opened SessionCases
  import opened SlotAccounting
  import opened Acknowledgements

  function FramesOf(sent: seq<Sent>): (fs: seq<Frame>)
    ensures |fs| == |sent|
  {
    seq(|sent|, i requires 0 <= i < |sent| => sent[i].frame)
  }

  lemma {:induction false} EncodeAllAppend(fs: seq<Frame>, f: Frame, max: int)
    requires EncodeAll(fs, max).Ok? && EncodeFrame(f, max).Ok?
    ensures EncodeAll(fs + [f], max) == Ok(EncodeAll(fs, max).value + EncodeFrame(f, max).value)
  {
    hide EncodeFrame;
    if fs == [] {
      assert [] + [f] == [f] && [f][1..] == [];
      assert EncodeFrame(f, max).value + [] == [] + EncodeFrame(f, max).value;
    } else {
      assert (fs + [f])[1..] == fs[1..] + [f];
      EncodeAllAppend(fs[1..], f, max);
      var first, rest, last := EncodeFrame(fs[0], max).value, EncodeAll(fs[1..], max).value, EncodeFrame(f, max).value;
      assert first + (rest + last) == (first + rest) + last;
    }
  }

  /** The wire is the concatenation of the frames sent, all within the current limit, which is
      no larger than either side's. */
  predicate WireInv(env: Env, s: State) {
    && EncodeAll(FramesOf(s.sent), s.max) == Ok(s.wire)
    && (forall k | 0 <= k < |s.sent| :: Faithful(s.sent[k].frame))
    && s.max <= env.agentMax
    && (s.peerMax.Some? ==> s.max <= s.peerMax.value)
  }

  lemma WireInit(env: Env, input: bytes)
    ensures WireInv(env, Initial(env, input))
  {
  }

  lemma WireWrite(env: Env, s: State, f: Frame, origin: Origin)
    requires WireInv(env, s) && Faithful(f) && EncodeFrame(f, s.max).Ok?
    ensures WireInv(env, Write(s, f, origin))
  {
    hide EncodeFrame, EncodeAll, Faithful;
    EncodeAllAppend(FramesOf(s.sent), f, s.max);
    assert FramesOf(s.sent + [Sent(f, origin)]) == FramesOf(s.sent) + [f];
  }

  lemma WireSend(env: Env, s: State, f: Frame, origin: Origin, next: AfterDrain)
    requires WireInv(env, s) && Faithful(f)
    ensures WireInv(env, SendFromBody(s, f, origin, next))
  {
    hide EncodeFrame, EncodeAll, Faithful;
    if EncodeFrame(f, s.max).Ok? {
      WireWrite(env, s, f, origin);
    }
  }

  lemma ReplyIsFaithful(env: Env, f: Frame, id: nat, n: Arrival, max: int)
    requires Fits(n, max) && IsReply(env, f, id, n, max)
    ensures Faithful(f)
  {
    hide EmptyAckFits, IsReply;
    ReplyIsEcho(env, f, id, n, max);
  }

  lemma WireIgnores(env: Env, s: State, u: State)
    requires WireInv(env, s)
    requires u == s.(tasks := u.tasks, free := u.free, failures := u.failures, marks := u.marks)
    ensures WireInv(env, u)
  {
    hide EncodeAll, Faithful;
  }

  lemma WireStepTask(env: Env, s: State, e: Event)
    requires WireInv(env, s) && RoomInv(s) && IsTaskEvent(e) && Enabled(s, e)
    ensures WireInv(env, Apply(env, s, e))
  {
    hide Apply, WireInv, Fits, IsReply, ReplyFails, EncodeFrame, Faithful;
    var move := TaskCases(env, s, e);
    var u := Apply(env, s, e);
    match move {
      case Starts => WireIgnores(env, s, u);
      case Vanishes => WireIgnores(env, s, u);
      case Ends => WireIgnores(env, s, u);
      case Fails(_) => WireIgnores(env, s, u);
      case Replies(f) =>
        assert Fits(s.notifies[e.id], s.max);
        ReplyIsFaithful(env, f, e.id, s.notifies[e.id], s.max);
        WireWrite(env, s, f, FromTask(e.id));
        WireIgnores(env, Write(s, f, FromTask(e.id)), u);
    }
  }

  lemma WireStepClause(env: Env, s: State, code: int, text: string)
    requires WireInv(env, s)
    ensures WireInv(env, SendFromClause(s, code, text))
  {
    hide EncodeFrame, EncodeAll, Faithful, ErrorDisconnect;
    DisconnectIsFaithful(code, text);
    if EncodeFrame(ErrorDisconnect(code, text), s.max).Ok? {
      WireWrite(env, s, ErrorDisconnect(code, text), FromClause);
    }
  }

  lemma WireStepGreet(env: Env, s: State)
    requires WireInv(env, s) && FreshInv(env, s) && s.body == Greeting
    ensures WireInv(env, ApplyGreet(env, s))
  {
    hide SendFromBody, ApplyGreet, EncodeFrame, Faithful;
    var s1, move := GreetCases(env, s);
    assert WireInv(env, s1);
    if move.Answers? {
      WireSend(env, s1, move.f, FromHandshake, move.next);
    }
  }

  lemma WireStepRead(env: Env, s: State)
    requires WireInv(env, s)
    ensures WireInv(env, ApplyRead(s))
  {
    hide SendFromBody, ApplyRead, EncodeFrame, EncodeAll, Faithful, Fits;
    var s1, move := ReadCases(s);
    if move.Answers? {
      WireSend(env, s1, move.f, FromReader, move.next);
    }
  }

  lemma WireStep(env: Env, s: State, e: Event)
    requires WireInv(env, s) && FreshInv(env, s) && RoomInv(s) && Enabled(s, e)
    ensures WireInv(env, Apply(env, s, e))
  {
    hide EncodeAll, EncodeFrame, Faithful, Fits, ApplyRead, ApplyGreet, ApplyFinish, ApplyCancelled, SendFromClause;
    if e.Greet? {
      WireStepGreet(env, s);
    } else if e.Read? {
      WireStepRead(env, s);
    } else if IsTaskEvent(e) {
      WireStepTask(env, s, e);
    } else if e.TooBigClause? {
      WireStepClause(env, s, FRAME_TOO_BIG, e.text);
    } else if e.ProtocolClause? {
      WireStepClause(env, s, PROTOCOL_ERROR, e.text);
    }
  }

  // ----- the order of frames -----

  function DisconnectCount(sent: seq<Sent>): nat {
    if sent == [] then 0
    else DisconnectCount(sent[..|sent| - 1]) + if sent[|sent| - 1].frame.payload.Disconnect? then 1 else 0
  }

  lemma DisconnectCountAppend(sent: seq<Sent>, x: Sent)
    ensures DisconnectCount(sent + [x]) == DisconnectCount(sent) + if x.frame.payload.Disconnect? then 1 else 0
  {
    assert (sent + [x])[..|sent|] == sent;
  }

  /** The body will not read again. */
  predicate ClosingDown(s: State) {
    s.body == Stopped || s.body == Draining(ThenClose)
  }

  predicate HelloFirst(s: State) {
    s.sent != [] && s.sent[0].origin == FromHandshake && s.sent[0].frame.payload.AgentHello?
  }

  predicate OrderInv(s: State) {
    && (s.tasks != [] || !(ClosingDown(s) || s.body == Greeting) ==> HelloFirst(s))
    && (forall k | 0 <= k < |s.sent| :: s.sent[k].origin == FromHandshake ==> k == 0)
    && (forall k | 0 <= k < |s.sent| :: s.sent[k].origin == FromReader ==> ClosingDown(s) && HelloFirst(s))
    && (forall k | 0 <= k < |s.sent| :: s.sent[k].origin == FromClause ==> s.phase.InClauses?)
    && (forall j, k | 0 <= j < k < |s.sent| :: s.sent[j].origin == FromClause ==> s.sent[k].origin == FromClause)
    && (s.phase.InClauses? ==> ClosingDown(s))
    && (s.body != Stopped ==> s.raised == None)
  }

  /** How many disconnects can be on the wire, and what can still add one. */
  predicate DisconnectInv(s: State) {
    var d := DisconnectCount(s.sent);
    match s.phase
    case InGroup => d <= 1 && (d == 1 ==> ClosingDown(s) && s.raised != Some(TooBig))
    case InClauses(tooBig, protocol) => if tooBig then d == 0 else if protocol then d <= 1 else d <= 2
  }

  lemma OrderSend(s: State, f: Frame, origin: Origin, next: AfterDrain)
    requires OrderInv(s) && DisconnectInv(s) && s.phase.InGroup? && !ClosingDown(s)
    requires || (origin == FromHandshake && s.body == Greeting && s.sent == [] && s.tasks == []
                 && (f.payload.AgentHello? || (f.payload.Disconnect? && next == ThenClose)))
             || (origin == FromReader && s.body == Reading && f.payload.Disconnect? && next == ThenClose)
    ensures OrderInv(SendFromBody(s, f, origin, next)) && DisconnectInv(SendFromBody(s, f, origin, next))
  {
    hide EncodeFrame, DisconnectCount;
    DisconnectCountAppend(s.sent, Sent(f, origin));
  }

  lemma OrderStepGreet(env: Env, s: State)
    requires OrderInv(s) && DisconnectInv(s) && SlotInv(s) && FreshInv(env, s) && Enabled(s, Greet)
    ensures OrderInv(ApplyGreet(env, s)) && DisconnectInv(ApplyGreet(env, s))
  {
    hide SendFromBody, ApplyGreet, DisconnectCount, Faithful, Count;
    var s1, move := GreetCases(env, s);
    assert OrderInv(s1) && DisconnectInv(s1);
    if move.Answers? {
      OrderSend(s1, move.f, FromHandshake, move.next);
    }
  }

  lemma OrderStepRead(s: State)
    requires OrderInv(s) && DisconnectInv(s) && Enabled(s, Read)
    ensures OrderInv(ApplyRead(s)) && DisconnectInv(ApplyRead(s))
  {
    hide SendFromBody, ApplyRead, DisconnectCount, Faithful, Fits;
    var s1, move := ReadCases(s);
    assert OrderInv(s1) && DisconnectInv(s1);
    if move.Answers? {
      OrderSend(s1, move.f, FromReader, move.next);
    }
  }

  lemma OrderIgnores(s: State, u: State)
    requires OrderInv(s) && DisconnectInv(s) && s.tasks != []
    requires u == s.(tasks := u.tasks, free := u.free, failures := u.failures, marks := u.marks)
    ensures OrderInv(u) && DisconnectInv(u)
  {
    hide DisconnectCount;
  }

  lemma OrderAck(s: State, f: Frame, id: nat)
    requires OrderInv(s) && DisconnectInv(s) && s.phase.InGroup? && s.tasks != []
    requires f.payload.Ack? && EncodeFrame(f, s.max).Ok?
    ensures OrderInv(Write(s, f, FromTask(id))) && DisconnectInv(Write(s, f, FromTask(id)))
  {
    hide EncodeFrame, DisconnectCount;
    DisconnectCountAppend(s.sent, Sent(f, FromTask(id)));
  }

  lemma OrderStepTask(env: Env, s: State, e: Event)
    requires OrderInv(s) && DisconnectInv(s) && RoomInv(s) && IsTaskEvent(e) && Enabled(s, e)
    ensures OrderInv(Apply(env, s, e)) && DisconnectInv(Apply(env, s, e))
  {
    hide Apply, OrderInv, DisconnectInv, EmptyAckFits, IsReply, ReplyFails, EncodeFrame;
    var move := TaskCases(env, s, e);
    var u := Apply(env, s, e);
    match move {
      case Starts => OrderIgnores(s, u);
      case Vanishes => OrderIgnores(s, u);
      case Ends => OrderIgnores(s, u);
      case Fails(_) => OrderIgnores(s, u);
      case Replies(f) =>
        assert Fits(s.notifies[e.id], s.max);
        ReplyIsEcho(env, f, e.id, s.notifies[e.id], s.max);
        OrderAck(s, f, e.id);
        OrderIgnores(Write(s, f, FromTask(e.id)), u);
    }
  }

  lemma OrderClause(s: State, f: Frame, p: bool)
    requires OrderInv(s) && s.phase.InClauses? && EncodeFrame(f, s.max).Ok?
    ensures OrderInv(Write(s, f, FromClause).(phase := InClauses(false, p)))
  {
    hide EncodeFrame;
  }

  lemma OrderStepClause(s: State, code: int, text: string, p: bool)
    requires OrderInv(s) && DisconnectInv(s) && s.phase.InClauses?
    requires if p then s.phase.tooBig && s.phase.protocol else s.phase.tooBig || s.phase.protocol
    ensures var u := SendFromClause(s, code, text).(phase := InClauses(false, p));
            OrderInv(u) && DisconnectInv(u)
  {
    hide EncodeFrame, DisconnectCount, ErrorDisconnect;
    var f := ErrorDisconnect(code, text);
    DisconnectPayload(code, text);
    DisconnectCountAppend(s.sent, Sent(f, FromClause));
    if EncodeFrame(f, s.max).Ok? {
      OrderClause(s, f, p);
    }
  }

  lemma OrderStep(env: Env, s: State, e: Event)
    requires OrderInv(s) && DisconnectInv(s) && SlotInv(s) && FreshInv(env, s) && RoomInv(s) && FailureInv(env, s)
    requires Enabled(s, e)
    ensures OrderInv(Apply(env, s, e)) && DisconnectInv(Apply(env, s, e))
  {
    hide DisconnectCount, Fits, Count, ApplyRead, ApplyGreet, ApplyFinish, ApplyCancelled, SendFromClause;
    if e.Greet? {
      OrderStepGreet(env, s);
    } else if e.Read? {
      OrderStepRead(s);
    } else if IsTaskEvent(e) {
      OrderStepTask(env, s, e);
    } else if e.TooBigClause? {
      OrderStepClause(s, FRAME_TOO_BIG, e.text, s.phase.protocol);
    } else if e.ProtocolClause? {
      OrderStepClause(s, PROTOCOL_ERROR, e.text, false);
    }
  }
}
