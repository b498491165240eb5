/** When a second disconnect can be written: the state invariants behind the answer. */
module Uniqueness {
  import opened Results
  import opened Bytes
  import opened Frames
  import opened Acks
  import opened Disconnects
  import opened Sessions
  import opened SessionCases
  import opened SlotAccounting
  import opened Acknowledgements
  import opened Outputs
  import opened Feeds
  import opened Losses

  predicate SomeProtocol(failures: seq<Failure>) {
    exists k | 0 <= k < |failures| :: failures[k].exc == Protocol
  }

  /** The two causes that can meet: a NOTIFY without a reply, and a reader that ends the session. */
  predicate Twice(s: State) {
    SomeProtocol(s.failures) && (ReaderDone(s.sent) || s.raised == Some(TooBig))
  }

  /** At most one disconnect is written, and what is still to come writes no second one. */
  predicate Single(s: State) {
    var d := DisconnectCount(s.sent);
    match s.phase
    case InGroup =>
      d <= 1 && (d == 1 ==> ClosingDown(s) && s.raised != Some(TooBig) && s.raised != Some(Protocol))
    case InClauses(tooBig, protocol) => d <= 1 && !(tooBig && protocol) && (tooBig || protocol ==> d == 0)
  }

  predicate SingleInv(s: State) {
    Twice(s) || Single(s)
  }

  lemma SingleInit(env: Env, input: bytes)
    ensures SingleInv(Initial(env, input))
  {
  }

  lemma ProtocolGrows(a: seq<Failure>, b: seq<Failure>)
    requires a <= b && SomeProtocol(a)
    ensures SomeProtocol(b)
  {
    var k :| 0 <= k < |a| && a[k].exc == Protocol;
    assert b[k] == a[k];
  }

  lemma ReaderStays(a: seq<Sent>, b: seq<Sent>)
    requires a <= b && ReaderDone(a)
    ensures ReaderDone(b)
  {
    var k :| 0 <= k < |a| && a[k].origin == FromReader;
    assert b[k] == a[k];
  }

  /** The causes are never taken back. */
  lemma TwiceStays(s: State, u: State)
    requires Twice(s) && s.failures <= u.failures && s.sent <= u.sent
    requires s.raised == Some(TooBig) ==> u.raised == Some(TooBig)
    ensures Twice(u)
  {
    ProtocolGrows(s.failures, u.failures);
    if ReaderDone(s.sent) {
      ReaderStays(s.sent, u.sent);
    }
  }

  /** Neither the disconnects nor the body have changed. */
  lemma SingleKeeps(s: State, u: State)
    requires SingleInv(s) && s.failures <= u.failures && s.sent <= u.sent
    requires DisconnectCount(u.sent) == DisconnectCount(s.sent)
    requires u.raised == s.raised && u.phase == s.phase && (ClosingDown(s) ==> ClosingDown(u))
    ensures SingleInv(u)
  {
    hide DisconnectCount, SomeProtocol, ReaderDone;
    if Twice(s) {
      TwiceStays(s, u);
    }
  }

  lemma SingleRaise(s: State, e: Exc)
    requires SingleInv(s) && s.phase.InGroup? && s.raised == None
    requires ClosingDown(s) ==> e == Closing || e == Connection
    ensures SingleInv(RaiseBody(s, e))
  {
    hide DisconnectCount, SomeProtocol, ReaderDone;
    if Twice(s) {
      TwiceStays(s, RaiseBody(s, e));
    }
  }

  lemma SingleSend(s: State, f: Frame, origin: Origin, next: AfterDrain)
    requires SingleInv(s) && s.phase.InGroup? && s.raised == None && !ClosingDown(s)
    requires f.payload.Disconnect? ==> next == ThenClose
    ensures SingleInv(SendFromBody(s, f, origin, next))
  {
    hide EncodeFrame, DisconnectCount, SomeProtocol, ReaderDone;
    var u := SendFromBody(s, f, origin, next);
    DisconnectCountAppend(s.sent, Sent(f, origin));
    if Twice(s) {
      TwiceStays(s, u);
    }
  }

  lemma SingleStepGreet(env: Env, s: State)
    requires SingleInv(s) && FreshInv(env, s) && OrderInv(s) && Enabled(s, Greet)
    ensures SingleInv(ApplyGreet(env, s))
  {
    hide SendFromBody, ApplyGreet, RaiseBody, Faithful, DisconnectCount, SomeProtocol, ReaderDone;
    var s1, move := GreetCases(env, s);
    SingleKeeps(s, s1);
    match move {
      case Stops(e) => SingleRaise(s1, e);
      case Answers(f, next) => SingleSend(s1, f, FromHandshake, next);
    }
  }

  lemma SingleStepRead(s: State)
    requires SingleInv(s) && OrderInv(s) && Enabled(s, Read)
    ensures SingleInv(ApplyRead(s))
  {
    hide SendFromBody, ApplyRead, RaiseBody, Faithful, Fits, DisconnectCount, SomeProtocol, ReaderDone;
    var s1, move := ReadCases(s);
    SingleKeeps(s, s1);
    match move {
      case Stops(e) => SingleRaise(s1, e);
      case Answers(f, next) => SingleSend(s1, f, FromReader, next);
      case Takes(n) => SingleKeeps(s1, Dispatch(s1, n));
    }
  }

  lemma SingleIgnores(s: State, u: State)
    requires SingleInv(s) && s.failures <= u.failures
    requires u == s.(tasks := u.tasks, free := u.free, failures := u.failures, marks := u.marks)
    ensures SingleInv(u)
  {
    hide DisconnectCount;
    SingleKeeps(s, u);
  }

  lemma SingleAck(s: State, f: Frame, id: nat)
    requires SingleInv(s) && f.payload.Ack? && EncodeFrame(f, s.max).Ok?
    ensures SingleInv(Write(s, f, FromTask(id)))
  {
    hide EncodeFrame, DisconnectCount;
    DisconnectCountAppend(s.sent, Sent(f, FromTask(id)));
    SingleKeeps(s, Write(s, f, FromTask(id)));
  }

  lemma SingleStepTask(env: Env, s: State, e: Event)
    requires SingleInv(s) && RoomInv(s) && IsTaskEvent(e) && Enabled(s, e)
    ensures SingleInv(Apply(env, s, e))
  {
    hide Apply, SingleInv, EmptyAckFits, IsReply, ReplyFails, EncodeFrame;
    var move := TaskCases(env, s, e);
    var u := Apply(env, s, e);
    match move {
      case Starts => SingleIgnores(s, u);
      case Vanishes => SingleIgnores(s, u);
      case Ends => SingleIgnores(s, u);
      case Fails(_) => SingleIgnores(s, u);
      case Replies(f) =>
        assert Fits(s.notifies[e.id], s.max);
        ReplyIsEcho(env, f, e.id, s.notifies[e.id], s.max);
        SingleAck(s, f, e.id);
        SingleIgnores(Write(s, f, FromTask(e.id)), u);
    }
  }

  lemma {:induction false} NoDisconnect(sent: seq<Sent>)
    requires forall k | 0 <= k < |sent| :: !sent[k].frame.payload.Disconnect?
    ensures DisconnectCount(sent) == 0
  {
    if sent != [] {
      NoDisconnect(sent[..|sent| - 1]);
    }
  }

  /** In a session the group's disconnect can only come from the reader. */
  lemma OnlyReaderDisconnects(env: Env, s: State)
    requires OrderInv(s) && EchoInv(env, s) && s.phase.InGroup? && s.tasks != [] && !ReaderDone(s.sent)
    ensures DisconnectCount(s.sent) == 0
  {
    hide IsReply, DisconnectCount;
    forall k | 0 <= k < |s.sent|
      ensures !s.sent[k].frame.payload.Disconnect?
    {
      assert Echoes(env, s, s.sent[k]);
      assert s.sent[k].origin != FromReader;
      assert s.sent[k].origin != FromClause;
    }
    NoDisconnect(s.sent);
  }

  lemma SingleStepLeave(env: Env, s: State)
    requires SingleInv(s) && SlotInv(s) && OrderInv(s) && EchoInv(env, s) && FailureInv(env, s)
    requires Enabled(s, LeaveGroup)
    ensures SingleInv(s.(phase := InClauses(Raised(s, TooBig), Raised(s, Protocol))))
  {
    hide DisconnectCount, Count, Answer, OrderInv, EchoInv, ReaderDone;
    var u := s.(phase := InClauses(Raised(s, TooBig), Raised(s, Protocol)));
    if Twice(s) {
      TwiceStays(s, u);
    } else if s.raised != Some(TooBig) && s.raised != Some(Protocol) && SomeProtocol(s.failures) {
      var k :| 0 <= k < |s.failures| && s.failures[k].exc == Protocol;
      assert FailureIsJust(env, s, s.failures[k]);
      OnlyReaderDisconnects(env, s);
    }
    assert Raised(s, TooBig) <==> s.raised == Some(TooBig) by {
      assert forall k | 0 <= k < |s.failures| :: FailureIsJust(env, s, s.failures[k]);
    }
  }

  lemma SingleStepClause(s: State, code: int, text: string, p: bool)
    requires SingleInv(s) && s.phase.InClauses?
    requires if p then s.phase.tooBig && s.phase.protocol else s.phase.tooBig || s.phase.protocol
    ensures SingleInv(SendFromClause(s, code, text).(phase := InClauses(false, p)))
  {
    hide EncodeFrame, DisconnectCount, ErrorDisconnect, SomeProtocol, ReaderDone;
    var f := ErrorDisconnect(code, text);
    DisconnectCountAppend(s.sent, Sent(f, FromClause));
    DisconnectPayload(code, text);
    if Twice(s) {
      TwiceStays(s, SendFromClause(s, code, text).(phase := InClauses(false, p)));
    }
  }

  lemma SingleStep(env: Env, s: State, e: Event)
    requires SingleInv(s) && SlotInv(s) && FreshInv(env, s) && AckInv(env, s) && OrderInv(s) && Enabled(s, e)
    ensures SingleInv(Apply(env, s, e))
  {
    hide Count, AckCount, Fits, IsReply, FailureIsJust, DisconnectCount, SingleInv, ApplyRead, ApplyGreet,
         ApplyFinish, ApplyCancelled, SendFromClause;
    if e.Greet? {
      SingleStepGreet(env, s);
    } else if e.Read? {
      SingleStepRead(s);
    } else if IsTaskEvent(e) {
      SingleStepTask(env, s, e);
    } else if e.Drained? && s.body.next == ThenClose {
      SingleRaise(s, Closing);
    } else if e.Reset? {
      SingleRaise(s, Connection);
    } else if e.LeaveGroup? {
      SingleStepLeave(env, s);
    } else if e.TooBigClause? {
      SingleStepClause(s, FRAME_TOO_BIG, e.text, s.phase.protocol);
    } else if e.ProtocolClause? {
      SingleStepClause(s, PROTOCOL_ERROR, e.text, false);
    } else {
      SingleKeeps(s, Apply(env, s, e));
    }
  }

  // ----- what stands on the stream -----

  /** The next frame ends the session in a way that HAProxy is told of: it is oversized, or anything
      but a NOTIFY. */
  predicate EndsSession(stream: bytes, max: int) {
    match DecodeFrame(stream, max)
    case Err(e) => e == FrameTooBig
    case Ok((f, _)) => !f.payload.Notify?
  }

  /** NOTIFYs, and behind them such a frame. */
  ghost predicate FeedsToEnd(stream: bytes, max: int, notifies: seq<Arrival>) {
    exists rest :: FeedsTo(stream, max, notifies, rest) && EndsSession(rest, max)
  }

  ghost predicate EndInv(s: State) {
    ReaderDone(s.sent) || (s.raised == Some(TooBig) && s.notifies != []) ==>
      FeedsToEnd(s.afterHello, s.max, s.notifies)
  }

  lemma EndInit(env: Env, input: bytes)
    ensures EndInv(Initial(env, input))
  {
  }

  /** Only such a frame makes the reader write or report an oversized frame. */
  lemma ReadEnds(s: State)
    requires !EndsSession(s.input, s.max)
    ensures ApplyRead(s).sent == s.sent
    ensures ApplyRead(s).raised == s.raised || ApplyRead(s).raised != Some(TooBig)
  {
    hide DecodeFrame, SendFromBody;
  }

  lemma EndStepRead(s: State)
    requires EndInv(s) && FeedInv(s) && OrderInv(s) && s.body == Reading
    ensures EndInv(ApplyRead(s))
  {
    hide ApplyRead, SendFromBody, Faithful, Fits, EndsSession, FeedsTo;
    var s1, move := ReadCases(s);
    assert !ReaderDone(s.sent);
    if EndsSession(s.input, s.max) {
      assert FeedsToEnd(s.afterHello, s.max, s.notifies);
      EndOnTakes(s);
      match move {
        case Stops(_) =>
        case Answers(f, next) => EndSend(s1, f, FromReader, next);
      }
    } else {
      ReadEnds(s);
    }
  }

  lemma EndOnTakes(s: State)
    requires EndsSession(s.input, s.max)
    ensures !(DecodeFrame(s.input, s.max).Ok? && DecodeFrame(s.input, s.max).value.0.payload.Notify?)
  {
    hide DecodeFrame;
  }

  lemma EndSend(s: State, f: Frame, origin: Origin, next: AfterDrain)
    requires FeedsToEnd(s.afterHello, s.max, s.notifies)
    ensures EndInv(SendFromBody(s, f, origin, next))
  {
    hide EncodeFrame, FeedsToEnd;
  }

  lemma EndStepGreet(env: Env, s: State)
    requires FreshInv(env, s) && SlotInv(s) && s.body == Greeting
    ensures EndInv(ApplyGreet(env, s))
  {
    hide ApplyGreet, SendFromBody, Faithful, Count, FeedsToEnd;
    var s1, move := GreetCases(env, s);
    if move.Answers? {
      NoReaderYet(s1, move.f, move.next);
    }
  }

  lemma NoReaderYet(s: State, f: Frame, next: AfterDrain)
    requires s.sent == [] && s.notifies == []
    ensures EndInv(SendFromBody(s, f, FromHandshake, next))
  {
    hide EncodeFrame, FeedsToEnd;
  }

  lemma EndKeeps(s: State, u: State)
    requires EndInv(s) && u.afterHello == s.afterHello && u.max == s.max && u.notifies == s.notifies
    requires ReaderDone(u.sent) ==> ReaderDone(s.sent)
    requires u.raised == Some(TooBig) ==> s.raised == Some(TooBig)
    ensures EndInv(u)
  {
    hide FeedsToEnd, ReaderDone;
  }

  lemma NotFromReader(sent: seq<Sent>, x: Sent)
    requires x.origin != FromReader
    ensures ReaderDone(sent + [x]) ==> ReaderDone(sent)
  {
    if k :| 0 <= k < |sent + [x]| && (sent + [x])[k].origin == FromReader {
      assert sent[k].origin == FromReader;
    }
  }

  lemma EndStepTask(env: Env, s: State, e: Event)
    requires EndInv(s) && IsTaskEvent(e) && Enabled(s, e)
    ensures EndInv(Apply(env, s, e))
  {
    hide Apply, EndInv, IsReply, ReplyFails, EncodeFrame, ReaderDone;
    TaskKeeps(env, s, e);
    var move := TaskCases(env, s, e);
    if move.Replies? {
      NotFromReader(s.sent, Sent(move.f, FromTask(e.id)));
    }
    EndKeeps(s, Apply(env, s, e));
  }

  lemma EndStepClause(s: State, code: int, text: string, phase: Phase)
    requires EndInv(s)
    ensures EndInv(SendFromClause(s, code, text).(phase := phase))
  {
    hide EncodeFrame, ErrorDisconnect, EndInv, ReaderDone;
    NotFromReader(s.sent, Sent(ErrorDisconnect(code, text), FromClause));
    EndKeeps(s, SendFromClause(s, code, text).(phase := phase));
  }

  lemma EndStep(env: Env, s: State, e: Event)
    requires EndInv(s) && SlotInv(s) && FreshInv(env, s) && OrderInv(s) && FeedInv(s) && Enabled(s, e)
    ensures EndInv(Apply(env, s, e))
  {
    hide Count, FeedsTo, FeedsToEnd, ApplyRead, ApplyGreet, ApplyFinish, ApplyCancelled, SendFromClause, EndInv,
         ReaderDone, FeedInv, OrderInv;
    if e.Greet? {
      EndStepGreet(env, s);
    } else if e.Read? {
      EndStepRead(s);
    } else if IsTaskEvent(e) {
      EndStepTask(env, s, e);
    } else if e.TooBigClause? {
      EndStepClause(s, FRAME_TOO_BIG, e.text, InClauses(false, s.phase.protocol));
    } else if e.ProtocolClause? {
      EndStepClause(s, PROTOCOL_ERROR, e.text, InClauses(false, false));
    } else {
      EndKeeps(s, Apply(env, s, e));
    }
  }
}
