/** What the frames say: the ACKs, AGENT_HELLO and every disconnect, in numbers and texts. */
module Contents {
  import opened Results
  import opened Bytes
  import opened Varints
  import opened DataTypes
  import opened Payloads
  import opened Frames
  import opened Acks
  import opened Disconnects
  import opened Configurations
  import opened Sessions
  import opened SessionCases
  import opened SlotAccounting
  import opened Acknowledgements
  import opened Outputs
  import opened SerialOrder
  import opened Feeds
  import opened Histories
  import opened Losses
  import opened Uniqueness
  import opened Runs
  import opened DisconnectRuns
  import opened SecondDisconnects

  // ----- ACKs -----

  /** The ACK that carries as many of the handler's actions as fit, in order: FIN set, both ids of the
      NOTIFY, and the actions for exactly its messages. */
  predicate CarriesActions(env: Env, f: Frame, id: nat, n: Arrival, max: int) {
    && 0 <= n.meta.streamId && 0 <= n.meta.frameId
    && var head := 5 + |Varint(n.meta.streamId)| + |Varint(n.meta.frameId)|;
       && f.meta == Metadata(Flags(true, false), n.meta.streamId, n.meta.frameId)
       && f.payload == Ack(Salvage(env.handler(id, n.messages), max - head))
  }

  lemma ReplyCarries(env: Env, f: Frame, id: nat, n: Arrival, max: int)
    requires Fits(n, max) && IsReply(env, f, id, n, max)
    ensures CarriesActions(env, f, id, n, max)
  {
    hide Reply, Salvage, Varint;
    var actions := env.handler(id, n.messages);
    ReplyOutcome(n.meta, actions, max);
    ReplyIsGreedy(n.meta, actions, max);
  }

  /** Every ACK on the wire carries what the handler made of the messages of its own NOTIFY. */
  lemma AcksCarryActions(env: Env, input: bytes, run: seq<Event>, k: nat)
    requires Legal(env, Initial(env, input), run)
    requires var s := After(env, Initial(env, input), run); k < |s.sent| && s.sent[k].frame.payload.Ack?
    ensures var s := After(env, Initial(env, input), run);
            && s.sent[k].origin.FromTask?
            && s.sent[k].origin.id < |s.notifies|
            && CarriesActions(env, s.sent[k].frame, s.sent[k].origin.id, s.notifies[s.sent[k].origin.id], s.max)
  {
    hide Legal, After, SlotInv, FreshInv, CountInv, FailureInv, WireInv, OrderInv, DisconnectInv, SerialInv, FeedInv,
         MarkInv, LossInv, IsReply, EmptyAckFits, CarriesActions;
    var s := After(env, Initial(env, input), run);
    Reached(env, input, run);
    assert Echoes(env, s, s.sent[k]);
    var id := s.sent[k].origin.id;
    assert Fits(s.notifies[id], s.max);
    ReplyCarries(env, s.sent[k].frame, id, s.notifies[id], s.max);
  }

  /** When a handler returns on an open stream its ACK is written, if the ids can be; on a closing
      one its task just ends and gives its slot back. */
  lemma FinishOutcome(env: Env, s: State, id: nat)
    requires Enabled(s, Finish(id)) && Fits(s.notifies[id], s.max) && s.max < TWO_TO_32
    ensures var u := Apply(env, s, Finish(id));
            if s.closing then
              u.sent == s.sent && u.failures == s.failures && u.free == s.free + 1
              && u.tasks == s.tasks[id := Ended(true, false)]
            else if Unanswerable(s.notifies[id].meta) then
              u.sent == s.sent && u.failures == s.failures + [Failure(id, Protocol)] && u.free == s.free + 1
              && u.tasks == s.tasks[id := Ended(true, false)]
            else
              && |u.sent| == |s.sent| + 1 && u.sent[..|s.sent|] == s.sent
              && u.sent[|s.sent|].origin == FromTask(id)
              && CarriesActions(env, u.sent[|s.sent|].frame, id, s.notifies[id], s.max)
              && u.failures == s.failures && u.free == s.free
              && u.tasks == s.tasks[id := Flushing]
  {
    hide Answer, EmptyAckFits, CarriesActions;
    var n := s.notifies[id];
    ReplyFailsJustly(env, id, n, s.max);
    if Answer(env, id, n, s.max).Ok? {
      ReplyCarries(env, Answer(env, id, n, s.max).value, id, n, s.max);
    }
  }

  // ----- disconnects -----

  /** An AGENT_DISCONNECT with this status code, as the agent sends it. */
  predicate IsAgentDisconnect(f: Frame, code: int) {
    && f.meta == Metadata(Flags(true, false), 0, 0)
    && f.payload.Disconnect? && f.payload.fromAgent
    && f.payload.statusCode == Int(code)
    && f.payload.message.Str? && |f.payload.message.s| <= 256
  }

  lemma ErrorDisconnectIs(code: int, text: string)
    ensures IsAgentDisconnect(ErrorDisconnect(code, text), code)
    ensures ErrorDisconnect(code, text).payload.message.s <= text
    ensures |text| <= 256 ==> ErrorDisconnect(code, text).payload.message == Str(text)
  {
  }

  lemma NormalDisconnectIs()
    ensures var f := DisconnectFrame(NORMAL, "Disconnecting normally");
            IsAgentDisconnect(f, 0) && f.payload.message == Str("Disconnecting normally")
  {
  }

  /** What the reader answers to a frame that is no NOTIFY. */
  predicate Rejects(g: Frame, f: Frame) {
    && !g.payload.Notify?
    && IsAgentDisconnect(f, if g.payload.Disconnect? then 0 else 4)
    && (g.payload.Disconnect? ==> f.payload.message == Str("Disconnecting normally"))
  }

  /** Either the reader's disconnect stands last on the wire, or it was too big. */
  predicate TellsPeer(s: State, u: State, g: Frame) {
    || (u.sent == s.sent && u.raised == Some(TooBig))
    || (|u.sent| == |s.sent| + 1 && u.sent[..|s.sent|] == s.sent && u.raised == None
        && u.sent[|s.sent|].origin == FromReader && Rejects(g, u.sent[|s.sent|].frame))
  }

  lemma ReaderSends(s: State, g: Frame, code: int, text: string)
    requires IsDisconnectCode(code) && IsLatin1(text) && |text| <= MESSAGE_MAX_LENGTH
    requires Rejects(g, DisconnectFrame(code, text)) && !s.closing && s.raised == None
    ensures TellsPeer(s, SendFromBody(s, DisconnectFrame(code, text), FromReader, ThenClose), g)
  {
    hide EncodeFrame, DisconnectFrame, IsLatin1, Rejects;
    RefusedAsTooBig(code, text, s.max);
  }

  lemma ReaderAnswers(s: State)
    requires DecodeFrame(s.input, s.max).Ok? && !DecodeFrame(s.input, s.max).value.0.payload.Notify?
    requires !s.closing && s.raised == None
    ensures TellsPeer(s, ApplyRead(s), DecodeFrame(s.input, s.max).value.0)
  {
    hide DecodeFrame, SendFromBody, FrameName, IsLatin1, DisconnectFrame, ErrorDisconnect, IsAgentDisconnect;
    var (g, used) := DecodeFrame(s.input, s.max).value;
    var s1 := s.(input := s.input[used..]);
    var text := "Expected NOTIFY or HAPROXY_DISCONNECT, received " + FrameName(g.payload);
    FrameNameIsLatin1(g.payload);
    ReaderTexts(g.payload);
    if g.payload.Disconnect? {
      NormalDisconnectIs();
      ReaderSends(s1, g, NORMAL, "Disconnecting normally");
    } else {
      ErrorDisconnectIs(INVALID_FRAME_RECEIVED, text);
      assert Truncate(text) == text;
      NotTruncated(INVALID_FRAME_RECEIVED, text);
      ReaderSends(s1, g, INVALID_FRAME_RECEIVED, text);
    }
  }

  lemma NotTruncated(code: int, text: string)
    requires Truncate(text) == text
    ensures ErrorDisconnect(code, text) == DisconnectFrame(code, text)
  {
  }

  lemma ClosedStops()
    ensures forall s: State, f, origin, next {:trigger SendFromBody(s, f, origin, next)} ::
              s.closing ==> SendFromBody(s, f, origin, next) == RaiseBody(s, Closing)
  {
    hide EncodeFrame;
  }

  /** The exception each failure to read raises: the end of the stream closes in silence, an oversized
      frame and a malformed one are reported, anything else is raised on. */
  function Meaning(e: Error): Exc {
    match e
    case EndOfStream => Closing
    case FrameTooBig => TooBig
    case DecodeError => Protocol
    case EncodeError => Protocol
    case TypeFault => Foreign
  }

  /** One read, by what stands on the stream. */
  lemma ReadOutcome(s: State)
    requires s.raised == None && !s.aborting
    ensures var u := ApplyRead(s);
            match DecodeFrame(s.input, s.max)
            case Err(e) => u.sent == s.sent && u.raised == Some(Meaning(e)) && u.body == Stopped
            case Ok((g, _)) =>
              if g.payload.Notify? then u.sent == s.sent && u.raised == None
              else if s.closing then u.sent == s.sent && u.raised == Some(Closing)
              else TellsPeer(s, u, g)
  {
    hide DecodeFrame, SendFromBody, DisconnectFrame, ErrorDisconnect, Rejects;
    ClosedStops();
    if DecodeFrame(s.input, s.max).Ok? && !DecodeFrame(s.input, s.max).value.0.payload.Notify? && !s.closing {
      ReaderAnswers(s);
    }
  }

  /** The exceptions that do not come from the stream: a lost connection, a handler's own, and the
      body's wish to close. */
  lemma ExceptionOutcome(env: Env, s: State, e: Event)
    requires Enabled(s, e)
    ensures e.Reset? ==> Apply(env, s, e).raised == Some(Connection) && Apply(env, s, e).body == Stopped
    ensures e.HandlerFails? ==> Apply(env, s, e).failures == s.failures + [Failure(e.id, e.exc)]
    ensures e.FlushFails? ==> Apply(env, s, e).failures == s.failures + [Failure(e.id, Connection)]
    ensures e.Flushed? || e.Start? || e.Cancelled? ==> Apply(env, s, e).failures == s.failures
    ensures e.Drained? && s.body.next == ThenClose ==>
              Apply(env, s, e).raised == Some(Closing) && Apply(env, s, e).body == Stopped
    ensures e.Drained? && s.body.next == ThenLoop ==>
              Apply(env, s, e).raised == s.raised && Apply(env, s, e).body == Acquiring
  {
    hide ApplyGreet, ApplyRead, ApplyFinish, SendFromClause;
  }

  /** Leaving the group, the too-big clause runs for the body's error, the protocol clause for the
      body's or any task's. */
  lemma LeaveOutcome(env: Env, s: State)
    requires FailureInv(env, s) && Enabled(s, LeaveGroup)
    ensures var u := Apply(env, s, LeaveGroup);
            && u.phase.InClauses?
            && (u.phase.tooBig <==> s.raised == Some(TooBig))
            && (u.phase.protocol <==> ProtocolCause(s))
            && u.sent == s.sent
  {
    hide Answer;
    forall k | 0 <= k < |s.failures|
      ensures s.failures[k].exc != TooBig
    {
      assert FailureIsJust(env, s, s.failures[k]);
    }
  }

  predicate ProtocolCause(s: State) {
    s.raised == Some(Protocol) || exists k | 0 <= k < |s.failures| :: s.failures[k].exc == Protocol
  }

  /** A clause writes its disconnect, with the first 256 characters of the text, on an open stream and
      if these are latin-1 and fit; 288 bytes are always enough. */
  lemma ClauseOutcome(env: Env, s: State, e: Event)
    requires Enabled(s, e) && (e.TooBigClause? || e.ProtocolClause?)
    ensures var u := Apply(env, s, e);
            var kept := if |e.text| > 256 then e.text[..256] else e.text;
            if u.sent == s.sent then u.wire == s.wire
            else
              && |u.sent| == |s.sent| + 1 && u.sent[..|s.sent|] == s.sent
              && var x := u.sent[|s.sent|];
                 && x.origin == FromClause
                 && IsAgentDisconnect(x.frame, if e.TooBigClause? then 3 else 102)
                 && x.frame.payload.message == Str(kept)
    ensures var kept := if |e.text| > 256 then e.text[..256] else e.text;
            !s.closing && IsLatin1(kept) && s.max >= 288 ==> |Apply(env, s, e).sent| == |s.sent| + 1
  {
    hide EncodeFrame, IsLatin1, Varint;
    DisconnectIsBounded(FRAME_TOO_BIG, e.text, s.max);
    DisconnectIsBounded(PROTOCOL_ERROR, e.text, s.max);
    ErrorDisconnectIs(FRAME_TOO_BIG, e.text);
    ErrorDisconnectIs(PROTOCOL_ERROR, e.text);
  }

  /** On a closing stream nothing is written any more. */
  lemma ClosedIsSilent(env: Env, s: State, e: Event)
    requires s.closing && Enabled(s, e)
    ensures var u := Apply(env, s, e); Silent(s, u)
  {
    hide ApplyGreet, ApplyRead, ApplyFinish, ApplyCancelled, ErrorDisconnect;
    if e.Greet? {
      ClosedGreet(env, s);
    } else if e.Read? {
      ClosedRead(s);
    } else if e.Finish? {
      ClosedFinish(env, s, e.id);
    } else if e.Cancelled? {
      ClosedCancel(s, e.id);
    }
  }

  predicate Silent(s: State, u: State) {
    u.closing && u.sent == s.sent && u.wire == s.wire
  }

  lemma ClosedGreet(env: Env, s: State)
    requires s.closing
    ensures Silent(s, ApplyGreet(env, s))
  {
    hide DecodeFrame, SendFromBody, Outcome, ErrorDisconnect, HelloReply;
    ClosedStops();
  }

  lemma ClosedRead(s: State)
    requires s.closing
    ensures Silent(s, ApplyRead(s))
  {
    hide ApplyRead, SendFromBody, Faithful, Fits;
    var s1, move := ReadCases(s);
    ClosedStops();
  }

  lemma ClosedFinish(env: Env, s: State, id: nat)
    requires s.closing && id < |s.tasks| && id < |s.notifies|
    ensures Silent(s, ApplyFinish(env, s, id))
  {
    hide Answer;
  }

  lemma ClosedCancel(s: State, id: nat)
    requires s.closing && id < |s.tasks|
    ensures Silent(s, ApplyCancelled(s, id))
  {
  }
}
