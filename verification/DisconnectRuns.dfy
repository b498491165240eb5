/** How many disconnects a connection writes: never three, and two exactly for the streams told
    apart here. */
module DisconnectRuns {
  import opened Results
  import opened Bytes
  import opened DataTypes
  import opened Frames
  import opened Acks
  import opened Disconnects
  import opened Sessions
  import opened SessionCases
  import opened SlotAccounting
  import opened Acknowledgements
  import opened Outputs
  import opened SerialOrder
  import opened Feeds
  import opened Histories
  import opened Losses
  import opened Uniqueness
  import opened Runs

  // ----- the invariants over runs -----

  lemma {:induction false} SingleRun(env: Env, s: State, run: seq<Event>)
    requires Invariant(env, s) && SingleInv(s) && EndInv(s) && Legal(env, s, run)
    ensures SingleInv(After(env, s, run)) && EndInv(After(env, s, run))
    decreases |run|
  {
    hide Invariant, SingleInv, EndInv, Apply, Enabled;
    if run != [] {
      InvariantStep(env, s, run[0]);
      SingleAndEndStep(env, s, run[0]);
      SingleRun(env, Apply(env, s, run[0]), run[1..]);
    }
  }

  lemma SingleAndEndStep(env: Env, s: State, e: Event)
    requires Invariant(env, s) && SingleInv(s) && EndInv(s) && Enabled(s, e)
    ensures SingleInv(Apply(env, s, e)) && EndInv(Apply(env, s, e))
  {
    hide Apply, Enabled, SingleInv, EndInv, SlotInv, FreshInv, AckInv, WireInv, OrderInv, DisconnectInv, SerialInv,
         FeedInv, MarkInv, LossInv;
    SingleStep(env, s, e);
    EndStep(env, s, e);
  }

  lemma SingleReached(env: Env, input: bytes, run: seq<Event>)
    requires Legal(env, Initial(env, input), run)
    ensures SingleInv(After(env, Initial(env, input), run)) && EndInv(After(env, Initial(env, input), run))
  {
    hide Invariant, SingleInv, EndInv, Legal, After;
    InvariantInit(env, input);
    SingleInit(env, input);
    EndInit(env, input);
    SingleRun(env, Initial(env, input), run);
  }

  // ----- one disconnect -----

  predicate AllAnswerable(env: Env, notifies: seq<Arrival>, max: int) {
    forall i | 0 <= i < |notifies| :: Answer(env, i, notifies[i], max).Ok?
  }

  lemma OneUnlessTwice(env: Env, s: State)
    requires SingleInv(s) && FailureInv(env, s) && AllAnswerable(env, s.notifies, s.max)
    ensures DisconnectCount(s.sent) <= 1
  {
    hide DisconnectCount, Answer, ReaderDone;
    forall k | 0 <= k < |s.failures|
      ensures s.failures[k].exc != Protocol
    {
      assert FailureIsJust(env, s, s.failures[k]);
    }
  }

  /** While every NOTIFY has a reply that can be sent, one disconnect at most is written. */
  lemma OneDisconnect(env: Env, input: bytes, run: seq<Event>)
    requires Legal(env, Initial(env, input), run)
    requires var s := After(env, Initial(env, input), run); AllAnswerable(env, s.notifies, s.max)
    ensures DisconnectCount(After(env, Initial(env, input), run).sent) <= 1
  {
    hide Legal, After, SingleInv, AllAnswerable, DisconnectCount, Invariant, EndInv, FailureInv;
    SingleReached(env, input, run);
    Reached(env, input, run);
    FailurePart(env, After(env, Initial(env, input), run));
    OneUnlessTwice(env, After(env, Initial(env, input), run));
  }

  lemma FailurePart(env: Env, s: State)
    requires Invariant(env, s)
    ensures FailureInv(env, s) && RoomInv(s)
  {
    hide SlotInv, FreshInv, CountInv, EchoInv, WireInv, OrderInv, DisconnectInv, SerialInv, FeedInv, MarkInv, LossInv,
         Fits, FailureIsJust;
  }

  /** Under a frame size that fits the length prefix, non-negative ids are enough. */
  lemma OneDisconnectByIds(env: Env, input: bytes, run: seq<Event>)
    requires Legal(env, Initial(env, input), run)
    requires var s := After(env, Initial(env, input), run);
             && s.max < TWO_TO_32
             && forall i | 0 <= i < |s.notifies| :: !Unanswerable(s.notifies[i].meta)
    ensures DisconnectCount(After(env, Initial(env, input), run).sent) <= 1
  {
    hide Legal, After, DisconnectCount, Invariant, Answer, EmptyAckFits, FailureInv;
    var s := After(env, Initial(env, input), run);
    Reached(env, input, run);
    FailurePart(env, s);
    forall i | 0 <= i < |s.notifies|
      ensures Answer(env, i, s.notifies[i], s.max).Ok?
    {
      assert Fits(s.notifies[i], s.max);
      ReplyFailsJustly(env, i, s.notifies[i], s.max);
    }
    OneDisconnect(env, input, run);
  }

  // ----- when two are possible -----

  /** The connection after its first frame, on a transport that stays open. */
  function Opened(env: Env, input: bytes): State {
    ApplyGreet(env, Initial(env, input))
  }

  predicate SomeUnanswerable(env: Env, notifies: seq<Arrival>, max: int) {
    exists i | 0 <= i < |notifies| :: Answer(env, i, notifies[i], max).Err?
  }

  /** The handshake leads to a session; then come NOTIFYs, one of them without a reply, and behind
      them an oversized frame or anything but a NOTIFY. */
  ghost predicate InvitesTwo(env: Env, input: bytes) {
    var g := Opened(env, input);
    && g.body == Draining(ThenLoop)
    && g.limit > 0
    && exists ns :: FeedsToEnd(g.afterHello, g.max, ns) && SomeUnanswerable(env, ns, g.max)
  }

  /** A session is the one its first frame opens. */
  predicate OpenInv(env: Env, input: bytes, s: State) {
    && (s.body == Greeting ==> s == Initial(env, input).(closing := s.closing))
    && (Looping(s) || s.notifies != [] ==>
          var g := Opened(env, input);
          g.body == Draining(ThenLoop) && g.afterHello == s.afterHello && g.max == s.max && g.limit == s.limit)
    && (s.notifies != [] ==> s.limit > 0)
  }

  lemma SendEndsTurn(s: State, f: Frame, origin: Origin, next: AfterDrain)
    ensures var u := SendFromBody(s, f, origin, next);
            && u == s.(sent := u.sent, wire := u.wire, body := u.body, raised := u.raised, aborting := u.aborting)
            && (u.body == Stopped || (u.body == Draining(next) && !s.closing && EncodeFrame(f, s.max).Ok?))
  {
    hide EncodeFrame;
  }

  lemma GreetEndsTurn(env: Env, s: State)
    requires s.max == env.agentMax && s.peerMax == None
    ensures var u := ApplyGreet(env, s);
            && (u.body == Stopped || u.body.Draining?)
            && (s.closing ==> u.body == Stopped)
            && u.notifies == s.notifies
  {
    hide ApplyGreet, SendFromBody, Faithful;
    var s1, move := GreetCases(env, s);
    if move.Answers? {
      SendEndsTurn(s1, move.f, FromHandshake, move.next);
    }
  }

  lemma ReadKeepsSession(s: State)
    ensures var u := ApplyRead(s);
            u.body != Greeting && u.afterHello == s.afterHello && u.max == s.max && u.limit == s.limit
  {
    hide ApplyRead, SendFromBody, Faithful, Fits;
    var s1, move := ReadCases(s);
    if move.Answers? {
      SendEndsTurn(s1, move.f, FromReader, move.next);
    }
  }

  lemma OpenStep(env: Env, input: bytes, s: State, e: Event)
    requires OpenInv(env, input, s) && SlotInv(s) && Enabled(s, e)
    ensures OpenInv(env, input, Apply(env, s, e))
  {
    hide Count, ApplyGreet, ApplyRead, ApplyFinish, ApplyCancelled, SendFromClause;
    if e.Greet? {
      GreetEndsTurn(env, s);
      assert s.closing || Apply(env, s, e) == Opened(env, input);
    } else if e.Read? {
      ReadKeepsSession(s);
    } else if IsTaskEvent(e) {
      OpenStepTask(env, input, s, e);
    } else if e.TooBigClause? {
      ClauseKeepsSession(s, FRAME_TOO_BIG, e.text);
    } else if e.ProtocolClause? {
      ClauseKeepsSession(s, PROTOCOL_ERROR, e.text);
    }
  }

  lemma OpenStepTask(env: Env, input: bytes, s: State, e: Event)
    requires OpenInv(env, input, s) && SlotInv(s) && IsTaskEvent(e) && Enabled(s, e)
    ensures OpenInv(env, input, Apply(env, s, e))
  {
    hide Apply, Count, ApplyGreet;
    TaskKeeps(env, s, e);
  }

  lemma ClauseKeepsSession(s: State, code: int, text: string)
    ensures var u := SendFromClause(s, code, text); u == s.(sent := u.sent, wire := u.wire)
  {
    hide EncodeFrame, ErrorDisconnect;
  }

  lemma {:induction false} OpenRun(env: Env, input: bytes, s: State, run: seq<Event>)
    requires Invariant(env, s) && OpenInv(env, input, s) && Legal(env, s, run)
    ensures OpenInv(env, input, After(env, s, run))
    decreases |run|
  {
    hide Invariant, OpenInv, Apply, Enabled;
    if run != [] {
      InvariantStep(env, s, run[0]);
      SlotPart(env, s);
      OpenStep(env, input, s, run[0]);
      OpenRun(env, input, Apply(env, s, run[0]), run[1..]);
    }
  }

  lemma TwoAreInvited(env: Env, input: bytes, s: State)
    requires Twice(s) && FailureInv(env, s) && EndInv(s) && OpenInv(env, input, s)
    ensures InvitesTwo(env, input)
  {
    hide Answer, FeedsToEnd, Opened, ReaderDone;
    var k :| 0 <= k < |s.failures| && s.failures[k].exc == Protocol;
    assert FailureIsJust(env, s, s.failures[k]);
    assert SomeUnanswerable(env, s.notifies, s.max);
  }

  /** Never three disconnects, and two only for a stream that invites them. */
  lemma AtMostTwoDisconnects(env: Env, input: bytes, run: seq<Event>)
    requires Legal(env, Initial(env, input), run)
    ensures var d := DisconnectCount(After(env, Initial(env, input), run).sent);
            d <= 2 && (d == 2 ==> InvitesTwo(env, input))
  {
    hide Legal, After, DisconnectCount, Invariant, OpenInv, EndInv, FailureInv, InvitesTwo, Twice;
    var s := After(env, Initial(env, input), run);
    Reached(env, input, run);
    SingleReached(env, input, run);
    FailurePart(env, s);
    InvariantInit(env, input);
    OpenInit(env, input);
    OpenRun(env, input, Initial(env, input), run);
    AtMostTwoIn(env, s);
    if Twice(s) {
      TwoAreInvited(env, input, s);
    }
  }

  lemma OpenInit(env: Env, input: bytes)
    ensures OpenInv(env, input, Initial(env, input))
  {
    hide Opened;
  }

  lemma AtMostTwoIn(env: Env, s: State)
    requires Invariant(env, s)
    ensures DisconnectCount(s.sent) <= 2
  {
    hide DisconnectCount, SlotInv, FreshInv, AckInv, WireInv, OrderInv, SerialInv, FeedInv, MarkInv, LossInv;
  }
}
