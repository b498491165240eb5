/** What holds over whole runs of a connection, for every input, handler and interleaving. */
module Runs {
  import opened Results
  import opened Bytes
  import opened DataTypes
  import opened Frames
  import opened Acks
  import opened Disconnects
  import opened Configurations
  import opened Sessions
  import opened SessionCases
  import opened SlotAccounting
  import opened Acknowledgements
  import opened Outputs
  import opened SerialOrder
  import opened Feeds
  import opened Histories
  import opened Losses

  ghost predicate Invariant(env: Env, s: State) {
    && SlotInv(s) && FreshInv(env, s) && AckInv(env, s) && WireInv(env, s) && OrderInv(s) && DisconnectInv(s)
    && SerialInv(s) && FeedInv(s) && MarkInv(s) && LossInv(s)
  }

  lemma InvariantInit(env: Env, input: bytes)
    ensures Invariant(env, Initial(env, input))
  {
    SlotInit(env, input);
    AckInit(env, input);
    WireInit(env, input);
    SerialInit(env, input);
    FeedInit(env, input);
    MarkInit(env, input);
    LossInit(env, input);
  }

  lemma InvariantStep(env: Env, s: State, e: Event)
    requires Invariant(env, s) && Enabled(s, e)
    ensures Invariant(env, Apply(env, s, e))
  {
    hide Apply, Enabled, SlotInv, FreshInv, RoomInv, CountInv, EchoInv, FailureInv, WireInv, OrderInv, DisconnectInv,
         SerialInv, FeedInv, MarkInv, LossInv;
    SlotStep(env, s, e);
    AckStep(env, s, e);
    WireStep(env, s, e);
    OrderStep(env, s, e);
    SerialStepAny(env, s, e);
    FeedStep(env, s, e);
    MarkStep(env, s, e);
    LossStep(env, s, e);
  }

  lemma {:induction false} InvariantRun(env: Env, s: State, run: seq<Event>)
    requires Invariant(env, s) && Legal(env, s, run)
    ensures Invariant(env, After(env, s, run))
    decreases |run|
  {
    hide Apply, Enabled, Invariant;
    if run != [] {
      InvariantStep(env, s, run[0]);
      InvariantRun(env, Apply(env, s, run[0]), run[1..]);
    }
  }

  lemma Reached(env: Env, input: bytes, run: seq<Event>)
    requires Legal(env, Initial(env, input), run)
    ensures Invariant(env, After(env, Initial(env, input), run))
  {
    hide Invariant;
    InvariantInit(env, input);
    InvariantRun(env, Initial(env, input), run);
  }

  // ----- slots -----

  lemma {:induction false} SlotsSplit(tasks: seq<Status>)
    ensures Count(tasks, HoldsSlot) == Count(tasks, Live) + Count(tasks, Leaked)
  {
    if tasks != [] {
      SlotsSplit(tasks[1..]);
    }
  }

  lemma {:induction false} NoneCounted(tasks: seq<Status>, p: Status -> bool)
    requires forall i | 0 <= i < |tasks| :: !p(tasks[i])
    ensures Count(tasks, p) == 0
  {
    if tasks != [] {
      NoneCounted(tasks[1..], p);
    }
  }

  /** Every slot is free, with a task in flight, with the reader, or lost to a task that was
      cancelled before it started; nothing is lost before the group aborts. In-flight NOTIFYs and
      their frame bytes are bounded by the limit. A task releases once if it started and is over. */
  lemma SlotsAreConserved(env: Env, input: bytes, run: seq<Event>)
    requires Legal(env, Initial(env, input), run)
    ensures var s := After(env, Initial(env, input), run);
            && s.free + Count(s.tasks, Live) + Count(s.tasks, Leaked) + (if s.holding then 1 else 0) == s.limit
            && (!s.aborting ==> Count(s.tasks, Leaked) == 0)
            && |s.notifies| == |s.tasks|
            && LiveBytes(s.notifies, s.tasks) <= Count(s.tasks, Live) * s.max
            && (s.max >= 0 ==> LiveBytes(s.notifies, s.tasks) <= s.limit * s.max)
            && forall id | 0 <= id < |s.tasks| ::
                 FreedCount(s.marks, id) == if s.tasks[id].Ended? && s.tasks[id].started then 1 else 0
  {
    hide Legal, After, Count, LiveBytes, FreedCount, AckInv, WireInv, OrderInv, DisconnectInv, SerialInv, FeedInv,
         LossInv;
    var s := After(env, Initial(env, input), run);
    Reached(env, input, run);
    SlotsSplit(s.tasks);
    assert forall i | 0 <= i < |s.notifies| :: s.notifies[i].size <= s.max by {
      RoomFits(env, s);
    }
    LiveBytesBound(s.notifies, s.tasks, s.max);
    if s.max >= 0 {
      Monotone(Count(s.tasks, Live), s.limit, s.max);
    }
    if !s.aborting {
      NoneCounted(s.tasks, Leaked);
    }
  }

  lemma RoomFits(env: Env, s: State)
    requires Invariant(env, s)
    ensures forall i | 0 <= i < |s.notifies| :: s.notifies[i].size <= s.max
  {
    hide SlotInv, FreshInv, CountInv, EchoInv, FailureInv, WireInv, OrderInv, DisconnectInv, SerialInv, FeedInv,
         MarkInv, EmptyAckFits, LossInv;
    assert RoomInv(s);
    forall i | 0 <= i < |s.notifies|
      ensures s.notifies[i].size <= s.max
    {
      assert Fits(s.notifies[i], s.max);
    }
  }

  lemma Monotone(a: nat, b: nat, m: int)
    requires a <= b && m >= 0
    ensures a * m <= b * m
  {
  }

  // ----- conservation -----

  predicate Waiting(t: Status) {
    t == Created || t == Handling
  }

  lemma {:induction false} Partition(tasks: seq<Status>)
    ensures |tasks| == Count(tasks, HasAcked) + Count(tasks, Waiting) + Count(tasks, Lost)
  {
    if tasks != [] {
      Partition(tasks[1..]);
    }
  }

  /** The NOTIFYs dispatched are those answered on the wire, those still waiting for their answer,
      and those that ended without one: because their task failed, because the group cancels its
      tasks, or because the stream is closing. Each is answered at most once, by a reply that
      carries its own two ids, and nothing else on the wire is an ACK. */
  lemma NotifiesAreConserved(env: Env, input: bytes, run: seq<Event>)
    requires Legal(env, Initial(env, input), run)
    ensures var s := After(env, Initial(env, input), run);
            && |s.notifies| == |Ackers(s.sent)| + Count(s.tasks, Waiting) + Count(s.tasks, Lost)
            && (forall i | 0 <= i < |s.tasks| && Lost(s.tasks[i]) :: s.closing || s.aborting || Failed(s, i))
            && (forall id: nat :: AckCount(s.sent, id) <= 1)
            && (forall k | 0 <= k < |s.sent| && s.sent[k].frame.payload.Ack? ::
                  && s.sent[k].origin.FromTask?
                  && s.sent[k].origin.id < |s.notifies|
                  && AckCount(s.sent, s.sent[k].origin.id) == 1
                  && var m := s.notifies[s.sent[k].origin.id].meta;
                     && s.sent[k].frame.meta.streamId == m.streamId
                     && s.sent[k].frame.meta.frameId == m.frameId
                     && IsReply(env, s.sent[k].frame, s.sent[k].origin.id, s.notifies[s.sent[k].origin.id], s.max))
  {
    hide Legal, After, Count, Ackers, AckCount, IsReply, Failed, FreshInv, FailureInv, WireInv, OrderInv,
         DisconnectInv, SerialInv, FeedInv, EmptyAckFits, FreedCount, AckedMarks, LossInv;
    var s := After(env, Initial(env, input), run);
    Reached(env, input, run);
    Partition(s.tasks);
    LossPart(env, s);
    forall i | 0 <= i < |s.tasks| && Lost(s.tasks[i])
      ensures s.closing || s.aborting || Failed(s, i)
    {
      LossCause(s, i);
    }
    forall k | 0 <= k < |s.sent| && s.sent[k].frame.payload.Ack?
      ensures s.sent[k].origin.FromTask? && s.sent[k].origin.id < |s.notifies|
      ensures AckCount(s.sent, s.sent[k].origin.id) == 1
      ensures var m := s.notifies[s.sent[k].origin.id].meta;
              && s.sent[k].frame.meta.streamId == m.streamId
              && s.sent[k].frame.meta.frameId == m.frameId
              && IsReply(env, s.sent[k].frame, s.sent[k].origin.id, s.notifies[s.sent[k].origin.id], s.max)
    {
      assert Echoes(env, s, s.sent[k]);
      var id := s.sent[k].origin.id;
      assert Fits(s.notifies[id], s.max);
      ReplyIsEcho(env, s.sent[k].frame, id, s.notifies[id], s.max);
      AckCounted(s.sent, k);
    }
  }

  lemma LossPart(env: Env, s: State)
    requires Invariant(env, s)
    ensures LossInv(s)
  {
  }

  lemma LossCause(s: State, i: nat)
    requires LossInv(s) && i < |s.tasks| && Lost(s.tasks[i])
    ensures s.closing || s.aborting || Failed(s, i)
  {
    assert Excused(s, i);
  }

  /** A task can only fail by a lost connection, by its handler, or with a protocol error, and
      with that only because the reply to its NOTIFY cannot be sent: under a frame size that fits
      the 32-bit prefix, because it carried an id that cannot be written back. */
  lemma TaskFailuresAreJust(env: Env, input: bytes, run: seq<Event>, k: nat)
    requires Legal(env, Initial(env, input), run)
    requires k < |After(env, Initial(env, input), run).failures|
    ensures var s := After(env, Initial(env, input), run);
            var f := s.failures[k];
            && (f.exc == Connection || f.exc == Foreign || f.exc == Protocol)
            && (f.exc == Protocol ==>
                  && f.id < |s.notifies|
                  && Answer(env, f.id, s.notifies[f.id], s.max) == Err(EncodeError)
                  && (s.max < TWO_TO_32 ==> Unanswerable(s.notifies[f.id].meta)))
  {
    hide Legal, After, SlotInv, FreshInv, CountInv, EchoInv, WireInv, OrderInv, DisconnectInv, SerialInv, FeedInv,
         MarkInv, Answer, EmptyAckFits, LossInv;
    var s := After(env, Initial(env, input), run);
    Reached(env, input, run);
    var f := s.failures[k];
    assert FailureIsJust(env, s, f);
    if f.exc == Protocol {
      assert Fits(s.notifies[f.id], s.max);
      ReplyFailsJustly(env, f.id, s.notifies[f.id], s.max);
    }
  }

  // ----- the wire -----

  /** Whatever the interleaving, HAProxy reads back exactly the frames sent, in order and with
      nothing left over, under the size it advertised itself. */
  lemma WireIsReadable(env: Env, input: bytes, run: seq<Event>, readerMax: int)
    requires Legal(env, Initial(env, input), run)
    requires var s := After(env, Initial(env, input), run);
             readerMax >= env.agentMax || (s.peerMax.Some? && readerMax >= s.peerMax.value)
    ensures var s := After(env, Initial(env, input), run);
            DecodeAll(s.wire, readerMax) == Ok(FramesOf(s.sent))
  {
    hide Legal, After, EncodeAll, DecodeAll, Faithful, SlotInv, FreshInv, AckInv, OrderInv, DisconnectInv, SerialInv,
         FeedInv, MarkInv, LossInv;
    var s := After(env, Initial(env, input), run);
    Reached(env, input, run);
    StreamRoundTrip(FramesOf(s.sent), s.max, readerMax);
    FaithfulStream(FramesOf(s.sent));
  }

  /** NOTIFYs are dispatched in stream order, none skipped and none invented: they are what
      repeated decoding yields after the first frame. */
  lemma DispatchFollowsStream(env: Env, input: bytes, run: seq<Event>)
    requires Legal(env, Initial(env, input), run)
    ensures var s := After(env, Initial(env, input), run);
            && (exists rest :: FeedsTo(s.afterHello, s.max, s.notifies, rest))
            && (s.body == Acquiring || s.body == Reading ==>
                  FeedsTo(s.afterHello, s.max, s.notifies, s.input))
  {
    hide Legal, After, FeedsTo, SlotInv, FreshInv, AckInv, WireInv, OrderInv, DisconnectInv, SerialInv, MarkInv,
         LossInv;
    Reached(env, input, run);
  }

  // ----- lifecycle -----

  /** No ACK before AGENT-HELLO, and none after a disconnect written once the group is left. */
  lemma AckOnlyInSession(env: Env, input: bytes, run: seq<Event>, k: nat)
    requires Legal(env, Initial(env, input), run)
    requires var s := After(env, Initial(env, input), run); k < |s.sent| && s.sent[k].frame.payload.Ack?
    ensures var s := After(env, Initial(env, input), run);
            && k > 0 && s.sent[0].frame.payload.AgentHello?
            && forall j | 0 <= j < k :: s.sent[j].origin != FromClause
  {
    hide Legal, After, Count, AckCount, IsReply, FreshInv, FailureInv, RoomInv, WireInv, DisconnectInv, SerialInv,
         FeedInv, MarkInv, LossInv;
    var s := After(env, Initial(env, input), run);
    Reached(env, input, run);
    assert Echoes(env, s, s.sent[k]);
  }

  /** One event after the body has started to close: nothing is read or dispatched, and no task
      comes to life. */
  lemma ClosingStep(env: Env, s: State, e: Event)
    requires Invariant(env, s) && ClosingDown(s) && Enabled(s, e)
    ensures var u := Apply(env, s, e);
            && ClosingDown(u) && u.input == s.input && u.notifies == s.notifies && |u.tasks| == |s.tasks|
            && forall i | 0 <= i < |s.tasks| :: Live(u.tasks[i]) ==> Live(s.tasks[i])
  {
    hide Invariant, EncodeFrame, Reply;
    if IsTaskEvent(e) {
      TaskKeeps(env, s, e);
      OwnTaskOnly(env, s, e);
    }
  }

  lemma OwnTaskOnly(env: Env, s: State, e: Event)
    requires IsTaskEvent(e) && Enabled(s, e)
    ensures Live(s.tasks[e.id]) && Apply(env, s, e).tasks == s.tasks[e.id := Apply(env, s, e).tasks[e.id]]
  {
    hide Apply, IsReply, ReplyFails, EncodeFrame;
    var move := TaskCases(env, s, e);
    match move {
      case Starts =>
      case Vanishes =>
      case Ends =>
      case Fails(_) =>
      case Replies(_) =>
    }
  }

  /** Once the body closes, on EOF, a disconnect, a wrong frame or an error, it stays so: no
      further NOTIFY is dispatched on any continuation and the set in flight only shrinks. */
  lemma {:induction false} ClosingIsFinal(env: Env, s: State, run: seq<Event>)
    requires Invariant(env, s) && ClosingDown(s) && Legal(env, s, run)
    ensures var u := After(env, s, run);
            && ClosingDown(u) && u.input == s.input && u.notifies == s.notifies && |u.tasks| == |s.tasks|
            && forall i | 0 <= i < |s.tasks| :: Live(u.tasks[i]) ==> Live(s.tasks[i])
    decreases |run|
  {
    hide Invariant, Apply, Enabled;
    if run != [] {
      ClosingStep(env, s, run[0]);
      InvariantStep(env, s, run[0]);
      ClosingIsFinal(env, Apply(env, s, run[0]), run[1..]);
    }
  }

  /** Closing is final in every run. */
  lemma NothingAfterClosing(env: Env, input: bytes, run: seq<Event>, more: seq<Event>)
    requires Legal(env, Initial(env, input), run)
    requires ClosingDown(After(env, Initial(env, input), run))
    requires Legal(env, After(env, Initial(env, input), run), more)
    ensures Legal(env, Initial(env, input), run + more)
    ensures var s := After(env, Initial(env, input), run);
            var u := After(env, Initial(env, input), run + more);
            && u.input == s.input && u.notifies == s.notifies && |u.tasks| == |s.tasks|
            && forall i | 0 <= i < |s.tasks| :: Live(u.tasks[i]) ==> Live(s.tasks[i])
  {
    hide Invariant, After, Legal;
    Reached(env, input, run);
    LegalConcat(env, Initial(env, input), run, more);
    ClosingIsFinal(env, After(env, Initial(env, input), run), more);
  }

  lemma SendKeeps(s: State, f: Frame, origin: Origin, next: AfterDrain)
    ensures var u := SendFromBody(s, f, origin, next);
            && u.limit == s.limit && u.notifies == s.notifies && u.input == s.input && u.body != Greeting
            && (next == ThenClose ==> ClosingDown(u))
  {
    hide EncodeFrame;
  }

  /** A read closes the body unless it yields a NOTIFY, which it then dispatches. */
  lemma ReadClosesOrDispatches(s: State)
    requires s.body == Reading && s.phase.InGroup?
    ensures var r := DecodeFrame(s.input, s.max);
            if r.Ok? && r.value.0.payload.Notify?
            then ApplyRead(s).body == Acquiring && |ApplyRead(s).notifies| == |s.notifies| + 1
            else ClosingDown(ApplyRead(s)) && ApplyRead(s).notifies == s.notifies
  {
    hide DecodeFrame, SendFromBody, ErrorDisconnect, DisconnectFrame;
    SendAllKeep();
  }

  lemma SendAllKeep()
    ensures forall s1: State, f, origin, next {:trigger SendFromBody(s1, f, origin, next)} ::
              var u := SendFromBody(s1, f, origin, next);
              && u.limit == s1.limit && u.notifies == s1.notifies && u.input == s1.input && u.body != Greeting
              && (next == ThenClose ==> ClosingDown(u))
  {
    hide SendFromBody;
    forall s1: State, f, origin, next {:trigger SendFromBody(s1, f, origin, next)}
      ensures var u := SendFromBody(s1, f, origin, next);
              && u.limit == s1.limit && u.notifies == s1.notifies && u.input == s1.input && u.body != Greeting
              && (next == ThenClose ==> ClosingDown(u))
    {
      SendKeeps(s1, f, origin, next);
    }
  }

  // ----- what the first frame decides -----

  /** Nothing read yet, or closing with at most the first frame read, and never a NOTIFY. */
  predicate Healthchecked(env: Env, s: State, input: bytes)
    requires DecodeFrame(input, env.agentMax).Ok?
  {
    && s.notifies == []
    && (s.input == input || s.input == input[DecodeFrame(input, env.agentMax).value.1..])
    && (if s.body == Greeting then s.input == input else ClosingDown(s))
  }

  /** A healthcheck connection never reads a second frame. */
  lemma {:induction false} HealthcheckReadsOnce(env: Env, input: bytes, s: State, run: seq<Event>)
    requires DecodeFrame(input, env.agentMax).Ok?
    requires var p := DecodeFrame(input, env.agentMax).value.0.payload; p.HaproxyHello? && Truthy(p.healthcheck)
    requires Invariant(env, s) && Healthchecked(env, s, input) && Legal(env, s, run)
    ensures Healthchecked(env, After(env, s, run), input)
    decreases |run|
  {
    hide DecodeFrame, Invariant, Apply, Enabled;
    if run != [] {
      InvariantStep(env, s, run[0]);
      HealthcheckStep(env, input, s, run[0]);
      HealthcheckReadsOnce(env, input, Apply(env, s, run[0]), run[1..]);
    }
  }

  lemma HealthcheckConnection(env: Env, input: bytes, run: seq<Event>)
    requires DecodeFrame(input, env.agentMax).Ok?
    requires var p := DecodeFrame(input, env.agentMax).value.0.payload; p.HaproxyHello? && Truthy(p.healthcheck)
    requires Legal(env, Initial(env, input), run)
    ensures var s := After(env, Initial(env, input), run);
            && s.notifies == []
            && (s.input == input || s.input == input[DecodeFrame(input, env.agentMax).value.1..])
  {
    hide DecodeFrame, Invariant, Legal, After;
    InvariantInit(env, input);
    HealthcheckReadsOnce(env, input, Initial(env, input), run);
  }

  lemma HealthcheckStep(env: Env, input: bytes, s: State, e: Event)
    requires DecodeFrame(input, env.agentMax).Ok?
    requires var p := DecodeFrame(input, env.agentMax).value.0.payload; p.HaproxyHello? && Truthy(p.healthcheck)
    requires Invariant(env, s) && Healthchecked(env, s, input) && Enabled(s, e)
    ensures Healthchecked(env, Apply(env, s, e), input)
  {
    hide DecodeFrame, Invariant, ApplyGreet;
    assert SlotInv(s) && FreshInv(env, s) by {
      SlotPart(env, s);
    }
    if ClosingDown(s) {
      ClosingStep(env, s, e);
    } else if e.Greet? {
      HealthcheckGreet(env, input, s);
    }
  }

  lemma SlotPart(env: Env, s: State)
    requires Invariant(env, s)
    ensures SlotInv(s) && FreshInv(env, s)
  {
  }

  lemma HealthcheckGreet(env: Env, input: bytes, s: State)
    requires DecodeFrame(input, env.agentMax).Ok? && s.input == input && s.max == env.agentMax
    requires var p := DecodeFrame(input, env.agentMax).value.0.payload; p.HaproxyHello? && Truthy(p.healthcheck)
    ensures var u := ApplyGreet(env, s);
            && ClosingDown(u) && u.notifies == s.notifies
            && u.input == input[DecodeFrame(input, env.agentMax).value.1..]
  {
    hide DecodeFrame, SendFromBody, Outcome, ErrorDisconnect, HelloReply;
    SendAllKeep();
  }

  /** The concurrency a first frame grants: one without pipelining, whatever the configuration. */
  function Granted(env: Env, input: bytes): nat {
    match DecodeFrame(input, env.agentMax)
    case Ok((f, _)) =>
      if f.payload.HaproxyHello? && PIPELINING in f.payload.capabilities then env.maxConcurrent else 1
    case Err(_) => 0
  }

  predicate WithinGrant(env: Env, input: bytes, s: State) {
    (s.body == Greeting ==> s.input == input) && s.limit <= Granted(env, input)
  }

  lemma {:induction false} LimitIsGranted(env: Env, input: bytes, s: State, run: seq<Event>)
    requires Invariant(env, s) && WithinGrant(env, input, s) && Legal(env, s, run)
    ensures WithinGrant(env, input, After(env, s, run))
    decreases |run|
  {
    hide DecodeFrame, Invariant, Apply, Enabled, Granted;
    if run != [] {
      InvariantStep(env, s, run[0]);
      GrantStep(env, input, s, run[0]);
      LimitIsGranted(env, input, Apply(env, s, run[0]), run[1..]);
    }
  }

  lemma GrantStep(env: Env, input: bytes, s: State, e: Event)
    requires Invariant(env, s) && WithinGrant(env, input, s) && Enabled(s, e)
    ensures WithinGrant(env, input, Apply(env, s, e))
  {
    hide DecodeFrame, EncodeFrame, Invariant, Granted, Reply, ApplyGreet, ApplyRead;
    assert SlotInv(s) && FreshInv(env, s) by {
      SlotPart(env, s);
    }
    if e.Greet? {
      GrantGreet(env, input, s);
    } else if e.Read? {
      GrantRead(s);
    } else if IsTaskEvent(e) {
      TaskKeeps(env, s, e);
    }
  }

  lemma GrantGreet(env: Env, input: bytes, s: State)
    requires s.input == input && s.max == env.agentMax && s.limit <= Granted(env, input)
    ensures ApplyGreet(env, s).limit <= Granted(env, input) && ApplyGreet(env, s).body != Greeting
  {
    hide DecodeFrame, SendFromBody, ErrorDisconnect, HelloReply;
    SendAllKeep();
  }

  lemma GrantRead(s: State)
    ensures ApplyRead(s).limit == s.limit && ApplyRead(s).body != Greeting
  {
    hide ApplyRead, SendFromBody, Faithful, Fits;
    var s1, move := ReadCases(s);
    if move.Answers? {
      SendKeeps(s1, move.f, FromReader, move.next);
    }
  }

  /** With one slot granted, as always without pipelining, every run is a run of the serial loop:
      a NOTIFY begins only when the one before it has released, is answered at most once in between,
      ACKs leave in NOTIFY order, and none follows the reader's disconnect. */
  lemma SerialRefinement(env: Env, input: bytes, run: seq<Event>)
    requires Legal(env, Initial(env, input), run)
    requires Granted(env, input) <= 1
    ensures var s := After(env, Initial(env, input), run);
            && SerialRun(s.marks) == Some(TurnOf(s.tasks))
            && AckedMarks(s.marks) == Ackers(s.sent)
            && AcksInOrder(s.sent)
            && NoAckAfterReader(s.sent)
            && Count(s.tasks, Live) <= 1
            && (s.holding ==> Count(s.tasks, Live) == 0)
  {
    hide Legal, After, Granted, SerialRun, AckedMarks, Ackers, AcksInOrder, NoAckAfterReader, Count, TurnOf, AckInv,
         WireInv, OrderInv, DisconnectInv, FeedInv, FreedCount, LossInv;
    var s := After(env, Initial(env, input), run);
    Reached(env, input, run);
    InvariantInit(env, input);
    LimitIsGranted(env, input, Initial(env, input), run);
    SlotsSplit(s.tasks);
  }
}
