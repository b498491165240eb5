/** The connection never deadlocks, and once it closes it is over after a bounded number of steps. */
module Progress {
  import opened Bytes
  import opened Frames
  import opened Acks
  import opened Disconnects
  import opened Sessions
  import opened SessionCases
  import opened SlotAccounting
  import opened Outputs
  import opened Feeds
  import opened Runs

  /** Nothing can happen any more, but for the peer going away. */
  ghost predicate Stuck(s: State) {
    forall e :: Enabled(s, e) ==> e == LoseTransport
  }

  /** `core_handler` has left the group and run its clauses. */
  predicate Finished(s: State) {
    s.phase == InClauses(false, false)
  }

  lemma {:induction false} SomeHolder(tasks: seq<Status>) returns (i: nat)
    requires Count(tasks, HoldsSlot) > 0
    ensures i < |tasks| && HoldsSlot(tasks[i])
  {
    if HoldsSlot(tasks[0]) {
      i := 0;
    } else {
      i := SomeHolder(tasks[1..]);
      i := i + 1;
    }
  }

  /** What a live task can do next. */
  function NextMove(s: State, id: nat): Event
    requires id < |s.tasks| && Live(s.tasks[id])
  {
    if s.aborting then Event.Cancelled(id) else
    match s.tasks[id]
    case Created => Start(id)
    case Handling => Finish(id)
    case _ => Flushed(id)
  }

  lemma WaitsForTask(s: State) returns (e: Event)
    requires SlotInv(s) && s.phase.InGroup? && s.body == Acquiring && s.limit > 0
    ensures Enabled(s, e) && e != LoseTransport
  {
    hide Count;
    if s.free > 0 {
      e := Acquire;
    } else {
      var i := SomeHolder(s.tasks);
      e := NextMove(s, i);
    }
  }

  lemma MoveExists(s: State) returns (e: Event)
    requires SlotInv(s) && !Finished(s)
    requires s.body == Acquiring ==> s.limit > 0
    ensures Enabled(s, e) && e != LoseTransport
  {
    hide Count;
    match s.phase {
      case InClauses(tooBig, _) => e := if tooBig then TooBigClause("") else ProtocolClause("");
      case InGroup =>
        match s.body {
          case Greeting => e := Greet;
          case Draining(_) => e := Drained;
          case Reading => e := Read;
          case Acquiring => e := WaitsForTask(s);
          case Stopped =>
            if i :| 0 <= i < |s.tasks| && Live(s.tasks[i]) {
              e := NextMove(s, i);
            } else {
              e := LeaveGroup;
            }
        }
    }
  }

  lemma NoSlotNoTask(s: State, id: nat)
    requires SlotInv(s) && s.limit == 0 && id < |s.tasks|
    ensures !Live(s.tasks[id])
  {
    hide Count;
    if Live(s.tasks[id]) {
      CountZero(s.tasks, HoldsSlot, id);
    }
  }

  /** The connection is stuck exactly when it is over, or waits for a slot it was never given. */
  lemma StuckExactly(s: State)
    requires SlotInv(s)
    ensures Stuck(s) <==> Finished(s) || (s.phase.InGroup? && s.body == Acquiring && s.limit == 0 && s.failures == [])
  {
    hide Count;
    if Finished(s) {
    } else if s.body == Acquiring && s.limit == 0 && s.phase.InGroup? {
      forall id: nat | id < |s.tasks|
        ensures !Live(s.tasks[id])
      {
        NoSlotNoTask(s, id);
      }
      assert Enabled(s, NoticeFailure) <==> s.failures != [];
    } else {
      var e := MoveExists(s);
    }
  }

  // ----- a limit of at least one -----

  predicate HasSlots(env: Env, s: State) {
    Looping(s) && env.maxConcurrent > 0 ==> s.limit > 0
  }

  lemma {:induction false} HasSlotsRun(env: Env, s: State, run: seq<Event>)
    requires HasSlots(env, s) && Legal(env, s, run)
    ensures HasSlots(env, After(env, s, run))
    decreases |run|
  {
    hide Apply, Enabled;
    if run != [] {
      HasSlotsStep(env, s, run[0]);
      HasSlotsRun(env, Apply(env, s, run[0]), run[1..]);
    }
  }

  lemma HasSlotsStep(env: Env, s: State, e: Event)
    requires HasSlots(env, s) && Enabled(s, e)
    ensures HasSlots(env, Apply(env, s, e))
  {
    hide EncodeFrame, Reply, ApplyGreet, ApplyRead;
    if e.Greet? {
      HasSlotsGreet(env, s);
    } else if e.Read? {
      GrantRead(s);
    } else if IsTaskEvent(e) {
      TaskKeeps(env, s, e);
    }
  }

  lemma HasSlotsGreet(env: Env, s: State)
    ensures HasSlots(env, ApplyGreet(env, s))
  {
    hide DecodeFrame, SendFromBody, ErrorDisconnect, HelloReply;
    SendAllKeep();
  }

  /** With a concurrency of at least one, every run can go on until the connection is over. */
  lemma NeverStuck(env: Env, input: bytes, run: seq<Event>)
    requires Legal(env, Initial(env, input), run)
    requires env.maxConcurrent > 0
    ensures var s := After(env, Initial(env, input), run);
            Stuck(s) <==> Finished(s)
  {
    hide Legal, After, Stuck, Invariant;
    var s := After(env, Initial(env, input), run);
    Reached(env, input, run);
    SlotPart(env, s);
    HasSlotsRun(env, Initial(env, input), run);
    StuckExactly(s);
  }

  // ----- teardown -----

  /** How many steps a task can still take. */
  function Rank(t: Status): nat {
    match t
    case Created => 3
    case Handling => 2
    case Flushing => 1
    case Ended(_, _) => 0
  }

  function TotalRank(tasks: seq<Status>): nat {
    if tasks == [] then 0 else Rank(tasks[0]) + TotalRank(tasks[1..])
  }

  lemma {:induction false} RankUpdate(tasks: seq<Status>, id: nat, t: Status)
    requires id < |tasks|
    ensures TotalRank(tasks[id := t]) + Rank(tasks[id]) == TotalRank(tasks) + Rank(t)
  {
    if id == 0 {
      assert tasks[id := t][1..] == tasks[1..];
    } else {
      assert tasks[id := t][1..] == tasks[1..][id - 1 := t];
      RankUpdate(tasks[1..], id - 1, t);
    }
  }

  /** The steps left to a closing connection. */
  function Remaining(s: State): nat {
    TotalRank(s.tasks)
    + (if s.body == Stopped then 0 else 1)
    + match s.phase
      case InGroup => 3
      case InClauses(tooBig, protocol) => (if tooBig then 1 else 0) + (if protocol then 1 else 0)
  }

  /** Events of the connection itself. */
  function Moves(run: seq<Event>): nat {
    if run == [] then 0 else (if run[0] == LoseTransport then 0 else 1) + Moves(run[1..])
  }

  lemma TeardownStep(env: Env, s: State, e: Event)
    requires SlotInv(s) && ClosingDown(s) && Enabled(s, e)
    ensures Remaining(Apply(env, s, e)) + (if e == LoseTransport then 0 else 1) <= Remaining(s)
  {
    hide EncodeFrame, Reply, TotalRank, Count, ApplyFinish, ApplyCancelled;
    if IsTaskEvent(e) {
      TeardownTask(env, s, e);
    }
  }

  lemma TeardownTask(env: Env, s: State, e: Event)
    requires IsTaskEvent(e) && Enabled(s, e)
    ensures Remaining(Apply(env, s, e)) < Remaining(s)
  {
    hide Apply, EncodeFrame, IsReply, ReplyFails, TotalRank;
    TaskKeeps(env, s, e);
    var move := TaskCases(env, s, e);
    var u := Apply(env, s, e);
    match move {
      case Starts => RankUpdate(s.tasks, e.id, Handling);
      case Vanishes => RankUpdate(s.tasks, e.id, Ended(false, false));
      case Ends => RankUpdate(s.tasks, e.id, Ended(true, s.tasks[e.id] == Flushing));
      case Fails(_) => RankUpdate(s.tasks, e.id, Ended(true, s.tasks[e.id] == Flushing));
      case Replies(_) => RankUpdate(s.tasks, e.id, Flushing);
    }
  }

  lemma {:induction false} TeardownRun(env: Env, s: State, run: seq<Event>)
    requires Invariant(env, s) && ClosingDown(s) && Legal(env, s, run)
    ensures Moves(run) + Remaining(After(env, s, run)) <= Remaining(s)
    decreases |run|
  {
    hide Invariant, Apply, Enabled, Remaining;
    if run != [] {
      SlotPart(env, s);
      TeardownStep(env, s, run[0]);
      ClosingStep(env, s, run[0]);
      InvariantStep(env, s, run[0]);
      TeardownRun(env, Apply(env, s, run[0]), run[1..]);
    }
  }

  lemma {:induction false} RankBound(tasks: seq<Status>)
    ensures TotalRank(tasks) <= 3 * Count(tasks, Live)
  {
    if tasks != [] {
      RankBound(tasks[1..]);
    }
  }

  /** Once closing, the connection takes at most three steps for each NOTIFY in flight and four of
      its own; when it can take no more it is over and every task is. */
  lemma TeardownTerminates(env: Env, input: bytes, run: seq<Event>, more: seq<Event>)
    requires Legal(env, Initial(env, input), run)
    requires ClosingDown(After(env, Initial(env, input), run))
    requires Legal(env, After(env, Initial(env, input), run), more)
    ensures var s := After(env, Initial(env, input), run);
            var u := After(env, s, more);
            && Moves(more) <= 3 * Count(s.tasks, Live) + 4
            && (Stuck(u) <==> Finished(u))
            && (Stuck(u) ==> !SomeLive(u.tasks))
  {
    hide Invariant, Legal, After, Stuck, TotalRank, Count;
    var s := After(env, Initial(env, input), run);
    var u := After(env, s, more);
    Reached(env, input, run);
    InvariantRun(env, s, more);
    ClosingIsFinal(env, s, more);
    TeardownRun(env, s, more);
    RankBound(s.tasks);
    assert SlotInv(u) by {
      SlotPart(env, u);
    }
    StuckExactly(u);
  }
}
