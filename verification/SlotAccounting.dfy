/** Concurrency slots: who holds them, in every reachable state. */
module SlotAccounting {
  import opened Results
  import opened Bytes
  import opened Frames
  import opened Sessions
  import opened SessionCases

  function Count(tasks: seq<Status>, p: Status -> bool): nat {
    if tasks == [] then 0 else (if p(tasks[0]) then 1 else 0) + Count(tasks[1..], p)
  }

  lemma {:induction false} CountUpdate(tasks: seq<Status>, id: nat, t: Status, p: Status -> bool)
    requires id < |tasks|
    ensures Count(tasks[id := t], p) + (if p(tasks[id]) then 1 else 0)
            == Count(tasks, p) + (if p(t) then 1 else 0)
  {
    if id == 0 {
      assert tasks[id := t][1..] == tasks[1..];
    } else {
      assert tasks[id := t][1..] == tasks[1..][id - 1 := t];
      CountUpdate(tasks[1..], id - 1, t, p);
    }
  }

  lemma {:induction false} CountAppend(tasks: seq<Status>, t: Status, p: Status -> bool)
    ensures Count(tasks + [t], p) == Count(tasks, p) + (if p(t) then 1 else 0)
  {
    if tasks == [] {
      assert [] + [t] == [t];
    } else {
      assert (tasks + [t])[1..] == tasks[1..] + [t];
      CountAppend(tasks[1..], t, p);
    }
  }

  lemma {:induction false} CountZero(tasks: seq<Status>, p: Status -> bool, i: nat)
    requires i < |tasks| && p(tasks[i])
    ensures Count(tasks, p) > 0
  {
    if i > 0 {
      CountZero(tasks[1..], p, i - 1);
    }
  }

  /** A running task holds a slot; so, forever, does one that was cancelled before it started. */
  predicate HoldsSlot(t: Status) {
    Live(t) || !t.started
  }

  /** Cancelled before its first step. */
  predicate Leaked(t: Status) {
    t.Ended? && !t.started
  }

  predicate SlotInv(s: State) {
    && |s.tasks| == |s.notifies|
    && s.free + Count(s.tasks, HoldsSlot) + (if s.holding then 1 else 0) == s.limit
    && (s.body == Reading ==> s.holding)
    && (s.body == Acquiring ==> !s.holding)
    && (s.body == Greeting || s.body == Draining(ThenLoop) ==> !s.holding && s.tasks == [] && s.failures == [])
    && (s.body == Stopped <==> s.aborting)
    && (!s.aborting ==> forall i | 0 <= i < |s.tasks| :: !Leaked(s.tasks[i]))
    && (s.phase.InClauses? ==> s.aborting && !SomeLive(s.tasks))
  }

  /** Nothing has happened before the first frame is read. */
  predicate FreshInv(env: Env, s: State) {
    s.body == Greeting ==>
      s.max == env.agentMax && s.peerMax == None && s.sent == [] && s.wire == [] && s.marks == []
      && s.afterHello == []
  }

  lemma SlotInit(env: Env, input: bytes)
    ensures SlotInv(Initial(env, input))
  {
  }

  lemma SlotSend(s: State, f: Frame, origin: Origin, next: AfterDrain)
    requires SlotInv(s) && s.phase.InGroup? && !s.aborting
    requires next == ThenLoop ==> !s.holding && s.tasks == [] && s.failures == []
    ensures SlotInv(SendFromBody(s, f, origin, next))
    ensures SendFromBody(s, f, origin, next).body != Greeting
  {
    hide EncodeFrame, Count;
  }

  lemma SlotDispatch(s: State, n: Arrival)
    requires SlotInv(s) && s.phase.InGroup? && s.body == Reading
    ensures SlotInv(Dispatch(s, n)) && Dispatch(s, n).body != Greeting
  {
    hide Count;
    CountAppend(s.tasks, Created, HoldsSlot);
  }

  lemma SlotStepGreet(env: Env, s: State)
    requires SlotInv(s) && Enabled(s, Greet)
    requires s.max == env.agentMax && s.peerMax == None
    ensures SlotInv(ApplyGreet(env, s)) && ApplyGreet(env, s).body != Greeting
  {
    hide SendFromBody, ApplyGreet;
    var s1, move := GreetCases(env, s);
    if move.Answers? {
      SlotSend(s1, move.f, FromHandshake, move.next);
    }
  }

  lemma SlotStepRead(s: State)
    requires SlotInv(s) && Enabled(s, Read)
    ensures SlotInv(ApplyRead(s)) && ApplyRead(s).body != Greeting
  {
    hide SendFromBody, Dispatch, ApplyRead, Count, Fits;
    var s1, move := ReadCases(s);
    assert SlotInv(s1);
    match move {
      case Stops(_) =>
      case Answers(f, next) => SlotSend(s1, f, FromReader, next);
      case Takes(n) => SlotDispatch(s1, n);
    }
  }

  lemma SlotSwitch(s: State, id: nat, t: Status)
    requires SlotInv(s) && s.phase.InGroup? && id < |s.tasks|
    requires HoldsSlot(s.tasks[id]) && HoldsSlot(t) && (Leaked(t) ==> s.aborting)
    ensures SlotInv(s.(tasks := s.tasks[id := t]))
  {
    hide Count;
    CountUpdate(s.tasks, id, t, HoldsSlot);
  }

  lemma SlotEnd(s: State, id: nat, acked: bool)
    requires SlotInv(s) && s.phase.InGroup? && id < |s.tasks| && Live(s.tasks[id])
    ensures SlotInv(EndTask(s, id, acked))
  {
    hide Count;
    CountUpdate(s.tasks, id, Ended(true, acked), HoldsSlot);
  }

  lemma SlotStepTask(env: Env, s: State, e: Event)
    requires SlotInv(s) && Enabled(s, e) && IsTaskEvent(e)
    ensures SlotInv(Apply(env, s, e)) && Apply(env, s, e).body == s.body
  {
    hide Count, EncodeFrame, IsReply, ReplyFails, Apply, SlotInv;
    var move := TaskCases(env, s, e);
    match move {
      case Starts => SlotSwitch(s, e.id, Handling);
      case Vanishes => SlotSwitch(s, e.id, Ended(false, false));
      case Ends => SlotEnd(s, e.id, s.tasks[e.id] == Flushing);
      case Fails(x) =>
        SlotEnd(s, e.id, s.tasks[e.id] == Flushing);
        SlotIgnores(EndTask(s, e.id, s.tasks[e.id] == Flushing), Apply(env, s, e));
      case Replies(f) =>
        SlotSwitch(s, e.id, Flushing);
        SlotIgnores(s.(tasks := s.tasks[e.id := Flushing]), Apply(env, s, e));
    }
  }

  lemma SlotIgnores(s: State, u: State)
    requires SlotInv(s) && s.tasks != []
    requires u == s.(failures := u.failures, sent := u.sent, wire := u.wire, marks := u.marks)
    ensures SlotInv(u)
  {
    hide Count;
  }

  lemma SlotStep(env: Env, s: State, e: Event)
    requires SlotInv(s) && Enabled(s, e)
    requires FreshInv(env, s)
    ensures SlotInv(Apply(env, s, e))
    ensures FreshInv(env, Apply(env, s, e))
  {
    hide EncodeFrame, Count, ApplyRead, ApplyGreet, ApplyFinish, ApplyCancelled;
    if e.Greet? {
      SlotStepGreet(env, s);
    } else if e.Read? {
      SlotStepRead(s);
    } else if IsTaskEvent(e) {
      SlotStepTask(env, s, e);
    }
  }
}
