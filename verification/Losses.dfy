/** Why a NOTIFY ends without an answer, in every reachable state. */
module Losses {
  import opened Bytes
  import opened Frames
  import opened Disconnects
  import opened Sessions
  import opened SessionCases
  import opened SlotAccounting
  import opened SerialOrder

  predicate Lost(t: Status) {
    t.Ended? && !t.acked
  }

  /** The task `id` failed. */
  predicate Failed(s: State, id: nat) {
    exists k | 0 <= k < |s.failures| :: s.failures[k].id == id
  }

  /** The reader has written its disconnect. */
  predicate ReaderDone(sent: seq<Sent>) {
    exists k | 0 <= k < |sent| :: sent[k].origin == FromReader
  }

  /** A cause for a NOTIFY to be lost. Cancellation is one only while the group aborts, and with
      one slot never once the reader has written its disconnect. */
  predicate Excused(s: State, id: nat) {
    || s.closing
    || Failed(s, id)
    || (s.aborting && (s.limit <= 1 ==> !ReaderDone(s.sent)))
  }

  predicate LossInv(s: State) {
    forall i | 0 <= i < |s.tasks| && Lost(s.tasks[i]) :: Excused(s, i)
  }

  lemma LossInit(env: Env, input: bytes)
    ensures LossInv(Initial(env, input))
  {
  }

  /** Tasks untouched, and no cause taken back. */
  lemma LossKeeps(s: State, u: State)
    requires LossInv(s) && u.tasks == s.tasks && s.failures <= u.failures
    requires (s.closing ==> u.closing) && (s.aborting ==> u.aborting) && u.limit == s.limit
    requires ReaderDone(u.sent) && s.limit <= 1 ==> ReaderDone(s.sent) || !s.aborting
    ensures LossInv(u)
  {
    forall i | 0 <= i < |s.tasks| && Lost(s.tasks[i])
      ensures Excused(u, i)
    {
      assert Excused(s, i);
      if k :| 0 <= k < |s.failures| && s.failures[k].id == i {
        assert u.failures[k] == s.failures[k];
      }
    }
  }

  lemma LossStepGreet(env: Env, s: State)
    requires SlotInv(s) && FreshInv(env, s) && s.body == Greeting
    ensures LossInv(ApplyGreet(env, s))
  {
    hide SendFromBody, ApplyGreet, Faithful, Count;
    var s1, move := GreetCases(env, s);
    if move.Answers? {
      LossSend(s1, move.f, FromHandshake, move.next);
    }
  }

  lemma LossSend(s: State, f: Frame, origin: Origin, next: AfterDrain)
    requires LossInv(s) && !s.aborting
    ensures LossInv(SendFromBody(s, f, origin, next))
  {
    hide EncodeFrame;
    LossKeeps(s, SendFromBody(s, f, origin, next));
  }

  lemma LossStepRead(s: State)
    requires LossInv(s) && SlotInv(s) && s.body == Reading
    ensures LossInv(ApplyRead(s))
  {
    hide SendFromBody, ApplyRead, Faithful, Fits, Count;
    var s1, move := ReadCases(s);
    LossKeeps(s, s1);
    match move {
      case Stops(e) => LossKeeps(s1, RaiseBody(s1, e));
      case Answers(f, next) => LossSend(s1, f, FromReader, next);
      case Takes(n) => LossDispatch(s1, n);
    }
  }

  lemma LossDispatch(s: State, n: Arrival)
    requires LossInv(s)
    ensures LossInv(Dispatch(s, n))
  {
    forall i | 0 <= i < |s.tasks| && Lost(s.tasks[i])
      ensures Excused(Dispatch(s, n), i)
    {
      assert Excused(s, i);
    }
  }

  /** The status of one task changes, and if it is lost it has a cause. */
  lemma LossSwitch(s: State, u: State, id: nat, t: Status)
    requires LossInv(s) && id < |s.tasks| && u.tasks == s.tasks[id := t]
    requires s.failures <= u.failures && u.limit == s.limit
    requires u.closing == s.closing && u.aborting == s.aborting && (ReaderDone(u.sent) ==> ReaderDone(s.sent))
    requires Lost(t) ==> Excused(u, id)
    ensures LossInv(u)
  {
    LossKeeps(s, u.(tasks := s.tasks));
    forall i | 0 <= i < |u.tasks| && Lost(u.tasks[i])
      ensures Excused(u, i)
    {
      if i != id {
        assert Excused(u.(tasks := s.tasks), i);
      }
    }
  }

  /** With one slot, no task is alive behind the reader's disconnect. */
  lemma LiveBeforeReader(s: State, id: nat)
    requires SerialInv(s) && id < |s.tasks| && Live(s.tasks[id])
    ensures s.limit <= 1 ==> !ReaderDone(s.sent)
  {
    hide SerialRun, TurnOf;
  }

  lemma LossEnds(s: State, id: nat, acked: bool)
    requires LossInv(s) && id < |s.tasks| && (acked || Excused(s, id))
    ensures LossInv(EndTask(s, id, acked))
  {
    LossSwitch(s, EndTask(s, id, acked), id, Ended(true, acked));
  }

  lemma LossFails(s: State, id: nat, acked: bool, x: Exc)
    requires LossInv(s) && id < |s.tasks|
    ensures LossInv(FailTask(s, id, acked, x))
  {
    var u := FailTask(s, id, acked, x);
    assert u.failures[|s.failures|].id == id;
    LossSwitch(s, u, id, Ended(true, acked));
  }

  lemma LossReplies(s: State, id: nat, f: Frame)
    requires LossInv(s) && id < |s.tasks| && EncodeFrame(f, s.max).Ok?
    ensures LossInv(Write(s, f, FromTask(id)).(tasks := s.tasks[id := Flushing], marks := s.marks + [Acked(id)]))
  {
    hide EncodeFrame;
    LossSwitch(s, Write(s, f, FromTask(id)).(tasks := s.tasks[id := Flushing], marks := s.marks + [Acked(id)]),
               id, Flushing);
  }

  lemma LossStepTask(env: Env, s: State, e: Event)
    requires LossInv(s) && SerialInv(s) && IsTaskEvent(e) && Enabled(s, e)
    ensures LossInv(Apply(env, s, e))
  {
    hide Apply, LossInv, SerialInv, ReaderDone, Failed, IsReply, ReplyFails, EncodeFrame;
    var move := TaskCases(env, s, e);
    LiveBeforeReader(s, e.id);
    match move {
      case Starts => LossSwitch(s, s.(tasks := s.tasks[e.id := Handling]), e.id, Handling);
      case Vanishes =>
        LossSwitch(s, s.(tasks := s.tasks[e.id := Ended(false, false)]), e.id, Ended(false, false));
      case Ends => LossEnds(s, e.id, s.tasks[e.id] == Flushing);
      case Fails(x) => LossFails(s, e.id, s.tasks[e.id] == Flushing, x);
      case Replies(f) => LossReplies(s, e.id, f);
    }
  }

  lemma LossStepClause(s: State, code: int, text: string)
    requires LossInv(s)
    ensures LossInv(SendFromClause(s, code, text))
  {
    hide EncodeFrame, ErrorDisconnect;
    LossKeeps(s, SendFromClause(s, code, text));
  }

  lemma LossStep(env: Env, s: State, e: Event)
    requires LossInv(s) && SlotInv(s) && FreshInv(env, s) && SerialInv(s) && Enabled(s, e)
    ensures LossInv(Apply(env, s, e))
  {
    hide Count, SerialInv, LossInv, ApplyRead, ApplyGreet, ApplyFinish, ApplyCancelled, SendFromClause;
    if e.Greet? {
      LossStepGreet(env, s);
    } else if e.Read? {
      LossStepRead(s);
    } else if IsTaskEvent(e) {
      LossStepTask(env, s, e);
    } else {
      if e.TooBigClause? {
        LossStepClause(s, FRAME_TOO_BIG, e.text);
        LossKeeps(SendFromClause(s, FRAME_TOO_BIG, e.text), Apply(env, s, e));
      } else if e.ProtocolClause? {
        LossStepClause(s, PROTOCOL_ERROR, e.text);
        LossKeeps(SendFromClause(s, PROTOCOL_ERROR, e.text), Apply(env, s, e));
      } else {
        LossKeeps(s, Apply(env, s, e));
      }
    }
  }
}
