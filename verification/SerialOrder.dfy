/** With one slot the system is the serial loop: read, handle, answer, read. */
module SerialOrder {
  import opened Results
  import opened Bytes
  import opened Frames
  import opened Disconnects
  import opened Sessions
  import opened SessionCases
  import opened SlotAccounting
  import opened Acknowledgements
  import opened Outputs

  /** The serial loop: between NOTIFYs, working on one, or done writing its ACK. */
  datatype Turn = Between(next: nat) | Busy(id: nat) | Answered(id: nat)

  function SerialStep(t: Turn, m: Mark): Option<Turn> {
    match m
    case Began(id) => if t == Between(id) then Some(Busy(id)) else None
    case Acked(id) => if t == Busy(id) then Some(Answered(id)) else None
    case Freed(id) => if t == Busy(id) || t == Answered(id) then Some(Between(id + 1)) else None
  }

  /** Where the serial loop is after these marks, None when it could not have produced them. */
  function SerialRun(marks: seq<Mark>): Option<Turn> {
    if marks == [] then Some(Between(0)) else
    match SerialRun(marks[..|marks| - 1])
    case None => None
    case Some(t) => SerialStep(t, marks[|marks| - 1])
  }

  lemma SerialRunAppend(marks: seq<Mark>, m: Mark)
    ensures SerialRun(marks + [m]) == match SerialRun(marks) case None => None case Some(t) => SerialStep(t, m)
  {
    assert (marks + [m])[..|marks|] == marks;
  }

  /** The turn of the serial loop a state stands for. */
  function TurnOf(tasks: seq<Status>): Turn {
    if tasks == [] then Between(0) else
    match tasks[|tasks| - 1]
    case Created => Busy(|tasks| - 1)
    case Handling => Busy(|tasks| - 1)
    case Flushing => Answered(|tasks| - 1)
    case Ended(started, _) => if started then Between(|tasks|) else Busy(|tasks| - 1)
  }

  predicate Over(t: Status) {
    t.Ended? && t.started
  }

  /** All tasks but the last are over. */
  predicate OneAtATime(tasks: seq<Status>) {
    forall i | 0 <= i < |tasks| - 1 :: Over(tasks[i])
  }

  predicate AcksInOrder(sent: seq<Sent>) {
    forall j, k | 0 <= j < k < |sent| ::
      sent[j].origin.FromTask? && sent[k].origin.FromTask? ==> sent[j].origin.id < sent[k].origin.id
  }

  predicate NoAckAfterReader(sent: seq<Sent>) {
    forall j, k | 0 <= j < k < |sent| :: sent[j].origin == FromReader ==> !sent[k].origin.FromTask?
  }

  predicate SerialInv(s: State) {
    s.limit <= 1 ==>
      && OneAtATime(s.tasks)
      && SerialRun(s.marks) == Some(TurnOf(s.tasks))
      && AcksInOrder(s.sent)
      && NoAckAfterReader(s.sent)
      && (forall k | 0 <= k < |s.sent| :: s.sent[k].origin == FromReader ==> !SomeLive(s.tasks))
  }

  lemma SerialInit(env: Env, input: bytes)
    ensures SerialInv(Initial(env, input))
  {
  }

  /** While the reader holds the only slot every task is over. */
  lemma HolderIsAlone(s: State)
    requires SlotInv(s) && s.holding && s.limit <= 1
    ensures forall i | 0 <= i < |s.tasks| :: Over(s.tasks[i])
  {
    hide Count;
    forall i | 0 <= i < |s.tasks|
      ensures Over(s.tasks[i])
    {
      if HoldsSlot(s.tasks[i]) {
        CountZero(s.tasks, HoldsSlot, i);
      }
    }
  }

  lemma SerialSend(s: State, f: Frame, origin: Origin, next: AfterDrain)
    requires SerialInv(s) && !origin.FromTask?
    requires origin == FromReader && s.limit <= 1 ==> !SomeLive(s.tasks)
    ensures SerialInv(SendFromBody(s, f, origin, next))
    ensures !s.closing && EncodeFrame(f, s.max).Ok? ==> SerialInv(Write(s, f, origin))
  {
    hide EncodeFrame, SerialRun;
  }

  lemma SerialStepGreet(env: Env, s: State)
    requires SerialInv(s) && SlotInv(s) && FreshInv(env, s) && s.body == Greeting
    ensures SerialInv(ApplyGreet(env, s))
  {
    hide SendFromBody, ApplyGreet, Faithful, Count, SerialRun;
    var s1, move := GreetCases(env, s);
    assert SerialRun([]) == Some(Between(0)) by {
      SerialNothing();
    }
    assert SerialInv(s1);
    if move.Answers? {
      SerialSend(s1, move.f, FromHandshake, move.next);
    }
  }

  lemma SerialNothing()
    ensures SerialRun([]) == Some(Between(0))
  {
  }

  lemma SerialDispatch(s: State, n: Arrival)
    requires SerialInv(s)
    requires s.limit <= 1 ==> forall i | 0 <= i < |s.tasks| :: Over(s.tasks[i])
    requires s.limit <= 1 ==> forall k | 0 <= k < |s.sent| :: s.sent[k].origin != FromReader
    ensures SerialInv(Dispatch(s, n))
  {
    hide SerialRun;
    SerialRunAppend(s.marks, Began(|s.tasks|));
  }

  lemma SerialStepRead(s: State)
    requires SerialInv(s) && SlotInv(s) && OrderInv(s) && Enabled(s, Read)
    ensures SerialInv(ApplyRead(s))
  {
    hide SendFromBody, ApplyRead, Dispatch, Faithful, Fits, Count, SerialRun;
    var s1, move := ReadCases(s);
    if s.limit <= 1 {
      HolderIsAlone(s);
    }
    assert SerialInv(s1);
    match move {
      case Stops(_) =>
      case Answers(f, next) => SerialSend(s1, f, FromReader, next);
      case Takes(n) => SerialDispatch(s1, n);
    }
  }

  lemma {:induction false} AckCounted(sent: seq<Sent>, k: nat)
    requires k < |sent| && sent[k].origin.FromTask?
    ensures AckCount(sent, sent[k].origin.id) > 0
  {
    if k < |sent| - 1 {
      AckCounted(sent[..|sent| - 1], k);
    }
  }

  /** A task with a slot, in a system with one, is the last one dispatched. */
  lemma LiveIsLast(s: State, id: nat)
    requires SerialInv(s) && s.limit <= 1 && id < |s.tasks| && Live(s.tasks[id])
    ensures id == |s.tasks| - 1
  {
  }

  lemma SerialSwitch(s: State, id: nat, t: Status)
    requires SerialInv(s) && id < |s.tasks| && Live(s.tasks[id])
    requires s.limit <= 1 ==> TurnOf(s.tasks[id := t]) == TurnOf(s.tasks)
    ensures SerialInv(s.(tasks := s.tasks[id := t]))
  {
    hide SerialRun, TurnOf;
  }

  lemma SerialEnd(s: State, id: nat)
    requires SerialInv(s) && id < |s.tasks| && s.tasks[id] in {Handling, Flushing}
    ensures SerialInv(EndTask(s, id, s.tasks[id] == Flushing))
  {
    hide SerialRun;
    SerialRunAppend(s.marks, Freed(id));
  }

  lemma SerialReplies(env: Env, s: State, id: nat, f: Frame)
    requires SerialInv(s) && CountInv(s) && EchoInv(env, s) && SlotInv(s)
    requires id < |s.tasks| && s.tasks[id] == Handling && EncodeFrame(f, s.max).Ok?
    ensures SerialInv(Write(s, f, FromTask(id)).(tasks := s.tasks[id := Flushing], marks := s.marks + [Acked(id)]))
  {
    hide SerialRun, AckCount, EncodeFrame, IsReply, Count;
    if s.limit <= 1 {
      LiveIsLast(s, id);
      SerialRunAppend(s.marks, Acked(id));
      forall k | 0 <= k < |s.sent| && s.sent[k].origin.FromTask?
        ensures s.sent[k].origin.id < id
      {
        AckCounted(s.sent, k);
        assert Echoes(env, s, s.sent[k]);
        assert AckCount(s.sent, id) == 0;
      }
    }
  }

  lemma SerialIgnores(s: State, u: State)
    requires SerialInv(s) && u == s.(failures := u.failures)
    ensures SerialInv(u)
  {
    hide SerialRun;
  }

  lemma SerialStepTask(env: Env, s: State, e: Event)
    requires SerialInv(s) && CountInv(s) && EchoInv(env, s) && SlotInv(s) && IsTaskEvent(e) && Enabled(s, e)
    ensures SerialInv(Apply(env, s, e))
  {
    hide Apply, SerialInv, SlotInv, CountInv, EchoInv, IsReply, ReplyFails, EncodeFrame;
    var move := TaskCases(env, s, e);
    match move {
      case Starts =>
        SameTurn(s, e.id, Handling);
        SerialSwitch(s, e.id, Handling);
      case Vanishes =>
        SameTurn(s, e.id, Ended(false, false));
        SerialSwitch(s, e.id, Ended(false, false));
      case Ends => SerialEnd(s, e.id);
      case Fails(x) =>
        SerialEnd(s, e.id);
        SerialIgnores(EndTask(s, e.id, s.tasks[e.id] == Flushing), Apply(env, s, e));
      case Replies(f) => SerialReplies(env, s, e.id, f);
    }
  }

  lemma SameTurn(s: State, id: nat, t: Status)
    requires SerialInv(s) && id < |s.tasks| && s.tasks[id] == Created && t in {Handling, Ended(false, false)}
    ensures s.limit <= 1 ==> TurnOf(s.tasks[id := t]) == TurnOf(s.tasks)
  {
    hide SerialRun;
    if s.limit <= 1 {
      LiveIsLast(s, id);
    }
  }

  lemma SerialStepClause(s: State, code: int, text: string)
    requires SerialInv(s)
    ensures SerialInv(SendFromClause(s, code, text))
  {
    hide EncodeFrame, ErrorDisconnect, SerialRun;
    if !s.closing && EncodeFrame(ErrorDisconnect(code, text), s.max).Ok? {
      SerialSend(s, ErrorDisconnect(code, text), FromClause, ThenClose);
    }
  }

  lemma SerialStepAny(env: Env, s: State, e: Event)
    requires SerialInv(s) && SlotInv(s) && FreshInv(env, s) && CountInv(s) && EchoInv(env, s) && OrderInv(s)
    requires Enabled(s, e)
    ensures SerialInv(Apply(env, s, e))
  {
    hide SerialRun, AckCount, IsReply, Count, ApplyRead, ApplyGreet, ApplyFinish, ApplyCancelled, SendFromClause;
    if e.Greet? {
      SerialStepGreet(env, s);
    } else if e.Read? {
      SerialStepRead(s);
    } else if IsTaskEvent(e) {
      SerialStepTask(env, s, e);
    } else if e.TooBigClause? {
      SerialStepClause(s, FRAME_TOO_BIG, e.text);
    } else if e.ProtocolClause? {
      SerialStepClause(s, PROTOCOL_ERROR, e.text);
    }
  }
}
