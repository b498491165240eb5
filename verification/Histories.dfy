/** The marks an observer sees agree with the tasks and with the wire. */
module Histories {
  import opened Bytes
  import opened Frames
  import opened Disconnects
  import opened Sessions
  import opened SessionCases
  import opened SlotAccounting
  import opened Acknowledgements
  import opened SerialOrder

  /** How often a task released its slot. */
  function FreedCount(marks: seq<Mark>, id: nat): nat {
    if marks == [] then 0
    else FreedCount(marks[..|marks| - 1], id) + if marks[|marks| - 1] == Freed(id) then 1 else 0
  }

  function AckedMarks(marks: seq<Mark>): seq<nat> {
    if marks == [] then []
    else AckedMarks(marks[..|marks| - 1]) + if marks[|marks| - 1].Acked? then [marks[|marks| - 1].id] else []
  }

  /** The tasks whose ACKs are on the wire, in wire order. */
  function Ackers(sent: seq<Sent>): seq<nat> {
    if sent == [] then []
    else Ackers(sent[..|sent| - 1])
         + if sent[|sent| - 1].origin.FromTask? then [sent[|sent| - 1].origin.id] else []
  }

  lemma MarkAppend(marks: seq<Mark>, m: Mark, id: nat)
    ensures FreedCount(marks + [m], id) == FreedCount(marks, id) + if m == Freed(id) then 1 else 0
    ensures AckedMarks(marks + [m]) == AckedMarks(marks) + if m.Acked? then [m.id] else []
  {
    assert (marks + [m])[..|marks|] == marks;
  }

  lemma AckersAppend(sent: seq<Sent>, x: Sent)
    ensures Ackers(sent + [x]) == Ackers(sent) + if x.origin.FromTask? then [x.origin.id] else []
  {
    assert (sent + [x])[..|sent|] == sent;
  }

  /** One release for each task that started and is over, none for any other; the marks of ACKs
      are the ACKs on the wire, as many as tasks that have answered. */
  ghost predicate MarkInv(s: State) {
    && (forall id: nat :: FreedCount(s.marks, id) == if id < |s.tasks| && Over(s.tasks[id]) then 1 else 0)
    && AckedMarks(s.marks) == Ackers(s.sent)
    && |Ackers(s.sent)| == Count(s.tasks, HasAcked)
  }

  lemma MarkInit(env: Env, input: bytes)
    ensures MarkInv(Initial(env, input))
  {
  }

  lemma MarkSend(s: State, f: Frame, origin: Origin, next: AfterDrain)
    requires MarkInv(s) && !origin.FromTask?
    ensures MarkInv(SendFromBody(s, f, origin, next))
    ensures EncodeFrame(f, s.max).Ok? ==> MarkInv(Write(s, f, origin))
  {
    hide EncodeFrame, FreedCount, AckedMarks, Ackers, Count;
    AckersAppend(s.sent, Sent(f, origin));
  }

  lemma MarkDispatch(s: State, n: Arrival)
    requires MarkInv(s)
    ensures MarkInv(Dispatch(s, n))
  {
    hide FreedCount, AckedMarks, Ackers, Count;
    CountAppend(s.tasks, Created, HasAcked);
    forall id: nat
      ensures FreedCount(s.marks + [Began(|s.tasks|)], id) == FreedCount(s.marks, id)
    {
      MarkAppend(s.marks, Began(|s.tasks|), id);
    }
    MarkAppend(s.marks, Began(|s.tasks|), 0);
  }

  lemma MarkStepGreet(env: Env, s: State)
    requires MarkInv(s) && FreshInv(env, s) && s.body == Greeting
    ensures MarkInv(ApplyGreet(env, s))
  {
    hide SendFromBody, ApplyGreet, Faithful, FreedCount, AckedMarks, Ackers, Count;
    var s1, move := GreetCases(env, s);
    assert MarkInv(s1);
    if move.Answers? {
      MarkSend(s1, move.f, FromHandshake, move.next);
    }
  }

  lemma MarkStepRead(s: State)
    requires MarkInv(s)
    ensures MarkInv(ApplyRead(s))
  {
    hide SendFromBody, ApplyRead, Dispatch, Faithful, Fits, FreedCount, AckedMarks, Ackers, Count;
    var s1, move := ReadCases(s);
    assert MarkInv(s1);
    match move {
      case Stops(_) =>
      case Answers(f, next) => MarkSend(s1, f, FromReader, next);
      case Takes(n) => MarkDispatch(s1, n);
    }
  }

  lemma MarkSwitch(s: State, id: nat, t: Status)
    requires MarkInv(s) && id < |s.tasks| && s.tasks[id] == Created && !HasAcked(t) && !Over(t)
    ensures MarkInv(s.(tasks := s.tasks[id := t]))
  {
    hide FreedCount, AckedMarks, Ackers, Count;
    CountUpdate(s.tasks, id, t, HasAcked);
  }

  lemma MarkEnd(s: State, id: nat)
    requires MarkInv(s) && id < |s.tasks| && s.tasks[id] in {Handling, Flushing}
    ensures MarkInv(EndTask(s, id, s.tasks[id] == Flushing))
  {
    hide FreedCount, AckedMarks, Ackers, Count;
    CountUpdate(s.tasks, id, Ended(true, s.tasks[id] == Flushing), HasAcked);
    forall j: nat
      ensures FreedCount(s.marks + [Freed(id)], j) == FreedCount(s.marks, j) + if j == id then 1 else 0
    {
      MarkAppend(s.marks, Freed(id), j);
    }
    MarkAppend(s.marks, Freed(id), 0);
  }

  lemma MarkReplies(s: State, id: nat, f: Frame)
    requires MarkInv(s) && id < |s.tasks| && s.tasks[id] == Handling && EncodeFrame(f, s.max).Ok?
    ensures MarkInv(Write(s, f, FromTask(id)).(tasks := s.tasks[id := Flushing], marks := s.marks + [Acked(id)]))
  {
    hide EncodeFrame, FreedCount, AckedMarks, Ackers, Count;
    CountUpdate(s.tasks, id, Flushing, HasAcked);
    AckersAppend(s.sent, Sent(f, FromTask(id)));
    forall j: nat
      ensures FreedCount(s.marks + [Acked(id)], j) == FreedCount(s.marks, j)
    {
      MarkAppend(s.marks, Acked(id), j);
    }
    MarkAppend(s.marks, Acked(id), 0);
  }

  lemma MarkIgnores(s: State, u: State)
    requires MarkInv(s) && u == s.(failures := u.failures)
    ensures MarkInv(u)
  {
    hide FreedCount, AckedMarks, Ackers, Count;
  }

  lemma MarkStepTask(env: Env, s: State, e: Event)
    requires MarkInv(s) && IsTaskEvent(e) && Enabled(s, e)
    ensures MarkInv(Apply(env, s, e))
  {
    hide Apply, MarkInv, IsReply, ReplyFails, EncodeFrame;
    var move := TaskCases(env, s, e);
    match move {
      case Starts => MarkSwitch(s, e.id, Handling);
      case Vanishes => MarkSwitch(s, e.id, Ended(false, false));
      case Ends => MarkEnd(s, e.id);
      case Fails(x) =>
        MarkEnd(s, e.id);
        MarkIgnores(EndTask(s, e.id, s.tasks[e.id] == Flushing), Apply(env, s, e));
      case Replies(f) => MarkReplies(s, e.id, f);
    }
  }

  lemma MarkStepClause(s: State, code: int, text: string)
    requires MarkInv(s)
    ensures MarkInv(SendFromClause(s, code, text))
  {
    hide EncodeFrame, ErrorDisconnect, FreedCount, AckedMarks, Ackers, Count;
    MarkSend(s, ErrorDisconnect(code, text), FromClause, ThenClose);
  }

  lemma MarkStep(env: Env, s: State, e: Event)
    requires MarkInv(s) && FreshInv(env, s) && Enabled(s, e)
    ensures MarkInv(Apply(env, s, e))
  {
    hide FreedCount, AckedMarks, Ackers, Count, ApplyRead, ApplyGreet, ApplyFinish, ApplyCancelled, SendFromClause;
    if e.Greet? {
      MarkStepGreet(env, s);
    } else if e.Read? {
      MarkStepRead(s);
    } else if IsTaskEvent(e) {
      MarkStepTask(env, s, e);
    } else if e.TooBigClause? {
      MarkStepClause(s, FRAME_TOO_BIG, e.text);
    } else if e.ProtocolClause? {
      MarkStepClause(s, PROTOCOL_ERROR, e.text);
    }
  }
}
