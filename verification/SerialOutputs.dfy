/** Without pipelining the connection writes what the serial program would write. */
module SerialOutputs {
  import opened Results
  import opened Bytes
  import opened Frames
  import opened Sessions
  import opened SessionCases
  import opened SlotAccounting
  import opened Acknowledgements
  import opened Outputs
  import opened SerialOrder
  import opened Feeds
  import opened Histories
  import opened Losses
  import opened Uniqueness
  import opened DisconnectRuns
  import opened Runs

  /** The serial program: the answers to the first `k` NOTIFYs, one after the other. */
  function Serve(env: Env, notifies: seq<Arrival>, max: int, k: nat): (r: Result<seq<Frame>>)
    requires k <= |notifies|
    ensures r.Ok? ==> |r.value| == k
  {
    if k == 0 then Ok([]) else
    var before :- Serve(env, notifies, max, k - 1);
    var ack :- Answer(env, k - 1, notifies[k - 1], max);
    Ok(before + [ack])
  }

  lemma {:induction false} CountLast(tasks: seq<Status>, p: Status -> bool)
    requires forall i | 0 <= i < |tasks| - 1 :: !p(tasks[i])
    ensures Count(tasks, p) == if tasks != [] && p(tasks[|tasks| - 1]) then 1 else 0
  {
    if |tasks| > 1 {
      CountLast(tasks[1..], p);
    }
  }

  lemma {:induction false} AckersOfTail(sent: seq<Sent>)
    requires sent != [] && !sent[0].origin.FromTask?
    requires forall k | 0 < k < |sent| :: sent[k].origin.FromTask?
    ensures |Ackers(sent)| == |sent| - 1
  {
    if |sent| > 1 {
      AckersOfTail(sent[..|sent| - 1]);
    }
  }

  /** An increasing run of naturals that all stay below its length is 0, 1, 2, ... */
  lemma {:induction false} Climbs(sent: seq<Sent>, i: nat, j: nat)
    requires forall k | 0 < k < |sent| :: sent[k].origin.FromTask?
    requires AcksInOrder(sent)
    requires 0 < i <= j < |sent|
    ensures sent[i].origin.id + (j - i) <= sent[j].origin.id
    decreases j - i
  {
    if i < j {
      Climbs(sent, i, j - 1);
    }
  }

  lemma Counts(sent: seq<Sent>)
    requires forall k | 0 < k < |sent| :: sent[k].origin.FromTask? && sent[k].origin.id < |sent| - 1
    requires AcksInOrder(sent)
    ensures forall k | 0 < k < |sent| :: sent[k].origin == FromTask(k - 1)
  {
    forall k | 0 < k < |sent|
      ensures sent[k].origin == FromTask(k - 1)
    {
      Climbs(sent, 1, k);
      Climbs(sent, k, |sent| - 1);
    }
  }

  lemma AckedId(s: State, k: nat)
    requires CountInv(s) && k < |s.sent| && s.sent[k].origin.FromTask?
    ensures s.sent[k].origin.id < |s.tasks| && HasAcked(s.tasks[s.sent[k].origin.id])
  {
    hide AckCount;
    AckCounted(s.sent, k);
  }

  /** Without a failure or a closing stream no NOTIFY is lost before the group aborts, and with one
      slot none behind the reader's disconnect either. */
  lemma NothingLost(s: State)
    requires LossInv(s) && !s.closing && s.failures == []
    requires s.aborting ==> s.limit <= 1 && ReaderDone(s.sent)
    ensures Count(s.tasks, Lost) == 0
  {
    hide Count, ReaderDone;
    forall i | 0 <= i < |s.tasks|
      ensures !Lost(s.tasks[i])
    {
      assert Lost(s.tasks[i]) ==> Excused(s, i);
    }
    NoneCounted(s.tasks, Lost);
  }

  /** The loop has written AGENT-HELLO and then nothing but ACKs. */
  lemma OnlyAcksAfterHello(env: Env, s: State)
    requires OrderInv(s) && EchoInv(env, s) && s.body != Greeting && !ClosingDown(s)
    ensures HelloFirst(s) && forall k | 0 < k < |s.sent| :: s.sent[k].origin.FromTask?
  {
    hide IsReply;
    forall k | 0 < k < |s.sent|
      ensures s.sent[k].origin.FromTask?
    {
      assert s.sent[k].origin != FromHandshake;
    }
  }

  /** With one slot and no NOTIFY lost, the i-th ACK answers the i-th NOTIFY. */
  lemma AckersCount(env: Env, s: State)
    requires Invariant(env, s) && s.limit <= 1 && s.body != Greeting && !ClosingDown(s)
    requires Count(s.tasks, Lost) == 0
    ensures HelloFirst(s)
    ensures |s.tasks| - 1 <= |s.sent| - 1 <= |s.tasks| == |s.notifies|
    ensures forall k | 0 < k < |s.sent| :: s.sent[k].origin == FromTask(k - 1)
  {
    hide SlotInv, FreshInv, RoomInv, FailureInv, WireInv, DisconnectInv, FeedInv, FreedCount, AckedMarks, Ackers,
         AckCount, Count, SerialRun, Echoes, LossInv;
    OnlyAcksAfterHello(env, s);
    AckersOfTail(s.sent);
    Partition(s.tasks);
    CountLast(s.tasks, Waiting);
    assert |s.tasks| == |s.notifies| by {
      OneTaskEach(s);
    }
    forall k | 0 < k < |s.sent|
      ensures s.sent[k].origin.id < |s.sent| - 1
    {
      AckedId(s, k);
    }
    Counts(s.sent);
  }

  lemma OneTaskEach(s: State)
    requires SlotInv(s)
    ensures |s.tasks| == |s.notifies|
  {
    hide Count;
  }

  lemma {:induction false} ServedUpTo(env: Env, s: State, k: nat)
    requires EchoInv(env, s) && k < |s.sent| && k <= |s.notifies|
    requires forall j | 0 < j <= k :: s.sent[j].origin == FromTask(j - 1)
    ensures Serve(env, s.notifies, s.max, k) == Ok(FramesOf(s.sent[1..k + 1]))
  {
    hide Answer;
    if k > 0 {
      ServedUpTo(env, s, k - 1);
      assert Echoes(env, s, s.sent[k]);
      assert FramesOf(s.sent[1..k + 1]) == FramesOf(s.sent[1..k]) + [s.sent[k].frame];
    }
  }

  /** AGENT-HELLO and then what the serial program writes, at most one NOTIFY behind. */
  predicate WritesSerially(env: Env, s: State) {
    var k := |s.sent| - 1;
    && |s.notifies| - 1 <= k <= |s.notifies|
    && s.sent != [] && s.sent[0].frame.payload.AgentHello?
    && Serve(env, s.notifies, s.max, k) == Ok(FramesOf(s.sent)[1..])
  }

  lemma SerialState(env: Env, s: State)
    requires Invariant(env, s) && s.limit <= 1 && s.body != Greeting && !ClosingDown(s)
    requires !s.closing && s.failures == []
    ensures WritesSerially(env, s)
  {
    hide Count, Serve, Invariant, LossInv;
    LossPart(env, s);
    SlotPart(env, s);
    NothingLost(s);
    AckersCount(env, s);
    EchoPart(env, s);
    ServedUpTo(env, s, |s.sent| - 1);
    assert s.sent[1..|s.sent| - 1 + 1] == s.sent[1..];
    assert FramesOf(s.sent[1..]) == FramesOf(s.sent)[1..];
  }

  /** While the loop goes on with one slot granted, no failure and an open stream, the frames on the
      wire are AGENT-HELLO and then the output of the serial program, and HAProxy reads just these. */
  lemma SerialOutput(env: Env, input: bytes, run: seq<Event>)
    requires Legal(env, Initial(env, input), run)
    requires Granted(env, input) <= 1
    requires var s := After(env, Initial(env, input), run);
             s.body != Greeting && !ClosingDown(s) && !s.closing && s.failures == []
    ensures var s := After(env, Initial(env, input), run);
            && WritesSerially(env, s)
            && DecodeAll(s.wire, env.agentMax)
               == Ok([s.sent[0].frame] + Serve(env, s.notifies, s.max, |s.sent| - 1).value)
  {
    hide Legal, After, Granted, Serve, DecodeAll, Invariant;
    var s := After(env, Initial(env, input), run);
    Reached(env, input, run);
    InvariantInit(env, input);
    LimitIsGranted(env, input, Initial(env, input), run);
    SerialState(env, s);
    WireIsReadable(env, input, run, env.agentMax);
    assert FramesOf(s.sent) == [s.sent[0].frame] + FramesOf(s.sent)[1..];
  }

  lemma EchoPart(env: Env, s: State)
    requires Invariant(env, s)
    ensures EchoInv(env, s)
  {
  }

  // ----- the whole output -----

  lemma {:induction false} DisconnectAt(sent: seq<Sent>, k: nat)
    requires k < |sent| && sent[k].frame.payload.Disconnect?
    ensures DisconnectCount(sent) >= 1
    ensures DisconnectCount(sent) == 1 ==>
              forall j | 0 <= j < |sent| && j != k :: !sent[j].frame.payload.Disconnect?
  {
    if k < |sent| - 1 {
      DisconnectAt(sent[..|sent| - 1], k);
    } else {
      forall j | 0 <= j < |sent| && j != k && sent[j].frame.payload.Disconnect?
        ensures DisconnectCount(sent) > 1
      {
        DisconnectAt(sent[..|sent| - 1], j);
      }
    }
  }

  /** With one slot and no failure the reader's disconnect is the last frame, and between it and
      AGENT-HELLO stand only ACKs. */
  lemma ReaderIsLast(env: Env, s: State)
    requires Invariant(env, s) && SingleInv(s) && s.limit <= 1 && ReaderDone(s.sent) && s.failures == []
    ensures HelloFirst(s) && |s.sent| >= 2
    ensures s.sent[|s.sent| - 1].origin == FromReader && s.sent[|s.sent| - 1].frame.payload.Disconnect?
    ensures forall j | 0 < j < |s.sent| - 1 :: s.sent[j].origin.FromTask?
    ensures !SomeLive(s.tasks)
  {
    hide SlotInv, FreshInv, RoomInv, CountInv, FailureInv, WireInv, DisconnectInv, FeedInv, MarkInv, LossInv, IsReply,
         SerialRun, TurnOf, DisconnectCount;
    var k :| 0 <= k < |s.sent| && s.sent[k].origin == FromReader;
    assert Echoes(env, s, s.sent[k]);
    DisconnectAt(s.sent, k);
    assert DisconnectCount(s.sent) <= 1;
    forall j | 0 <= j < |s.sent| && j != k
      ensures s.sent[j].origin == FromHandshake || s.sent[j].origin.FromTask?
    {
      assert Echoes(env, s, s.sent[j]);
    }
  }

  lemma AckersBeforeReader(env: Env, s: State)
    requires Invariant(env, s) && SingleInv(s) && s.limit <= 1 && ReaderDone(s.sent)
    requires !s.closing && s.failures == []
    ensures HelloFirst(s) && |s.sent| == |s.notifies| + 2
    ensures s.sent[|s.notifies| + 1].origin == FromReader && s.sent[|s.notifies| + 1].frame.payload.Disconnect?
    ensures forall k | 0 < k <= |s.notifies| :: s.sent[k].origin == FromTask(k - 1)
  {
    hide SlotInv, FreshInv, RoomInv, FailureInv, WireInv, DisconnectInv, FeedInv, FreedCount, AckedMarks, Ackers,
         AckCount, Count, SerialRun, Echoes, LossInv, SingleInv, ReaderDone;
    ReaderIsLast(env, s);
    LossPart(env, s);
    NothingLost(s);
    Partition(s.tasks);
    NoneCounted(s.tasks, Waiting);
    OneTaskEach(s);
    var acked := s.sent[..|s.sent| - 1];
    AckersOfTail(acked);
    AckersAppend(acked, s.sent[|s.sent| - 1]);
    assert acked + [s.sent[|s.sent| - 1]] == s.sent;
    forall k | 0 < k < |acked|
      ensures acked[k].origin.FromTask? && acked[k].origin.id < |acked| - 1
    {
      AckedId(s, k);
    }
    Counts(acked);
    assert forall k | 0 < k <= |s.notifies| :: acked[k] == s.sent[k];
  }

  /** The whole output of a serial connection: once the reader has written its disconnect, HAProxy
      reads AGENT-HELLO, what the serial program answers to all NOTIFYs, and that disconnect. */
  lemma SerialOutputComplete(env: Env, input: bytes, run: seq<Event>)
    requires Legal(env, Initial(env, input), run)
    requires Granted(env, input) <= 1
    requires var s := After(env, Initial(env, input), run); ReaderDone(s.sent) && !s.closing && s.failures == []
    ensures var s := After(env, Initial(env, input), run);
            && |s.sent| == |s.notifies| + 2
            && s.sent[0].frame.payload.AgentHello?
            && s.sent[|s.notifies| + 1].frame.payload.Disconnect?
            && var served := Serve(env, s.notifies, s.max, |s.notifies|);
               && served.Ok?
               && DecodeAll(s.wire, env.agentMax)
                  == Ok([s.sent[0].frame] + served.value + [s.sent[|s.notifies| + 1].frame])
  {
    hide Legal, After, Granted, Serve, DecodeAll, Invariant, SingleInv, EndInv, ReaderDone;
    var s := After(env, Initial(env, input), run);
    Reached(env, input, run);
    SingleReached(env, input, run);
    InvariantInit(env, input);
    LimitIsGranted(env, input, Initial(env, input), run);
    AckersBeforeReader(env, s);
    EchoPart(env, s);
    var n := |s.notifies|;
    ServedUpTo(env, s, n);
    WireIsReadable(env, input, run, env.agentMax);
    assert FramesOf(s.sent) == [s.sent[0].frame] + FramesOf(s.sent[1..n + 1]) + [s.sent[n + 1].frame];
  }
}
