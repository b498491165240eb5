/** NOTIFYs dispatched are the stream, frame by frame; in-flight ones are bounded. */
module Feeds {
  import opened Results
  import opened Bytes
  import opened Frames
  import opened Acks
  import opened Sessions
  import opened SessionCases
  import opened SlotAccounting

  /** Decoding NOTIFY after NOTIFY leads from `stream` to `rest`. */
  predicate FeedsTo(stream: bytes, max: int, notifies: seq<Arrival>, rest: bytes)
    decreases |notifies|
  {
    if notifies == [] then stream == rest
    else
      var n := notifies[0];
      && DecodeFrame(stream, max) == Ok((Frame(n.meta, Payload.Notify(n.messages)), n.size + 4))
      && n.size + 4 <= |stream|
      && FeedsTo(stream[n.size + 4..], max, notifies[1..], rest)
  }

  lemma {:induction false} FeedsOn(stream: bytes, max: int, notifies: seq<Arrival>, rest: bytes, n: Arrival)
    requires FeedsTo(stream, max, notifies, rest)
    requires DecodeFrame(rest, max) == Ok((Frame(n.meta, Payload.Notify(n.messages)), n.size + 4))
    ensures n.size + 4 <= |rest| && FeedsTo(stream, max, notifies + [n], rest[n.size + 4..])
    decreases |notifies|
  {
    hide DecodeFrame;
    if notifies == [] {
      assert ([] + [n])[1..] == [];
    } else {
      assert (notifies + [n])[1..] == notifies[1..] + [n];
      FeedsOn(stream[notifies[0].size + 4..], max, notifies[1..], rest, n);
    }
  }

  predicate Looping(s: State) {
    s.body == Acquiring || s.body == Reading || s.body == Draining(ThenLoop)
  }

  ghost predicate FeedInv(s: State) {
    && (exists rest :: FeedsTo(s.afterHello, s.max, s.notifies, rest))
    && (Looping(s) ==> FeedsTo(s.afterHello, s.max, s.notifies, s.input))
  }

  lemma FeedInit(env: Env, input: bytes)
    ensures FeedInv(Initial(env, input))
  {
    assert FeedsTo([], env.agentMax, [], []);
  }

  lemma FeedSend(s: State, f: Frame, origin: Origin, next: AfterDrain)
    requires FeedInv(s)
    requires next == ThenLoop ==> FeedsTo(s.afterHello, s.max, s.notifies, s.input)
    ensures FeedInv(SendFromBody(s, f, origin, next))
  {
    hide EncodeFrame, FeedsTo;
  }

  lemma FeedStepGreet(env: Env, s: State)
    requires FeedInv(s) && SlotInv(s) && FreshInv(env, s) && s.body == Greeting
    ensures FeedInv(ApplyGreet(env, s))
  {
    hide SendFromBody, ApplyGreet, Faithful, Count;
    var s1, move := GreetCases(env, s);
    assert FeedsTo(s1.afterHello, s1.max, s1.notifies, s1.afterHello);
    if move.Answers? {
      FeedSend(s1, move.f, FromHandshake, move.next);
    }
  }

  lemma FeedStepRead(s: State)
    requires FeedInv(s) && s.body == Reading
    ensures FeedInv(ApplyRead(s))
  {
    hide SendFromBody, ApplyRead, Faithful, Fits, DecodeFrame, FeedsTo;
    var s1, move := ReadCases(s);
    match move {
      case Stops(_) =>
      case Answers(f, next) =>
        assert FeedInv(s1.(body := Stopped));
        FeedAnswer(s1, f);
      case Takes(n) => FeedsOn(s.afterHello, s.max, s.notifies, s.input, n);
    }
  }

  lemma FeedAnswer(s: State, f: Frame)
    requires exists rest :: FeedsTo(s.afterHello, s.max, s.notifies, rest)
    ensures FeedInv(SendFromBody(s, f, FromReader, ThenClose))
  {
    hide EncodeFrame, FeedsTo;
  }

  lemma FeedStep(env: Env, s: State, e: Event)
    requires FeedInv(s) && SlotInv(s) && FreshInv(env, s) && Enabled(s, e)
    ensures FeedInv(Apply(env, s, e))
  {
    hide FeedsTo, Count, ApplyRead, ApplyGreet, Reply, EncodeFrame;
    if e.Greet? {
      FeedStepGreet(env, s);
    } else if e.Read? {
      FeedStepRead(s);
    } else if IsTaskEvent(e) {
      FeedStepTask(env, s, e);
    }
  }

  lemma FeedStepTask(env: Env, s: State, e: Event)
    requires FeedInv(s) && IsTaskEvent(e) && Enabled(s, e)
    ensures FeedInv(Apply(env, s, e))
  {
    hide FeedsTo, Apply, Enabled;
    TaskKeeps(env, s, e);
  }

  // ----- memory -----

  /** Frame bytes of the NOTIFYs in flight. */
  function LiveBytes(notifies: seq<Arrival>, tasks: seq<Status>): nat
    requires |notifies| == |tasks|
  {
    if tasks == [] then 0
    else (if Live(tasks[0]) then notifies[0].size else 0) + LiveBytes(notifies[1..], tasks[1..])
  }

  lemma {:induction false} LiveBytesBound(notifies: seq<Arrival>, tasks: seq<Status>, max: int)
    requires |notifies| == |tasks|
    requires forall i | 0 <= i < |notifies| :: notifies[i].size <= max
    ensures LiveBytes(notifies, tasks) <= Count(tasks, Live) * max
    ensures Count(tasks, Live) <= Count(tasks, HoldsSlot)
  {
    if tasks != [] {
      LiveBytesBound(notifies[1..], tasks[1..], max);
      var c := Count(tasks[1..], Live);
      assert (c + 1) * max == c * max + max;
    }
  }
}
