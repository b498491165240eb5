/** For every limit: the ACKs on the wire are, in some order, the answers owed. */
module AckSets {
  import opened Results
  import opened Bytes
  import opened Frames
  import opened Acks
  import opened Sessions
  import opened SlotAccounting
  import opened Acknowledgements
  import opened Outputs
  import opened SerialOrder
  import opened Feeds
  import opened Histories
  import opened Losses
  import opened Runs

  /** The ACKs written, as a multiset. */
  function AckFrames(sent: seq<Sent>): multiset<Frame> {
    if sent == [] then multiset{}
    else
      var f := sent[|sent| - 1].frame;
      AckFrames(sent[..|sent| - 1]) + if f.payload.Ack? then multiset{f} else multiset{}
  }

  /** The answer to one NOTIFY, if it is in `ids`. */
  function Share(env: Env, notifies: seq<Arrival>, max: int, ids: set<nat>, i: nat): multiset<Frame>
    requires i < |notifies|
  {
    var answer := Answer(env, i, notifies[i], max);
    if i in ids && answer.Ok? then multiset{answer.value} else multiset{}
  }

  /** The answers to those of the first `k` NOTIFYs that are in `ids`. */
  function Owed(env: Env, notifies: seq<Arrival>, max: int, ids: set<nat>, k: nat): multiset<Frame>
    requires k <= |notifies|
  {
    if k == 0 then multiset{} else Owed(env, notifies, max, ids, k - 1) + Share(env, notifies, max, ids, k - 1)
  }

  lemma {:induction false} OwedWithout(env: Env, notifies: seq<Arrival>, max: int, ids: set<nat>, id: nat, k: nat)
    requires k <= |notifies| && id in ids && id < |notifies|
    ensures var mine := Share(env, notifies, max, {id}, id);
            Owed(env, notifies, max, ids, k)
            == Owed(env, notifies, max, ids - {id}, k) + if id < k then mine else multiset{}
  {
    hide Answer, Share;
    if k > 0 {
      OwedWithout(env, notifies, max, ids, id, k - 1);
      ShareWithout(env, notifies, max, ids, id, k - 1);
    }
  }

  lemma ShareWithout(env: Env, notifies: seq<Arrival>, max: int, ids: set<nat>, id: nat, i: nat)
    requires id in ids && i < |notifies|
    ensures Share(env, notifies, max, ids, i)
            == if i == id then Share(env, notifies, max, {id}, id) else Share(env, notifies, max, ids - {id}, i)
    ensures i == id ==> Share(env, notifies, max, ids - {id}, i) == multiset{}
  {
    hide Answer;
  }

  lemma {:induction false} OwedNothing(env: Env, notifies: seq<Arrival>, max: int, k: nat)
    requires k <= |notifies|
    ensures Owed(env, notifies, max, {}, k) == multiset{}
  {
    hide Answer;
    if k > 0 {
      OwedNothing(env, notifies, max, k - 1);
    }
  }

  /** One reply each to the NOTIFYs in `ids`, and nothing else that is an ACK. */
  ghost predicate AnswersEach(env: Env, notifies: seq<Arrival>, max: int, sent: seq<Sent>, ids: set<nat>) {
    && (forall id: nat :: AckCount(sent, id) == if id in ids then 1 else 0)
    && (forall k | 0 <= k < |sent| ::
          match sent[k].origin
          case FromTask(id) =>
            && id < |notifies|
            && sent[k].frame.payload.Ack?
            && Answer(env, id, notifies[id], max) == Ok(sent[k].frame)
          case _ => !sent[k].frame.payload.Ack?)
  }

  lemma {:induction false} SentIsOwed(env: Env, notifies: seq<Arrival>, max: int, sent: seq<Sent>, ids: set<nat>)
    requires AnswersEach(env, notifies, max, sent, ids)
    ensures AckFrames(sent) == Owed(env, notifies, max, ids, |notifies|)
    decreases |sent|
  {
    hide Answer;
    if sent == [] {
      forall id: nat
        ensures id !in ids
      {
        assert AckCount(sent, id) == 0;
      }
      assert ids == {};
      OwedNothing(env, notifies, max, |notifies|);
    } else {
      var x := sent[|sent| - 1];
      var before := sent[..|sent| - 1];
      assert before + [x] == sent;
      forall j: nat
        ensures AckCount(sent, j) == AckCount(before, j) + if x.origin == FromTask(j) then 1 else 0
      {
        AckCountAppend(before, x, j);
      }
      if x.origin.FromTask? {
        var id := x.origin.id;
        assert AckCount(sent, id) == AckCount(before, id) + 1;
        assert id in ids;
        SentIsOwed(env, notifies, max, before, ids - {id});
        OwedWithout(env, notifies, max, ids, id, |notifies|);
      } else {
        SentIsOwed(env, notifies, max, before, ids);
      }
    }
  }

  function AckedIds(tasks: seq<Status>): set<nat> {
    set id: nat | id < |tasks| && HasAcked(tasks[id])
  }

  lemma SentAnswersEach(env: Env, s: State)
    requires Invariant(env, s)
    ensures AnswersEach(env, s.notifies, s.max, s.sent, AckedIds(s.tasks))
  {
    hide SlotInv, FreshInv, FailureInv, WireInv, OrderInv, DisconnectInv, SerialInv, FeedInv, MarkInv, LossInv,
         AckCount, Answer, EmptyAckFits;
    forall k | 0 <= k < |s.sent|
      ensures match s.sent[k].origin
              case FromTask(id) =>
                && id < |s.notifies|
                && s.sent[k].frame.payload.Ack?
                && Answer(env, id, s.notifies[id], s.max) == Ok(s.sent[k].frame)
              case _ => !s.sent[k].frame.payload.Ack?
    {
      assert Echoes(env, s, s.sent[k]);
    }
  }

  /** Whatever the limit and the interleaving, the ACKs on the wire are in some order exactly the
      answers to the NOTIFYs whose tasks have acknowledged. */
  lemma AcksAreOwed(env: Env, input: bytes, run: seq<Event>)
    requires Legal(env, Initial(env, input), run)
    ensures var s := After(env, Initial(env, input), run);
            AckFrames(s.sent) == Owed(env, s.notifies, s.max, AckedIds(s.tasks), |s.notifies|)
  {
    hide Legal, After, Invariant, AnswersEach, Owed, AckFrames, AckedIds;
    var s := After(env, Initial(env, input), run);
    Reached(env, input, run);
    SentAnswersEach(env, s);
    SentIsOwed(env, s.notifies, s.max, s.sent, AckedIds(s.tasks));
  }
}
