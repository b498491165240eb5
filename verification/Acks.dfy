/** The reply to a NOTIFY: the whole action list, or what can be salvaged of it. */
module Acks {
  import opened Results
  import opened Bytes
  import opened Varints
  import opened DataTypes
  import opened Payloads
  import opened Frames

  /** Which actions the greedy packer keeps, given that `used` bytes are taken already. */
  function Keep(actions: seq<Action>, budget: int, used: nat): (keep: seq<bool>)
    ensures |keep| == |actions|
  {
    if actions == [] then [] else
    var code := EncodeAction(actions[0]);
    if code.Err? || used + |code.value| > budget then [false] + Keep(actions[1..], budget, used)
    else [true] + Keep(actions[1..], budget, used + |code.value|)
  }

  /** The actions whose flag is set, in order. */
  function Pick(actions: seq<Action>, keep: seq<bool>): seq<Action>
    requires |keep| == |actions|
  {
    if actions == [] then []
    else if keep[0] then [actions[0]] + Pick(actions[1..], keep[1..])
    else Pick(actions[1..], keep[1..])
  }

  function Salvage(actions: seq<Action>, budget: int): seq<Action> {
    Pick(actions, Keep(actions, budget, 0))
  }

  /** The bytes an action takes, zero when it cannot be encoded. */
  function Size(a: Action): nat {
    var code := EncodeAction(a);
    if code.Ok? then |code.value| else 0
  }

  function TotalSize(actions: seq<Action>): nat {
    if actions == [] then 0 else Size(actions[0]) + TotalSize(actions[1..])
  }

  predicate AllEncodable(actions: seq<Action>) {
    forall i | 0 <= i < |actions| :: EncodeAction(actions[i]).Ok?
  }

  /** A list encodes exactly when each action does, to the sum of their sizes. */
  lemma {:induction false} EncodesPiecewise(actions: seq<Action>)
    ensures EncodeActions(actions).Ok? <==> AllEncodable(actions)
    ensures EncodeActions(actions).Ok? ==> |EncodeActions(actions).value| == TotalSize(actions)
  {
    hide EncodeAction;
    if actions != [] {
      EncodesPiecewise(actions[1..]);
      if AllEncodable(actions[1..]) && EncodeAction(actions[0]).Ok? {
        assert forall i | 0 < i < |actions| :: actions[i] == actions[1..][i - 1];
      }
    }
  }

  /** The greedy rule, for the actions before each index. */
  lemma {:induction false} KeepIsGreedy(actions: seq<Action>, budget: int, used: nat, i: nat)
    requires i < |actions|
    ensures var keep := Keep(actions, budget, used);
            keep[i] <==> EncodeAction(actions[i]).Ok?
                         && used + TotalSize(Pick(actions[..i], keep[..i])) + Size(actions[i]) <= budget
    decreases i
  {
    hide EncodeAction;
    var keep := Keep(actions, budget, used);
    if i > 0 {
      var next := if keep[0] then used + Size(actions[0]) else used;
      KeepIsGreedy(actions[1..], budget, next, i - 1);
      assert keep[1..] == Keep(actions[1..], budget, next);
      assert actions[..i][1..] == actions[1..][..i - 1];
      assert keep[..i][1..] == keep[1..][..i - 1];
      assert actions[..i][0] == actions[0] && keep[..i][0] == keep[0];
    }
  }

  lemma {:induction false} KeptFits(actions: seq<Action>, budget: int, used: nat)
    ensures var kept := Pick(actions, Keep(actions, budget, used));
            && AllEncodable(kept)
            && (used <= budget ==> used + TotalSize(kept) <= budget)
    decreases |actions|
  {
    hide EncodeAction;
    if actions != [] {
      var keep := Keep(actions, budget, used);
      var next := if keep[0] then used + Size(actions[0]) else used;
      KeptFits(actions[1..], budget, next);
      assert keep[1..] == Keep(actions[1..], budget, next);
    }
  }

  /** No dropped action could still be added: it has no encoding, or the final list leaves
      no room for it. */
  lemma {:induction false} DroppedDoesNotFit(actions: seq<Action>, budget: int, used: nat, i: nat)
    requires i < |actions| && !Keep(actions, budget, used)[i]
    ensures var kept := Pick(actions, Keep(actions, budget, used));
            EncodeAction(actions[i]).Err? || used + TotalSize(kept) + Size(actions[i]) > budget
    decreases i
  {
    hide EncodeAction;
    var keep := Keep(actions, budget, used);
    var next := if keep[0] then used + Size(actions[0]) else used;
    assert keep[1..] == Keep(actions[1..], budget, next);
    if i > 0 {
      DroppedDoesNotFit(actions[1..], budget, next, i - 1);
    }
  }

  lemma {:induction false} KeepsAllThatFits(actions: seq<Action>, budget: int, used: nat)
    requires AllEncodable(actions) && used + TotalSize(actions) <= budget
    ensures Pick(actions, Keep(actions, budget, used)) == actions
    decreases |actions|
  {
    hide EncodeAction;
    if actions != [] {
      KeepsAllThatFits(actions[1..], budget, used + Size(actions[0]));
      assert Keep(actions, budget, used)[1..] == Keep(actions[1..], budget, used + Size(actions[0]));
      assert actions == [actions[0]] + actions[1..];
    }
  }

  /** The packer returns everything exactly when everything encodes and fits. */
  lemma SalvageWhole(actions: seq<Action>, budget: nat)
    ensures Salvage(actions, budget) == actions <==>
            EncodeActions(actions).Ok? && |EncodeActions(actions).value| <= budget
  {
    EncodesPiecewise(actions);
    KeptFits(actions, budget, 0);
    if AllEncodable(actions) && TotalSize(actions) <= budget {
      KeepsAllThatFits(actions, budget, 0);
    }
  }

  /** `Ack` frame answering a NOTIFY with the given metadata. */
  function AckFrame(notify: Metadata, actions: seq<Action>): Frame {
    Construct(notify.streamId, notify.frameId, Ack(actions))
  }

  /** `_salvaged_ack`. */
  function SalvagedAck(notify: Metadata, actions: seq<Action>, max: int): Result<Frame> {
    var empty :- EncodeFrame(AckFrame(notify, []), max);
    Ok(AckFrame(notify, Salvage(actions, max - (|empty| - 4))))
  }

  /** The frame a NOTIFY task sends, or the exception it fails with. */
  function Reply(notify: Metadata, actions: seq<Action>, max: int): (r: Result<Frame>)
    ensures r.Ok? ==> EncodeFrame(r.value, max).Ok?
  {
    var full := AckFrame(notify, actions);
    if EncodeFrame(full, max).Ok? then Ok(full) else
    var salvaged :- SalvagedAck(notify, actions, max);
    var _ :- EncodeFrame(salvaged, max);
    Ok(salvaged)
  }

  /** Room for an ACK without actions. */
  predicate EmptyAckFits(notify: Metadata, max: int) {
    0 <= notify.streamId && 0 <= notify.frameId
    ==> 5 + |Varint(notify.streamId)| + |Varint(notify.frameId)| <= max
  }

  lemma AckSize(notify: Metadata, actions: seq<Action>)
    ensures var body := EncodeBody(AckFrame(notify, actions));
            && (body.Ok? <==> 0 <= notify.streamId && 0 <= notify.frameId && AllEncodable(actions))
            && (body.Ok? ==> |body.value| == 5 + |Varint(notify.streamId)| + |Varint(notify.frameId)|
                                             + TotalSize(actions))
  {
    hide EncodeActions, Varint;
    EncodesPiecewise(actions);
  }

  /** An accepted NOTIFY is at least as long as the empty ACK that answers it. */
  lemma AcceptedLeavesRoom(stream: bytes, max: int)
    requires DecodeFrame(stream, max).Ok?
    ensures EmptyAckFits(DecodeFrame(stream, max).value.0.meta, max)
  {
    hide DecodePayload, FromBigEndian, DecodeMetadata, EncodeMetadata, Varint;
    var size := FromBigEndian(stream[..4]);
    var buf := stream[4..4 + size];
    var (meta, offset) := DecodeMetadata(buf, 1).value;
    assert EncodeMetadata(meta).Ok? ==> |EncodeMetadata(meta).value| <= offset - 1 by {
      IdsNeverGrow(buf, 1);
    }
  }

  /** With room for the empty ACK, the salvaged frame is a reply for every action list: it
      is refused only for an id that cannot be written or a body over four gigabytes. */
  lemma SalvagedFits(notify: Metadata, actions: seq<Action>, max: int)
    requires EmptyAckFits(notify, max)
    ensures max < TWO_TO_32 ==>
              (SalvagedAck(notify, actions, max).Ok? <==> 0 <= notify.streamId && 0 <= notify.frameId)
    ensures SalvagedAck(notify, actions, max).Ok? ==>
              var ack := SalvagedAck(notify, actions, max).value;
              && 0 <= notify.streamId && 0 <= notify.frameId
              && EncodeBody(ack).Ok?
              && |EncodeBody(ack).value| <= max
              && (EncodeFrame(ack, max).Ok? <==> |EncodeBody(ack).value| < TWO_TO_32)
              && (EncodeFrame(ack, max).Err? ==> EncodeFrame(ack, max).error == EncodeError)
    ensures SalvagedAck(notify, actions, max).Err? ==>
              SalvagedAck(notify, actions, max).error == EncodeError
  {
    hide EncodeBody, Varint, Keep, Pick;
    AckSize(notify, []);
    if 0 <= notify.streamId && 0 <= notify.frameId {
      var head := 5 + |Varint(notify.streamId)| + |Varint(notify.frameId)|;
      var kept := Salvage(actions, max - head);
      KeptFits(actions, max - head, 0);
      AckSize(notify, kept);
    }
  }

  lemma {:induction false} TotalSizeConcat(a: seq<Action>, b: seq<Action>)
    ensures TotalSize(a + b) == TotalSize(a) + TotalSize(b)
  {
    if a == [] {
      assert a + b == b;
    } else {
      assert (a + b)[1..] == a[1..] + b;
      TotalSizeConcat(a[1..], b);
    }
  }

  /** The salvaged frame is maximal: a dropped action put back anywhere gives a frame
      that cannot be sent. */
  lemma SalvageIsMaximal(notify: Metadata, actions: seq<Action>, max: int, i: nat, j: nat)
    requires SalvagedAck(notify, actions, max).Ok?
    requires var kept := SalvagedAck(notify, actions, max).value.payload.actions; j <= |kept|
    requires var head := |EncodeBody(AckFrame(notify, [])).value|;
             i < |actions| && !Keep(actions, max - head, 0)[i]
    ensures var kept := SalvagedAck(notify, actions, max).value.payload.actions;
            EncodeFrame(AckFrame(notify, kept[..j] + [actions[i]] + kept[j..]), max).Err?
  {
    hide EncodeBody, EncodeAction, Varint, Keep, Pick;
    var kept := SalvagedAck(notify, actions, max).value.payload.actions;
    var fuller := kept[..j] + [actions[i]] + kept[j..];
    AckSize(notify, []);
    AckSize(notify, fuller);
    DroppedDoesNotFit(actions, max - |EncodeBody(AckFrame(notify, [])).value|, 0, i);
    assert fuller[j] == actions[i];
    TotalSizeConcat(kept[..j] + [actions[i]], kept[j..]);
    TotalSizeConcat(kept[..j], [actions[i]]);
    TotalSizeConcat(kept[..j], kept[j..]);
    assert kept[..j] + kept[j..] == kept;
    assert TotalSize([actions[i]]) == Size(actions[i]);
  }

  /** Every accepted NOTIFY can be acknowledged, whatever the handler returned: the task
      sends a frame within the negotiated size exactly when both ids are non-negative. Only a
      frame size beyond what the length prefix can say leaves another way to fail. */
  lemma EveryNotifyIsAnswered(stream: bytes, max: int, actions: seq<Action>)
    requires DecodeFrame(stream, max).Ok? && DecodeFrame(stream, max).value.0.payload.Notify?
    ensures var meta := DecodeFrame(stream, max).value.0.meta;
            var reply := Reply(meta, actions, max);
            && (reply.Ok? ==> 0 <= meta.streamId && 0 <= meta.frameId)
            && (0 <= meta.streamId && 0 <= meta.frameId && max < TWO_TO_32 ==> reply.Ok?)
            && (reply.Ok? ==> |EncodeFrame(reply.value, max).value| - 4 <= max
                              && reply.value == AckFrame(meta, reply.value.payload.actions))
            && (reply.Err? ==> reply.error == EncodeError)
  {
    hide DecodeFrame, SalvagedAck, EncodeBody;
    var meta := DecodeFrame(stream, max).value.0.meta;
    AcceptedLeavesRoom(stream, max);
    ReplyOutcome(meta, actions, max);
  }

  lemma ReplyOutcome(notify: Metadata, actions: seq<Action>, max: int)
    requires EmptyAckFits(notify, max)
    ensures var reply := Reply(notify, actions, max);
            && (reply.Ok? ==> 0 <= notify.streamId && 0 <= notify.frameId
                              && reply.value.payload.Ack?
                              && reply.value == AckFrame(notify, reply.value.payload.actions))
            && (reply.Err? ==> reply.error == EncodeError)
            && (max < TWO_TO_32 && 0 <= notify.streamId && 0 <= notify.frameId ==> reply.Ok?)
  {
    hide EncodeBody, Varint, Salvage, EmptyAckFits;
    AckSize(notify, actions);
    SalvagedFits(notify, actions, max);
  }

  /** Trying the whole list first makes no difference: a reply is always what the greedy packer
      makes of the actions, and under a frame size that fits the length prefix there is one. */
  lemma ReplyIsGreedy(notify: Metadata, actions: seq<Action>, max: int)
    requires 0 <= notify.streamId && 0 <= notify.frameId
    requires EmptyAckFits(notify, max)
    ensures var head := 5 + |Varint(notify.streamId)| + |Varint(notify.frameId)|;
            Reply(notify, actions, max).Ok? ==>
              Reply(notify, actions, max).value == AckFrame(notify, Salvage(actions, max - head))
    ensures max < TWO_TO_32 ==> Reply(notify, actions, max).Ok?
  {
    hide EncodeBody, Varint, Salvage;
    var head := 5 + |Varint(notify.streamId)| + |Varint(notify.frameId)|;
    AckSize(notify, []);
    AckSize(notify, actions);
    EncodesPiecewise(actions);
    SalvageWhole(actions, max - head);
    ReplyOutcome(notify, actions, max);
  }

  /** An id of 2^63 on the wire decodes as negative, and such a NOTIFY gets no ACK at all. */
  lemma NegativeIdIsNeverAnswered(notify: Metadata, actions: seq<Action>, max: int)
    requires notify.streamId < 0 || notify.frameId < 0
    ensures Reply(notify, actions, max) == Err(EncodeError)
  {
    hide EncodeActions;
  }

  // ----- the loop of the source -----

  method SalvageLoop(notify: Metadata, actions: seq<Action>, max: int) returns (r: Result<Frame>)
    ensures r == SalvagedAck(notify, actions, max)
  {
    hide EncodeFrame, EncodeAction;
    var empty := FrameEncode(AckFrame(notify, []), max);
    if empty.Err? {
      return Err(empty.error);
    }
    var budget := max - (|empty.value| - 4);
    var salvaged: seq<Action> := [];
    var used: nat := 0;
    for i := 0 to |actions|
      invariant Salvage(actions, budget) == salvaged + Pick(actions[i..], Keep(actions[i..], budget, used))
    {
      var action := actions[i];
      ghost var rest := actions[i..];
      assert rest[1..] == actions[i + 1..] && rest[0] == action;
      EncodesPiecewise([action]);
      assert TotalSize([action]) == Size(action);
      var encoded := EncodeActionList([action]);
      if encoded.Ok? {
        if used + |encoded.value| <= budget {
          assert Keep(rest, budget, used)[1..] == Keep(rest[1..], budget, used + |encoded.value|);
          salvaged := salvaged + [action];
          used := used + |encoded.value|;
        } else {
          assert Keep(rest, budget, used)[1..] == Keep(rest[1..], budget, used);
        }
      } else {
        assert Keep(rest, budget, used)[1..] == Keep(rest[1..], budget, used);
      }
    }
    assert salvaged + [] == salvaged;
    return Ok(AckFrame(notify, salvaged));
  }
}
