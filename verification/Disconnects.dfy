/** Outbound AGENT_DISCONNECT frames. */
module Disconnects {
  import opened Results
  import opened Varints
  import opened DataTypes
  import opened Payloads
  import opened Frames

  const MESSAGE_MAX_LENGTH := 256

  const NORMAL := 0
  const FRAME_TOO_BIG := 3
  const INVALID_FRAME_RECEIVED := 4
  const SERVER_INCOMPATIBLE := 101
  const PROTOCOL_ERROR := 102

  /** The members of `DisconnectCode`. */
  predicate IsDisconnectCode(code: int) {
    0 <= code <= 13 || code == 99 || code == SERVER_INCOMPATIBLE || code == PROTOCOL_ERROR
  }

  function DisconnectFrame(code: int, message: string): Frame {
    Construct(0, 0, Disconnect(true, Int(code), Str(message)))
  }

  function Truncate(message: string): (t: string)
    ensures t <= message && |t| == if |message| <= 256 then |message| else 256
  {
    if |message| > MESSAGE_MAX_LENGTH then message[..MESSAGE_MAX_LENGTH] else message
  }

  /** The frame `send_disconnect_on_error` builds. */
  function ErrorDisconnect(code: int, message: string): Frame {
    DisconnectFrame(code, Truncate(message))
  }

  lemma DisconnectSize(code: int, message: string)
    requires IsDisconnectCode(code)
    ensures var body := EncodeBody(DisconnectFrame(code, message));
            && (body.Ok? <==> IsLatin1(message))
            && (body.Ok? ==> |body.value| == 30 + |Varint(|message|)| + |message|)
  {
    hide Varint;
    var f := DisconnectFrame(code, message);
    var d := DisconnectEntries(f.payload);
    assert d[1..] == [d[1]] && [d[1]][1..] == [];
    assert EncodePair(d[1].key, d[1].value).Ok? <==> IsLatin1(message);
    SmallVarints(code);
    StatusPair(code);
    MessagePair(message);
    assert EncodeEntries([d[1]]).Ok? <==> IsLatin1(message);
  }

  lemma SmallVarints(code: int)
    requires IsDisconnectCode(code)
    ensures |Varint(0)| == |Varint(7)| == |Varint(11)| == |Varint(code)| == 1
  {
  }

  lemma StatusPair(code: int)
    requires IsDisconnectCode(code)
    ensures EncodePair("status-code", Int(code)).Ok?
    ensures |EncodePair("status-code", Int(code)).value| == 14
  {
  }

  lemma MessagePair(message: string)
    ensures EncodePair("message", Str(message)).Ok? <==> IsLatin1(message)
    ensures IsLatin1(message) ==>
              |EncodePair("message", Str(message)).value| == 9 + |Varint(|message|)| + |message|
  {
    hide Varint;
    SmallVarints(0);
  }

  /** However long the text, an error disconnect is at most 288 bytes; it can be sent exactly
      when what is kept of the text is latin-1 and the frame fits, so always from 288 on. */
  lemma DisconnectIsBounded(code: int, message: string, max: int)
    requires IsDisconnectCode(code)
    ensures var f := ErrorDisconnect(code, message);
            var kept := Truncate(message);
            var size := 30 + |Varint(|kept|)| + |kept|;
            && size <= 288
            && (EncodeFrame(f, max).Ok? <==> IsLatin1(kept) && size <= max)
            && (EncodeFrame(f, max).Ok? ==> |EncodeFrame(f, max).value| == 4 + size)
            && (IsLatin1(kept) && max >= 288 ==> EncodeFrame(f, max).Ok?)
  {
    hide EncodeBody, Varint, Threshold;
    var kept := Truncate(message);
    DisconnectSize(code, kept);
    VarintFits(|kept|, 2);
    assert Threshold(2) == 2288 by {
      ThresholdTwo();
    }
  }

  lemma ThresholdTwo()
    ensures Threshold(2) == 2288
  {
    assert TailLimit(1) == 128 + 128 * TailLimit(0);
  }

  /** The bound is reached. */
  lemma BoundIsTight(message: string)
    requires |message| >= 256 && IsLatin1(message)
    ensures EncodeFrame(ErrorDisconnect(PROTOCOL_ERROR, message), 288).Ok?
    ensures EncodeFrame(ErrorDisconnect(PROTOCOL_ERROR, message), 287) == Err(FrameTooBig)
  {
    hide EncodeBody, Varint;
    DisconnectIsBounded(PROTOCOL_ERROR, message, 288);
    DisconnectIsBounded(PROTOCOL_ERROR, message, 287);
    VarintFits(256, 1);
    assert Threshold(1) == 240 + 16 * TailLimit(0) == 240;
    DisconnectSize(PROTOCOL_ERROR, Truncate(message));
  }
}
