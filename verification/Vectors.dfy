/** Concrete bytes of the wire format: what the round trips alone would leave open, such as type
    codes, byte order and the place of each field. */
module Vectors {
  import opened Results
  import opened Bytes
  import opened Varints
  import opened DataTypes
  import opened Payloads
  import opened SpopLists
  import opened Frames

  predicate Yields(r: Result<bytes>, code: bytes) {
    r.Ok? && r.value == code
  }

  lemma VarintVectors()
    ensures Varint(0) == [0x00] && Varint(239) == [0xef]
    ensures Varint(240) == [0xf0, 0x00] && Varint(2287) == [0xff, 0x7f]
    ensures Varint(2288) == [0xf0, 0x80, 0x00] && Varint(264431) == [0xff, 0xff, 0x7f]
    ensures Varint(264432) == [0xf0, 0x80, 0x80, 0x00]
  {
    assert Tail(264432 / 16 - 15) == [0x80] + Tail(128);
  }

  lemma MetadataVectors()
    ensures Yields(EncodeMetadata(Metadata(Flags(true, false), 1, 1)), [0, 0, 0, 0x01, 0x01, 0x01])
    ensures Yields(EncodeMetadata(Metadata(Flags(false, true), 0, 0)), [0, 0, 0, 0x02, 0x00, 0x00])
    ensures Yields(EncodeMetadata(Metadata(Flags(true, true), 42, 100)), [0, 0, 0, 0x03, 0x2a, 0x64])
    ensures Yields(EncodeMetadata(Metadata(Flags(false, false), 239, 240)), [0, 0, 0, 0x00, 0xef, 0xf0, 0x00])
  {
    VarintVectors();
  }

  lemma ValueVectors()
    ensures Yields(EncodeValue(Null), [0x00])
    ensures Yields(EncodeValue(Bool(true)), [0x11]) && Yields(EncodeValue(Bool(false)), [0x01])
    ensures Yields(EncodeValue(Int(42)), [0x04, 0x2a])
    ensures Yields(EncodeValue(IPv4([10, 0, 0, 1])), [0x06, 10, 0, 0, 1])
    ensures Yields(EncodeValue(Str("ab")), [0x08, 0x02, 0x61, 0x62])
    ensures Yields(EncodeValue(Binary([0xff])), [0x09, 0x01, 0xff])
    ensures Yields(EncodeValue(IPv6([0x20, 0x01, 0x0d, 0xb8, 0, 0, 0, 0, 0, 0, 0, 0, 0, 0, 0, 1])),
                   [0x07, 0x20, 0x01, 0x0d, 0xb8, 0, 0, 0, 0, 0, 0, 0, 0, 0, 0, 0, 1])
  {
    assert ToLatin1("ab") == [0x61, 0x62];
  }

  /** The integer types an agent reads but writes only on demand. */
  lemma UnsignedVectors()
    ensures Yields(EncodeInt32(16380), [0x02, 0xfc, 0xf0, 0x06])
    ensures Yields(EncodeUint32(16380), [0x03, 0xfc, 0xf0, 0x06])
    ensures Yields(EncodeUint64(16380), [0x05, 0xfc, 0xf0, 0x06])
  {
    hide Varint;
    SizeVectors();
  }

  lemma IntegerVectors(tag: byte)
    requires 2 <= tag <= 5
    ensures DecodeValue([tag, 0xfc, 0xf0, 0x06], 0) == Ok((Int(16380), 4))
  {
    hide ParseVarint, Varint;
    SizeVectors();
    VarintRoundTrip(16380, [tag, 0xfc, 0xf0, 0x06], 1);
  }

  lemma SizeVectors()
    ensures Varint(16380) == [0xfc, 0xf0, 0x06] && Varint(4096) == [0xf0, 0xf1, 0x00]
  {
    assert Tail(1008) == [0xf0] + Tail(6);
    assert Tail(241) == [0xf1] + Tail(0);
  }

  /** A negative number travels as its two's complement. */
  lemma NegativeVectors()
    ensures Yields(EncodeInt32(-1), [0x02] + Varint(0xffff_ffff))
    ensures Yields(EncodeInt32(-TWO_TO_31), [0x02] + Varint(0x8000_0000))
    ensures Yields(EncodeInt64(-1), [0x04] + Varint(0xffff_ffff_ffff_ffff))
    ensures Yields(EncodeInt64(-TWO_TO_63), [0x04] + Varint(0x8000_0000_0000_0000))
  {
    hide Varint;
  }

  lemma Letter(c: char, s: string)
    requires s == [c] && c as int < 128
    ensures Yields(EncodeString(s), [1, c as int])
  {
    assert ToLatin1(s) == [c as int];
  }

  lemma ActionVectors()
    ensures Yields(EncodeAction(SetVar(Session, "x", Int(1))), [0x01, 0x03, 0x01, 0x01, 0x78, 0x04, 0x01])
    ensures Yields(EncodeAction(UnsetVar(Request, "b")), [0x02, 0x02, 0x03, 0x01, 0x62])
    ensures Yields(EncodeAction(UnsetVar(Process, "b")), [0x02, 0x02, 0x00, 0x01, 0x62])
    ensures Yields(EncodeAction(SetVar(Transaction, "x", Bool(true))), [0x01, 0x03, 0x02, 0x01, 0x78, 0x11])
    ensures Yields(EncodeAction(SetVar(Response, "x", Bool(false))), [0x01, 0x03, 0x04, 0x01, 0x78, 0x01])
  {
    Letter('x', "x");
    Letter('b', "b");
  }

  lemma MessageVector()
    ensures var args := [Entry("a", Int(1)), Entry("b", Bool(true))];
            && DistinctKeys(args)
            && Yields(EncodeMessage(Message("m", args)),
                      [0x01, 0x6d, 0x02, 0x01, 0x61, 0x04, 0x01, 0x01, 0x62, 0x11])
  {
    hide EncodeString;
    Letter('m', "m");
    Letter('a', "a");
    Letter('b', "b");
    var args := [Entry("a", Int(1)), Entry("b", Bool(true))];
    assert args[1..] == [Entry("b", Bool(true))] && args[1..][1..] == [];
  }

  lemma PrefixVectors()
    ensures BigEndian(14) == [0, 0, 0, 14] && BigEndian(0x0102_0304) == [1, 2, 3, 4]
  {
  }

  /** Whole frames, length prefix included. */
  lemma AckVector()
    ensures var f := Construct(1, 1, Ack([SetVar(Session, "x", Int(1))]));
            && Yields(EncodeFrame(f, 14), [0, 0, 0, 14, 103, 0, 0, 0, 1, 1, 1,
                                           0x01, 0x03, 0x01, 0x01, 0x78, 0x04, 0x01])
            && EncodeFrame(f, 13) == Err(FrameTooBig)
  {
    hide EncodeAction, EncodeMetadata, BigEndian;
    ActionVectors();
    MetadataVectors();
    PrefixVectors();
    var actions := [SetVar(Session, "x", Int(1))];
    assert actions[1..] == [];
    assert EncodeActions(actions).Ok? && EncodeActions(actions).value == EncodeAction(actions[0]).value + [];
  }

  lemma NotifyVector()
    ensures var f := Construct(1, 1, Notify([Message("m", [])]));
            Yields(EncodeBody(f), [3, 0, 0, 0, 1, 1, 1, 0x01, 0x6d, 0x00])
  {
    hide EncodeMetadata, EncodeString;
    MetadataVectors();
    Letter('m', "m");
    var messages := [Message("m", [])];
    assert messages[1..] == [];
  }

  // ----- frames made of key-value lists -----

  /** A short text on the wire: its length and its characters. */
  function Text(s: string): bytes
    requires |s| < 240 && forall i | 0 <= i < |s| :: s[i] as int < 256
  {
    [|s|] + seq(|s|, i requires 0 <= i < |s| => s[i] as int)
  }

  predicate Short(s: string) {
    |s| < 240 && forall i | 0 <= i < |s| :: s[i] as int < 256
  }

  lemma TextVector(s: string)
    requires Short(s)
    ensures Yields(EncodeString(s), Text(s))
  {
    assert ToLatin1(s) == Text(s)[1..];
  }

  lemma TextPair(key: string, s: string)
    requires Short(key) && Short(s)
    ensures Yields(EncodePair(key, Str(s)), Text(key) + ([8] + Text(s)))
  {
    hide EncodeString, Text;
    TextVector(key);
    TextVector(s);
  }

  lemma NumberPair(key: string, n: nat)
    requires Short(key) && n < TWO_TO_63
    ensures Yields(EncodePair(key, Int(n)), Text(key) + ([4] + Varint(n)))
  {
    hide EncodeString, Text, Varint;
    TextVector(key);
  }

  lemma FlagPair(key: string, b: bool)
    requires Short(key)
    ensures Yields(EncodePair(key, Bool(b)), Text(key) + [if b then 0x11 else 0x01])
  {
    hide EncodeString, Text;
    TextVector(key);
  }

  lemma OneItem(item: string)
    requires CleanItem(item)
    ensures ToList([item]) == item && FromList(item) == [item]
  {
    hide FromList, IsSpace;
    StripTrims(item);
    assert Stripped([item]) == [Strip(item)] + Stripped([]);
    ListSurvives([item]);
  }

  /** Items are joined and split by commas, without the blanks around them. */
  lemma ListVectors()
    ensures CleanItem("2.0") && CleanItem("pipelining")
    ensures ToList(["2.0"]) == "2.0" && ToList(["pipelining"]) == "pipelining"
    ensures FromList("2.0") == ["2.0"] && FromList("pipelining") == ["pipelining"]
    ensures ToList(["a", "b"]) == "a,b" && FromList("a,b") == ["a", "b"]
    ensures FromList("") == [] && ToList([]) == ""
  {
    hide ToList, FromList;
    CleanWords();
    OneItem("2.0");
    OneItem("pipelining");
    TwoItems();
  }

  /** The blanks of Python's `strip`: the controls and separators of ASCII, and those of Unicode. */
  lemma BlankVectors(c: char)
    ensures c in " \t\n\r" ==> IsSpace(c)
    ensures c as int < 128 && IsSpace(c) <==> c as int in {9, 10, 11, 12, 13, 28, 29, 30, 31, 32}
    ensures 128 <= c as int < 256 && IsSpace(c) <==> c as int in {0x85, 0xa0}
    ensures c as int >= 256 && IsSpace(c) <==> c as int in {0x1680, 0x2000, 0x2001, 0x2002, 0x2003, 0x2004, 0x2005,
                                                            0x2006, 0x2007, 0x2008, 0x2009, 0x200a, 0x2028, 0x2029,
                                                            0x202f, 0x205f, 0x3000}
  {
  }

  lemma CleanWords()
    ensures CleanItem("2.0") && CleanItem("pipelining")
  {
    var v, p := "2.0", "pipelining";
    assert |v| == 3 && |p| == 10;
    assert v[0] == '2' && v[2] == '0' && p[0] == 'p' && p[9] == 'g';
  }

  lemma TwoItems()
    ensures ToList(["a", "b"]) == "a,b" && FromList("a,b") == ["a", "b"]
    ensures FromList("") == [] && ToList([]) == ""
  {
    hide FromList;
    assert CleanItem("a") && CleanItem("b");
    StripTrims("a");
    StripTrims("b");
    assert Stripped(["a", "b"]) == ["a", "b"] by {
      assert ["a", "b"][1..] == ["b"] && ["b"][1..] == [];
    }
    assert Join(["a", "b"]) == "a" + "," + Join(["b"]) by {
      assert ["a", "b"][1..] == ["b"];
    }
    assert "a" + "," + "b" == "a,b";
    ListSurvives(["a", "b"]);
    ListSurvives([]);
  }
}
