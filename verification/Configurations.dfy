/** Per-connection negotiation (SPOE.txt v3.2.0, section 3.2.1). */
module Configurations {
  import opened Results
  import opened SpopLists

  const SPOE_VERSION := "2.0"
  const PIPELINING := "pipelining"

  /** Python's `int(text)`, None for a ValueError. Only its value on the agent's own
      version digits matters here. */
  type IntParser = string -> Option<int>

  predicate ReadsOwnVersion(toInt: IntParser) {
    toInt("2") == Some(2) && toInt("0") == Some(0)
  }

  /** `_parse_version`. */
  function ParseVersion(version: string, toInt: IntParser): Option<(int, int)> {
    var parts := Split(version, '.');
    if |parts| != 2 then None else
    match (toInt(parts[0]), toInt(parts[1]))
    case (Some(major), Some(minor)) => Some((major, minor))
    case _ => None
  }

  lemma OwnVersion(toInt: IntParser)
    requires ReadsOwnVersion(toInt)
    ensures ParseVersion(SPOE_VERSION, toInt) == Some((2, 0))
  {
    assert SPOE_VERSION == "2" + ['.'] + "0";
    SplitConcat("2", "0", '.');
    SplitNone("2", '.');
    SplitNone("0", '.');
  }

  /** A version HAProxy supports that the agent can speak: major 2, minor 0 or later. */
  predicate Speaks(version: string, toInt: IntParser) {
    var v := ParseVersion(version, toInt);
    v.Some? && v.value.0 == 2 && v.value.1 >= 0
  }

  predicate SpeaksAny(versions: seq<string>, toInt: IntParser) {
    exists i | 0 <= i < |versions| :: Speaks(versions[i], toInt)
  }

  /** Two pieces are what stands before and behind the one separator. */
  lemma {:induction false} SplitTwo(s: string, sep: char)
    requires |Split(s, sep)| == 2
    ensures s == Split(s, sep)[0] + [sep] + Split(s, sep)[1]
  {
    var rest := Split(s[1..], sep);
    if s[0] == sep {
      SplitPieces(s[1..], sep, 0);
    } else {
      SplitTwo(s[1..], sep);
    }
    assert s == [s[0]] + s[1..];
  }

  /** A version the agent can speak is "2.<minor>" with a minor number of 0 or more, as `int` reads
      the two parts. */
  lemma SpeaksExactly(version: string, toInt: IntParser)
    ensures Speaks(version, toInt) <==>
            exists major: string, minor: string ::
              && version == major + "." + minor && '.' !in major && '.' !in minor
              && toInt(major) == Some(2)
              && toInt(minor).Some? && toInt(minor).value >= 0
  {
    var parts := Split(version, '.');
    if Speaks(version, toInt) {
      SplitTwo(version, '.');
      SplitPieces(version, '.', 0);
      SplitPieces(version, '.', 1);
      assert version == parts[0] + "." + parts[1];
    }
    forall major: string, minor: string | version == major + "." + minor && '.' !in major && '.' !in minor
      ensures ParseVersion(version, toInt) == match (toInt(major), toInt(minor))
                                              case (Some(a), Some(b)) => Some((a, b))
                                              case _ => None
    {
      SplitConcat(major, minor, '.');
      SplitNone(major, '.');
      SplitNone(minor, '.');
    }
  }

  /** The negotiated settings. */
  datatype Negotiated = Negotiated(compatible: bool, maxFrameSize: int, capabilities: seq<string>)

  function Min(a: int, b: int): int {
    if a < b then a else b
  }

  /** What negotiation promises, independently of the order its three steps run in. */
  function Outcome(agentMax: int, versions: seq<string>, haMax: int, haCapabilities: seq<string>,
                   toInt: IntParser): (n: Negotiated)
    ensures n.maxFrameSize <= haMax && n.maxFrameSize <= agentMax
    ensures n.compatible ==> 0 < n.maxFrameSize
    ensures PIPELINING in n.capabilities <==> PIPELINING in haCapabilities
    ensures Clean(n.capabilities)
  {
    PipeliningIsClean();
    Negotiated(SpeaksAny(versions, toInt) && 0 < haMax && 0 < agentMax,
               Min(haMax, agentMax),
               if PIPELINING in haCapabilities then [PIPELINING] else [])
  }

  lemma PipeliningIsClean()
    ensures CleanItem(PIPELINING)
  {
    var p := PIPELINING;
    assert |p| == 10 && !IsSpace(p[0]) && !IsSpace(p[9]);
  }

  /** `ServerConfiguration`: negotiation overwrites the fields in place. */
  class ServerConfiguration {
    var serverCompatible: bool
    var maxFrameSize: int
    var maxConcurrentFrames: int
    var capabilities: seq<string>

    constructor (maxFrameSize: int, maxConcurrentFrames: int)
      ensures this.maxFrameSize == maxFrameSize && this.maxConcurrentFrames == maxConcurrentFrames
      ensures serverCompatible && capabilities == []
    {
      this.maxFrameSize := maxFrameSize;
      this.maxConcurrentFrames := maxConcurrentFrames;
      serverCompatible := true;
      capabilities := [];
    }

    method CheckVersionCompatibility(haVersions: seq<string>, toInt: IntParser)
      requires ReadsOwnVersion(toInt)
      modifies this`serverCompatible
      ensures serverCompatible == SpeaksAny(haVersions, toInt)
    {
      OwnVersion(toInt);
      var own := ParseVersion(SPOE_VERSION, toInt).value;
      for i := 0 to |haVersions|
        invariant !SpeaksAny(haVersions[..i], toInt)
      {
        assert haVersions[..i + 1] == haVersions[..i] + [haVersions[i]];
        var parsed := ParseVersion(haVersions[i], toInt);
        if parsed.Some? && own.0 == parsed.value.0 && own.1 <= parsed.value.1 {
          assert Speaks(haVersions[i], toInt);
          serverCompatible := true;
          return;
        }
        forall k | 0 <= k < i
          ensures !Speaks(haVersions[k], toInt)
        {
          assert haVersions[..i][k] == haVersions[k];
        }
        assert !SpeaksAny(haVersions[..i + 1], toInt);
      }
      assert haVersions[..|haVersions|] == haVersions;
      serverCompatible := false;
    }

    method FindMaxFrameSize(haMaxFrameSize: int)
      modifies this`maxFrameSize, this`serverCompatible
      ensures maxFrameSize == Min(haMaxFrameSize, old(maxFrameSize))
      ensures serverCompatible == (old(serverCompatible) && 0 < maxFrameSize)
    {
      maxFrameSize := Min(haMaxFrameSize, maxFrameSize);
      if maxFrameSize <= 0 {
        serverCompatible := false;
      }
    }

    method FindCommonCapabilities(haCapabilities: seq<string>)
      modifies this`capabilities
      ensures capabilities == if PIPELINING in haCapabilities then [PIPELINING] else []
    {
      capabilities := [];
      if PIPELINING in haCapabilities {
        capabilities := [PIPELINING];
      }
    }

    method NegotiateServerCompatibility(versions: seq<string>, haMaxFrameSize: int,
                                        haCapabilities: seq<string>, toInt: IntParser)
      requires ReadsOwnVersion(toInt)
      modifies this
      ensures Negotiated(serverCompatible, maxFrameSize, capabilities)
              == Outcome(old(maxFrameSize), versions, haMaxFrameSize, haCapabilities, toInt)
      ensures maxConcurrentFrames == old(maxConcurrentFrames)
    {
      CheckVersionCompatibility(versions, toInt);
      FindMaxFrameSize(haMaxFrameSize);
      FindCommonCapabilities(haCapabilities);
    }
  }
}
