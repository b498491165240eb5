/** The SPOP variable-length integer (SPOE.txt v3.2.0, section 3.1). */
module Varints {
  import opened Results
  import opened Bytes

  /** The bytes after the first one of a long varint. */
  function Tail(v: nat): (b: bytes)
    ensures |b| > 0
  {
    if v < 128 then [v] else [128 + v % 128] + Tail((v - 128) / 128)
  }

  function Varint(n: nat): (b: bytes)
    ensures |b| > 0
  {
    if n < 240 then [n] else [240 + n % 16] + Tail((n - 240) / 16)
  }

  function EncodeVarint(val: int): (r: Result<bytes>)
    ensures r.Ok? <==> 0 <= val
  {
    if val < 0 then Err(EncodeError) else Ok(Varint(val))
  }

  function ParseTail(buf: bytes, offset: nat): (r: Result<(nat, nat)>)
    ensures r.Ok? ==> offset < r.value.1 <= |buf|
    ensures r.Err? ==> r.error == DecodeError
    decreases |buf| - offset
  {
    if offset >= |buf| then Err(DecodeError)
    else if buf[offset] < 128 then Ok((buf[offset], offset + 1))
    else
      var (v, end) :- ParseTail(buf, offset + 1);
      Ok((buf[offset] + 128 * v, end))
  }

  function ParseVarint(buf: bytes, offset: nat): (r: Result<(nat, nat)>)
    ensures r.Ok? ==> offset < r.value.1 <= |buf|
    ensures r.Err? ==> r.error == DecodeError
  {
    if offset >= |buf| then Err(DecodeError)
    else if buf[offset] < 240 then Ok((buf[offset], offset + 1))
    else
      var (v, end) :- ParseTail(buf, offset + 1);
      Ok((buf[offset] + 16 * v, end))
  }

  // ----- the bijection -----

  lemma {:induction false} TailRoundTrip(v: nat, buf: bytes, offset: nat)
    requires At(buf, offset, Tail(v))
    ensures ParseTail(buf, offset) == Ok((v, offset + |Tail(v)|))
    decreases v
  {
    if v < 128 {
      AtHead(buf, offset, v, []);
    } else {
      AtHead(buf, offset, 128 + v % 128, Tail((v - 128) / 128));
      TailRoundTrip((v - 128) / 128, buf, offset + 1);
    }
  }

  /** Reading back what was composed, wherever it stands in the buffer. */
  lemma VarintRoundTrip(n: nat, buf: bytes, offset: nat)
    requires At(buf, offset, Varint(n))
    ensures ParseVarint(buf, offset) == Ok((n, offset + |Varint(n)|))
  {
    if n < 240 {
      AtHead(buf, offset, n, []);
    } else {
      AtHead(buf, offset, 240 + n % 16, Tail((n - 240) / 16));
      TailRoundTrip((n - 240) / 16, buf, offset + 1);
    }
  }

  lemma {:induction false} TailCanonical(buf: bytes, offset: nat)
    requires ParseTail(buf, offset).Ok?
    ensures var (v, end) := ParseTail(buf, offset).value; buf[offset..end] == Tail(v)
    decreases |buf| - offset
  {
    if buf[offset] >= 128 {
      TailCanonical(buf, offset + 1);
      var (v, end) := ParseTail(buf, offset + 1).value;
      assert buf[offset..end] == [buf[offset]] + buf[offset + 1..end];
    }
  }

  /** Whatever the parser accepts is the composed form of what it returns: there is
      no second encoding of a number. */
  lemma VarintCanonical(buf: bytes, offset: nat)
    requires ParseVarint(buf, offset).Ok?
    ensures var (n, end) := ParseVarint(buf, offset).value; buf[offset..end] == Varint(n)
  {
    if buf[offset] >= 240 {
      TailCanonical(buf, offset + 1);
      var (v, end) := ParseTail(buf, offset + 1).value;
      assert buf[offset..end] == [buf[offset]] + buf[offset + 1..end];
    }
  }

  lemma VarintInjective(m: nat, n: nat)
    ensures Varint(m) == Varint(n) ==> m == n
  {
    VarintRoundTrip(m, Varint(m), 0);
    VarintRoundTrip(n, Varint(n), 0);
  }

  // ----- lengths -----

  /** 128 + 128^2 + ... + 128^k. */
  function TailLimit(k: nat): nat {
    if k == 0 then 0 else 128 + 128 * TailLimit(k - 1)
  }

  /** The first number that needs more than `k` bytes: 240, 2288, 264432, ... */
  function Threshold(k: nat): nat
    requires k >= 1
  {
    240 + 16 * TailLimit(k - 1)
  }

  lemma {:induction false} TailLength(v: nat, k: nat)
    ensures |Tail(v)| <= k <==> v < TailLimit(k)
    decreases v
  {
    if k > 0 && v >= 128 {
      TailLength((v - 128) / 128, k - 1);
      assert (v - 128) / 128 < TailLimit(k - 1) <==> v - 128 < 128 * TailLimit(k - 1);
    }
  }

  lemma VarintFits(n: nat, k: nat)
    requires k >= 1
    ensures |Varint(n)| <= k <==> n < Threshold(k)
  {
    if n >= 240 {
      TailLength((n - 240) / 16, k - 1);
      assert (n - 240) / 16 < TailLimit(k - 1) <==> n - 240 < 16 * TailLimit(k - 1);
    }
  }

  /** The documented size table, for every size. */
  lemma VarintLength(n: nat, k: nat)
    requires k >= 1
    ensures |Varint(n)| == k <==> (k == 1 || Threshold(k - 1) <= n) && n < Threshold(k)
  {
    VarintFits(n, k);
    if k > 1 {
      VarintFits(n, k - 1);
    }
  }

  lemma VarintLengthMonotone(m: nat, n: nat)
    requires m <= n
    ensures |Varint(m)| <= |Varint(n)|
  {
    VarintFits(n, |Varint(n)|);
    VarintFits(m, |Varint(n)|);
  }

  lemma Varint64Length(n: nat)
    requires n < 0x1_0000_0000_0000_0000
    ensures |Varint(n)| <= 10
  {
    VarintFits(n, 10);
    assert TailLimit(0) == 0;
    assert TailLimit(1) == 128;
    assert TailLimit(2) == 128 + 128 * 128;
    assert TailLimit(3) == 128 + 128 * TailLimit(2);
    assert TailLimit(4) == 128 + 128 * TailLimit(3);
    assert TailLimit(5) == 128 + 128 * TailLimit(4);
    assert TailLimit(6) == 128 + 128 * TailLimit(5);
    assert TailLimit(7) == 128 + 128 * TailLimit(6);
    assert TailLimit(8) == 128 + 128 * TailLimit(7);
    assert TailLimit(9) == 128 + 128 * TailLimit(8);
  }

  // ----- the loops of the source -----

  method ComposeVarint(n: int) returns (r: Result<bytes>)
    ensures r == EncodeVarint(n)
  {
    if n < 0 {
      return Err(EncodeError);
    }
    if n < 240 {
      return Ok([n]);
    }
    var out: bytes := [240 + n % 16];
    var val := (n - 240) / 16;
    while val >= 128
      invariant val >= 0
      invariant out + Tail(val) == Varint(n)
    {
      ghost var before := out;
      out := out + [128 + val % 128];
      assert out + Tail((val - 128) / 128) == before + Tail(val);
      val := (val - 128) / 128;
    }
    out := out + [val];
    return Ok(out);
  }

  function Pow2(k: nat): nat {
    if k == 0 then 1 else 2 * Pow2(k - 1)
  }

  lemma Pow2Step(k: nat)
    ensures Pow2(k + 7) == 128 * Pow2(k)
  {
    assert Pow2(k + 7) == 2 * Pow2(k + 6) == 4 * Pow2(k + 5) == 8 * Pow2(k + 4);
    assert Pow2(k + 4) == 2 * Pow2(k + 3) == 4 * Pow2(k + 2) == 8 * Pow2(k + 1);
  }

  /** What is still to be added to a partial sum: the tail, moved left by the shift. */
  function Scaled(tail: Result<(nat, nat)>, value: nat, weight: nat): Result<(nat, nat)> {
    match tail
    case Ok((v, end)) => Ok((value + v * weight, end))
    case Err(e) => Err(e)
  }

  method ParseVarintLoop(buf: bytes, start: nat) returns (r: Result<(nat, nat)>)
    ensures r == ParseVarint(buf, start)
  {
    if start >= |buf| {
      return Err(DecodeError);
    }
    var firstByte := buf[start];
    if firstByte < 240 {
      return Ok((firstByte, start + 1));
    }
    var value: nat := firstByte;
    var shift: nat := 4;
    var offset := start;
    assert Pow2(4) == 2 * Pow2(3) == 4 * Pow2(2) == 8 * Pow2(1);
    while true
      invariant start <= offset < |buf|
      invariant ParseVarint(buf, start) == Scaled(ParseTail(buf, offset + 1), value, Pow2(shift))
      decreases |buf| - offset
    {
      offset := offset + 1;
      if offset >= |buf| {
        return Err(DecodeError);
      }
      var nextByte := buf[offset];
      ghost var weight := Pow2(shift);
      ghost var partial := value;
      value := value + nextByte * Pow2(shift);
      if nextByte < 128 {
        return Ok((value, offset + 1));
      }
      Pow2Step(shift);
      ScaledStep(ParseTail(buf, offset + 1), partial, weight, nextByte);
      shift := shift + 7;
    }
  }

  lemma ScaledStep(rest: Result<(nat, nat)>, value: nat, weight: nat, b: byte)
    ensures rest.Ok? ==>
              Scaled(rest, value + b * weight, 128 * weight)
              == Scaled(Ok((b + 128 * rest.value.0, rest.value.1)), value, weight)
    ensures rest.Err? ==> Scaled(rest, value + b * weight, 128 * weight) == Scaled(rest, value, weight)
  {
    if rest.Ok? {
      var v := rest.value.0;
      assert (b + 128 * v) * weight == b * weight + v * (128 * weight);
    }
  }
}
