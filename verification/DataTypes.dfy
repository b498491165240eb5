/** SPOP typed data (SPOE.txt v3.2.0, section 3.1): strings, binaries and tagged values. */
module DataTypes {
  import opened Results
  import opened Bytes
  import opened Varints

  const TWO_TO_31 := 0x8000_0000
  const TWO_TO_32 := 0x1_0000_0000
  const TWO_TO_63 := 0x8000_0000_0000_0000
  const TWO_TO_64 := 0x1_0000_0000_0000_0000

  const TYPE_NULL: byte := 0
  const TYPE_BOOL: byte := 1
  const TYPE_INT32: byte := 2
  const TYPE_UINT32: byte := 3
  const TYPE_INT64: byte := 4
  const TYPE_UINT64: byte := 5
  const TYPE_IPV4: byte := 6
  const TYPE_IPV6: byte := 7
  const TYPE_STRING: byte := 8
  const TYPE_BINARY: byte := 9
  const FLAG_TRUE: byte := 0x10

  type Ip4 = b: bytes | |b| == 4 witness [0, 0, 0, 0]
  type Ip6 = b: bytes | |b| == 16 witness [0, 0, 0, 0, 0, 0, 0, 0, 0, 0, 0, 0, 0, 0, 0, 0]

  /** The Python values a typed field can hold. */
  datatype Value =
    | Null
    | Bool(b: bool)
    | Int(n: int)
    | IPv4(ip4: Ip4)
    | IPv6(ip6: Ip6)
    | Str(s: string)
    | Binary(data: bytes)

  // ----- latin-1 -----

  predicate IsLatin1(s: string) {
    forall i | 0 <= i < |s| :: s[i] as int < 256
  }

  function ToLatin1(s: string): (b: bytes)
    requires IsLatin1(s)
  {
    seq(|s|, i requires 0 <= i < |s| => s[i] as int)
  }

  function FromLatin1(b: bytes): (s: string)
    ensures |s| == |b| && IsLatin1(s) && ToLatin1(s) == b
  {
    seq(|b|, i requires 0 <= i < |b| => b[i] as char)
  }

  lemma Latin1RoundTrip(s: string)
    requires IsLatin1(s)
    ensures FromLatin1(ToLatin1(s)) == s
  {
    assert forall i | 0 <= i < |s| :: FromLatin1(ToLatin1(s))[i] == s[i];
  }

  // ----- encoders -----

  function EncodeBinary(data: bytes): bytes {
    Varint(|data|) + data
  }

  function EncodeString(s: string): (r: Result<bytes>)
    ensures r.Ok? <==> IsLatin1(s)
    ensures r.Err? ==> r.error == EncodeError
  {
    if IsLatin1(s) then Ok(EncodeBinary(ToLatin1(s))) else Err(EncodeError)
  }

  function EncodeInt32(val: int): Result<bytes> {
    if -TWO_TO_31 <= val < TWO_TO_31 then Ok([TYPE_INT32] + Varint(val % TWO_TO_32)) else Err(EncodeError)
  }

  function EncodeInt64(val: int): Result<bytes> {
    if -TWO_TO_63 <= val < TWO_TO_63 then Ok([TYPE_INT64] + Varint(val % TWO_TO_64)) else Err(EncodeError)
  }

  function EncodeUint32(val: int): Result<bytes> {
    if 0 <= val < TWO_TO_32 then Ok([TYPE_UINT32] + Varint(val)) else Err(EncodeError)
  }

  function EncodeUint64(val: int): Result<bytes> {
    if 0 <= val < TWO_TO_64 then Ok([TYPE_UINT64] + Varint(val)) else Err(EncodeError)
  }

  /** `auto_encode_dt_var`: every Python int goes out as INT64. */
  function EncodeValue(v: Value): (r: Result<bytes>)
    ensures r.Ok? ==> |r.value| > 0
    ensures r.Err? ==> r.error == EncodeError
  {
    match v
    case Null => Ok([TYPE_NULL])
    case Bool(b) => Ok([if b then FLAG_TRUE + TYPE_BOOL else TYPE_BOOL])
    case Int(n) => EncodeInt64(n)
    case IPv4(ip) => Ok([TYPE_IPV4] + ip)
    case IPv6(ip) => Ok([TYPE_IPV6] + ip)
    case Str(s) =>
      var body :- EncodeString(s);
      Ok([TYPE_STRING] + body)
    case Binary(data) => Ok([TYPE_BINARY] + EncodeBinary(data))
  }

  /** What a value must satisfy to have a typed encoding. */
  predicate Encodable(v: Value) {
    match v
    case Int(n) => -TWO_TO_63 <= n < TWO_TO_63
    case Str(s) => IsLatin1(s)
    case _ => true
  }

  // ----- decoders -----

  /** `ctypes.c_intN(v).value` for a width with `modulus` values. */
  function Signed(v: int, modulus: nat): (n: int)
    requires modulus > 0 && modulus % 2 == 0
    ensures -(modulus / 2) <= n < modulus / 2
    ensures (n - v) % modulus == 0
  {
    var u := v % modulus;
    SignedCongruent(v, modulus);
    if u < modulus / 2 then u else u - modulus
  }

  lemma SignedCongruent(v: int, modulus: nat)
    requires modulus > 0
    ensures (v % modulus - v) % modulus == 0
    ensures (v % modulus - modulus - v) % modulus == 0
  {
    var q := v / modulus;
    assert v % modulus - v == -q * modulus;
    QuotientRemainder(v % modulus - v, modulus, -q, 0);
    assert v % modulus - modulus - v == (-q - 1) * modulus;
    QuotientRemainder(v % modulus - modulus - v, modulus, -q - 1, 0);
  }

  lemma MultipleOutside(q: int, m: nat)
    ensures q >= 1 ==> q * m >= m
    ensures q <= -1 ==> q * m <= 0 - m
  {
  }

  lemma QuotientRemainder(n: int, m: nat, q: int, r: nat)
    requires m > 0 && r < m && n == q * m + r
    ensures n / m == q && n % m == r
  {
    assert (n / m - q) * m == r - n % m;
    MultipleOutside(n / m - q, m);
  }

  function DecodeTinyInt(buf: bytes, offset: nat): (r: Result<(byte, nat)>)
    ensures r.Ok? ==> offset < r.value.1 <= |buf|
    ensures r.Err? ==> r.error == DecodeError
  {
    if offset >= |buf| then Err(DecodeError) else Ok((buf[offset], offset + 1))
  }

  function DecodeInt32(buf: bytes, offset: nat): (r: Result<(int, nat)>)
    ensures r.Ok? ==> offset < r.value.1 <= |buf|
    ensures r.Err? ==> r.error == DecodeError
  {
    var (v, end) :- ParseVarint(buf, offset);
    Ok((Signed(v, TWO_TO_32), end))
  }

  function DecodeInt64(buf: bytes, offset: nat): (r: Result<(int, nat)>)
    ensures r.Ok? ==> offset < r.value.1 <= |buf|
    ensures r.Err? ==> r.error == DecodeError
  {
    var (v, end) :- ParseVarint(buf, offset);
    Ok((Signed(v, TWO_TO_64), end))
  }

  function DecodeUint32(buf: bytes, offset: nat): (r: Result<(int, nat)>)
    ensures r.Ok? ==> offset < r.value.1 <= |buf|
    ensures r.Err? ==> r.error == DecodeError
  {
    var (v, end) :- ParseVarint(buf, offset);
    Ok((v % TWO_TO_32, end))
  }

  function DecodeUint64(buf: bytes, offset: nat): (r: Result<(int, nat)>)
    ensures r.Ok? ==> offset < r.value.1 <= |buf|
    ensures r.Err? ==> r.error == DecodeError
  {
    var (v, end) :- ParseVarint(buf, offset);
    Ok((v % TWO_TO_64, end))
  }

  /** A boolean lives in the high nibble of its own type byte. */
  function DecodeBool(buf: bytes, offset: nat): (r: Result<(bool, nat)>)
    ensures r.Ok? ==> offset < r.value.1 <= |buf|
    ensures r.Err? ==> r.error == DecodeError
  {
    if offset >= |buf| then Err(DecodeError) else Ok((buf[offset] / 16 == 1, offset + 1))
  }

  /** The fixed-width reads of `decode_ipv4` and `decode_ipv6`. */
  function DecodeFixed(buf: bytes, offset: nat, width: nat): (r: Result<(bytes, nat)>)
    ensures r.Ok? ==> r.value.1 == offset + width <= |buf| && r.value.0 == buf[offset..offset + width]
    ensures r.Err? ==> r.error == DecodeError
  {
    if |buf| < offset + width then Err(DecodeError) else Ok((buf[offset..offset + width], offset + width))
  }

  function DecodeBinary(buf: bytes, offset: nat): (r: Result<(bytes, nat)>)
    ensures r.Ok? ==> offset < r.value.1 <= |buf|
    ensures r.Err? ==> r.error == DecodeError
  {
    var (len, start) :- ParseVarint(buf, offset);
    if |buf| < start + len then Err(DecodeError) else Ok((buf[start..start + len], start + len))
  }

  function DecodeString(buf: bytes, offset: nat): (r: Result<(string, nat)>)
    ensures r.Ok? ==> offset < r.value.1 <= |buf|
    ensures r.Err? ==> r.error == DecodeError
  {
    var (data, end) :- DecodeBinary(buf, offset);
    Ok((FromLatin1(data), end))
  }

  /** `auto_decode_var`. */
  function DecodeValue(buf: bytes, offset: nat): (r: Result<(Value, nat)>)
    ensures r.Ok? ==> offset < r.value.1 <= |buf|
    ensures r.Err? ==> r.error == DecodeError
  {
    if |buf| < offset + 1 then Err(DecodeError) else
    var tag := buf[offset] % 16;
    var start := offset + 1;
    if tag == TYPE_NULL then Ok((Null, start))
    else if tag == TYPE_BOOL then
      var (b, end) := DecodeBool(buf, offset).value;
      Ok((Bool(b), end))
    else if tag == TYPE_INT32 then
      var (n, end) :- DecodeInt32(buf, start);
      Ok((Int(n), end))
    else if tag == TYPE_UINT32 then
      var (n, end) :- DecodeUint32(buf, start);
      Ok((Int(n), end))
    else if tag == TYPE_INT64 then
      var (n, end) :- DecodeInt64(buf, start);
      Ok((Int(n), end))
    else if tag == TYPE_UINT64 then
      var (n, end) :- DecodeUint64(buf, start);
      Ok((Int(n), end))
    else if tag == TYPE_IPV4 then
      var (ip, end) :- DecodeFixed(buf, start, 4);
      Ok((IPv4(ip), end))
    else if tag == TYPE_IPV6 then
      var (ip, end) :- DecodeFixed(buf, start, 16);
      Ok((IPv6(ip), end))
    else if tag == TYPE_STRING then
      var (s, end) :- DecodeString(buf, start);
      Ok((Str(s), end))
    else if tag == TYPE_BINARY then
      var (data, end) :- DecodeBinary(buf, start);
      Ok((Binary(data), end))
    else Err(DecodeError)
  }

  // ----- round trips -----

  lemma BinaryRoundTrip(data: bytes, buf: bytes, offset: nat)
    requires At(buf, offset, EncodeBinary(data))
    ensures DecodeBinary(buf, offset) == Ok((data, offset + |EncodeBinary(data)|))
  {
    AtSplit(buf, offset, Varint(|data|), data);
    VarintRoundTrip(|data|, buf, offset);
  }

  lemma StringRoundTrip(s: string, buf: bytes, offset: nat)
    requires IsLatin1(s)
    requires At(buf, offset, EncodeString(s).value)
    ensures DecodeString(buf, offset) == Ok((s, offset + |EncodeString(s).value|))
  {
    BinaryRoundTrip(ToLatin1(s), buf, offset);
    Latin1RoundTrip(s);
  }

  /** The range of each width is exactly where decoding inverts reduction. */
  lemma SignedIdentity(n: int, modulus: nat)
    requires modulus > 0 && modulus % 2 == 0
    ensures Signed(n, modulus) == n <==> -(modulus / 2) <= n < modulus / 2
    ensures Signed(n % modulus, modulus) == Signed(n, modulus)
  {
    QuotientRemainder(n % modulus, modulus, 0, n % modulus);
    if 0 <= n < modulus / 2 {
      QuotientRemainder(n, modulus, 0, n);
    } else if -(modulus / 2) <= n < 0 {
      QuotientRemainder(n, modulus, -1, n + modulus);
    }
  }

  /** Two numbers of one window of `modulus` that are congruent are equal. */
  lemma CongruentUnique(a: int, b: int, modulus: nat, low: int)
    requires modulus > 0
    requires low <= a < low + modulus && low <= b < low + modulus
    requires (a - b) % modulus == 0
    ensures a == b
  {
    var q := (a - b) / modulus;
    assert a - b == q * modulus;
    MultipleOutside(q, modulus);
  }

  lemma AtVarint(tag: byte, v: nat, buf: bytes, offset: nat)
    requires At(buf, offset, [tag] + Varint(v))
    ensures offset < |buf| && buf[offset] == tag
    ensures ParseVarint(buf, offset + 1) == Ok((v, offset + |[tag] + Varint(v)|))
  {
    AtHead(buf, offset, tag, Varint(v));
    VarintRoundTrip(v, buf, offset + 1);
  }

  lemma TaggedInt32(buf: bytes, offset: nat)
    requires offset < |buf| && buf[offset] == TYPE_INT32 && DecodeInt32(buf, offset + 1).Ok?
    ensures var (n, end) := DecodeInt32(buf, offset + 1).value;
            DecodeValue(buf, offset) == Ok((Int(n), end))
  {
  }

  lemma TaggedUint32(buf: bytes, offset: nat)
    requires offset < |buf| && buf[offset] == TYPE_UINT32 && DecodeUint32(buf, offset + 1).Ok?
    ensures var (n, end) := DecodeUint32(buf, offset + 1).value;
            DecodeValue(buf, offset) == Ok((Int(n), end))
  {
  }

  lemma TaggedInt64(buf: bytes, offset: nat)
    requires offset < |buf| && buf[offset] == TYPE_INT64 && DecodeInt64(buf, offset + 1).Ok?
    ensures var (n, end) := DecodeInt64(buf, offset + 1).value;
            DecodeValue(buf, offset) == Ok((Int(n), end))
  {
  }

  lemma TaggedUint64(buf: bytes, offset: nat)
    requires offset < |buf| && buf[offset] == TYPE_UINT64 && DecodeUint64(buf, offset + 1).Ok?
    ensures var (n, end) := DecodeUint64(buf, offset + 1).value;
            DecodeValue(buf, offset) == Ok((Int(n), end))
  {
  }

  lemma Int32RoundTrip(n: int, buf: bytes, offset: nat)
    requires EncodeInt32(n).Ok? && At(buf, offset, EncodeInt32(n).value)
    ensures DecodeValue(buf, offset) == Ok((Int(n), offset + |EncodeInt32(n).value|))
  {
    SignedIdentity(n, TWO_TO_32);
    AtVarint(TYPE_INT32, n % TWO_TO_32, buf, offset);
    TaggedInt32(buf, offset);
  }

  lemma Uint32RoundTrip(n: int, buf: bytes, offset: nat)
    requires EncodeUint32(n).Ok? && At(buf, offset, EncodeUint32(n).value)
    ensures DecodeValue(buf, offset) == Ok((Int(n), offset + |EncodeUint32(n).value|))
  {
    AtVarint(TYPE_UINT32, n, buf, offset);
    TaggedUint32(buf, offset);
  }

  lemma Int64RoundTrip(n: int, buf: bytes, offset: nat)
    requires EncodeInt64(n).Ok? && At(buf, offset, EncodeInt64(n).value)
    ensures DecodeValue(buf, offset) == Ok((Int(n), offset + |EncodeInt64(n).value|))
  {
    SignedIdentity(n, TWO_TO_64);
    AtVarint(TYPE_INT64, n % TWO_TO_64, buf, offset);
    TaggedInt64(buf, offset);
  }

  lemma Uint64RoundTrip(n: int, buf: bytes, offset: nat)
    requires EncodeUint64(n).Ok? && At(buf, offset, EncodeUint64(n).value)
    ensures DecodeValue(buf, offset) == Ok((Int(n), offset + |EncodeUint64(n).value|))
  {
    AtVarint(TYPE_UINT64, n, buf, offset);
    TaggedUint64(buf, offset);
  }

  /** Whatever varint stands there, the decoded integer is the only one in the range of
      its type that is congruent to it. */
  lemma TypedIntUnique(buf: bytes, offset: nat, m: int)
    requires ParseVarint(buf, offset).Ok?
    ensures var v := ParseVarint(buf, offset).value.0;
            && (-TWO_TO_31 <= m < TWO_TO_31 && (m - v) % TWO_TO_32 == 0
                <==> m == DecodeInt32(buf, offset).value.0)
            && (0 <= m < TWO_TO_32 && (m - v) % TWO_TO_32 == 0
                <==> m == DecodeUint32(buf, offset).value.0)
            && (-TWO_TO_63 <= m < TWO_TO_63 && (m - v) % TWO_TO_64 == 0
                <==> m == DecodeInt64(buf, offset).value.0)
            && (0 <= m < TWO_TO_64 && (m - v) % TWO_TO_64 == 0
                <==> m == DecodeUint64(buf, offset).value.0)
  {
    hide ParseVarint;
    var v := ParseVarint(buf, offset).value.0;
    Residue(m, v, TWO_TO_32, -TWO_TO_31, Signed(v, TWO_TO_32));
    Residue(m, v, TWO_TO_64, -TWO_TO_63, Signed(v, TWO_TO_64));
    SignedCongruent(v, TWO_TO_32);
    SignedCongruent(v, TWO_TO_64);
    Residue(m, v, TWO_TO_32, 0, v % TWO_TO_32);
    Residue(m, v, TWO_TO_64, 0, v % TWO_TO_64);
  }

  lemma Residue(m: int, v: int, modulus: nat, low: int, r: int)
    requires modulus > 0
    requires low <= r < low + modulus && (r - v) % modulus == 0
    ensures low <= m < low + modulus && (m - v) % modulus == 0 <==> m == r
  {
    if low <= m < low + modulus && (m - v) % modulus == 0 {
      var a, b := (m - v) / modulus, (r - v) / modulus;
      assert m - r == (a - b) * modulus;
      QuotientRemainder(m - r, modulus, a - b, 0);
      CongruentUnique(m, r, modulus, low);
    }
  }

  lemma TagOnlyRoundTrip(v: Value, buf: bytes, offset: nat)
    requires v.Null? || v.Bool?
    requires At(buf, offset, EncodeValue(v).value)
    ensures DecodeValue(buf, offset) == Ok((v, offset + 1))
  {
    var tag := EncodeValue(v).value[0];
    assert EncodeValue(v).value == [tag] + [];
    AtHead(buf, offset, tag, []);
  }

  lemma AddressRoundTrip(v: Value, buf: bytes, offset: nat)
    requires v.IPv4? || v.IPv6?
    requires At(buf, offset, EncodeValue(v).value)
    ensures DecodeValue(buf, offset) == Ok((v, offset + |EncodeValue(v).value|))
  {
    AtHead(buf, offset, if v.IPv4? then TYPE_IPV4 else TYPE_IPV6, if v.IPv4? then v.ip4 else v.ip6);
  }

  lemma ValueRoundTrip(v: Value, buf: bytes, offset: nat)
    requires EncodeValue(v).Ok?
    requires At(buf, offset, EncodeValue(v).value)
    ensures DecodeValue(buf, offset) == Ok((v, offset + |EncodeValue(v).value|))
  {
    hide EncodeString, EncodeBinary, EncodeInt64, DecodeString, DecodeBinary, DecodeInt32, DecodeUint32, DecodeInt64,
         DecodeUint64, DecodeFixed, DecodeBool;
    match v {
      case Null => TagOnlyRoundTrip(v, buf, offset);
      case Bool(_) => TagOnlyRoundTrip(v, buf, offset);
      case Int(n) => Int64RoundTrip(n, buf, offset);
      case IPv4(_) => AddressRoundTrip(v, buf, offset);
      case IPv6(_) => AddressRoundTrip(v, buf, offset);
      case Str(s) =>
        AtHead(buf, offset, TYPE_STRING, EncodeString(s).value);
        StringRoundTrip(s, buf, offset + 1);
      case Binary(data) =>
        AtHead(buf, offset, TYPE_BINARY, EncodeBinary(data));
        BinaryRoundTrip(data, buf, offset + 1);
    }
  }

  lemma EncodableExactly(v: Value)
    ensures EncodeValue(v).Ok? <==> Encodable(v)
  {
  }

  // ----- locality -----

  lemma VarintLocal(buf: bytes, offset: nat, other: bytes, at: nat)
    requires ParseVarint(buf, offset).Ok?
    requires At(other, at, buf[offset..ParseVarint(buf, offset).value.1])
    ensures var (v, end) := ParseVarint(buf, offset).value;
            ParseVarint(other, at) == Ok((v, at + (end - offset)))
  {
    VarintCanonical(buf, offset);
    VarintRoundTrip(ParseVarint(buf, offset).value.0, other, at);
  }

  lemma BinaryLocal(buf: bytes, offset: nat, other: bytes, at: nat)
    requires DecodeBinary(buf, offset).Ok?
    requires At(other, at, buf[offset..DecodeBinary(buf, offset).value.1])
    ensures var (v, end) := DecodeBinary(buf, offset).value;
            DecodeBinary(other, at) == Ok((v, at + (end - offset)))
  {
    var (len, start) := ParseVarint(buf, offset).value;
    var (v, end) := DecodeBinary(buf, offset).value;
    AtWindow(other, at, buf, offset, start, end);
    VarintLocal(buf, offset, other, at);
  }

  lemma StringLocal(buf: bytes, offset: nat, other: bytes, at: nat)
    requires DecodeString(buf, offset).Ok?
    requires At(other, at, buf[offset..DecodeString(buf, offset).value.1])
    ensures var (v, end) := DecodeString(buf, offset).value;
            DecodeString(other, at) == Ok((v, at + (end - offset)))
  {
    BinaryLocal(buf, offset, other, at);
  }

  /** A decoded value depends only on the bytes it consumed. */
  lemma ValueLocal(buf: bytes, offset: nat, other: bytes, at: nat)
    requires DecodeValue(buf, offset).Ok?
    requires At(other, at, buf[offset..DecodeValue(buf, offset).value.1])
    ensures var (v, end) := DecodeValue(buf, offset).value;
            DecodeValue(other, at) == Ok((v, at + (end - offset)))
  {
    hide ParseVarint;
    var (v, end) := DecodeValue(buf, offset).value;
    AtWindow(other, at, buf, offset, offset + 1, end);
    assert buf[offset] == buf[offset..offset + 1][0] == other[at..at + 1][0] == other[at];
    var tag := buf[offset] % 16;
    if tag in {TYPE_INT32, TYPE_UINT32, TYPE_INT64, TYPE_UINT64} {
      VarintLocal(buf, offset + 1, other, at + 1);
    } else if tag in {TYPE_STRING, TYPE_BINARY} {
      BinaryLocal(buf, offset + 1, other, at + 1);
    }
  }

  /** No complete value is a proper prefix of another, so values need no separator. */
  lemma ValuePrefixFree(a: bytes, b: bytes)
    requires DecodeValue(a, 0).Ok? && DecodeValue(a, 0).value.1 == |a|
    requires DecodeValue(b, 0).Ok? && DecodeValue(b, 0).value.1 == |b|
    ensures a <= b ==> a == b
  {
    hide DecodeValue;
    if a <= b {
      ValueLocal(a, 0, b, 0);
    }
  }

  /** The other way round values are not unique on the wire: flag bits of an integer's type byte,
      its type, and multiples of its modulus are all lost in decoding. */
  lemma ManyBytesOneValue(flags: nat, n: nat, k: nat)
    requires flags < 16 && n < TWO_TO_31
    ensures var code := [TYPE_INT32 + 16 * flags] + Varint(n + k * TWO_TO_32);
            && DecodeValue(code, 0) == Ok((Int(n), |code|))
            && EncodeValue(Int(n)).Ok?
            && code != EncodeValue(Int(n)).value
  {
    hide ParseVarint, Varint;
    var code := [TYPE_INT32 + 16 * flags] + Varint(n + k * TWO_TO_32);
    assert code[0] % 16 == TYPE_INT32;
    VarintRoundTrip(n + k * TWO_TO_32, code, 1);
    var m := n + k * TWO_TO_32;
    assert (n - m) % TWO_TO_32 == 0 by {
      QuotientRemainder(n - m, TWO_TO_32, 0 - k, 0);
    }
    TypedIntUnique(code, 1, n);
    assert EncodeValue(Int(n)).value[0] == TYPE_INT64;
    assert code[0] != TYPE_INT64;
  }
}
