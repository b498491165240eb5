/** Byte strings, and the relation "these bytes stand at this offset" all round trips use. */
module Bytes {

  type byte = n: int | 0 <= n < 256

  type bytes = seq<byte>

  ghost predicate At(buf: bytes, offset: nat, part: bytes) {
    offset + |part| <= |buf| && buf[offset..offset + |part|] == part
  }

  lemma AtSplit(buf: bytes, offset: nat, a: bytes, b: bytes)
    requires At(buf, offset, a + b)
    ensures At(buf, offset, a)
    ensures At(buf, offset + |a|, b)
  {
    var part := buf[offset..offset + |a + b|];
    assert part[..|a|] == a && part[|a|..] == b;
    assert buf[offset..offset + |a|] == part[..|a|];
    assert buf[offset + |a|..offset + |a| + |b|] == part[|a|..];
  }

  lemma AtHead(buf: bytes, offset: nat, h: byte, rest: bytes)
    requires At(buf, offset, [h] + rest)
    ensures offset < |buf| && buf[offset] == h
    ensures At(buf, offset + 1, rest)
  {
    AtSplit(buf, offset, [h], rest);
    assert buf[offset] == buf[offset..offset + 1][0];
  }

  /** The window of `buf` between two offsets stands, in any other buffer, wherever
      the larger window does. */
  lemma AtWindow(other: bytes, at: nat, buf: bytes, lo: nat, mid: nat, hi: nat)
    requires lo <= mid <= hi <= |buf|
    requires At(other, at, buf[lo..hi])
    ensures At(other, at, buf[lo..mid])
    ensures At(other, at + (mid - lo), buf[mid..hi])
  {
    assert buf[lo..hi] == buf[lo..mid] + buf[mid..hi];
    AtSplit(other, at, buf[lo..mid], buf[mid..hi]);
  }
}
