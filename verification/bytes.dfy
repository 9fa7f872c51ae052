/**
 * Byte-level helpers behind the binary work of mkdepthcharge.py: Python
 * `bytes.startswith`, Python slice index normalisation, and the
 * little-endian unsigned fields that `struct.pack`/`struct.unpack` read
 * and write with the `<I` and `<Q` formats.
 */
module Bytes {

  /** An octet, as Python's `bytes` holds them. */
  newtype byte = x: int | 0 <= x < 256

  /** `head.startswith(prefix)` */
  predicate StartsWith(head: seq<byte>, prefix: seq<byte>)
  {
    |prefix| <= |head| && head[..|prefix|] == prefix
  }

  function Pow256(n: nat): (r: nat)
    ensures r >= 1
  {
    if n == 0 then 1 else 256 * Pow256(n - 1)
  }

  /** Unsigned little-endian value of a byte string. */
  function LeDecode(s: seq<byte>): nat
  {
    if s == [] then 0 else s[0] as nat + 256 * LeDecode(s[1..])
  }

  /** `struct.pack` of an unsigned little-endian field of `width` bytes. */
  function LeEncode(v: nat, width: nat): (r: seq<byte>)
    requires v < Pow256(width)
    ensures |r| == width
  {
    if width == 0 then [] else [(v % 256) as byte] + LeEncode(v / 256, width - 1)
  }

  lemma {:induction false} LeDecodeBound(s: seq<byte>)
    ensures LeDecode(s) < Pow256(|s|)
  {
    if s != [] {
      LeDecodeBound(s[1..]);
    }
  }

  /** Packing then unpacking a field gives the value back. */
  lemma {:induction false} LeDecodeEncode(v: nat, width: nat)
    requires v < Pow256(width)
    ensures LeDecode(LeEncode(v, width)) == v
  {
    if width > 0 {
      var lo, q := v % 256, v / 256;
      SplitByte(v, width);
      var r := LeEncode(v, width);
      assert r == [lo as byte] + LeEncode(q, width - 1);
      assert r[1..] == LeEncode(q, width - 1);
      LeDecodeEncode(q, width - 1);
      assert LeDecode(r) == r[0] as nat + 256 * LeDecode(r[1..]);
    }
  }

  /** Unpacking then packing a field gives the bytes back. */
  lemma {:induction false} LeEncodeDecode(s: seq<byte>)
    ensures LeDecode(s) < Pow256(|s|)
    ensures LeEncode(LeDecode(s), |s|) == s
  {
    LeDecodeBound(s);
    if s != [] {
      LeEncodeDecode(s[1..]);
      var v, rest := LeDecode(s), LeDecode(s[1..]);
      assert v == s[0] as nat + 256 * rest;
      DivModUnique(v, s[0] as nat, rest);
      assert LeEncode(v, |s|) == [(v % 256) as byte] + LeEncode(v / 256, |s| - 1);
    }
  }

  lemma SplitByte(v: nat, width: nat)
    requires width > 0 && v < Pow256(width)
    ensures v == v % 256 + 256 * (v / 256)
    ensures v / 256 < Pow256(width - 1)
  {
    assert Pow256(width) == 256 * Pow256(width - 1);
  }

  lemma DivModUnique(v: nat, lo: nat, hi: nat)
    requires lo < 256 && v == lo + 256 * hi
    ensures v % 256 == lo && v / 256 == hi
  {
  }

  /**
   * Python's normalisation of one slice bound for a sequence of length n
   * (step 1): a negative bound counts from the end, then the bound is
   * clamped into [0, n].
   */
  function PyIndex(i: int, n: nat): (k: nat)
    ensures k <= n
    ensures 0 <= i <= n ==> k == i
    ensures i > n ==> k == n
    ensures -(n as int) <= i < 0 ==> k == i + n
    ensures i < -(n as int) ==> k == 0
  {
    if i < 0 then (if i + n < 0 then 0 else i + n)
    else if i > n then n
    else i
  }

  /** `data[a:b]` as Python reads it. */
  function PySlice(data: seq<byte>, a: int, b: int): (r: seq<byte>)
    ensures |r| <= |data|
    ensures 0 <= a <= b <= |data| ==> r == data[a..b]
  {
    var lo := PyIndex(a, |data|);
    var hi := PyIndex(b, |data|);
    if lo < hi then data[lo..hi] else []
  }

  /** A fixed-offset read lies wholly inside the data exactly when it is full length. */
  lemma PySliceFull(data: seq<byte>, a: nat, width: nat)
    ensures |PySlice(data, a, a + width)| == width <==> a + width <= |data| || width == 0
  {
  }
}
