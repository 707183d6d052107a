/** Byte buffers and the library routines the decoders lean on:
    Python slicing, `struct.unpack_from` with the little-endian formats
    `<i <q <I <Q`, `int.from_bytes(..., "little")`, `int.to_bytes(n, "little")`
    and `bytes.find`.
 */
module Bytes {
  import opened Errors

  type byte = x: int | 0 <= x < 256

  /** 256 to the power n: the number of values n bytes can hold. */
  function Pow256(n: nat): (r: nat)
    ensures r >= 1
  {
    if n == 0 then 1 else 256 * Pow256(n - 1)
  }

  lemma Pow256Widths()
    ensures Pow256(1) == 0x100 && Pow256(4) == 0x1_0000_0000
    ensures Pow256(8) == 0x1_0000_0000_0000_0000
  {
  }

  /** The two's-complement bounds of the 32- and 64-bit formats. */
  lemma SignBoundWidths()
    ensures SignBound(4) == 0x8000_0000 && SignBound(8) == 0x8000_0000_0000_0000
  {
    Pow256Widths();
    assert Pow256(3) == 0x100_0000;
    assert Pow256(7) == 0x100_0000_0000_0000;
  }

  /** The bytes of an ASCII text, such as a key the decoders look for. */
  function Ascii(s: string): (r: seq<byte>)
    ensures |r| == |s|
  {
    seq(|s|, i requires 0 <= i < |s| => s[i] as int % 256)
  }

  /** The unsigned little-endian number the bytes spell (`int.from_bytes(s, "little")`). */
  function LeUnsigned(s: seq<byte>): (r: nat)
    ensures r < Pow256(|s|)
  {
    if s == [] then 0
    else
      var rest := LeUnsigned(s[1..]);
      assert s[0] + 256 * rest <= 255 + 256 * (Pow256(|s| - 1) - 1);
      s[0] + 256 * rest
  }

  /** Half of Pow256(width): the first value whose two's-complement reading is negative. */
  function SignBound(width: nat): (r: nat)
    requires width > 0
    ensures 2 * r == Pow256(width)
  {
    128 * Pow256(width - 1)
  }

  /** Two's-complement reading of an unsigned number of the given byte width. */
  function ToSigned(u: nat, width: nat): (r: int)
    requires 0 < width && u < Pow256(width)
    ensures -(SignBound(width) as int) <= r < SignBound(width)
    ensures r == u || r == u - Pow256(width)
    ensures r < 0 <==> u >= SignBound(width)
  {
    if u >= SignBound(width) then u - Pow256(width) else u
  }

  /** The n-byte little-endian spelling of v. */
  function LeEncode(v: nat, n: nat): (r: seq<byte>)
    requires v < Pow256(n)
    ensures |r| == n
  {
    if n == 0 then [] else [v % 256] + LeEncode(v / 256, n - 1)
  }

  lemma {:induction false} LeDecodeEncode(v: nat, n: nat)
    requires v < Pow256(n)
    ensures LeUnsigned(LeEncode(v, n)) == v
  {
    if n > 0 {
      LeDecodeEncode(v / 256, n - 1);
      assert LeEncode(v, n)[1..] == LeEncode(v / 256, n - 1);
    }
  }

  lemma {:induction false} LeEncodeDecode(s: seq<byte>)
    ensures LeEncode(LeUnsigned(s), |s|) == s
  {
    if s != [] {
      LeEncodeDecode(s[1..]);
      var rest := LeUnsigned(s[1..]);
      assert (s[0] + 256 * rest) % 256 == s[0];
      assert (s[0] + 256 * rest) / 256 == rest;
    }
  }

  /** The unsigned number whose two's-complement reading is v. */
  function TwosComplement(v: int, width: nat): (r: nat)
    requires width > 0 && -(SignBound(width) as int) <= v < SignBound(width)
    ensures r < Pow256(width) && ToSigned(r, width) == v
  {
    if v < 0 then v + Pow256(width) else v
  }

  /** Python's `s[a:b]` for non-negative bounds: indices are clamped to the
      length and an empty slice results when b <= a. */
  function Slice(s: seq<byte>, a: nat, b: nat): (r: seq<byte>)
    ensures a <= b <= |s| ==> r == s[a..b]
    ensures |r| == if a < b && a < |s| then (if b <= |s| then b else |s|) - a else 0
  {
    var lo := if a <= |s| then a else |s|;
    var hi := if b <= |s| then b else |s|;
    if lo <= hi then s[lo..hi] else []
  }

  /** `struct.unpack_from(fmt, buf, off)` for a little-endian integer format of
      `width` bytes: raises unless `width` bytes remain at `off`. */
  function UnpackFrom(buf: seq<byte>, off: nat, width: nat, signed: bool): (r: Result<int>)
    requires width > 0
    ensures r.Err? <==> off + width > |buf|
    ensures r.Err? ==> r.error == ShortRead(off)
    ensures r.Ok? ==> r.value == if signed then ToSigned(LeUnsigned(buf[off..off + width]), width)
                                 else LeUnsigned(buf[off..off + width])
  {
    if off + width > |buf| then Err(ShortRead(off))
    else
      var u := LeUnsigned(buf[off..off + width]);
      Ok(if signed then ToSigned(u, width) else u)
  }

  /** `v.to_bytes(n, "little", signed=False)`: raises OverflowError outside `[0, 256^n)`. */
  function ToBytes(v: int, n: nat): (r: Result<seq<byte>>)
    ensures r.Ok? <==> 0 <= v < Pow256(n)
    ensures r.Err? ==> r.error == ValueOutOfRange(v)
    ensures r.Ok? ==> |r.value| == n && LeUnsigned(r.value) == v
  {
    if 0 <= v < Pow256(n) then
      LeDecodeEncode(v, n);
      Ok(LeEncode(v, n))
    else Err(ValueOutOfRange(v))
  }

  /** The pattern occurs in s starting at j. */
  predicate OccursAt(s: seq<byte>, pat: seq<byte>, j: int)
  {
    0 <= j && j + |pat| <= |s| && s[j..j + |pat|] == pat
  }

  /** `s.find(pat, from)`: a match at or after from, or -1. */
  function Find(s: seq<byte>, pat: seq<byte>, from: nat): (r: int)
    ensures r == -1 || (from <= r && OccursAt(s, pat, r))
    decreases |s| - from
  {
    if from + |pat| > |s| then -1
    else if s[from..from + |pat|] == pat then from
    else Find(s, pat, from + 1)
  }

  /** Find gives the first match: none lies between from and the result,
      and -1 means there is none at all. */
  lemma {:induction false} FindIsLeast(s: seq<byte>, pat: seq<byte>, from: nat)
    ensures Find(s, pat, from) == -1 ==> forall j :: from <= j ==> !OccursAt(s, pat, j)
    ensures Find(s, pat, from) >= 0 ==> forall j :: from <= j < Find(s, pat, from) ==> !OccursAt(s, pat, j)
    decreases |s| - from
  {
    if from + |pat| <= |s| && s[from..from + |pat|] != pat {
      FindIsLeast(s, pat, from + 1);
    }
  }
}
