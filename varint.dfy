/** The ZigZag varint of the ratings decoder (`_read_varint`).

    Seven payload bits per byte, least significant group first; a byte below
    0x80 is the last one. The accumulated number is then ZigZag-decoded:
    even numbers are the non-negative values, odd numbers the negative ones.
 */
module Varint {
  import opened Errors
  import opened Bytes

  /** 2 to the power n (the `<< shift` of the decoder). */
  function Pow2(n: nat): (r: nat)
    ensures r >= 1
  {
    if n == 0 then 1 else 2 * Pow2(n - 1)
  }

  /** The number spelt by the 7-bit groups starting at p and the offset after
      the last byte; reading at or past the end raises IndexError. */
  function VarintRaw(buf: seq<byte>, p: nat): (r: Result<(nat, nat)>)
    // at least one byte is consumed, the last one is below 0x80 and every
    // byte before it has the continuation bit set
    ensures r.Ok? ==> p < r.value.1 <= |buf| && buf[r.value.1 - 1] < 0x80
    ensures r.Ok? ==> forall k :: p <= k < r.value.1 - 1 ==> buf[k] >= 0x80
    ensures r.Err? <==> forall k :: p <= k < |buf| ==> buf[k] >= 0x80
    ensures r.Err? ==> r.error == IndexPastEnd(if p > |buf| then p else |buf|)
    decreases |buf| - p
  {
    if p >= |buf| then Err(IndexPastEnd(p))
    else if buf[p] < 0x80 then Ok((buf[p], p + 1))
    else
      match VarintRaw(buf, p + 1)
      case Ok(rest) => Ok((buf[p] - 0x80 + 128 * rest.0, rest.1))
      case Err(e) => Err(e)
  }

  /** The ZigZag mapping from integers to naturals: 0, -1, 1, -2, ... to 0, 1, 2, 3, ... */
  function ZigZagEncode(v: int): (r: nat)
  {
    if v >= 0 then 2 * v else -2 * v - 1
  }

  /** `(res >> 1) ^ -(res & 1)`: the integer whose ZigZag number is res. */
  function ZigZagDecode(res: nat): (r: int)
    ensures ZigZagEncode(r) == res
    ensures r >= 0 <==> res % 2 == 0
  {
    if res % 2 == 0 then res / 2 else -(res / 2) - 1
  }

  lemma ZigZagRoundTrip(v: int)
    ensures ZigZagDecode(ZigZagEncode(v)) == v
  {
    var r := ZigZagDecode(ZigZagEncode(v));
    if v >= 0 {
      assert ZigZagEncode(v) % 2 == 0;
    } else {
      assert ZigZagEncode(v) % 2 == 1;
    }
    assert ZigZagEncode(r) == ZigZagEncode(v);
  }

  /** `_read_varint(buf, p)`: the decoded value and the offset after the varint. */
  function VarintDecode(buf: seq<byte>, p: nat): (r: Result<(int, nat)>)
    ensures r.Ok? <==> VarintRaw(buf, p).Ok?
    ensures r.Ok? ==> ZigZagEncode(r.value.0) == VarintRaw(buf, p).value.0
                      && r.value.1 == VarintRaw(buf, p).value.1
  {
    var raw :- VarintRaw(buf, p);
    Ok((ZigZagDecode(raw.0), raw.1))
  }

  /** The 7-bit groups of n, least significant first, continuation bit on all but the last. */
  function VarintBytes(n: nat): (r: seq<byte>)
    ensures |r| >= 1 && r[|r| - 1] < 0x80
    decreases n
  {
    if n < 0x80 then [n]
    else
      var rest := VarintBytes(n / 128);
      var r := [0x80 + n % 128] + rest;
      assert r[|r| - 1] == rest[|rest| - 1];
      r
  }

  lemma {:induction false} VarintRawOfBytes(pre: seq<byte>, n: nat, post: seq<byte>)
    ensures VarintRaw(pre + VarintBytes(n) + post, |pre|) == Ok((n, |pre| + |VarintBytes(n)|))
    decreases n
  {
    var buf := pre + VarintBytes(n) + post;
    if n >= 0x80 {
      var pre' := pre + [0x80 + n % 128];
      assert buf == pre' + VarintBytes(n / 128) + post;
      VarintRawOfBytes(pre', n / 128, post);
      assert buf[|pre|] == 0x80 + n % 128;
    } else {
      assert buf[|pre|] == n;
    }
  }

  /** Encoding any integer as a ZigZag varint and decoding it gives it back,
      with the offset just past its bytes. */
  lemma VarintRoundTrip(pre: seq<byte>, v: int, post: seq<byte>)
    ensures var enc := VarintBytes(ZigZagEncode(v));
            VarintDecode(pre + enc + post, |pre|) == Ok((v, |pre| + |enc|))
  {
    VarintRawOfBytes(pre, ZigZagEncode(v), post);
    ZigZagRoundTrip(v);
  }

  /** A single byte below 0x80 is a whole varint. */
  lemma SingleByteVarint(buf: seq<byte>, p: nat)
    requires p < |buf| && buf[p] < 0x80
    ensures VarintDecode(buf, p) == Ok((ZigZagDecode(buf[p]), p + 1))
  {
  }

  /** The loop state of the decoder: res holds the groups read from p0 up to
      p, and the groups still to come are worth Pow2(shift) each. */
  ghost predicate Accumulated(buf: seq<byte>, p0: nat, p: nat, res: nat, shift: nat)
  {
    VarintRaw(buf, p0) == match VarintRaw(buf, p)
                          case Ok(t) => Ok((res + Pow2(shift) * t.0, t.1))
                          case Err(e) => Err(e)
  }

  lemma AccumulateGroup(buf: seq<byte>, p0: nat, p: nat, res: nat, shift: nat, res': nat)
    requires p < |buf| && buf[p] >= 0x80 && res < Pow2(shift)
    requires Accumulated(buf, p0, p, res, shift)
    requires res' == res + (buf[p] - 0x80) * Pow2(shift)
    ensures res' < Pow2(shift + 7) && Accumulated(buf, p0, p + 1, res', shift + 7)
  {
    var big := Pow2(shift);
    var big7 := Pow2(shift + 7);
    Pow2Add(shift, 7);
    assert Pow2(7) == 128;
    Regroup(res, buf[p] - 0x80, big, res', big7);
    GroupStep(buf, p0, p, res, shift, res', big, big7);
  }

  lemma GroupStep(buf: seq<byte>, p0: nat, p: nat, res: nat, shift: nat, res': nat, big: nat, big7: nat)
    requires p < |buf| && buf[p] >= 0x80
    requires Accumulated(buf, p0, p, res, shift)
    requires big == Pow2(shift) && big7 == Pow2(shift + 7) && big7 == big * 128
    requires res' == res + (buf[p] - 0x80) * big
    ensures Accumulated(buf, p0, p + 1, res', shift + 7)
  {
    var g := buf[p] - 0x80;
    match VarintRaw(buf, p + 1)
    case Ok(t) =>
      assert VarintRaw(buf, p) == Ok((g + 128 * t.0, t.1));
      Shift(res, g, big, t.0, res', big7);
    case Err(e) =>
  }

  lemma Regroup(res: nat, g: nat, big: nat, res': nat, big7: nat)
    requires res < big && g < 128 && res' == res + g * big && big7 == big * 128
    ensures res' < big7
  {
    assert g * big <= 127 * big;
  }

  lemma Shift(res: nat, g: nat, big: nat, t: nat, res': nat, big7: nat)
    requires res' == res + g * big && big7 == big * 128
    ensures res + big * (g + 128 * t) == res' + big7 * t
  {
  }

  lemma LastGroup(buf: seq<byte>, p0: nat, p: nat, res: nat, shift: nat)
    requires p < |buf| && buf[p] < 0x80
    requires Accumulated(buf, p0, p, res, shift)
    ensures VarintRaw(buf, p0) == Ok((res + buf[p] * Pow2(shift), p + 1))
  {
    var big := Pow2(shift);
    assert VarintRaw(buf, p) == Ok((buf[p], p + 1));
    assert big * buf[p] == buf[p] * big;
  }

  /** The decoder's loop: `res |= (b & 0x7F) << shift`. The groups never
      overlap (res stays below Pow2(shift)), so the or is an addition. */
  method ReadVarint(buf: seq<byte>, p0: nat) returns (r: Result<(int, nat)>)
    ensures r == VarintDecode(buf, p0)
  {
    var res: nat := 0;
    var shift: nat := 0;
    var p := p0;
    while true
      invariant p0 <= p
      invariant res < Pow2(shift)
      invariant Accumulated(buf, p0, p, res, shift)
      decreases |buf| - p
    {
      if p >= |buf| {
        return Err(IndexPastEnd(p));
      }
      var b := buf[p];
      var scale := Pow2(shift);
      if b < 0x80 {
        LastGroup(buf, p0, p, res, shift);
        res := res + b * scale;
        p := p + 1;
        break;
      }
      var group: nat := b - 0x80;
      var res': nat := res + group * scale;
      AccumulateGroup(buf, p0, p, res, shift, res');
      res := res';
      p := p + 1;
      shift := shift + 7;
    }
    r := Ok((ZigZagDecode(res), p));
  }

  lemma {:induction false} Pow2Add(a: nat, b: nat)
    ensures Pow2(a + b) == Pow2(a) * Pow2(b)
    decreases b
  {
    if b > 0 {
      Pow2Add(a, b - 1);
    }
  }
}
