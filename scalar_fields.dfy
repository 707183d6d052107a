/** `parse_start_value` and `parse_version`: the two scalar parts of a season.

    `start_value` is one integer (int32 or int64) right after its key text.
    `version` is an object (marker 0x5A) of four keyed integers in a fixed
    order, each key preceded by its length byte.
 */
module ScalarFields {
  import opened Errors
  import opened Bytes
  import opened TokenStream
  import opened TokenProperties

  const StartKey: seq<byte> := [0x73, 0x74, 0x61, 0x72, 0x74, 0x5F, 0x76, 0x61, 0x6C, 0x75, 0x65]  // "start_value"

  /** `parse_start_value(buf, anchor)`: the integer after the key text at anchor. */
  function StartValue(buf: seq<byte>, anchor: nat): (r: Result<int>)
    ensures !KeyAt(buf, anchor, StartKey) ==> r == Err(KeyTextMismatch(anchor))
    // only the integer markers are accepted after the key text
    ensures r.Ok? ==> KeyAt(buf, anchor, StartKey) && anchor + |StartKey| < |buf|
                      && (buf[anchor + |StartKey|] == 0x02 || buf[anchor + |StartKey|] == 0x03)
    ensures KeyAt(buf, anchor, StartKey) && anchor + |StartKey| < |buf|
            && buf[anchor + |StartKey|] != 0x02 && buf[anchor + |StartKey|] != 0x03
            ==> r == Err(UnknownMarker(anchor + |StartKey|, buf[anchor + |StartKey|]))
  {
    if !KeyAt(buf, anchor, StartKey) then Err(KeyTextMismatch(anchor))
    else
      var pos := anchor + |StartKey|;
      if pos >= |buf| then Err(IndexPastEnd(pos))
      else if buf[pos] == 0x02 then UnpackFrom(buf, pos + 1, 4, true)
      else if buf[pos] == 0x03 then UnpackFrom(buf, pos + 1, 8, true)
      else Err(UnknownMarker(pos, buf[pos]))
  }

  /** An int32 or int64 field written after the key text reads back as its value. */
  lemma StartValueRoundTrip(buf: seq<byte>, anchor: nat, f: Field, post: seq<byte>)
    requires (f.Int32Field? || f.Int64Field?) && Encodable(f)
    requires FieldAt(buf, anchor, StartKey, EncodeField(f), post)
    ensures StartValue(buf, anchor) == Ok(f.v)
  {
    var width := if f.Int32Field? then 4 else 8;
    var u := TwosComplement(f.v, width);
    var pos := anchor + |StartKey|;
    Layout(buf, pos, [FieldMarker(f)], FieldDigits(f), FieldText(f), post);
    assert FieldDigits(f) == LeEncode(u, width);
    LeDecodeEncode(u, width);
    assert Slice(buf, anchor, pos) == StartKey;
    assert UnpackFrom(buf, pos + 1, width, true) == Ok(f.v);
  }

  // ---------------------------------------------------------------- version

  const VersionKey: seq<byte> := [0x76, 0x65, 0x72, 0x73, 0x69, 0x6F, 0x6E]  // "version"
  const MajorKey: seq<byte> :=  // "version_major"
    [0x76, 0x65, 0x72, 0x73, 0x69, 0x6F, 0x6E, 0x5F, 0x6D, 0x61, 0x6A, 0x6F, 0x72]
  const MinorKey: seq<byte> :=  // "version_minor"
    [0x76, 0x65, 0x72, 0x73, 0x69, 0x6F, 0x6E, 0x5F, 0x6D, 0x69, 0x6E, 0x6F, 0x72]
  const ReleaseKey: seq<byte> :=  // "version_release"
    [0x76, 0x65, 0x72, 0x73, 0x69, 0x6F, 0x6E, 0x5F, 0x72, 0x65, 0x6C, 0x65, 0x61, 0x73, 0x65]
  const YearKey: seq<byte> :=  // "version_year"
    [0x76, 0x65, 0x72, 0x73, 0x69, 0x6F, 0x6E, 0x5F, 0x79, 0x65, 0x61, 0x72]
  /** The fields of the version object, in the only order accepted. */
  const Wanted: seq<seq<byte>> := [MajorKey, MinorKey, ReleaseKey, YearKey]

  datatype VersionInfo = VersionInfo(major: int, minor: int, release: int, year: int)

  /** `_decode_int`: a one-byte tag from 0x80 up holds its low six bits;
      0x02 and 0x03 are then int32 and int64; any other tag raises. */
  function DecodeInt(buf: seq<byte>, p: nat): (r: Result<(int, nat)>)
    ensures r.Ok? ==> p < r.value.1 <= |buf|
    ensures p < |buf| && buf[p] >= 0x80 ==> r == Ok((buf[p] % 64, p + 1)) && 0 <= r.value.0 < 64
    ensures p < |buf| && buf[p] < 0x80 && buf[p] != 0x02 && buf[p] != 0x03 ==> r == Err(BadIntTag(p, buf[p]))
    ensures p >= |buf| ==> r == Err(IndexPastEnd(p))
  {
    if p >= |buf| then Err(IndexPastEnd(p))
    else
      var tag := buf[p];
      if tag >= 0x80 then Ok((tag % 64, p + 1))
      else if tag == 0x02 then var x :- UnpackFrom(buf, p + 1, 4, true); Ok((x, p + 5))
      else if tag == 0x03 then var x :- UnpackFrom(buf, p + 1, 8, true); Ok((x, p + 9))
      else Err(BadIntTag(p, tag))
  }

  /** One keyed field at pos: a length byte equal to the key's length, the
      key text, then an integer. */
  function ReadField(buf: seq<byte>, pos: nat, key: seq<byte>): (r: Result<(int, nat)>)
    ensures r.Ok? ==> pos + 1 + |key| < r.value.1 <= |buf|
                      && buf[pos] == |key| && buf[pos + 1..pos + 1 + |key|] == key
    ensures pos < |buf| && buf[pos] != |key| ==> r == Err(BadKeyLength(pos, buf[pos]))
    ensures pos < |buf| && buf[pos] == |key| && Slice(buf, pos + 1, pos + 1 + |key|) != key
            ==> r == Err(WrongKey(pos + 1))
  {
    if pos >= |buf| then Err(IndexPastEnd(pos))
    else if buf[pos] != |key| then Err(BadKeyLength(pos, buf[pos]))
    else if Slice(buf, pos + 1, pos + 1 + |key|) != key then Err(WrongKey(pos + 1))
    else DecodeInt(buf, pos + 1 + |key|)
  }

  /** The fields named by keys, one after the other from pos, and the offset after the last. */
  function ReadFields(buf: seq<byte>, pos: nat, keys: seq<seq<byte>>): (r: Result<(seq<int>, nat)>)
    ensures r.Ok? ==> |r.value.0| == |keys| && pos <= r.value.1
    decreases |keys|
  {
    if keys == [] then Ok(([], pos))
    else
      var f :- ReadField(buf, pos, keys[0]);
      var rest :- ReadFields(buf, f.1, keys[1..]);
      Ok(([f.0] + rest.0, rest.1))
  }

  /** `parse_version(buf, anchor)`: the key text, the object marker 0x5A,
      then the four fields in order. */
  function Version(buf: seq<byte>, anchor: nat): (r: Result<VersionInfo>)
    ensures !KeyAt(buf, anchor, VersionKey) ==> r == Err(KeyTextMismatch(anchor))
    ensures r.Ok? ==> anchor + |VersionKey| < |buf| && buf[anchor + |VersionKey|] == 0x5A
    ensures r.Ok? ==> ReadFields(buf, anchor + |VersionKey| + 1, Wanted).Ok?
  {
    if !KeyAt(buf, anchor, VersionKey) then Err(KeyTextMismatch(anchor))
    else
      var pos := anchor + |VersionKey|;
      if pos >= |buf| then Err(IndexPastEnd(pos))
      else if buf[pos] != 0x5A then Err(UnknownContainer(pos, buf[pos]))
      else
        var vals :- ReadFields(buf, pos + 1, Wanted);
        Ok(VersionInfo(vals.0[0], vals.0[1], vals.0[2], vals.0[3]))
  }

  /** The offsets at which the fields of a successful ReadFields start. */
  function FieldStarts(buf: seq<byte>, pos: nat, keys: seq<seq<byte>>): (r: seq<nat>)
    requires ReadFields(buf, pos, keys).Ok?
    ensures |r| == |keys| && (keys != [] ==> r[0] == pos)
    decreases |keys|
  {
    if keys == [] then []
    else [pos] + FieldStarts(buf, ReadField(buf, pos, keys[0]).value.1, keys[1..])
  }

  /** A length byte equal to the key's length, then the key text, at p. */
  predicate KeyHeaderAt(buf: seq<byte>, p: nat, key: seq<byte>)
  {
    p + 1 + |key| <= |buf| && buf[p] == |key| && buf[p + 1..p + 1 + |key|] == key
  }

  /** The keys occur in the order given: each behind a length byte equal to
      its length, each after the end of the key before it. */
  lemma KeysInOrder(buf: seq<byte>, pos: nat, keys: seq<seq<byte>>)
    requires ReadFields(buf, pos, keys).Ok?
    ensures var ps := FieldStarts(buf, pos, keys);
            && (forall i :: 0 <= i < |keys| ==> KeyHeaderAt(buf, ps[i], keys[i]))
            && (forall i :: 0 <= i < |keys| - 1 ==> ps[i + 1] > ps[i] + |keys[i]|)
  {
    var ps := FieldStarts(buf, pos, keys);
    forall i | 0 <= i < |keys|
      ensures KeyHeaderAt(buf, ps[i], keys[i]) && (i < |keys| - 1 ==> ps[i + 1] > ps[i] + |keys[i]|)
    {
      KeyAtStart(buf, pos, keys, i);
    }
  }

  /** Field i starts with its key header, and field i + 1 starts after it. */
  lemma {:induction false} KeyAtStart(buf: seq<byte>, pos: nat, keys: seq<seq<byte>>, i: nat)
    requires ReadFields(buf, pos, keys).Ok? && i < |keys|
    ensures var ps := FieldStarts(buf, pos, keys);
            && KeyHeaderAt(buf, ps[i], keys[i])
            && (i < |keys| - 1 ==> ps[i + 1] > ps[i] + |keys[i]|)
    decreases i
  {
    var next := ReadField(buf, pos, keys[0]).value.1;
    var ps := FieldStarts(buf, pos, keys);
    var qs := FieldStarts(buf, next, keys[1..]);
    assert ps == [pos] + qs;
    if i > 0 {
      KeyAtStart(buf, next, keys[1..], i - 1);
      assert keys[i] == keys[1..][i - 1];
    } else if |keys| > 1 {
      assert ps[1] == qs[0] == next;
    }
  }

  /** `parse_version(buf, anchor)`'s loop over the four wanted keys. */
  method ParseVersion(buf: seq<byte>, anchor: nat) returns (r: Result<VersionInfo>)
    ensures r == Version(buf, anchor)
  {
    if !KeyAt(buf, anchor, VersionKey) {
      return Err(KeyTextMismatch(anchor));
    }
    var pos: nat := anchor + |VersionKey|;
    if pos >= |buf| {
      return Err(IndexPastEnd(pos));
    }
    if buf[pos] != 0x5A {
      return Err(UnknownContainer(pos, buf[pos]));
    }
    var vals := ReadFieldsOf(buf, pos + 1, Wanted);
    if vals.Err? {
      return Err(vals.error);
    }
    var out := vals.value.0;
    r := Ok(VersionInfo(out[0], out[1], out[2], out[3]));
  }

  /** The loop of `parse_version`: for each key, its length byte, its text and its integer. */
  method ReadFieldsOf(buf: seq<byte>, first: nat, keys: seq<seq<byte>>) returns (r: Result<(seq<int>, nat)>)
    ensures r == ReadFields(buf, first, keys)
  {
    var pos: nat := first;
    var out: seq<int> := [];
    ThenNothing(ReadFields(buf, first, keys));
    for i := 0 to |keys|
      invariant |out| == i
      invariant ReadFields(buf, first, keys) == Then(out, ReadFields(buf, pos, keys[i..]))
    {
      var k := keys[i];
      assert keys[i..][0] == k && keys[i..][1..] == keys[i + 1..];
      var f := ReadFieldOf(buf, pos, k);
      if f.Err? {
        return Err(f.error);
      }
      ghost var rest := ReadFields(buf, f.value.1, keys[i + 1..]);
      assert ReadFields(buf, pos, keys[i..])
             == match rest case Ok(v) => Ok(([f.value.0] + v.0, v.1)) case Err(e) => Err(e);
      ThenStep(out, f.value.0, rest);
      out := out + [f.value.0];
      pos := f.value.1;
    }
    assert keys[|keys|..] == [];
    assert out + [] == out;
    r := Ok((out, pos));
  }

  /** One pass of that loop: the key header, then `_decode_int`. */
  method ReadFieldOf(buf: seq<byte>, pos: nat, k: seq<byte>) returns (r: Result<(int, nat)>)
    ensures r == ReadField(buf, pos, k)
  {
    if pos >= |buf| {
      return Err(IndexPastEnd(pos));
    }
    if buf[pos] != |k| {
      return Err(BadKeyLength(pos, buf[pos]));
    }
    if Slice(buf, pos + 1, pos + 1 + |k|) != k {
      return Err(WrongKey(pos + 1));
    }
    r := DecodeInt(buf, pos + 1 + |k|);
  }

  /** The values read so far in front of what the remaining fields give. */
  function Then(done: seq<int>, rest: Result<(seq<int>, nat)>): (r: Result<(seq<int>, nat)>)
    ensures r.Ok? <==> rest.Ok?
    ensures r.Ok? ==> r.value == (done + rest.value.0, rest.value.1)
    ensures r.Err? ==> r.error == rest.error
  {
    match rest
    case Ok(v) => Ok((done + v.0, v.1))
    case Err(e) => Err(e)
  }

  lemma ThenNothing(rest: Result<(seq<int>, nat)>)
    ensures Then([], rest) == rest
  {
    if rest.Ok? {
      assert [] + rest.value.0 == rest.value.0;
    }
  }

  lemma ThenStep(done: seq<int>, x: int, rest: Result<(seq<int>, nat)>)
    ensures Then(done, match rest case Ok(v) => Ok(([x] + v.0, v.1)) case Err(e) => Err(e))
            == Then(done + [x], rest)
  {
    if rest.Ok? {
      assert done + ([x] + rest.value.0) == done + [x] + rest.value.0;
    }
  }

  // ---------------------------------------------------------------- round trips

  /** An int32 or int64 field. */
  type IntField = f: Field | (f.Int32Field? || f.Int64Field?) && Encodable(f) witness Int32Field(0)

  /** A keyed int32 or int64 field at pos reads as its integer. */
  lemma ReadsKeyed(buf: seq<byte>, pos: nat, key: seq<byte>, digits: seq<byte>, x: int)
    requires |digits| == 4 || |digits| == 8
    requires pos + 1 + |key| + 1 + |digits| <= |buf|
    requires buf[pos] == |key| && buf[pos + 1..pos + 1 + |key|] == key
    requires buf[pos + 1 + |key|] == if |digits| == 4 then 0x02 else 0x03
    requires buf[pos + 1 + |key| + 1..pos + 1 + |key| + 1 + |digits|] == digits
    requires ToSigned(LeUnsigned(digits), |digits|) == x
    ensures ReadField(buf, pos, key) == Ok((x, pos + 1 + |key| + 1 + |digits|))
  {
    assert Slice(buf, pos + 1, pos + 1 + |key|) == key;
    assert UnpackFrom(buf, pos + 1 + |key| + 1, |digits|, true) == Ok(x);
  }

  /** The length byte, the key, the marker and the digits of a keyed field found in the buffer. */
  lemma KeyedLayout(buf: seq<byte>, pos: nat, key: seq<byte>, field: seq<byte>, m: byte, digits: seq<byte>, post: seq<byte>)
    requires pos <= |buf| && buf[pos..] == [|key|] + key + field + post && field == [m] + digits
    ensures var k := pos + 1 + |key|;
            && k + 1 + |digits| <= |buf| && buf[pos] == |key| && buf[pos + 1..k] == key
            && buf[k] == m && buf[k + 1..k + 1 + |digits|] == digits
  {
    var k := pos + 1 + |key|;
    var tail := buf[pos..];
    assert buf[pos] == tail[0];
    assert buf[pos + 1..k] == tail[1..1 + |key|];
    assert tail[1..1 + |key|] == key;
    assert buf[k] == tail[1 + |key|];
    assert buf[k + 1..k + 1 + |digits|] == tail[2 + |key|..2 + |key| + |digits|];
    assert tail[2 + |key|..2 + |key| + |digits|] == digits;
  }

  /** A keyed int32 or int64 written in two's complement reads back as its value. */
  lemma ReadIntRoundTrip(buf: seq<byte>, pos: nat, key: seq<byte>, field: seq<byte>, width: nat, x: int, post: seq<byte>)
    requires (width == 4 || width == 8) && -(SignBound(width) as int) <= x < SignBound(width)
    requires field == [if width == 4 then 0x02 else 0x03] + LeEncode(TwosComplement(x, width), width)
    requires pos <= |buf| && buf[pos..] == [|key|] + key + field + post
    ensures ReadField(buf, pos, key) == Ok((x, pos + 1 + |key| + |field|))
  {
    var u := TwosComplement(x, width);
    var digits := LeEncode(u, width);
    KeyedLayout(buf, pos, key, field, if width == 4 then 0x02 else 0x03, digits, post);
    LeDecodeEncode(u, width);
    ReadsKeyed(buf, pos, key, digits, x);
  }

  /** An int field is its marker and its width in little-endian two's-complement digits. */
  lemma IntFieldBytes(f: IntField)
    ensures var width := if f.Int32Field? then 4 else 8;
            && EncodeField(f) == [if width == 4 then 0x02 else 0x03] + LeEncode(TwosComplement(f.v, width), width)
            && |EncodeField(f)| == 1 + width
  {
    var width := if f.Int32Field? then 4 else 8;
    assert EncodeField(f) == [FieldMarker(f)] + LeEncode(TwosComplement(f.v, width), width) + [];
  }

  /** The length byte, key text and integer of one keyed field. */
  function Keyed(key: seq<byte>, f: IntField): (r: seq<byte>)
    requires |key| < 256
  {
    [|key|] + key + EncodeField(f)
  }

  /** The bytes from lo to hi are the keyed field. */
  predicate FieldBetween(buf: seq<byte>, lo: nat, hi: nat, key: seq<byte>, f: IntField)
  {
    |key| < 256 && lo <= hi <= |buf| && buf[lo..hi] == Keyed(key, f)
  }

  lemma FieldBetweenSplit(buf: seq<byte>, pos: nat, next: nat, key: seq<byte>, f: IntField)
    requires FieldBetween(buf, pos, next, key, f)
    ensures buf[pos..] == [|key|] + key + EncodeField(f) + buf[next..]
  {
    assert buf[pos..] == buf[pos..next] + buf[next..];
  }

  /** A keyed field found between pos and next reads as its value. */
  lemma KeyedAt(buf: seq<byte>, pos: nat, next: nat, key: seq<byte>, f: IntField)
    requires FieldBetween(buf, pos, next, key, f)
    ensures ReadField(buf, pos, key) == Ok((f.v, next))
  {
    FieldBetweenSplit(buf, pos, next, key, f);
    IntFieldBytes(f);
    ReadIntRoundTrip(buf, pos, key, EncodeField(f), if f.Int32Field? then 4 else 8, f.v, buf[next..]);
  }

  /** Fields each read from where the one before ended read together, in
      order: from field j on, up to the last offset. */
  lemma {:induction false} ChainedFields(buf: seq<byte>, keys: seq<seq<byte>>, vs: seq<int>, ps: seq<nat>, j: nat)
    requires |vs| == |keys| && |ps| == |keys| + 1 && j <= |keys|
    requires forall i :: 0 <= i < |keys| ==> ReadField(buf, ps[i], keys[i]) == Ok((vs[i], ps[i + 1]))
    ensures ReadFields(buf, ps[j], keys[j..]) == Ok((vs[j..], ps[|keys|]))
    decreases |keys| - j
  {
    if j < |keys| {
      ChainedFields(buf, keys, vs, ps, j + 1);
      assert keys[j..][0] == keys[j] && keys[j..][1..] == keys[j + 1..];
      assert vs[j..] == [vs[j]] + vs[j + 1..];
    } else {
      assert keys[j..] == [] && vs[j..] == [];
    }
  }

  /** The integer values of some fields. */
  function ValuesOf(fs: seq<IntField>): (r: seq<int>)
    ensures |r| == |fs| && forall i :: 0 <= i < |fs| ==> r[i] == fs[i].v
  {
    seq(|fs|, i requires 0 <= i < |fs| => fs[i].v)
  }

  /** Keyed fields laid out one after the other, the i-th between ps[i] and
      ps[i + 1], read back as their values, ending at the last offset. */
  lemma FieldsRoundTrip(buf: seq<byte>, keys: seq<seq<byte>>, fs: seq<IntField>, ps: seq<nat>)
    requires |fs| == |keys| && |ps| == |keys| + 1
    requires forall i :: 0 <= i < |keys| ==> FieldBetween(buf, ps[i], ps[i + 1], keys[i], fs[i])
    ensures ReadFields(buf, ps[0], keys) == Ok((ValuesOf(fs), ps[|keys|]))
  {
    var vs := ValuesOf(fs);
    forall i | 0 <= i < |keys|
      ensures ReadField(buf, ps[i], keys[i]) == Ok((vs[i], ps[i + 1]))
    {
      KeyedAt(buf, ps[i], ps[i + 1], keys[i], fs[i]);
    }
    ChainedFields(buf, keys, vs, ps, 0);
    assert keys[0..] == keys && vs[0..] == vs;
  }

  /** A version object: the key text, the marker 0x5A, then four int fields
      under the wanted keys, reads back as those four values. */
  lemma VersionRoundTrip(buf: seq<byte>, anchor: nat, fs: seq<IntField>, ps: seq<nat>)
    requires |fs| == 4 && |ps| == 5 && ps[0] == anchor + |VersionKey| + 1 && ps[0] <= |buf|
    requires buf[anchor..ps[0]] == VersionKey + [0x5A]
    requires forall i :: 0 <= i < 4 ==> FieldBetween(buf, ps[i], ps[i + 1], Wanted[i], fs[i])
    ensures Version(buf, anchor) == Ok(VersionInfo(fs[0].v, fs[1].v, fs[2].v, fs[3].v))
  {
    VersionHeader(buf, anchor, ps[0]);
    FieldsRoundTrip(buf, Wanted, fs, ps);
  }

  lemma VersionHeader(buf: seq<byte>, anchor: nat, body: nat)
    requires body == anchor + |VersionKey| + 1 && body <= |buf|
    requires buf[anchor..body] == VersionKey + [0x5A]
    ensures KeyAt(buf, anchor, VersionKey) && buf[anchor + |VersionKey|] == 0x5A
  {
    assert Slice(buf, anchor, anchor + |VersionKey|) == buf[anchor..body][..|VersionKey|] == VersionKey;
    assert buf[anchor + |VersionKey|] == buf[anchor..body][|VersionKey|] == 0x5A;
  }
}
