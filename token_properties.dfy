/** Properties of the token stream reader: every well-formed key/value
    encoding reads back as the token it encodes, with the cursor just past it,
    and bytes that start no key header are stepped over one at a time.
 */
module TokenProperties {
  import opened Errors
  import opened Bytes
  import opened TokenStream

  /** A value as the container format stores it after a key. */
  datatype Field =
    | Int32Field(v: int)
    | Int64Field(v: int)
    | LongText(t: seq<byte>)
    | ShortText(t: seq<byte>)
    | Control(m: byte)

  /** The field fits its encoding. */
  predicate Encodable(f: Field)
  {
    match f
    case Int32Field(v) => -(SignBound(4) as int) <= v < SignBound(4)
    case Int64Field(v) => -(SignBound(8) as int) <= v < SignBound(8)
    case LongText(t) => |t| < 0x1_0000_0000
    case ShortText(t) => |t| < 16
    case Control(m) => m != 0x02 && m != 0x03 && m != 0x08 && !IsShortStringMarker(m)
  }

  /** The value marker of a field. */
  function FieldMarker(f: Field): byte
    requires Encodable(f)
  {
    match f
    case Int32Field(_) => 0x02
    case Int64Field(_) => 0x03
    case LongText(_) => 0x08
    case ShortText(t) => 0x80 + |t|
    case Control(m) => m
  }

  /** The little-endian digits after the marker: the integer, or the length of a long text. */
  function FieldDigits(f: Field): seq<byte>
    requires Encodable(f)
  {
    match f
    case Int32Field(v) => LeEncode(TwosComplement(v, 4), 4)
    case Int64Field(v) => LeEncode(TwosComplement(v, 8), 8)
    case LongText(t) => LeEncode(|t|, 4)
    case _ => []
  }

  function FieldText(f: Field): seq<byte>
  {
    match f
    case LongText(t) => t
    case ShortText(t) => t
    case _ => []
  }

  /** The value marker and value bytes of a field. */
  function EncodeField(f: Field): (r: seq<byte>)
    requires Encodable(f)
    ensures |r| >= 1
  {
    [FieldMarker(f)] + FieldDigits(f) + FieldText(f)
  }

  function KindOf(f: Field): Kind
  {
    match f
    case Int32Field(_) => I32
    case Int64Field(_) => I64
    case LongText(_) => Str
    case ShortText(_) => Str
    case Control(_) => Ctl
  }

  function ValueOf(f: Field): TokValue
  {
    match f
    case Int32Field(v) => IntVal(v)
    case Int64Field(v) => IntVal(v)
    case LongText(t) => Text(t)
    case ShortText(t) => Text(t)
    case Control(m) => Marker(m)
  }

  /** A key header: an inline length byte, or a prefix byte and a length byte. */
  function EncodeHeader(prefix: Option<byte>, len: byte): seq<byte>
  {
    if prefix.Some? then [prefix.value, len] else [len]
  }

  /** The header can carry the key: its length is in 1..96, and an inline
      length byte must not be one of the prefix bytes (a key of 42, 74 or 90
      bytes needs the prefixed form, because the reader tests for a prefix first). */
  predicate HeaderOk(prefix: Option<byte>, key: seq<byte>)
  {
    && IsKeyLength(|key|)
    && (prefix.Some? ==> IsKeyPrefix(prefix.value))
    && (prefix.None? ==> !IsKeyPrefix(|key|))
  }

  function EncodeEntry(prefix: Option<byte>, key: seq<byte>, f: Field): seq<byte>
    requires HeaderOk(prefix, key) && Encodable(f)
  {
    EncodeHeader(prefix, |key|) + key + EncodeField(f)
  }

  /** The key text sits at k and the encoded field right after it. */
  predicate FieldAt(buf: seq<byte>, k: nat, key: seq<byte>, field: seq<byte>, post: seq<byte>)
  {
    && k + |key| <= |buf| && buf[k..k + |key|] == key
    && buf[k + |key|..] == field + post
  }

  lemma ReadEncodedField(buf: seq<byte>, k: nat, key: seq<byte>, f: Field, post: seq<byte>)
    requires Encodable(f) && FieldAt(buf, k, key, EncodeField(f), post)
    ensures ReadKeyAndValue(buf, k, |key|) == Yield(Token(key, KindOf(f), ValueOf(f), k + |key| + |EncodeField(f)|))
  {
    match f
    case Int32Field(_) => ReadEncodedInt(buf, k, key, f, post);
    case Int64Field(_) => ReadEncodedInt(buf, k, key, f, post);
    case LongText(_) => ReadEncodedLongText(buf, k, key, f, post);
    case ShortText(_) => ReadEncodedShortText(buf, k, key, f, post);
    case Control(_) => ReadEncodedControl(buf, k, key, f, post);
  }

  lemma ReadEncodedInt(buf: seq<byte>, k: nat, key: seq<byte>, f: Field, post: seq<byte>)
    requires Encodable(f) && FieldAt(buf, k, key, EncodeField(f), post) && (f.Int32Field? || f.Int64Field?)
    ensures ReadKeyAndValue(buf, k, |key|) == Yield(Token(key, KindOf(f), ValueOf(f), k + |key| + |EncodeField(f)|))
  {
    var width := if f.Int32Field? then 4 else 8;
    var u := TwosComplement(f.v, width);
    Layout(buf, k + |key|, [FieldMarker(f)], FieldDigits(f), FieldText(f), post);
    assert FieldDigits(f) == LeEncode(u, width);
    LeDecodeEncode(u, width);
    assert Slice(buf, k, k + |key|) == key;
    ReadsInt(buf, k, |key|, f.v, width);
  }

  lemma ReadEncodedLongText(buf: seq<byte>, k: nat, key: seq<byte>, f: Field, post: seq<byte>)
    requires Encodable(f) && FieldAt(buf, k, key, EncodeField(f), post) && f.LongText?
    ensures ReadKeyAndValue(buf, k, |key|) == Yield(Token(key, KindOf(f), ValueOf(f), k + |key| + |EncodeField(f)|))
  {
    assert Slice(buf, k, k + |key|) == key;
    Layout(buf, k + |key|, [FieldMarker(f)], FieldDigits(f), FieldText(f), post);
    LeDecodeEncode(|f.t|, 4);
    ReadsLongText(buf, k, |key|, f.t);
  }

  lemma ReadEncodedShortText(buf: seq<byte>, k: nat, key: seq<byte>, f: Field, post: seq<byte>)
    requires Encodable(f) && FieldAt(buf, k, key, EncodeField(f), post) && f.ShortText?
    ensures ReadKeyAndValue(buf, k, |key|) == Yield(Token(key, KindOf(f), ValueOf(f), k + |key| + |EncodeField(f)|))
  {
    assert Slice(buf, k, k + |key|) == key;
    Layout(buf, k + |key|, [FieldMarker(f)], FieldDigits(f), FieldText(f), post);
    ReadsShortText(buf, k, |key|, f.t);
  }

  lemma ReadEncodedControl(buf: seq<byte>, k: nat, key: seq<byte>, f: Field, post: seq<byte>)
    requires Encodable(f) && FieldAt(buf, k, key, EncodeField(f), post) && f.Control?
    ensures ReadKeyAndValue(buf, k, |key|) == Yield(Token(key, KindOf(f), ValueOf(f), k + |key| + |EncodeField(f)|))
  {
    assert Slice(buf, k, k + |key|) == key;
    Layout(buf, k + |key|, [FieldMarker(f)], FieldDigits(f), FieldText(f), post);
  }

  /** The marker, the digits and the text of an encoded value, found in the buffer. */
  lemma Layout(buf: seq<byte>, j: nat, mark: seq<byte>, digits: seq<byte>, text: seq<byte>, post: seq<byte>)
    requires |mark| == 1 && j <= |buf|
    requires buf[j..] == mark + digits + text + post
    ensures var d := |digits|;
            && j + 1 + d + |text| <= |buf| && buf[j] == mark[0]
            && buf[j + 1..j + 1 + d] == digits && buf[j + 1 + d..j + 1 + d + |text|] == text
  {
    var d := |digits|;
    var tail := buf[j..];
    assert buf[j] == tail[0];
    assert buf[j + 1..j + 1 + d] == tail[1..1 + d];
    assert tail[1..1 + d] == digits;
    assert buf[j + 1 + d..j + 1 + d + |text|] == tail[1 + d..1 + d + |text|];
    assert tail[1 + d..1 + d + |text|] == text;
  }

  lemma ReadsInt(buf: seq<byte>, k: nat, klen: nat, x: int, width: nat)
    requires width == 4 || width == 8
    requires k + klen + 1 + width <= |buf|
    requires buf[k + klen] == if width == 4 then 0x02 else 0x03
    requires ToSigned(LeUnsigned(buf[k + klen + 1..k + klen + 1 + width]), width) == x
    ensures ReadKeyAndValue(buf, k, klen)
              == Yield(Token(Slice(buf, k, k + klen), if width == 4 then I32 else I64, IntVal(x), k + klen + 1 + width))
  {
    assert UnpackFrom(buf, k + klen + 1, width, true) == Ok(x);
  }

  lemma ReadsLongText(buf: seq<byte>, k: nat, klen: nat, t: seq<byte>)
    requires k + klen + 5 + |t| <= |buf| && buf[k + klen] == 0x08
    requires LeUnsigned(buf[k + klen + 1..k + klen + 5]) == |t|
    requires buf[k + klen + 5..k + klen + 5 + |t|] == t
    ensures ReadKeyAndValue(buf, k, klen) == Yield(Token(Slice(buf, k, k + klen), Str, Text(t), k + klen + 5 + |t|))
  {
    var v := k + klen + 1;
    assert UnpackFrom(buf, v, 4, false) == Ok(|t|);
    assert Slice(buf, v + 4, v + 4 + |t|) == t;
  }

  lemma ReadsShortText(buf: seq<byte>, k: nat, klen: nat, t: seq<byte>)
    requires |t| < 16
    requires k + klen + 1 + |t| <= |buf| && buf[k + klen] == 0x80 + |t|
    requires buf[k + klen + 1..k + klen + 1 + |t|] == t
    ensures ReadKeyAndValue(buf, k, klen) == Yield(Token(Slice(buf, k, k + klen), Str, Text(t), k + klen + 1 + |t|))
  {
    assert (0x80 + |t|) % 16 == |t|;
  }

  /** An encoded entry reads back as its token, with the cursor just past it. */
  lemma {:induction false} ReadEncodedEntry(pre: seq<byte>, prefix: Option<byte>, key: seq<byte>, f: Field, post: seq<byte>)
    requires HeaderOk(prefix, key) && Encodable(f)
    ensures var enc := EncodeEntry(prefix, key, f);
            ReadEntry(pre + enc + post, |pre|)
              == Yield(Token(key, KindOf(f), ValueOf(f), |pre| + |enc|))
  {
    var h := EncodeHeader(prefix, |key|);
    var field := EncodeField(f);
    var buf := pre + (h + key + field) + post;
    EntryLayout(pre, h, key, field, post);
    HeaderRead(buf, |pre|, prefix, |key|);
    ReadEncodedField(buf, |pre| + |h|, key, f, post);
  }

  /** Where the parts of an entry sit in the buffer. */
  lemma EntryLayout(pre: seq<byte>, h: seq<byte>, key: seq<byte>, field: seq<byte>, post: seq<byte>)
    requires |h| >= 1
    ensures var buf := pre + (h + key + field) + post;
            && buf[|pre|] == h[0] && (|h| > 1 ==> buf[|pre| + 1] == h[1])
            && FieldAt(buf, |pre| + |h|, key, field, post)
  {
    var buf := pre + (h + key + field) + post;
    var k := |pre| + |h|;
    forall i | k <= i < k + |key|
      ensures buf[i] == key[i - k]
    {
      assert buf[i] == (h + key + field)[i - |pre|];
    }
    assert buf[k..k + |key|] == key;
    forall i | k + |key| <= i < |buf|
      ensures buf[i] == (field + post)[i - k - |key|]
    {
      if i < |pre| + |h + key + field| {
        assert buf[i] == (h + key + field)[i - |pre|];
      }
    }
    assert buf[k + |key|..] == field + post;
  }

  /** A well-formed header at i hands the key and value to ReadKeyAndValue. */
  lemma HeaderRead(buf: seq<byte>, i: nat, prefix: Option<byte>, klen: byte)
    requires prefix.Some? ==> IsKeyPrefix(prefix.value)
    requires prefix.None? ==> !IsKeyPrefix(klen)
    requires IsKeyLength(klen)
    requires var h := EncodeHeader(prefix, klen);
             i + |h| <= |buf| && buf[i] == h[0] && (|h| > 1 ==> buf[i + 1] == h[1])
    ensures ReadEntry(buf, i) == ReadKeyAndValue(buf, i + |EncodeHeader(prefix, klen)|, klen)
  {
  }

  /** Bytes at which no key header starts are stepped over without a token. */
  lemma {:induction false} NoiseSkipped(buf: seq<byte>, i: nat, j: nat, stop: int)
    requires i <= j <= |buf|
    requires forall k :: i <= k < j ==> IsNoise(buf[k])
    ensures NextSpec(buf, i, stop) == NextSpec(buf, j, stop)
    decreases j - i
  {
    if i < j && i + 2 < stop {
      assert ReadEntry(buf, i) == Skip(i + 1);
      NoiseSkipped(buf, i + 1, j, stop);
    }
  }

  /** After noise, the next token of the stream is the encoded entry. */
  lemma StreamYieldsEncoded(pre: seq<byte>, noise: seq<byte>, prefix: Option<byte>, key: seq<byte>,
                            f: Field, post: seq<byte>, stop: int)
    requires HeaderOk(prefix, key) && Encodable(f)
    requires forall k :: 0 <= k < |noise| ==> IsNoise(noise[k])
    requires |pre| + |noise| + 2 < stop
    ensures var enc := EncodeEntry(prefix, key, f);
            NextSpec(pre + noise + enc + post, |pre|, stop)
              == Got(Token(key, KindOf(f), ValueOf(f), |pre| + |noise| + |enc|))
  {
    var enc := EncodeEntry(prefix, key, f);
    var lead := pre + noise;
    var buf := lead + enc + post;
    assert pre + noise + enc + post == buf;
    NoiseInBuffer(lead, enc + post, |pre|, noise);
    assert buf == lead + (enc + post);
    NoiseSkipped(buf, |pre|, |lead|, stop);
    ReadEncodedEntry(lead, prefix, key, f, post);
    YieldedEntry(buf, |lead|, stop);
  }

  lemma NoiseInBuffer(lead: seq<byte>, tail: seq<byte>, at: nat, noise: seq<byte>)
    requires at + |noise| == |lead| && lead[at..] == noise
    requires forall k :: 0 <= k < |noise| ==> IsNoise(noise[k])
    ensures forall k :: at <= k < |lead| ==> IsNoise((lead + tail)[k])
  {
    forall k | at <= k < |lead|
      ensures IsNoise((lead + tail)[k])
    {
      assert (lead + tail)[k] == lead[k] == noise[k - at];
    }
  }

  lemma YieldedEntry(buf: seq<byte>, i: nat, stop: int)
    requires i + 2 < stop && ReadEntry(buf, i).Yield?
    ensures NextSpec(buf, i, stop) == Got(ReadEntry(buf, i).tok)
  {
  }

  /** A key header that claims 200 bytes is noise: the reader moves one byte on. */
  lemma OverlongHeaderSkipped(buf: seq<byte>, i: nat, stop: int)
    requires i < |buf| && buf[i] == 200 && i + 2 < stop
    ensures ReadEntry(buf, i) == Skip(i + 1)
    ensures NextSpec(buf, i, stop) == NextSpec(buf, i + 1, stop)
  {
  }
}
