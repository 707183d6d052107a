/** The token stream reader of the ratings decoder (`tok_stream`, `next_token`,
    `expect`, `body_start`).

    A token is a key header, the key text and one value. The reader walks the
    buffer from a start offset while at least three bytes remain before the
    stop offset; a byte that is no key header is skipped. The Python generator
    is a `TokenStream` object whose only state is its cursor; a consumer that
    replaces it by a new generator over the same buffer restarts the cursor.

    Keys and strings stay raw bytes: comparing a key decoded with
    `utf-8/replace` against an ASCII literal is the same as comparing the bytes.
 */
module TokenStream {
  import opened Errors
  import opened Bytes

  datatype Kind = I32 | I64 | Str | Ctl

  datatype TokValue = IntVal(n: int) | Text(bytes: seq<byte>) | Marker(m: byte)

  /** `(key, typ, val, cursor)`: the cursor is the first byte after the value. */
  datatype Token = Token(key: seq<byte>, kind: Kind, val: TokValue, cursor: nat)

  /** The four prefix bytes after which the next byte is the key length. */
  predicate IsKeyPrefix(b: int)
  {
    b == 0x2A || b == 0x4A || b == 0x5A || b == 0x6A
  }

  /** A key length the reader accepts. */
  predicate IsKeyLength(b: int)
  {
    0 < b <= 96
  }

  /** A byte at which no key header starts: the reader steps over it. */
  predicate IsNoise(b: int): (r: bool)
    // noise is what lies outside 1..96, except the prefix 0x6A
    ensures r <==> (b <= 0 || 96 < b) && b != 0x6A
  {
    !IsKeyPrefix(b) && !IsKeyLength(b)
  }

  predicate IsShortStringMarker(m: int)
  {
    0x80 <= m <= 0x8F
  }

  /** The value of a token has the shape its kind says: an int32 or int64
      within its signed range, a text, or the control marker itself. */
  predicate WellTyped(t: Token)
  {
    && (t.kind == I32 ==> t.val.IntVal? && -(SignBound(4) as int) <= t.val.n < SignBound(4))
    && (t.kind == I64 ==> t.val.IntVal? && -(SignBound(8) as int) <= t.val.n < SignBound(8))
    && (t.kind == Str ==> t.val.Text?)
    && (t.kind == Ctl ==> t.val.Marker? && !IsShortStringMarker(t.val.m)
                          && t.val.m != 0x02 && t.val.m != 0x03 && t.val.m != 0x08)
  }

  /** One iteration of the reader's loop: skip to another offset, produce a
      token, or raise. */
  datatype Entry = Skip(next: nat) | Yield(tok: Token) | Fail(err: Error)

  /** Reads a key text of klen bytes at k, then the value marker and the value. */
  function ReadKeyAndValue(buf: seq<byte>, k: nat, klen: nat): (e: Entry)
    ensures !e.Skip?
    ensures e.Yield? ==> e.tok.cursor > k + klen && WellTyped(e.tok)
  {
    var key := Slice(buf, k, k + klen);
    var j := k + klen;
    if j >= |buf| then Fail(IndexPastEnd(j))
    else
      var vmark := buf[j];
      var v := j + 1;
      if vmark == 0x02 then
        match UnpackFrom(buf, v, 4, true)
        case Ok(x) => Yield(Token(key, I32, IntVal(x), v + 4))
        case Err(e) => Fail(e)
      else if vmark == 0x03 then
        match UnpackFrom(buf, v, 8, true)
        case Ok(x) => Yield(Token(key, I64, IntVal(x), v + 8))
        case Err(e) => Fail(e)
      else if vmark == 0x08 then
        match UnpackFrom(buf, v, 4, false)
        case Ok(slen) =>
          var len: nat := slen;
          Yield(Token(key, Str, Text(Slice(buf, v + 4, v + 4 + len)), v + 4 + len))
        case Err(e) => Fail(e)
      else if IsShortStringMarker(vmark) then
        var slen := vmark % 16;
        Yield(Token(key, Str, Text(Slice(buf, v, v + slen)), v + slen))
      else
        Yield(Token(key, Ctl, Marker(vmark), v))
  }

  /** The body of the reader's loop at offset i. */
  function ReadEntry(buf: seq<byte>, i: nat): (e: Entry)
    ensures e.Yield? ==> e.tok.cursor > i + 1 && WellTyped(e.tok)
  {
    if i >= |buf| then Fail(IndexPastEnd(i))
    else if IsKeyPrefix(buf[i]) then
      if i + 1 >= |buf| then Fail(IndexPastEnd(i + 1))
      else if !IsKeyLength(buf[i + 1]) then Skip(i + 2)
      else ReadKeyAndValue(buf, i + 2, buf[i + 1])
    else if IsKeyLength(buf[i]) then ReadKeyAndValue(buf, i + 1, buf[i])
    else Skip(i + 1)
  }

  /** The value rules: the key is the klen bytes at k; the read raises exactly
      when the marker byte is missing or a fixed-size value runs past the end. */
  lemma KeyAndValueRules(buf: seq<byte>, k: nat, klen: nat)
    ensures var e := ReadKeyAndValue(buf, k, klen);
            && (e.Yield? ==> e.tok.key == Slice(buf, k, k + klen) && k + klen < |buf|)
            && (e.Fail? <==> k + klen >= |buf|
                             || (buf[k + klen] == 0x02 && k + klen + 5 > |buf|)
                             || (buf[k + klen] == 0x03 && k + klen + 9 > |buf|)
                             || (buf[k + klen] == 0x08 && k + klen + 5 > |buf|))
  {
  }

  /** The header rules of the reader's loop. */
  lemma HeaderRules(buf: seq<byte>, i: nat)
    ensures var e := ReadEntry(buf, i);
            // a byte that is no header advances by one, a prefix with a bad length by two
            && (e.Skip? <==> i < |buf| && (IsNoise(buf[i])
                             || (IsKeyPrefix(buf[i]) && i + 1 < |buf| && !IsKeyLength(buf[i + 1]))))
            && (e.Skip? ==> e.next == if IsKeyPrefix(buf[i]) then i + 2 else i + 1)
            && (e.Yield? ==> i < |buf| && (IsKeyPrefix(buf[i]) ==> i + 1 < |buf|))
            // a prefix byte takes the next byte as the key length, a byte in 1..96 is the length
            && (e.Yield? && IsKeyPrefix(buf[i]) ==>
                  e.tok.key == Slice(buf, i + 2, i + 2 + buf[i + 1]) && IsKeyLength(buf[i + 1]))
            && (e.Yield? && !IsKeyPrefix(buf[i]) ==>
                  e.tok.key == Slice(buf, i + 1, i + 1 + buf[i]) && IsKeyLength(buf[i]))
  {
    KeyAndValueRules(buf, i + 1, if i < |buf| then buf[i] else 0);
    if i + 1 < |buf| {
      KeyAndValueRules(buf, i + 2, buf[i + 1]);
    }
  }

  /** What `next()` on a stream whose cursor is i produces. */
  datatype NextResult = Exhausted | Got(tok: Token) | Raised(err: Error)

  /** The generator's `next()`: loop while `i + 2 < stop`, skipping entries. */
  function NextSpec(buf: seq<byte>, i: nat, stop: int): (r: NextResult)
    ensures r.Got? ==> r.tok.cursor > i + 1 && WellTyped(r.tok)
    decreases stop - i
  {
    if i + 2 >= stop then Exhausted
    else
      match ReadEntry(buf, i)
      case Skip(j) => NextSpec(buf, j, stop)
      case Yield(t) => Got(t)
      case Fail(e) => Raised(e)
  }

  /** A `tok_stream(buf, start, stop)` generator. */
  class TokenStream {
    const buf: seq<byte>
    const stop: int
    var pos: nat

    constructor (buf: seq<byte>, start: nat, stop: int)
      ensures this.buf == buf && this.stop == stop && pos == start
    {
      this.buf := buf;
      this.stop := stop;
      pos := start;
    }

    /** `ts = tok_stream(buf, p, stop)` over the same buffer: the generator's
        only state is its cursor, so restarting it moves the cursor to p. */
    method Restart(p: nat)
      modifies this
      ensures pos == p
    {
      pos := p;
    }

    /** `next(ts)`: the next token, or the end of the stream, or the exception raised. */
    method Next() returns (r: NextResult)
      modifies this
      ensures r == NextSpec(buf, old(pos), stop)
      ensures r.Got? ==> pos == r.tok.cursor
    {
      var i := pos;
      while i + 2 < stop
        invariant NextSpec(buf, old(pos), stop) == NextSpec(buf, i, stop)
        decreases stop - i
      {
        // key header
        if i >= |buf| {
          r := Raised(IndexPastEnd(i));
          return;
        }
        var start := i;
        var mark := buf[i];
        var klen: nat;
        if IsKeyPrefix(mark) {
          i := i + 1;
          if i >= |buf| {
            r := Raised(IndexPastEnd(i));
            return;
          }
          klen := buf[i];
          i := i + 1;
          if !IsKeyLength(klen) {
            assert ReadEntry(buf, start) == Skip(i);
            continue;
          }
        } else if IsKeyLength(mark) {
          klen := mark;
          i := i + 1;
        } else {
          i := i + 1;
          assert ReadEntry(buf, start) == Skip(i);
          continue;
        }
        assert ReadEntry(buf, start) == ReadKeyAndValue(buf, i, klen);
        var e := ReadKeyValue(i, klen);
        if e.Fail? {
          r := Raised(e.err);
          return;
        }
        pos := e.tok.cursor;
        r := Got(e.tok);
        return;
      }
      pos := i;
      r := Exhausted;
    }

    /** The key text of klen bytes at i, its value marker and its value. */
    method ReadKeyValue(i: nat, klen: nat) returns (e: Entry)
      ensures e == ReadKeyAndValue(buf, i, klen)
    {
      var key := Slice(buf, i, i + klen);
      var j := i + klen;
      if j >= |buf| {
        return Fail(IndexPastEnd(j));
      }
      var vmark := buf[j];
      j := j + 1;
      if vmark == 0x02 {
        var x := UnpackFrom(buf, j, 4, true);
        if x.Err? {
          return Fail(x.error);
        }
        e := Yield(Token(key, I32, IntVal(x.value), j + 4));
      } else if vmark == 0x03 {
        var x := UnpackFrom(buf, j, 8, true);
        if x.Err? {
          return Fail(x.error);
        }
        e := Yield(Token(key, I64, IntVal(x.value), j + 8));
      } else if vmark == 0x08 {
        var x := UnpackFrom(buf, j, 4, false);
        if x.Err? {
          return Fail(x.error);
        }
        var slen: nat := x.value;
        j := j + 4;
        e := Yield(Token(key, Str, Text(Slice(buf, j, j + slen)), j + slen));
      } else if IsShortStringMarker(vmark) {
        var slen := vmark % 16;
        e := Yield(Token(key, Str, Text(Slice(buf, j, j + slen)), j + slen));
      } else {
        e := Yield(Token(key, Ctl, Marker(vmark), j));
      }
    }
  }

  /** `expect(ts, key, kinds)` given what `next(ts)` produced: the value and
      cursor of the token, which must have the wanted key and one of the
      wanted kinds. */
  function ExpectOf(n: NextResult, key: seq<byte>, kinds: set<Kind>): (r: Result<(TokValue, nat)>)
    ensures r.Ok? <==> n.Got? && n.tok.key == key && n.tok.kind in kinds
    ensures r.Ok? ==> r.value == (n.tok.val, n.tok.cursor)
    ensures n.Exhausted? ==> r == Err(UnexpectedEof)
    ensures n.Raised? ==> r == Err(n.err)
    ensures n.Got? && !r.Ok? ==> r == Err(TokenMismatch(n.tok.cursor))
  {
    match n
    case Exhausted => Err(UnexpectedEof)
    case Raised(e) => Err(e)
    case Got(t) =>
      if t.key != key || t.kind !in kinds then Err(TokenMismatch(t.cursor))
      else Ok((t.val, t.cursor))
  }

  /** What a stream over buf ending at stop produces from each cursor. */
  type Reader = nat -> NextResult

  function StreamOf(buf: seq<byte>, stop: int): Reader
  {
    (p: nat) => NextSpec(buf, p, stop)
  }

  /** A reader that behaves as the token stream does: every token ends past
      its header and carries a value of its kind. */
  ghost predicate Sound(next: Reader)
  {
    forall p: nat :: next(p).Got? ==> next(p).tok.cursor > p + 1 && WellTyped(next(p).tok)
  }

  lemma StreamSound(buf: seq<byte>, stop: int)
    ensures Sound(StreamOf(buf, stop))
  {
    forall p: nat | StreamOf(buf, stop)(p).Got?
      ensures StreamOf(buf, stop)(p).tok.cursor > p + 1 && WellTyped(StreamOf(buf, stop)(p).tok)
    {
      assert StreamOf(buf, stop)(p) == NextSpec(buf, p, stop);
    }
  }

  method Expect(ts: TokenStream, key: seq<byte>, kinds: set<Kind>) returns (r: Result<(TokValue, nat)>)
    modifies ts
    ensures r == ExpectOf(NextSpec(ts.buf, old(ts.pos), ts.stop), key, kinds)
    ensures r.Ok? ==> ts.pos == r.value.1
  {
    var n := ts.Next();
    match n
    case Exhausted =>
      r := Err(UnexpectedEof);
    case Raised(e) =>
      r := Err(e);
    case Got(t) =>
      if t.key != key || t.kind !in kinds {
        r := Err(TokenMismatch(t.cursor));
      } else {
        r := Ok((t.val, t.cursor));
      }
  }

  /** `next_token(ts, key, kind)`: like `expect` with a single kind, returning the value only. */
  method NextTokenOf(ts: TokenStream, key: seq<byte>, kind: Kind) returns (r: Result<TokValue>)
    modifies ts
    ensures r.Ok? <==> ExpectOf(NextSpec(ts.buf, old(ts.pos), ts.stop), key, {kind}).Ok?
    ensures r.Ok? ==> r.value == ExpectOf(NextSpec(ts.buf, old(ts.pos), ts.stop), key, {kind}).value.0
    ensures r.Err? ==> r.error == ExpectOf(NextSpec(ts.buf, old(ts.pos), ts.stop), key, {kind}).error
  {
    var e := Expect(ts, key, {kind});
    if e.Err? {
      r := Err(e.error);
    } else {
      r := Ok(e.value.0);
    }
  }

  /** The key text is at the anchor (`buf[anchor:anchor+len(key)] == key`). */
  predicate KeyAt(buf: seq<byte>, anchor: nat, key: seq<byte>)
  {
    Slice(buf, anchor, anchor + |key|) == key
  }

  lemma KeyAtInBounds(buf: seq<byte>, anchor: nat, key: seq<byte>)
    requires |key| > 0
    ensures KeyAt(buf, anchor, key) <==> anchor + |key| <= |buf| && buf[anchor..anchor + |key|] == key
  {
  }

  /** `body_start`: the first offset after the key text and its object marker 0xC9 or 0x99. */
  function BodyStart(buf: seq<byte>, anchor: nat, key: seq<byte>): (r: Result<nat>)
    ensures r.Ok? <==> KeyAt(buf, anchor, key) && anchor + |key| < |buf|
                       && (buf[anchor + |key|] == 0xC9 || buf[anchor + |key|] == 0x99)
    ensures r.Ok? ==> r.value == anchor + |key| + 1
    ensures !KeyAt(buf, anchor, key) ==> r == Err(KeyTextMismatch(anchor))
  {
    if !KeyAt(buf, anchor, key) then Err(KeyTextMismatch(anchor))
    else
      var cursor := anchor + |key|;
      if cursor >= |buf| then Err(IndexPastEnd(cursor))
      else if buf[cursor] != 0xC9 && buf[cursor] != 0x99 then Err(UnknownContainer(cursor, buf[cursor]))
      else Ok(cursor + 1)
  }
}
