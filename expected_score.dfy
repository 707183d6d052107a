/** `parse_expected_score`: the eleven (name, negative multiplier, positive
    multiplier) triplets that follow the `expected_score_data` key.

    The triplets are read from a token stream. A name whose last byte is a
    control byte (below 32) means the stream swallowed the first byte of the
    next key header: the stream is restarted one byte before the name's
    cursor. Only in verbose mode is that control byte also dropped from the
    returned name.
 */
module ExpectedScore {
  import opened Errors
  import opened Bytes
  import opened TokenStream

  datatype ExpectedScoreRow = ExpectedScoreRow(name: seq<byte>, negative: int, positive: int)

  const SectionKey: seq<byte> := [0x65, 0x78, 0x70, 0x65, 0x63, 0x74, 0x65, 0x64, 0x5F, 0x73, 0x63, 0x6F, 0x72, 0x65, 0x5F, 0x64, 0x61, 0x74, 0x61]  // "expected_score_data"
  const NameKey: seq<byte> := [0x6E, 0x61, 0x6D, 0x65]  // "name"
  const NegativeKey: seq<byte> := [0x6E, 0x65, 0x67, 0x61, 0x74, 0x69, 0x76, 0x65, 0x5F, 0x6D, 0x75, 0x6C, 0x74, 0x69, 0x70, 0x6C, 0x69, 0x65, 0x72]  // "negative_multiplier"
  const PositiveKey: seq<byte> := [0x70, 0x6F, 0x73, 0x69, 0x74, 0x69, 0x76, 0x65, 0x5F, 0x6D, 0x75, 0x6C, 0x74, 0x69, 0x70, 0x6C, 0x69, 0x65, 0x72]  // "positive_multiplier"
  const RowCount: nat := 11

  /** A name whose last byte is a control byte. */
  predicate HasStrayByte(name: seq<byte>)
  {
    |name| > 0 && name[|name| - 1] < 32
  }

  /** The name token of a triplet read from a stream whose cursor is pos: the
      name as returned and the cursor the multipliers are read from. */
  function ReadName(next: Reader, pos: nat, verbose: bool): (r: Result<(seq<byte>, nat)>)
    requires Sound(next)
    ensures r.Ok? ==> r.value.1 > pos
  {
    var n :- ExpectOf(next(pos), NameKey, {Str});
    var name := n.0.bytes;
    var resume := if HasStrayByte(name) then n.1 - 1 else n.1;
    var shown := if HasStrayByte(name) && verbose then name[..|name| - 1] else name;
    Ok((shown, resume))
  }

  /** The two multipliers of a triplet and the cursor after them. */
  function ReadMultipliers(next: Reader, pos: nat): (r: Result<(int, int, nat)>)
    requires Sound(next)
    ensures r.Ok? ==> r.value.2 > pos
    ensures r.Ok? ==> -0x8000_0000_0000_0000 <= r.value.0 < 0x8000_0000_0000_0000
                      && -0x8000_0000_0000_0000 <= r.value.1 < 0x8000_0000_0000_0000
  {
    SignBoundWidths();
    var neg :- ExpectOf(next(pos), NegativeKey, {I32, I64});
    var posv :- ExpectOf(next(neg.1), PositiveKey, {I32, I64});
    Ok((neg.0.n, posv.0.n, posv.1))
  }

  /** One triplet read from a stream whose cursor is pos; the second component
      is the cursor after it. */
  function ReadRow(next: Reader, pos: nat, verbose: bool): (r: Result<(ExpectedScoreRow, nat)>)
    requires Sound(next)
    ensures r.Ok? ==> r.value.1 > pos
  {
    var name :- ReadName(next, pos, verbose);
    var m :- ReadMultipliers(next, name.1);
    Ok((ExpectedScoreRow(name.0, m.0, m.1), m.2))
  }

  /** `count` consecutive triplets. */
  function ReadRows(next: Reader, pos: nat, count: nat, verbose: bool): (r: Result<seq<ExpectedScoreRow>>)
    requires Sound(next)
    ensures r.Ok? ==> |r.value| == count
    decreases count
  {
    if count == 0 then Ok([])
    else
      var row :- ReadRow(next, pos, verbose);
      var rest :- ReadRows(next, row.1, count - 1, verbose);
      Ok([row.0] + rest)
  }

  /** The whole section: the key and its object marker, then eleven triplets
      from a stream that starts after the marker and ends at stop. */
  function ExpectedScores(buf: seq<byte>, start: nat, stop: int, verbose: bool)
    : (r: Result<seq<ExpectedScoreRow>>)
    ensures r.Ok? ==> |r.value| == RowCount
    ensures r.Ok? ==> BodyStart(buf, start, SectionKey).Ok?
  {
    var body :- BodyStart(buf, start, SectionKey);
    StreamSound(buf, stop);
    ReadRows(StreamOf(buf, stop), body, RowCount, verbose)
  }

  /** The name a row gets: the token's text, less its stray control byte in
      verbose mode; the multipliers are read from one byte before the name's
      cursor when the name ends in a stray byte. */
  lemma RowName(next: Reader, pos: nat, verbose: bool)
    requires Sound(next) && ReadName(next, pos, verbose).Ok?
    ensures var tok := next(pos).tok;
            var name := ReadName(next, pos, verbose).value;
            && next(pos).Got? && tok.kind == Str && tok.key == NameKey
            && (if HasStrayByte(tok.val.bytes)
                then name.1 == tok.cursor - 1
                     && (verbose ==> name.0 + [tok.val.bytes[|tok.val.bytes| - 1]] == tok.val.bytes)
                     && (!verbose ==> name.0 == tok.val.bytes)
                else name.1 == tok.cursor && name.0 == tok.val.bytes)
  {
  }

  /** Verbose mode changes nothing but the names: the same rows succeed at the
      same cursors with the same multipliers. */
  lemma VerboseOnlyTrims(next: Reader, pos: nat)
    requires Sound(next)
    ensures ReadRow(next, pos, true).Ok? == ReadRow(next, pos, false).Ok?
    ensures ReadRow(next, pos, true).Ok? ==>
              var t := ReadRow(next, pos, true).value;
              var f := ReadRow(next, pos, false).value;
              t.1 == f.1 && t.0.negative == f.0.negative && t.0.positive == f.0.positive
  {
    assert ReadName(next, pos, true).Ok? == ReadName(next, pos, false).Ok?;
    if ReadName(next, pos, true).Ok? {
      assert ReadName(next, pos, true).value.1 == ReadName(next, pos, false).value.1;
    }
  }

  /** The (negative, positive) multiplier pairs of some rows. */
  function Multipliers(rows: seq<ExpectedScoreRow>): (r: seq<(int, int)>)
    ensures |r| == |rows|
    ensures forall i :: 0 <= i < |rows| ==> r[i] == (rows[i].negative, rows[i].positive)
  {
    seq(|rows|, i requires 0 <= i < |rows| => (rows[i].negative, rows[i].positive))
  }

  /** Over all rows, verbose mode yields the same multipliers. */
  lemma {:induction false} VerboseKeepsMultipliers(next: Reader, pos: nat, count: nat)
    requires Sound(next)
    ensures ReadRows(next, pos, count, true).Ok? == ReadRows(next, pos, count, false).Ok?
    ensures ReadRows(next, pos, count, true).Ok? ==>
              Multipliers(ReadRows(next, pos, count, true).value)
                == Multipliers(ReadRows(next, pos, count, false).value)
    decreases count
  {
    if count > 0 {
      VerboseOnlyTrims(next, pos);
      var t := ReadRow(next, pos, true);
      if t.Ok? {
        var f := ReadRow(next, pos, false);
        VerboseKeepsMultipliers(next, t.value.1, count - 1);
        var tr := ReadRows(next, t.value.1, count - 1, true);
        var fr := ReadRows(next, t.value.1, count - 1, false);
        if tr.Ok? {
          MultipliersCons(t.value.0, f.value.0, tr.value, fr.value);
        }
      }
    }
  }

  lemma MultipliersCons(a: ExpectedScoreRow, b: ExpectedScoreRow, ra: seq<ExpectedScoreRow>, rb: seq<ExpectedScoreRow>)
    requires a.negative == b.negative && a.positive == b.positive
    requires Multipliers(ra) == Multipliers(rb)
    ensures Multipliers([a] + ra) == Multipliers([b] + rb)
  {
    assert Multipliers([a] + ra) == [(a.negative, a.positive)] + Multipliers(ra);
    assert Multipliers([b] + rb) == [(b.negative, b.positive)] + Multipliers(rb);
  }

  lemma RowsAdvance(next: Reader, pos: nat, count: nat, verbose: bool, done: seq<ExpectedScoreRow>)
    requires Sound(next) && count > 0
    ensures ReadRow(next, pos, verbose).Err? ==>
              Prepend(done, ReadRows(next, pos, count, verbose)) == Err(ReadRow(next, pos, verbose).error)
    ensures ReadRow(next, pos, verbose).Ok? ==>
              var row := ReadRow(next, pos, verbose).value;
              Prepend(done, ReadRows(next, pos, count, verbose))
                == Prepend(done + [row.0], ReadRows(next, row.1, count - 1, verbose))
  {
    var rest := ReadRows(next, pos, count, verbose);
    if ReadRow(next, pos, verbose).Ok? {
      var row := ReadRow(next, pos, verbose).value;
      var tail := ReadRows(next, row.1, count - 1, verbose);
      if tail.Ok? {
        assert done + ([row.0] + tail.value) == (done + [row.0]) + tail.value;
      }
    }
  }

  /** A method's outcome paired with the cursor it leaves. */
  function WithCursor<T>(r: Result<T>, cursor: nat): Result<(T, nat)>
  {
    match r
    case Ok(v) => Ok((v, cursor))
    case Err(e) => Err(e)
  }

  /** The name of a triplet; after a stray byte the stream is restarted a byte earlier. */
  method ReadNameOf(ts: TokenStream, verbose: bool) returns (r: Result<seq<byte>>)
    modifies ts
    ensures Sound(StreamOf(ts.buf, ts.stop))
    ensures WithCursor(r, ts.pos) == ReadName(StreamOf(ts.buf, ts.stop), old(ts.pos), verbose)
  {
    StreamSound(ts.buf, ts.stop);
    assert StreamOf(ts.buf, ts.stop)(ts.pos) == NextSpec(ts.buf, ts.pos, ts.stop);
    var n := Expect(ts, NameKey, {Str});
    if n.Err? {
      return Err(n.error);
    }
    var name := n.value.0.bytes;
    if HasStrayByte(name) {
      if verbose {
        name := name[..|name| - 1];
      }
      ts.Restart(n.value.1 - 1);
    }
    r := Ok(name);
  }

  /** The two multipliers of a triplet. */
  method ReadMultipliersOf(ts: TokenStream) returns (r: Result<(int, int)>)
    modifies ts
    ensures Sound(StreamOf(ts.buf, ts.stop))
    ensures r.Ok? <==> ReadMultipliers(StreamOf(ts.buf, ts.stop), old(ts.pos)).Ok?
    ensures r.Ok? ==> var m := ReadMultipliers(StreamOf(ts.buf, ts.stop), old(ts.pos)).value;
                      r.value == (m.0, m.1) && ts.pos == m.2
    ensures r.Err? ==> r.error == ReadMultipliers(StreamOf(ts.buf, ts.stop), old(ts.pos)).error
  {
    StreamSound(ts.buf, ts.stop);
    assert StreamOf(ts.buf, ts.stop)(ts.pos) == NextSpec(ts.buf, ts.pos, ts.stop);
    var neg := Expect(ts, NegativeKey, {I32, I64});
    if neg.Err? {
      return Err(neg.error);
    }
    assert StreamOf(ts.buf, ts.stop)(ts.pos) == NextSpec(ts.buf, ts.pos, ts.stop);
    var pos := Expect(ts, PositiveKey, {I32, I64});
    if pos.Err? {
      return Err(pos.error);
    }
    r := Ok((neg.value.0.n, pos.value.0.n));
  }

  /** One triplet from the stream. */
  method ReadTriplet(ts: TokenStream, verbose: bool) returns (r: Result<ExpectedScoreRow>)
    modifies ts
    ensures Sound(StreamOf(ts.buf, ts.stop))
    ensures WithCursor(r, ts.pos) == ReadRow(StreamOf(ts.buf, ts.stop), old(ts.pos), verbose)
  {
    var name := ReadNameOf(ts, verbose);
    if name.Err? {
      return Err(name.error);
    }
    var m := ReadMultipliersOf(ts);
    if m.Err? {
      return Err(m.error);
    }
    r := Ok(ExpectedScoreRow(name.value, m.value.0, m.value.1));
  }

  /** `parse_expected_score(buf, start, stop, verbose)`. */
  method ParseExpectedScore(buf: seq<byte>, start: nat, stop: int, verbose: bool)
    returns (r: Result<seq<ExpectedScoreRow>>)
    ensures r == ExpectedScores(buf, start, stop, verbose)
  {
    var body := BodyStart(buf, start, SectionKey);
    if body.Err? {
      return Err(body.error);
    }
    var ts := new TokenStream(buf, body.value, stop);
    r := ReadTriplets(ts, RowCount, verbose);
  }

  /** The loop over the rows (eleven of them in the section). */
  method ReadTriplets(ts: TokenStream, count: nat, verbose: bool) returns (r: Result<seq<ExpectedScoreRow>>)
    modifies ts
    ensures Sound(StreamOf(ts.buf, ts.stop))
    ensures r == ReadRows(StreamOf(ts.buf, ts.stop), old(ts.pos), count, verbose)
  {
    StreamSound(ts.buf, ts.stop);
    ghost var stream := StreamOf(ts.buf, ts.stop);
    ghost var start := ts.pos;
    var triplets: seq<ExpectedScoreRow> := [];
    PrependNothing(ReadRows(stream, start, count, verbose));
    for row := 0 to count
      invariant ReadRows(stream, start, count, verbose)
                  == Prepend(triplets, ReadRows(stream, ts.pos, count - row, verbose))
    {
      ghost var at := ts.pos;
      var t := ReadTriplet(ts, verbose);
      if t.Err? {
        assert ReadRow(stream, at, verbose) == Err(t.error);
        RowsAdvance(stream, at, count - row, verbose, triplets);
        return Err(t.error);
      }
      assert ReadRow(stream, at, verbose) == Ok((t.value, ts.pos));
      RowsAdvance(stream, at, count - row, verbose, triplets);
      triplets := triplets + [t.value];
    }
    assert triplets + [] == triplets;
    r := Ok(triplets);
  }
}
