/** `parse_role_lookup`: the (index, role) rows of the `role_lookup_data` section.

    The section is an object (0xC9/0x99) or an array (0x09) whose header
    declares a 4-byte row count. The body is scanned for index sentinels; each
    is followed by an integer, then a role sentinel and another integer. An
    array ends once the declared number of rows is read and must hold exactly
    that many. Offsets in errors are positions in the section data.
 */
module RoleLookup {
  import opened Errors
  import opened Bytes
  import opened TokenStream

  datatype RoleLookupRow = RoleLookupRow(index: int, role: int)

  const SectionKey: seq<byte> :=  // "role_lookup_data"
    [0x72, 0x6F, 0x6C, 0x65, 0x5F, 0x6C, 0x6F, 0x6F, 0x6B, 0x75, 0x70, 0x5F, 0x64, 0x61, 0x74, 0x61]
  const IndexSep: seq<byte> := [0x05, 0x69, 0x6E, 0x64, 0x65, 0x78]  // the 5-byte key "index"
  const RoleSep: seq<byte> := [0x04, 0x72, 0x6F, 0x6C, 0x65]  // the 4-byte key "role"

  /** `_tiny_nibble`: bits 4 to 6 of the tag, `(tag & 0x7F) >> 4`. */
  function TinyNibble(tag: byte): (r: nat)
    ensures r < 8
    ensures tag >= 0x80 ==> 0x80 + 16 * r <= tag < 0x80 + 16 * (r + 1)
  {
    (tag % 128) / 16
  }

  /** `_read_int(d, p)`: the integer at p and the offset after it. */
  function ReadInt(d: seq<byte>, p: nat): (r: Result<(int, nat)>)
    ensures r.Ok? ==> p < r.value.1 <= |d|
  {
    if p >= |d| then Err(IndexPastEnd(p))
    else
      var tag: int := d[p];
      if tag >= 0x80 && tag % 16 == 0x02 then Ok((TinyNibble(tag), p + 1))
      else if tag == 0x02 then var x :- UnpackFrom(d, p + 1, 4, true); Ok((x, p + 5))
      else if tag == 0x03 then var x :- UnpackFrom(d, p + 1, 8, true); Ok((x, p + 9))
      else if tag == 0x04 then var x :- UnpackFrom(d, p + 1, 4, false); Ok((x, p + 5))
      else if tag == 0x05 then var x :- UnpackFrom(d, p + 1, 8, false); Ok((x, p + 9))
      else if tag >= 0x80 then Ok((tag - 0x80, p + 1))
      else Err(BadIntTag(p, tag))
  }

  /** The integer rules of ReadInt: the nibble rule wins over the tiny
      unsigned rule, which then covers the other one-byte tags, the four
      fixed-width tags read their width, and every other tag below 0x80 raises. */
  lemma ReadIntRules(d: seq<byte>, p: nat)
    requires p < |d|
    ensures var r := ReadInt(d, p);
            var tag: int := d[p];
            && (tag >= 0x80 && tag % 16 == 2 ==> r == Ok(((tag - 0x80) / 16, p + 1)))
            && (tag >= 0x80 && tag % 16 != 2 ==> r == Ok((tag - 0x80, p + 1)) && 0 <= r.value.0 < 128)
            && (tag < 0x80 && !(2 <= tag <= 5) ==> r == Err(BadIntTag(p, tag)))
            && (tag == 0x02 ==> (r.Ok? <==> p + 5 <= |d|))
            && (tag == 0x03 ==> (r.Ok? <==> p + 9 <= |d|))
            && (tag == 0x04 ==> (r.Ok? <==> p + 5 <= |d|) && (r.Ok? ==> r.value == (LeUnsigned(d[p + 1..p + 5]), p + 5)))
            && (tag == 0x05 ==> (r.Ok? <==> p + 9 <= |d|) && (r.Ok? ==> r.value == (LeUnsigned(d[p + 1..p + 9]), p + 9)))
  {
  }

  /** One iteration of the scan from cur: no further index sentinel, a row
      and the cursor after it, or an exception. A missing role sentinel
      after an index raises. */
  datatype Step = Done | Row(row: RoleLookupRow, next: nat) | Raise(err: Error)

  function ScanStep(data: seq<byte>, cur: nat): (r: Step)
    // the cursor moves strictly forward and stays within the data
    ensures r.Row? ==> cur < r.next <= |data|
    ensures r.Done? <==> Find(data, IndexSep, cur) == -1
  {
    var idx := Find(data, IndexSep, cur);
    if idx == -1 then Done
    else
      match ReadInt(data, idx + |IndexSep|)
      case Err(e) => Raise(e)
      case Ok(iv) => RoleAfter(data, iv.0, iv.1)
  }

  /** The role part of a row whose index has been read, searching from afterIndex. */
  function RoleAfter(data: seq<byte>, index: int, afterIndex: nat): (r: Step)
    ensures !r.Done?
    ensures r.Row? ==> afterIndex < r.next <= |data| && r.row.index == index
  {
    var ro := Find(data, RoleSep, afterIndex);
    if ro == -1 then Raise(MissingSentinel(afterIndex))
    else
      match ReadInt(data, ro + |RoleSep|)
      case Err(e) => Raise(e)
      case Ok(rv) => Row(RoleLookupRow(index, rv.0), rv.1)
  }

  /** The rows the scan collects from cur on, got rows having been read
      already; with a declared count the scan ends once that many are read. */
  function Rows(data: seq<byte>, declared: Option<nat>, cur: nat, got: nat): (r: Result<seq<RoleLookupRow>>)
    // with a declared count the scan never collects more rows than are
    // still owed (and one when none was owed)
    ensures r.Ok? && declared.Some? ==> |r.value| <= if got < declared.value then declared.value - got else 1
    decreases |data| - cur, 1
  {
    RowsAfter(data, declared, cur, ScanStep(data, cur), got)
  }

  /** The rows collected once the iteration at cur has given step. */
  function RowsAfter(data: seq<byte>, declared: Option<nat>, cur: nat, step: Step, got: nat): (r: Result<seq<RoleLookupRow>>)
    requires step.Row? ==> cur < step.next <= |data|
    ensures r.Ok? && declared.Some? ==> |r.value| <= if got < declared.value then declared.value - got else 1
    decreases |data| - cur, 0
  {
    match step
    case Done => Ok([])
    case Raise(e) => Err(e)
    case Row(row, next) =>
      if declared.Some? && got + 1 >= declared.value then Ok([row])
      else Prepend([row], Rows(data, declared, next, got + 1))
  }

  /** The container of the section at start: the offset of its body and the
      declared row count of an array. */
  function Container(buf: seq<byte>, start: nat): (r: Result<(nat, Option<nat>)>)
    ensures r.Ok? ==> start + |SectionKey| < |buf|
    ensures r.Ok? ==> var tag := buf[start + |SectionKey|];
                      && (tag == 0xC9 || tag == 0x99 || tag == 0x09)
                      && (tag == 0x09 <==> r.value.1.Some?)
                      && r.value.0 == start + |SectionKey| + (if tag == 0x09 then 5 else 1)
    ensures r.Ok? && r.value.1.Some? ==>
              start + |SectionKey| + 5 <= |buf| &&
              r.value.1.value == LeUnsigned(buf[start + |SectionKey| + 1..start + |SectionKey| + 5])
  {
    var m := start + |SectionKey|;
    if m >= |buf| then Err(IndexPastEnd(m))
    else if buf[m] == 0xC9 || buf[m] == 0x99 then Ok((m + 1, None))
    else if buf[m] == 0x09 then
      var n :- UnpackFrom(buf, m + 1, 4, false);
      Ok((m + 5, Some(n as nat)))
    else Err(UnknownContainer(m, buf[m]))
  }

  /** The role_lookup_data section at start, read from its data up to stop. */
  function Lookup(buf: seq<byte>, start: nat, stop: nat): (r: Result<seq<RoleLookupRow>>)
    ensures !KeyAt(buf, start, SectionKey) ==> r == Err(KeyTextMismatch(start))
    ensures r.Ok? ==> Container(buf, start).Ok?
  {
    if !KeyAt(buf, start, SectionKey) then Err(KeyTextMismatch(start))
    else
      var c :- Container(buf, start);
      var rows :- Rows(Slice(buf, c.0, stop), c.1, 0, 0);
      if c.1.Some? && |rows| != c.1.value then Err(RowCountMismatch(c.1.value, |rows|))
      else Ok(rows)
  }

  /** An array section yields exactly the declared number of rows: a result
      of any other length is never returned. */
  lemma ArrayHasDeclaredRows(buf: seq<byte>, start: nat, stop: nat)
    requires Lookup(buf, start, stop).Ok?
    requires buf[start + |SectionKey|] == 0x09
    ensures |Lookup(buf, start, stop).value|
            == LeUnsigned(buf[start + |SectionKey| + 1..start + |SectionKey| + 5])
  {
  }

  /** An array that declares no rows but whose data holds an index sentinel
      is rejected. */
  lemma EmptyArrayWithRowsRejected(buf: seq<byte>, start: nat, stop: nat)
    requires KeyAt(buf, start, SectionKey)
    requires Container(buf, start) == Ok((start + |SectionKey| + 5, Some(0)))
    requires ScanStep(Slice(buf, start + |SectionKey| + 5, stop), 0).Row?
    ensures Lookup(buf, start, stop) == Err(RowCountMismatch(0, 1))
  {
    var data := Slice(buf, start + |SectionKey| + 5, stop);
    assert Rows(data, Some(0), 0, 0) == Ok([ScanStep(data, 0).row]);
  }

  /** An array whose scan finds fewer rows than declared is rejected. */
  lemma ShortArrayRejected(buf: seq<byte>, start: nat, stop: nat)
    requires KeyAt(buf, start, SectionKey) && Container(buf, start).Ok?
    requires var c := Container(buf, start).value;
             && c.1.Some?
             && Rows(Slice(buf, c.0, stop), c.1, 0, 0).Ok?
             && |Rows(Slice(buf, c.0, stop), c.1, 0, 0).value| < c.1.value
    ensures Lookup(buf, start, stop).Err? && Lookup(buf, start, stop).error.RowCountMismatch?
  {
  }

  /** `parse_role_lookup(buf, start, stop, verbose)`. */
  method ParseRoleLookup(buf: seq<byte>, start: nat, stop: nat) returns (r: Result<seq<RoleLookupRow>>)
    ensures r == Lookup(buf, start, stop)
  {
    if !KeyAt(buf, start, SectionKey) {
      return Err(KeyTextMismatch(start));
    }
    var m := start + |SectionKey|;
    if m >= |buf| {
      return Err(IndexPastEnd(m));
    }
    var ctag := buf[m];
    var declared: Option<nat>;
    var body: nat;
    if ctag == 0xC9 || ctag == 0x99 {
      declared, body := None, m + 1;
    } else if ctag == 0x09 {
      var n := UnpackFrom(buf, m + 1, 4, false);
      if n.Err? {
        return Err(n.error);
      }
      declared, body := Some(n.value as nat), m + 5;
    } else {
      return Err(UnknownContainer(m, ctag));
    }
    assert Container(buf, start) == Ok((body, declared));
    var data := Slice(buf, body, stop);
    var rows := ScanRows(data, declared);
    if rows.Err? {
      return Err(rows.error);
    }
    if declared.Some? && |rows.value| != declared.value {
      return Err(RowCountMismatch(declared.value, |rows.value|));
    }
    r := Ok(rows.value);
  }

  /** The scan loop, appending one row per index sentinel. */
  method ScanRows(data: seq<byte>, declared: Option<nat>) returns (r: Result<seq<RoleLookupRow>>)
    ensures r == Rows(data, declared, 0, 0)
  {
    var rows: seq<RoleLookupRow> := [];
    var cur: nat := 0;
    PrependNothing(Rows(data, declared, 0, 0));
    while true
      invariant cur <= |data|
      invariant Rows(data, declared, 0, 0) == Prepend(rows, Rows(data, declared, cur, |rows|))
      decreases |data| - cur
    {
      var step := ScanStepOf(data, cur);
      ScanRowsStep(data, declared, rows, cur, step, Rows(data, declared, 0, 0));
      if step.Done? {
        return Ok(rows);
      }
      if step.Raise? {
        return Err(step.err);
      }
      rows := rows + [step.row];
      if declared.Some? && |rows| >= declared.value {
        return Ok(rows);
      }
      cur := step.next;
    }
  }

  /** One iteration of the scan loop: when total is the rows so far followed
      by the rest of the scan after step, step gives the result or the same
      relation at the next cursor. */
  lemma ScanRowsStep(data: seq<byte>, declared: Option<nat>, rows: seq<RoleLookupRow>, cur: nat, step: Step,
                     total: Result<seq<RoleLookupRow>>)
    requires step.Row? ==> cur < step.next <= |data|
    requires total == Prepend(rows, RowsAfter(data, declared, cur, step, |rows|))
    ensures step.Done? ==> total == Ok(rows)
    ensures step.Raise? ==> total == Err(step.err)
    ensures step.Row? ==>
              var more := rows + [step.row];
              if declared.Some? && |more| >= declared.value then total == Ok(more)
              else total == Prepend(more, Rows(data, declared, step.next, |more|))
  {
    if step.Done? {
      assert rows + [] == rows;
    } else if step.Row? {
      PrependStep(rows, step.row, Rows(data, declared, step.next, |rows| + 1));
    }
  }

  /** One iteration of the scan: the index sentinel, the index, the role sentinel and the role. */
  method ScanStepOf(data: seq<byte>, cur: nat) returns (r: Step)
    ensures r == ScanStep(data, cur)
  {
    var idx := Find(data, IndexSep, cur);
    if idx == -1 {
      return Done;
    }
    var iv := ReadInt(data, idx + |IndexSep|);
    if iv.Err? {
      return Raise(iv.error);
    }
    r := RoleAfterOf(data, iv.value.0, iv.value.1);
  }

  method RoleAfterOf(data: seq<byte>, index: int, afterIndex: nat) returns (r: Step)
    ensures r == RoleAfter(data, index, afterIndex)
  {
    var ro := Find(data, RoleSep, afterIndex);
    if ro == -1 {
      return Raise(MissingSentinel(afterIndex));
    }
    var rv := ReadInt(data, ro + |RoleSep|);
    if rv.Err? {
      return Raise(rv.error);
    }
    r := Row(RoleLookupRow(index, rv.value.0), rv.value.1);
  }
}
