/** The patch loop of `patch_physical_constraints`: each desired value is
    written into the 32-bit slots of the physics file that hold that key.

    The offset table gives, per key, the offset of the key text in each stored
    copy ("loc", "loc2"). The byte after the key text is the indicator; only an
    indicator 0x02 (a 32-bit integer) is overwritten, with the value's four
    little-endian bytes. The file is written back only when every update
    succeeded, so a patch is a whole new buffer or an error.
 */
module Patcher {
  import opened Errors
  import opened Bytes

  /** The `version_*` keys, never patched. */
  const IgnoredKeys: set<string> := {"version_year", "version_major", "version_minor", "version_release"}

  /** The copies a key is stored in, in the order they are patched. */
  const SlotKeys: seq<string> := ["loc", "loc2"]

  const IntIndicator: byte := 0x02

  /** One stored copy of a key to be overwritten with val. */
  datatype Occurrence = Occurrence(key: string, offset: nat, val: int)

  /** The indicator byte follows the key text. */
  function IndicatorPos(o: Occurrence): nat
  {
    o.offset + |o.key|
  }

  /** j is one of the four value bytes after o's indicator. */
  predicate InSlot(o: Occurrence, j: int)
  {
    IndicatorPos(o) + 1 <= j < IndicatorPos(o) + 5
  }

  // ---------------------------------------------------------------- which slots

  /** The copies of one key that the table lists, in the order of locs. */
  function CopiesOf(key: string, val: int, slots: map<string, nat>, locs: seq<string>): (r: seq<Occurrence>)
    ensures |r| <= |locs|
    ensures forall i :: 0 <= i < |r| ==> r[i].key == key && r[i].val == val && r[i].offset in slots.Values
    ensures (forall l :: l in locs ==> l !in slots) ==> r == []
  {
    if locs == [] then []
    else (if locs[0] in slots then [Occurrence(key, slots[locs[0]], val)] else []) + CopiesOf(key, val, slots, locs[1..])
  }

  /** The copies an update touches: none for an ignored key or a key the table lacks. */
  function UpdateCopies(key: string, val: int, offsets: map<string, map<string, nat>>): (r: seq<Occurrence>)
    ensures key in IgnoredKeys || key !in offsets ==> r == []
  {
    if key in IgnoredKeys || key !in offsets then [] else CopiesOf(key, val, offsets[key], SlotKeys)
  }

  /** Every copy the updates touch, in the order the loop visits them. */
  function Occurrences(updates: seq<(string, int)>, offsets: map<string, map<string, nat>>): (r: seq<Occurrence>)
    ensures forall i :: 0 <= i < |r| ==>
              r[i].key !in IgnoredKeys && r[i].key in offsets && r[i].offset in offsets[r[i].key].Values
    ensures |r| <= 2 * |updates|
  {
    if updates == [] then []
    else UpdateCopies(updates[0].0, updates[0].1, offsets) + Occurrences(updates[1..], offsets)
  }

  /** Updates of ignored or unlisted keys can be dropped without changing what is written. */
  lemma {:induction false} SkippedUpdates(updates: seq<(string, int)>, offsets: map<string, map<string, nat>>)
    ensures Occurrences(updates, offsets) == Occurrences(Listed(updates, offsets), offsets)
  {
    if updates != [] {
      SkippedUpdates(updates[1..], offsets);
      var k := updates[0].0;
      if k in IgnoredKeys || k !in offsets {
        assert Listed(updates, offsets) == Listed(updates[1..], offsets);
      } else {
        assert Listed(updates, offsets) == [updates[0]] + Listed(updates[1..], offsets);
        assert Listed(updates, offsets)[1..] == Listed(updates[1..], offsets);
      }
    }
  }

  /** The updates whose key is listed in the table and not ignored. */
  function Listed(updates: seq<(string, int)>, offsets: map<string, map<string, nat>>): (r: seq<(string, int)>)
    ensures forall i :: 0 <= i < |r| ==> r[i].0 !in IgnoredKeys && r[i].0 in offsets
  {
    if updates == [] then []
    else if updates[0].0 in IgnoredKeys || updates[0].0 !in offsets then Listed(updates[1..], offsets)
    else [updates[0]] + Listed(updates[1..], offsets)
  }

  // ---------------------------------------------------------------- one slot

  /** One copy: an indicator past the end raises IndexError; an indicator
      other than 0x02 is skipped; a value outside `[0, 2^32)` raises
      OverflowError; a slot running past the end is refused; otherwise the
      four bytes after the indicator become the value. */
  function PatchSlot(d: seq<byte>, o: Occurrence): (r: Result<seq<byte>>)
    ensures r.Ok? ==> |r.value| == |d|
    ensures IndicatorPos(o) >= |d| ==> r == Err(IndexPastEnd(IndicatorPos(o)))
    ensures IndicatorPos(o) < |d| && d[IndicatorPos(o)] != IntIndicator ==> r == Ok(d)
    ensures IndicatorPos(o) < |d| && d[IndicatorPos(o)] == IntIndicator && !(0 <= o.val < 0x1_0000_0000)
            ==> r == Err(ValueOutOfRange(o.val))
    ensures (IndicatorPos(o) < |d| && d[IndicatorPos(o)] == IntIndicator && 0 <= o.val < 0x1_0000_0000
             && IndicatorPos(o) + 5 > |d|) ==> r == Err(SlotPastEnd(IndicatorPos(o) + 1))
  {
    var ind := IndicatorPos(o);
    if ind >= |d| then Err(IndexPastEnd(ind))
    else if d[ind] != IntIndicator then Ok(d)
    else
      Pow256Widths();
      var bytes :- ToBytes(o.val, 4);
      if ind + 5 > |d| then Err(SlotPastEnd(ind + 1))
      else Ok(d[..ind + 1] + bytes + d[ind + 5..])
  }

  /** A written copy holds the value's little-endian bytes after its
      indicator, and every other byte, the indicator included, is unchanged. */
  lemma WrittenSlot(d: seq<byte>, o: Occurrence)
    requires PatchSlot(d, o).Ok? && d[IndicatorPos(o)] == IntIndicator
    ensures var r := PatchSlot(d, o).value; var ind := IndicatorPos(o);
            && LeUnsigned(r[ind + 1..ind + 5]) == o.val
            && forall j :: 0 <= j < |d| && !InSlot(o, j) ==> r[j] == d[j]
  {
    var ind := IndicatorPos(o);
    Pow256Widths();
    var bytes := ToBytes(o.val, 4).value;
    var r := PatchSlot(d, o).value;
    assert r == d[..ind + 1] + bytes + d[ind + 5..];
    assert r[ind + 1..ind + 5] == bytes;
  }

  /** The byte a copy writes at j, an offset of its slot. */
  function SlotByte(o: Occurrence, j: int): (b: byte)
    requires InSlot(o, j) && 0 <= o.val < 0x1_0000_0000
  {
    Pow256Widths();
    LeEncode(o.val, 4)[j - IndicatorPos(o) - 1]
  }

  /** Byte by byte: a written slot holds SlotByte, everything else is as before. */
  lemma PatchSlotAt(d: seq<byte>, o: Occurrence, j: nat)
    requires PatchSlot(d, o).Ok? && j < |d|
    ensures var r := PatchSlot(d, o).value;
            r[j] == if d[IndicatorPos(o)] == IntIndicator && InSlot(o, j) then SlotByte(o, j) else d[j]
  {
    var ind := IndicatorPos(o);
    if d[ind] == IntIndicator {
      Pow256Widths();
      var bytes := ToBytes(o.val, 4).value;
      var r := PatchSlot(d, o).value;
      assert r == d[..ind + 1] + bytes + d[ind + 5..];
      if InSlot(o, j) {
        assert r[j] == bytes[j - ind - 1];
      }
    }
  }

  // ---------------------------------------------------------------- all slots

  /** The copies patched one after the other; the first failure is the result. */
  function Patch(d: seq<byte>, os: seq<Occurrence>): (r: Result<seq<byte>>)
    ensures r.Ok? ==> |r.value| == |d|
    decreases |os|
  {
    if os == [] then Ok(d)
    else
      var d1 :- PatchSlot(d, os[0]);
      Patch(d1, os[1..])
  }

  /** The patch of `patch_physical_constraints`: the file as patched by every update, or the error. */
  function PatchFile(file: seq<byte>, updates: seq<(string, int)>, offsets: map<string, map<string, nat>>)
    : (r: Result<seq<byte>>)
    ensures r.Ok? ==> |r.value| == |file|
  {
    Patch(file, Occurrences(updates, offsets))
  }

  /** Updates that touch no copy leave the file as it was. */
  lemma NothingListed(file: seq<byte>, updates: seq<(string, int)>, offsets: map<string, map<string, nat>>)
    requires forall i :: 0 <= i < |updates| ==> updates[i].0 in IgnoredKeys || updates[i].0 !in offsets
    ensures PatchFile(file, updates, offsets) == Ok(file)
  {
    SkippedUpdates(updates, offsets);
    if Listed(updates, offsets) != [] {
      var u := Listed(updates, offsets)[0];
      ListedFrom(updates, offsets, u);
    }
  }

  lemma {:induction false} ListedFrom(updates: seq<(string, int)>, offsets: map<string, map<string, nat>>, u: (string, int))
    requires u in Listed(updates, offsets)
    ensures u in updates
  {
    if updates != [] && u != updates[0] {
      ListedFrom(updates[1..], offsets, u);
    }
  }

  // ---------------------------------------------------------------- idempotence

  /** No copy's value slot covers the indicator byte of a copy. */
  predicate NoOverlap(os: seq<Occurrence>)
  {
    forall i, k :: 0 <= i < |os| && 0 <= k < |os| ==> !InSlot(os[i], IndicatorPos(os[k]))
  }

  /** A copy patches without error in d: its indicator is inside the buffer, and
      when it is 0x02, the value fits in 32 bits and the slot in the buffer. */
  predicate SlotSafe(d: seq<byte>, o: Occurrence)
  {
    IndicatorPos(o) < |d|
    && (d[IndicatorPos(o)] == IntIndicator ==> 0 <= o.val < 0x1_0000_0000 && IndicatorPos(o) + 5 <= |d|)
  }

  predicate Safe(d: seq<byte>, os: seq<Occurrence>)
  {
    forall i :: 0 <= i < |os| ==> SlotSafe(d, os[i])
  }

  /** Two buffers of one length agree on the indicator bytes of the copies. */
  predicate SameIndicators(d: seq<byte>, e: seq<byte>, os: seq<Occurrence>)
  {
    |d| == |e| && forall i :: 0 <= i < |os| && IndicatorPos(os[i]) < |d| ==> d[IndicatorPos(os[i])] == e[IndicatorPos(os[i])]
  }

  /** The byte the last copy writing at j leaves there, judged by the indicators of d. */
  function LastWrite(d: seq<byte>, os: seq<Occurrence>, j: int): (r: Option<byte>)
    requires Safe(d, os)
  {
    if os == [] then None
    else
      var later := LastWrite(d, os[1..], j);
      if later.Some? then later
      else if d[IndicatorPos(os[0])] == IntIndicator && InSlot(os[0], j) then Some(SlotByte(os[0], j))
      else None
  }

  lemma {:induction false} LastWriteSameIndicators(d: seq<byte>, e: seq<byte>, os: seq<Occurrence>, j: int)
    requires Safe(d, os) && Safe(e, os) && SameIndicators(d, e, os)
    ensures LastWrite(d, os, j) == LastWrite(e, os, j)
  {
    if os != [] {
      assert SameIndicators(d, e, os[1..]) by {
        forall i | 0 <= i < |os[1..]| && IndicatorPos(os[1..][i]) < |d|
          ensures d[IndicatorPos(os[1..][i])] == e[IndicatorPos(os[1..][i])]
        {
          assert os[1..][i] == os[i + 1];
        }
      }
      assert Safe(d, os[1..]) && Safe(e, os[1..]) by {
        forall i | 0 <= i < |os[1..]|
          ensures SlotSafe(d, os[1..][i]) && SlotSafe(e, os[1..][i])
        {
          assert os[1..][i] == os[i + 1];
        }
      }
      LastWriteSameIndicators(d, e, os[1..], j);
      assert SlotSafe(d, os[0]);
    }
  }

  /** No copy writes at an indicator of a copy. */
  lemma {:induction false} NoWriteAtIndicators(d: seq<byte>, os: seq<Occurrence>, qs: seq<Occurrence>, k: nat)
    requires Safe(d, os) && NoOverlap(qs) && k < |qs|
    requires forall i :: 0 <= i < |os| ==> os[i] in qs
    ensures LastWrite(d, os, IndicatorPos(qs[k])) == None
  {
    if os != [] {
      assert Safe(d, os[1..]) by {
        forall i | 0 <= i < |os[1..]|
          ensures SlotSafe(d, os[1..][i])
        {
          assert os[1..][i] == os[i + 1];
        }
      }
      forall i | 0 <= i < |os[1..]|
        ensures os[1..][i] in qs
      {
        assert os[1..][i] == os[i + 1];
      }
      NoWriteAtIndicators(d, os[1..], qs, k);
      assert os[0] in qs;
      var i0 :| 0 <= i0 < |qs| && qs[i0] == os[0];
      assert !InSlot(qs[i0], IndicatorPos(qs[k]));
    }
  }

  /** Without overlap, a patch that cannot fail leaves at each byte what the
      last copy writing there wrote, and the byte as it was where none did. */
  lemma {:induction false} PatchAt(d: seq<byte>, os: seq<Occurrence>)
    requires NoOverlap(os) && Safe(d, os)
    ensures Patch(d, os).Ok?
    ensures forall j :: 0 <= j < |d| ==>
              Patch(d, os).value[j] == if LastWrite(d, os, j).Some? then LastWrite(d, os, j).value else d[j]
    decreases |os|
  {
    if os != [] {
      var o := os[0];
      var rest := os[1..];
      assert SlotSafe(d, o);
      var d1 := PatchSlot(d, o).value;
      assert NoOverlap(rest) by {
        forall i, k | 0 <= i < |rest| && 0 <= k < |rest|
          ensures !InSlot(rest[i], IndicatorPos(rest[k]))
        {
          assert rest[i] == os[i + 1] && rest[k] == os[k + 1];
        }
      }
      assert SameIndicators(d, d1, rest) && Safe(d1, rest) && Safe(d, rest) by {
        forall i | 0 <= i < |rest|
          ensures IndicatorPos(rest[i]) < |d| ==> d[IndicatorPos(rest[i])] == d1[IndicatorPos(rest[i])]
          ensures SlotSafe(d, rest[i]) && SlotSafe(d1, rest[i])
        {
          assert rest[i] == os[i + 1];
          assert SlotSafe(d, os[i + 1]);
          assert !InSlot(o, IndicatorPos(os[i + 1]));
          PatchSlotAt(d, o, IndicatorPos(rest[i]));
        }
      }
      PatchAt(d1, rest);
      LastWriteSameIndicators(d, d1, rest, 0);
      forall j | 0 <= j < |d|
        ensures Patch(d, os).value[j] == if LastWrite(d, os, j).Some? then LastWrite(d, os, j).value else d[j]
      {
        LastWriteSameIndicators(d, d1, rest, j);
        PatchSlotAt(d, o, j);
      }
    }
  }

  /** Without overlap, a patch that succeeds had every copy safe. */
  lemma {:induction false} PatchOkIsSafe(d: seq<byte>, os: seq<Occurrence>)
    requires NoOverlap(os) && Patch(d, os).Ok?
    ensures Safe(d, os)
    decreases |os|
  {
    if os != [] {
      var o := os[0];
      var rest := os[1..];
      var d1 := PatchSlot(d, o).value;
      assert NoOverlap(rest) by {
        forall i, k | 0 <= i < |rest| && 0 <= k < |rest|
          ensures !InSlot(rest[i], IndicatorPos(rest[k]))
        {
          assert rest[i] == os[i + 1] && rest[k] == os[k + 1];
        }
      }
      PatchOkIsSafe(d1, rest);
      forall i | 0 <= i < |os|
        ensures SlotSafe(d, os[i])
      {
        if i > 0 {
          assert os[i] == rest[i - 1];
          assert SlotSafe(d1, rest[i - 1]);
          assert !InSlot(o, IndicatorPos(os[i]));
          PatchSlotAt(d, o, IndicatorPos(os[i]));
        }
      }
    }
  }

  /** Patching a second time with the same copies changes nothing, provided
      no copy's value slot covers the indicator of a copy. */
  lemma PatchTwice(d: seq<byte>, os: seq<Occurrence>)
    requires NoOverlap(os) && Patch(d, os).Ok?
    ensures Patch(Patch(d, os).value, os) == Patch(d, os)
  {
    PatchOkIsSafe(d, os);
    PatchAt(d, os);
    var d1 := Patch(d, os).value;
    forall k | 0 <= k < |os|
      ensures IndicatorPos(os[k]) < |d| ==> d[IndicatorPos(os[k])] == d1[IndicatorPos(os[k])]
    {
      NoWriteAtIndicators(d, os, os, k);
    }
    assert SameIndicators(d, d1, os);
    assert Safe(d1, os) by {
      forall i | 0 <= i < |os|
        ensures SlotSafe(d1, os[i])
      {
        assert SlotSafe(d, os[i]);
      }
    }
    PatchAt(d1, os);
    forall j | 0 <= j < |d|
      ensures Patch(d1, os).value[j] == d1[j]
    {
      LastWriteSameIndicators(d, d1, os, j);
    }
    assert Patch(d1, os).value == d1;
  }

  /** The patch of the whole file is idempotent under the same proviso. */
  lemma PatchFileTwice(file: seq<byte>, updates: seq<(string, int)>, offsets: map<string, map<string, nat>>)
    requires NoOverlap(Occurrences(updates, offsets)) && PatchFile(file, updates, offsets).Ok?
    ensures PatchFile(PatchFile(file, updates, offsets).value, updates, offsets) == PatchFile(file, updates, offsets)
  {
    PatchTwice(file, Occurrences(updates, offsets));
  }

  // ---------------------------------------------------------------- the loop

  /** `jsb_data[p:p+4] = bytes` on a slot inside the buffer. */
  method WriteSlot(a: array<byte>, p: nat, bytes: seq<byte>)
    requires |bytes| == 4 && p + 4 <= a.Length
    modifies a
    ensures a[..] == old(a[..])[..p] + bytes + old(a[..])[p + 4..]
  {
    a[p], a[p + 1], a[p + 2], a[p + 3] := bytes[0], bytes[1], bytes[2], bytes[3];
    assert a[..] == old(a[..])[..p] + bytes + old(a[..])[p + 4..];
  }

  /** The copies of update i, then those of the later updates. */
  lemma UpdateStep(updates: seq<(string, int)>, i: nat, offsets: map<string, map<string, nat>>)
    requires i < |updates|
    ensures var (key, val) := updates[i];
            Occurrences(updates[i..], offsets)
            == if key in IgnoredKeys || key !in offsets then Occurrences(updates[i + 1..], offsets)
               else CopiesOf(key, val, offsets[key], SlotKeys) + Occurrences(updates[i + 1..], offsets)
  {
    assert updates[i..][1..] == updates[i + 1..];
    var (key, val) := updates[i];
    if key in IgnoredKeys || key !in offsets {
      assert UpdateCopies(key, val, offsets) == [];
      assert [] + Occurrences(updates[i + 1..], offsets) == Occurrences(updates[i + 1..], offsets);
    }
  }

  /** Patching the copy of slot key j first, then the later slot keys' copies and the rest. */
  lemma CopyStep(d: seq<byte>, key: string, val: int, slots: map<string, nat>, j: nat, rest: seq<Occurrence>)
    requires j < |SlotKeys|
    ensures var later := CopiesOf(key, val, slots, SlotKeys[j + 1..]) + rest;
            Patch(d, CopiesOf(key, val, slots, SlotKeys[j..]) + rest)
            == if SlotKeys[j] !in slots then Patch(d, later)
               else
                 var o := Occurrence(key, slots[SlotKeys[j]], val);
                 if PatchSlot(d, o).Err? then Err(PatchSlot(d, o).error)
                 else Patch(PatchSlot(d, o).value, later)
  {
    var locs := SlotKeys[j..];
    assert locs[1..] == SlotKeys[j + 1..];
    var later := CopiesOf(key, val, slots, SlotKeys[j + 1..]) + rest;
    if SlotKeys[j] in slots {
      var o := Occurrence(key, slots[SlotKeys[j]], val);
      assert CopiesOf(key, val, slots, locs) + rest == [o] + later;
      assert ([o] + later)[1..] == later;
    } else {
      assert CopiesOf(key, val, slots, locs) + rest == later;
    }
  }

  /** One copy patched in the bytearray; on an error the array is left to be discarded. */
  method PatchCopy(a: array<byte>, o: Occurrence) returns (r: Result<()>)
    modifies a
    ensures r.Ok? <==> PatchSlot(old(a[..]), o).Ok?
    ensures r.Ok? ==> a[..] == PatchSlot(old(a[..]), o).value
    ensures r.Err? ==> r.error == PatchSlot(old(a[..]), o).error
  {
    var ind := o.offset + |o.key|;
    if ind >= a.Length {
      return Err(IndexPastEnd(ind));
    }
    if a[ind] == IntIndicator {
      var bytes := ToBytes(o.val, 4);
      if bytes.Err? {
        return Err(bytes.error);
      }
      if ind + 5 > a.Length {
        return Err(SlotPastEnd(ind + 1));
      }
      WriteSlot(a, ind + 1, bytes.value);
    }
    r := Ok(());
  }

  /** The inner loop of `patch_physical_constraints`: the copies of one
      update, "loc" then "loc2", patched in the bytearray. */
  method PatchUpdate(a: array<byte>, key: string, val: int, slots: map<string, nat>, ghost rest: seq<Occurrence>)
    returns (r: Result<()>)
    modifies a
    ensures r.Ok? ==> Patch(old(a[..]), CopiesOf(key, val, slots, SlotKeys) + rest) == Patch(a[..], rest)
    ensures r.Err? ==> Patch(old(a[..]), CopiesOf(key, val, slots, SlotKeys) + rest) == Err(r.error)
  {
    assert SlotKeys[0..] == SlotKeys;
    for j := 0 to |SlotKeys|
      invariant Patch(old(a[..]), CopiesOf(key, val, slots, SlotKeys) + rest)
                == Patch(a[..], CopiesOf(key, val, slots, SlotKeys[j..]) + rest)
    {
      CopyStep(a[..], key, val, slots, j, rest);
      var locKey := SlotKeys[j];
      if locKey in slots {
        var step := PatchCopy(a, Occurrence(key, slots[locKey], val));
        if step.Err? {
          return Err(step.error);
        }
      }
    }
    assert SlotKeys[|SlotKeys|..] == [];
    assert CopiesOf(key, val, slots, []) + rest == rest;
    r := Ok(());
  }

  /** `patch_physical_constraints`' loop over the updates and their copies,
      on a bytearray copy of the file; the patched bytes are returned only
      when every update succeeded. */
  method PatchPhysicalConstraints(file: seq<byte>, updates: seq<(string, int)>, offsets: map<string, map<string, nat>>)
    returns (r: Result<seq<byte>>)
    ensures r == PatchFile(file, updates, offsets)
  {
    var a := new byte[|file|](i requires 0 <= i < |file| => file[i]);
    assert a[..] == file;
    for i := 0 to |updates|
      invariant PatchFile(file, updates, offsets) == Patch(a[..], Occurrences(updates[i..], offsets))
    {
      UpdateStep(updates, i, offsets);
      var key := updates[i].0;
      if key !in IgnoredKeys && key in offsets {
        var step := PatchUpdate(a, key, updates[i].1, offsets[key], Occurrences(updates[i + 1..], offsets));
        if step.Err? {
          return Err(step.error);
        }
      }
    }
    assert updates[|updates|..] == [];
    r := Ok(a[..]);
  }

  // ---------------------------------------------------------------- as written

  /** The slot assignment as written: Python's slice assignment
      `jsb_data[p:p+4] = bytes` replaces only the bytes that exist, so a slot
      running past the end grows the buffer instead of failing. */
  function PatchSlotAsWritten(d: seq<byte>, o: Occurrence): (r: Result<seq<byte>>)
    ensures IndicatorPos(o) + 5 <= |d| ==> r == PatchSlot(d, o)
  {
    var ind := IndicatorPos(o);
    if ind >= |d| then Err(IndexPastEnd(ind))
    else if d[ind] != IntIndicator then Ok(d)
    else
      Pow256Widths();
      var bytes :- ToBytes(o.val, 4);
      var hi := if ind + 5 <= |d| then ind + 5 else |d|;
      Ok(d[..ind + 1] + bytes + d[hi..])
  }

  /** A key "k" at offset 0 of the two bytes "k", 0x02: the slot is past the
      end and the buffer as written grows from two to six bytes. */
  lemma AsWrittenGrows()
    ensures var r := PatchSlotAsWritten([0x6B, 0x02], Occurrence("k", 0, 7));
            r.Ok? && |r.value| == 6
    ensures PatchSlot([0x6B, 0x02], Occurrence("k", 0, 7)) == Err(SlotPastEnd(2))
  {
    Pow256Widths();
    assert ToBytes(7, 4).Ok?;
  }
}
