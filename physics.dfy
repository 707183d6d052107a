/** The read side of the physics file: `decode_physical_constraints` reads
    each key's two stored copies at the offsets of the offset table, and the
    helpers order, compare and check the decoded copies.

    A key's text starts at its offset; the first byte after it that is no
    ASCII letter, digit or `_` is the indicator, which says how wide the
    unsigned little-endian value after it is.
 */
module Physics {
  import opened Errors
  import opened Bytes
  import Patcher

  // ---------------------------------------------------------------- indicator

  /** ASCII letters, digits and `_`: the bytes a key's text is made of. */
  predicate AsciiOk(b: byte)
  {
    (48 <= b <= 57) || (65 <= b <= 90) || (97 <= b <= 122) || b == 95
  }

  /** The least offset at or after pos that is the end of the buffer or holds
      a byte outside AsciiOk; an offset past the end is its own answer. */
  function IndicatorAt(jsb: seq<byte>, pos: nat): (p: nat)
    ensures pos <= p && (p <= |jsb| || p == pos)
    ensures forall k :: pos <= k < p ==> AsciiOk(jsb[k])
    ensures p < |jsb| ==> !AsciiOk(jsb[p])
    decreases |jsb| - pos
  {
    if pos < |jsb| && AsciiOk(jsb[pos]) then IndicatorAt(jsb, pos + 1) else pos
  }

  /** The stop is unique: an offset with only key bytes before it and a
      non-key byte (or the end) at it is the indicator. */
  lemma {:induction false} IndicatorAtStop(jsb: seq<byte>, pos: nat, p: nat)
    requires pos <= p <= |jsb|
    requires forall k :: pos <= k < p ==> AsciiOk(jsb[k])
    requires p < |jsb| ==> !AsciiOk(jsb[p])
    ensures IndicatorAt(jsb, pos) == p
    decreases p - pos
  {
    if pos < p {
      IndicatorAtStop(jsb, pos + 1, p);
    }
  }

  /** `_find_indicator`: scans forward over the key text. */
  method FindIndicator(jsb: seq<byte>, pos: nat) returns (p: nat)
    ensures p == IndicatorAt(jsb, pos)
  {
    p := pos;
    while p < |jsb| && AsciiOk(jsb[p])
      invariant pos <= p && IndicatorAt(jsb, p) == IndicatorAt(jsb, pos)
      decreases |jsb| - p
    {
      p := p + 1;
    }
  }

  /** `_int_size`: 0x02 announces four value bytes; a byte with bit 7 set and
      low nibble 2 announces one; any other indicator is no integer. */
  function IntSize(ind: byte): (r: Option<nat>)
    ensures r == Some(4) <==> ind == Patcher.IntIndicator
    ensures r == Some(1) <==> 128 <= ind && ind % 16 == 2
    ensures r.None? <==> ind != 2 && !(128 <= ind && ind % 16 == 2)
  {
    var b := ind as bv8;
    if ind == 0x02 then Some(4)
    else if b & 0x80 != 0 && b & 0x0F == 0x02 then Some(1)
    else None
  }

  // ---------------------------------------------------------------- one copy

  /** `dict.get`. */
  function Get(m: map<string, nat>, k: string): (r: Option<nat>)
    ensures r.Some? <==> k in m
    ensures r.Some? ==> r.value == m[k]
  {
    if k in m then Some(m[k]) else None
  }

  /** `_grab`: no offset, an indicator that is no integer, or value bytes
      running past the end read as nothing; an indicator offset at or past
      the end raises IndexError. The value is the unsigned little-endian
      number of the bytes after the indicator. */
  function Grab(jsb: seq<byte>, loc: Option<nat>): (r: Result<Option<nat>>)
    ensures loc.None? ==> r == Ok(None)
    ensures loc.Some? && IndicatorAt(jsb, loc.value) >= |jsb| ==> r == Err(IndexPastEnd(IndicatorAt(jsb, loc.value)))
    ensures loc.Some? && IndicatorAt(jsb, loc.value) < |jsb| ==> r.Ok?
    // a known indicator whose value bytes fit gives a value, and nothing else does
    ensures loc.Some? && IndicatorAt(jsb, loc.value) < |jsb| ==>
              var ind := IndicatorAt(jsb, loc.value);
              (r.value.Some? <==> IntSize(jsb[ind]).Some? && ind + 1 + IntSize(jsb[ind]).value <= |jsb|)
    ensures r.Ok? && r.value.Some? ==>
              var ind := IndicatorAt(jsb, loc.value);
              && IntSize(jsb[ind]).Some?
              && ind + 1 + IntSize(jsb[ind]).value <= |jsb|
              && r.value.value == LeUnsigned(jsb[ind + 1..ind + 1 + IntSize(jsb[ind]).value])
              && r.value.value < 0x1_0000_0000
              && (IntSize(jsb[ind]) == Some(1) ==> r.value.value < 0x100)
  {
    Pow256Widths();
    if loc.None? then Ok(None)
    else
      var ind := IndicatorAt(jsb, loc.value);
      if ind >= |jsb| then Err(IndexPastEnd(ind))
      else
        var size := IntSize(jsb[ind]);
        if size.None? then Ok(None)
        else
          var blob := Slice(jsb, ind + 1, ind + 1 + size.value);
          if |blob| != size.value then Ok(None)
          else Ok(Some(LeUnsigned(blob)))
  }

  /** `_grab`, scanning for the indicator with the loop. */
  method GrabAt(jsb: seq<byte>, loc: Option<nat>) returns (r: Result<Option<nat>>)
    ensures r == Grab(jsb, loc)
  {
    if loc.None? {
      return Ok(None);
    }
    var ind := FindIndicator(jsb, loc.value);
    if ind >= |jsb| {
      return Err(IndexPastEnd(ind));
    }
    var size := IntSize(jsb[ind]);
    if size.None? {
      return Ok(None);
    }
    var blob := Slice(jsb, ind + 1, ind + 1 + size.value);
    if |blob| != size.value {
      return Ok(None);
    }
    return Ok(Some(LeUnsigned(blob)));
  }

  // ---------------------------------------------------------------- both objects

  /** The offset table: per key, the offsets of its text in the copies "loc" and "loc2". */
  type Table = seq<(string, map<string, nat>)>

  /** The two decoded copies, key to value. */
  datatype Objects = Objects(obj1: map<string, nat>, obj2: map<string, nat>)

  /** `obj[key] = val` when val is not None. */
  function Store(obj: map<string, nat>, key: string, val: Option<nat>): (r: map<string, nat>)
    ensures Get(r, key) == if val.Some? then val else Get(obj, key)
    ensures forall k :: k != key ==> Get(r, k) == Get(obj, k)
  {
    if val.Some? then obj[key := val.value] else obj
  }

  /** `_grab(key, offs.get(slot))` for one entry of the table. */
  function ReadSlot(jsb: seq<byte>, entry: (string, map<string, nat>), slot: string): Result<Option<nat>>
  {
    Grab(jsb, Get(entry.1, slot))
  }

  /** The entry is skipped, or both of its copies are read without raising. */
  predicate EntryOk(jsb: seq<byte>, entry: (string, map<string, nat>))
  {
    entry.0 in Patcher.IgnoredKeys || (ReadSlot(jsb, entry, "loc").Ok? && ReadSlot(jsb, entry, "loc2").Ok?)
  }

  /** The exception of a failing entry: that of "loc", which is read first, or else that of "loc2". */
  function EntryError(jsb: seq<byte>, entry: (string, map<string, nat>)): Error
    requires !EntryOk(jsb, entry)
  {
    if ReadSlot(jsb, entry, "loc").Err? then ReadSlot(jsb, entry, "loc").error else ReadSlot(jsb, entry, "loc2").error
  }

  /** One entry of the table: an ignored key is skipped; otherwise both
      copies are read, "loc" then "loc2", before either is stored. */
  function DecodeEntry(jsb: seq<byte>, objs: Objects, entry: (string, map<string, nat>)): (r: Result<Objects>)
    ensures r.Ok? <==> EntryOk(jsb, entry)
    ensures r.Err? ==> r.error == EntryError(jsb, entry)
    ensures entry.0 in Patcher.IgnoredKeys ==> r == Ok(objs)
    // only the entry's key changes, in a copy that reads a value, to that value
    ensures r.Ok? ==> forall k :: k != entry.0 ==>
              Get(r.value.obj1, k) == Get(objs.obj1, k) && Get(r.value.obj2, k) == Get(objs.obj2, k)
    ensures r.Ok? && entry.0 !in Patcher.IgnoredKeys ==>
              && Get(r.value.obj1, entry.0) == (if ReadSlot(jsb, entry, "loc").value.Some?
                                                 then ReadSlot(jsb, entry, "loc").value else Get(objs.obj1, entry.0))
              && Get(r.value.obj2, entry.0) == (if ReadSlot(jsb, entry, "loc2").value.Some?
                                                 then ReadSlot(jsb, entry, "loc2").value else Get(objs.obj2, entry.0))
    ensures r.Ok? ==> Kept(jsb, objs.obj1, r.value.obj1, entry, "loc") && Kept(jsb, objs.obj2, r.value.obj2, entry, "loc2")
  {
    if entry.0 in Patcher.IgnoredKeys then Ok(objs)
    else
      var v1 :- Grab(jsb, Get(entry.1, "loc"));
      var v2 :- Grab(jsb, Get(entry.1, "loc2"));
      Ok(Objects(Store(objs.obj1, entry.0, v1), Store(objs.obj2, entry.0, v2)))
  }

  /** Each key of the new copy keeps its old value or is the entry's key
      with the value its copy "slot" reads. */
  predicate Kept(jsb: seq<byte>, old_: map<string, nat>, new_: map<string, nat>, entry: (string, map<string, nat>), slot: string)
  {
    forall k :: k in new_ ==>
      (k in old_ && new_[k] == old_[k])
      || (k == entry.0 && slot in entry.1 && Grab(jsb, Some(entry.1[slot])) == Ok(Some(new_[k])))
  }

  predicate Bounded(m: map<string, nat>)
  {
    forall k :: k in m ==> m[k] < 0x1_0000_0000
  }

  /** The keys a decoded copy may hold: table keys that are not ignored. */
  predicate TableKeys(m: map<string, nat>, table: Table)
  {
    forall k :: k in m ==> k in KeySet(table) && k !in Patcher.IgnoredKeys
  }

  /** `decode_physical_constraints` on a buffer: the table's entries in order,
      the first failure being the result. Every decoded key is a key of the
      table and none is a `version_*` key; every value fits 32 bits. */
  function Decode(jsb: seq<byte>, table: Table): (r: Result<Objects>)
    ensures r.Ok? ==> TableKeys(r.value.obj1, table) && TableKeys(r.value.obj2, table)
    ensures r.Ok? ==> Bounded(r.value.obj1) && Bounded(r.value.obj2)
    decreases |table|
  {
    if table == [] then Ok(Objects(map[], map[]))
    else
      var prefix := table[..|table| - 1];
      var prev :- Decode(jsb, prefix);
      assert forall k :: k in KeySet(prefix) ==> k in KeySet(table);
      DecodeEntry(jsb, prev, table[|table| - 1])
  }

  /** Once a prefix of the table fails, the whole table fails the same way. */
  lemma {:induction false} DecodeFailureStays(jsb: seq<byte>, table: Table, n: nat)
    requires n <= |table| && Decode(jsb, table[..n]).Err?
    ensures Decode(jsb, table) == Decode(jsb, table[..n])
    decreases |table|
  {
    if n < |table| {
      var prefix := table[..|table| - 1];
      assert prefix[..n] == table[..n];
      DecodeFailureStays(jsb, prefix, n);
    } else {
      assert table[..n] == table;
    }
  }

  /** Table entry i is key k, and its copy "slot" reads v. */
  ghost predicate ReadAt(jsb: seq<byte>, table: Table, i: int, k: string, slot: string, v: nat)
  {
    0 <= i < |table| && table[i].0 == k && slot in table[i].1 && Grab(jsb, Some(table[i].1[slot])) == Ok(Some(v))
  }

  /** Every key of the copy is read by some entry of the table. */
  ghost predicate Witnessed(jsb: seq<byte>, table: Table, obj: map<string, nat>, slot: string)
  {
    forall k :: k in obj ==> exists i :: ReadAt(jsb, table, i, k, slot, obj[k])
  }

  /** One more entry keeps every key witnessed. */
  lemma WitnessedStep(jsb: seq<byte>, table: Table, prev: map<string, nat>, obj: map<string, nat>, slot: string)
    requires table != [] && Witnessed(jsb, table[..|table| - 1], prev, slot)
    requires Kept(jsb, prev, obj, table[|table| - 1], slot)
    ensures Witnessed(jsb, table, obj, slot)
  {
    var n := |table| - 1;
    forall k | k in obj
      ensures exists i :: ReadAt(jsb, table, i, k, slot, obj[k])
    {
      if k in prev && obj[k] == prev[k] {
        var i :| ReadAt(jsb, table[..n], i, k, slot, prev[k]);
        assert ReadAt(jsb, table, i, k, slot, obj[k]);
      } else {
        assert ReadAt(jsb, table, n, k, slot, obj[k]);
      }
    }
  }

  /** Every decoded value is what some entry of its key reads in that copy. */
  lemma {:induction false} DecodedValuesRead(jsb: seq<byte>, table: Table)
    requires Decode(jsb, table).Ok?
    ensures Witnessed(jsb, table, Decode(jsb, table).value.obj1, "loc")
    ensures Witnessed(jsb, table, Decode(jsb, table).value.obj2, "loc2")
    decreases |table|
  {
    if table != [] {
      var prefix := table[..|table| - 1];
      DecodedValuesRead(jsb, prefix);
      var prev := Decode(jsb, prefix).value;
      var objs := Decode(jsb, table).value;
      assert DecodeEntry(jsb, prev, table[|table| - 1]) == Ok(objs);
      WitnessedStep(jsb, table, prev.obj1, objs.obj1, "loc");
      WitnessedStep(jsb, table, prev.obj2, objs.obj2, "loc2");
    }
  }

  /** Entry i is the first entry of the table that raises. */
  predicate FirstFailure(jsb: seq<byte>, table: Table, i: int)
  {
    0 <= i < |table| && !EntryOk(jsb, table[i]) && forall j :: 0 <= j < i ==> EntryOk(jsb, table[j])
  }

  /** The table decodes exactly when no entry raises, and a failure is the
      exception of the first entry that raises. */
  lemma {:induction false} DecodeOkIff(jsb: seq<byte>, table: Table)
    ensures Decode(jsb, table).Ok? <==> forall i :: 0 <= i < |table| ==> EntryOk(jsb, table[i])
    ensures Decode(jsb, table).Err? ==>
              exists i :: FirstFailure(jsb, table, i) && Decode(jsb, table).error == EntryError(jsb, table[i])
    decreases |table|
  {
    if table != [] {
      var n := |table| - 1;
      var prefix := table[..n];
      DecodeOkIff(jsb, prefix);
      assert forall i :: 0 <= i < n ==> prefix[i] == table[i];
      if Decode(jsb, prefix).Ok? {
        if !EntryOk(jsb, table[n]) {
          assert FirstFailure(jsb, table, n);
        }
      } else {
        var i :| FirstFailure(jsb, prefix, i) && Decode(jsb, prefix).error == EntryError(jsb, prefix[i]);
        assert FirstFailure(jsb, table, i);
      }
    }
  }

  /** The keys of the table are distinct, as those of a dict are. */
  predicate DistinctKeys(table: Table)
  {
    forall i, j :: 0 <= i < j < |table| ==> table[i].0 != table[j].0
  }

  /** With distinct keys, a copy of the decoded table holds a key that is not
      ignored exactly when `_grab` of that copy gives a value, and holds that
      value: Get of the copy is what `_grab` read. */
  lemma {:induction false} DecodedKeysComplete(jsb: seq<byte>, table: Table, i: nat)
    requires DistinctKeys(table) && Decode(jsb, table).Ok? && i < |table|
    requires table[i].0 !in Patcher.IgnoredKeys
    ensures ReadSlot(jsb, table[i], "loc") == Ok(Get(Decode(jsb, table).value.obj1, table[i].0))
    ensures ReadSlot(jsb, table[i], "loc2") == Ok(Get(Decode(jsb, table).value.obj2, table[i].0))
    decreases |table|
  {
    var n := |table| - 1;
    var prefix := table[..n];
    var prev := Decode(jsb, prefix).value;
    var objs := Decode(jsb, table).value;
    assert DecodeEntry(jsb, prev, table[n]) == Ok(objs);
    var k := table[i].0;
    if i < n {
      assert prefix[i] == table[i];
      assert DistinctKeys(prefix) by {
        assert forall a :: 0 <= a < n ==> prefix[a] == table[a];
      }
      DecodedKeysComplete(jsb, prefix, i);
      assert k != table[n].0;
    } else {
      assert forall j :: 0 <= j < n ==> prefix[j].0 != k;
      assert k !in KeySet(prefix);
    }
  }

  /** One entry of the loop of `decode_physical_constraints`. */
  method DecodeEntryAt(jsb: seq<byte>, objs: Objects, entry: (string, map<string, nat>)) returns (r: Result<Objects>)
    ensures r == DecodeEntry(jsb, objs, entry)
  {
    if entry.0 in Patcher.IgnoredKeys {
      return Ok(objs);
    }
    var v1 := GrabAt(jsb, Get(entry.1, "loc"));
    if v1.Err? {
      return Err(v1.error);
    }
    var v2 := GrabAt(jsb, Get(entry.1, "loc2"));
    if v2.Err? {
      return Err(v2.error);
    }
    var obj1 := objs.obj1;
    var obj2 := objs.obj2;
    if v1.value.Some? {
      obj1 := obj1[entry.0 := v1.value.value];
    }
    if v2.value.Some? {
      obj2 := obj2[entry.0 := v2.value.value];
    }
    return Ok(Objects(obj1, obj2));
  }

  /** Decoding one more entry of the table: the next step of the loop, and a
      failure there is the failure of the whole table. */
  lemma DecodeNext(jsb: seq<byte>, table: Table, i: nat, objs: Objects)
    requires i < |table| && Decode(jsb, table[..i]) == Ok(objs)
    ensures Decode(jsb, table[..i + 1]) == DecodeEntry(jsb, objs, table[i])
    ensures DecodeEntry(jsb, objs, table[i]).Err? ==> Decode(jsb, table) == DecodeEntry(jsb, objs, table[i])
  {
    assert table[..i + 1][..i] == table[..i];
    if DecodeEntry(jsb, objs, table[i]).Err? {
      DecodeFailureStays(jsb, table, i + 1);
    }
  }

  /** `decode_physical_constraints`: fills both objects entry by entry. */
  method DecodePhysicalConstraints(jsb: seq<byte>, table: Table) returns (r: Result<Objects>)
    ensures r == Decode(jsb, table)
  {
    var objs := Objects(map[], map[]);
    for i := 0 to |table|
      invariant Decode(jsb, table[..i]) == Ok(objs)
    {
      DecodeNext(jsb, table, i, objs);
      var next := DecodeEntryAt(jsb, objs, table[i]);
      if next.Err? {
        return next;
      }
      objs := next.value;
    }
    assert table[..|table|] == table;
    return Ok(objs);
  }

  // ---------------------------------------------------------------- round trips with the patcher

  /** The key text of a copy: |key| key bytes at loc, then the indicator. */
  predicate KeyText(d: seq<byte>, key: string, loc: nat)
  {
    loc + |key| < |d| && forall j :: loc <= j < loc + |key| ==> AsciiOk(d[j])
  }

  /** Writing val into a copy whose indicator is 0x02 succeeds when val fits
      32 bits and the slot fits the buffer, and reading that copy back gives val. */
  lemma PatchThenGrab(d: seq<byte>, key: string, loc: nat, val: int)
    requires KeyText(d, key, loc) && d[loc + |key|] == Patcher.IntIndicator
    requires 0 <= val < 0x1_0000_0000 && loc + |key| + 5 <= |d|
    ensures Patcher.PatchSlot(d, Patcher.Occurrence(key, loc, val)).Ok?
    ensures Grab(Patcher.PatchSlot(d, Patcher.Occurrence(key, loc, val)).value, Some(loc)) == Ok(Some(val))
  {
    var o := Patcher.Occurrence(key, loc, val);
    var ind := loc + |key|;
    var e := Patcher.PatchSlot(d, o).value;
    Patcher.WrittenSlot(d, o);
    assert !Patcher.InSlot(o, ind);
    forall j | loc <= j < ind
      ensures AsciiOk(e[j])
    {
      assert !Patcher.InSlot(o, j);
    }
    IndicatorAtStop(e, loc, ind);
    assert Slice(e, ind + 1, ind + 5) == e[ind + 1..ind + 5];
  }

  /** Writing the value a copy already reads leaves the buffer as it was. */
  lemma GrabThenPatch(d: seq<byte>, key: string, loc: nat, v: nat)
    requires KeyText(d, key, loc) && d[loc + |key|] == Patcher.IntIndicator
    requires Grab(d, Some(loc)) == Ok(Some(v))
    ensures Patcher.PatchSlot(d, Patcher.Occurrence(key, loc, v)) == Ok(d)
  {
    GrabbedSlot(d, key, loc, v);
    SameSlot(d, Patcher.Occurrence(key, loc, v));
  }

  /** The value a copy with indicator 0x02 reads is its four slot bytes. */
  lemma GrabbedSlot(d: seq<byte>, key: string, loc: nat, v: nat)
    requires KeyText(d, key, loc) && d[loc + |key|] == Patcher.IntIndicator
    requires Grab(d, Some(loc)) == Ok(Some(v))
    ensures loc + |key| + 5 <= |d| && v == LeUnsigned(d[loc + |key| + 1..loc + |key| + 5])
  {
    IndicatorAtStop(d, loc, loc + |key|);
  }

  /** Writing the slot's own value back leaves the buffer as it was. */
  lemma SameSlot(d: seq<byte>, o: Patcher.Occurrence)
    requires var ind := Patcher.IndicatorPos(o);
             && ind + 5 <= |d| && d[ind] == Patcher.IntIndicator && o.val == LeUnsigned(d[ind + 1..ind + 5])
    ensures Patcher.PatchSlot(d, o) == Ok(d)
  {
    var ind := Patcher.IndicatorPos(o);
    var blob := d[ind + 1..ind + 5];
    LeEncodeDecode(blob);
    Pow256Widths();
    assert d[..ind + 1] + blob + d[ind + 5..] == d;
  }

  // ---------------------------------------------------------------- presentation order

  /** The fixed presentation order of the keys. */
  const Order: seq<string> := [
      "very_slow_walk_speed", "slow_walk_speed", "walk_speed", "fast_walk_speed", "slow_jog_speed",
      "jog_speed", "moderate_jog_speed", "fast_jog_speed", "run_speed", "sprint_speed", "base_top_speed",
      "top_speed", "speed_scaler", "acceleration_scaler", "soft_kick_speed", "soft_to_medium_kick_speed",
      "medium_kick_speed", "medium_to_moderate_kick_speed", "moderate_kick_speed", "quite_hard_kick_speed",
      "hard_kick_speed", "very_hard_kick_speed", "basic_header_speed", "theoretical_max_acceleration",
      "theoretical_max_deceleration", "theoretical_max_diving_acceleration", "theoretical_max_diving_speed",
      "theoretical_max_potential_direction_change_jog", "theoretical_max_potential_direction_change_run",
      "theoretical_max_potential_direction_change_walk", "theoretical_max_running_speed",
      "theoretical_max_turning_rate", "theoretical_min_acceleration", "theoretical_min_deceleration",
      "theoretical_min_diving_acceleration", "theoretical_min_diving_speed",
      "theoretical_min_potential_direction_change_jog", "theoretical_min_potential_direction_change_run",
      "theoretical_min_potential_direction_change_walk", "min_delay_for_ball_lunge_do",
      "min_delay_for_ball_lunge_receive", "min_delay_for_block_tackle_do",
      "min_delay_for_block_tackle_receive", "min_delay_for_celebrating_a_goal",
      "min_delay_for_deflect_ball_do", "min_delay_for_deflect_ball_receive", "min_delay_for_diving_header",
      "min_delay_for_foot_up_in_tackle_do", "min_delay_for_foot_up_in_tackle_receive",
      "min_delay_for_force_opponent_to_lose_ball_do", "min_delay_for_force_opponent_to_lose_ball_receive",
      "min_delay_for_getting_injured", "min_delay_for_normal_header", "min_delay_for_obstruct_do",
      "min_delay_for_obstruct_receive", "min_delay_for_player_stop_to_avoid_collision",
      "min_delay_for_push_opponen_receive", "min_delay_for_push_opponent_do",
      "min_delay_for_shirt_tug_receive", "min_delay_for_shoulder_charge_do",
      "min_delay_for_shoulder_charge_receive", "min_delay_for_slide_tackle_do",
      "min_delay_for_slide_tackle_receive", "min_delay_for_trip_do", "min_delay_for_trip_receive",
      "min_delay_for_two_footed_tackle_do", "min_delay_for_two_footed_tackle_receive",
      "min_delay_for_violent_act_do", "min_delay_for_violent_act_receive",
      "min_delay_keeper_drop_ball_for_distribution", "min_delay_keeper_save_dive_and_hold_ball",
      "min_delay_keeper_save_dive_but_not_held", "min_delay_keeper_save_intentionally_drop_ball",
      "min_delay_keeper_save_no_dive_hold_ball", "min_delay_keeper_save_no_dive_not_held",
      "min_delay_keeper_save_with_outreached_foot", "min_extra_delay_for_falling_down_before_injury",
      "version_year"
  ]

  /** Python's `<` on strings: the first differing character decides, and a
      proper prefix comes first. */
  predicate Before(a: string, b: string)
    decreases |a|
  {
    |b| > 0 && (|a| == 0 || a[0] < b[0] || (a[0] == b[0] && Before(a[1..], b[1..])))
  }

  lemma {:induction false} BeforeIrreflexive(a: string)
    ensures !Before(a, a)
    decreases |a|
  {
    if |a| > 0 {
      BeforeIrreflexive(a[1..]);
    }
  }

  lemma {:induction false} BeforeTransitive(a: string, b: string, c: string)
    requires Before(a, b) && Before(b, c)
    ensures Before(a, c)
    decreases |a|
  {
    if |a| > 0 && a[0] == b[0] && b[0] == c[0] {
      BeforeTransitive(a[1..], b[1..], c[1..]);
    }
  }

  lemma {:induction false} BeforeTotal(a: string, b: string)
    requires a != b
    ensures Before(a, b) || Before(b, a)
    decreases |a|
  {
    if |a| > 0 && |b| > 0 && a[0] == b[0] {
      assert a == [a[0]] + a[1..] && b == [b[0]] + b[1..];
      BeforeTotal(a[1..], b[1..]);
    }
  }

  /** The least string of a non-empty set. */
  method Least(s: set<string>) returns (m: string)
    requires s != {}
    ensures m in s && forall x :: x in s && x != m ==> Before(m, x)
  {
    m :| m in s;
    var rest := s - {m};
    while rest != {}
      invariant m in s && rest <= s && m !in rest
      invariant forall x :: x in s && x !in rest && x != m ==> Before(m, x)
      decreases |rest|
    {
      var x :| x in rest;
      if Before(x, m) {
        forall y | y in s && y !in rest && y != m
          ensures Before(x, y)
        {
          BeforeTransitive(x, m, y);
        }
        BeforeIrreflexive(x);
        m := x;
      } else {
        BeforeTotal(x, m);
      }
      rest := rest - {x};
    }
  }

  predicate Increasing(r: seq<string>)
  {
    forall i, j :: 0 <= i < j < |r| ==> Before(r[i], r[j])
  }

  /** `sorted` on a set of keys: every key once, in increasing order. */
  method SortedKeys(s: set<string>) returns (r: seq<string>)
    ensures Increasing(r)
    ensures forall k :: k in r <==> k in s
  {
    r := [];
    var left := s;
    while left != {}
      invariant Increasing(r)
      invariant forall k :: k in s <==> k in r || k in left
      invariant forall k :: k in left ==> k !in r
      invariant forall i, k :: 0 <= i < |r| && k in left ==> Before(r[i], k)
      decreases |left|
    {
      var m := Least(left);
      r := r + [m];
      left := left - {m};
    }
  }

  /** The position at which k first appears in order. */
  function IndexOf(order: seq<string>, k: string): (i: nat)
    requires k in order
    ensures i < |order| && order[i] == k
    ensures forall j :: 0 <= j < i ==> order[j] != k
  {
    if order[0] == k then 0 else 1 + IndexOf(order[1..], k)
  }

  /** The keys of a list of pairs (an ordered dict, or the offset table), as a set. */
  function KeySet<V>(out: seq<(string, V)>): (r: set<string>)
    ensures forall i :: 0 <= i < |out| ==> out[i].0 in r
  {
    set i | 0 <= i < |out| :: out[i].0
  }

  /** Key a comes before key b: keys of order first, by their place in it,
      then the other keys in increasing order. */
  predicate InOrder(order: seq<string>, a: string, b: string)
  {
    if a in order then b !in order || IndexOf(order, a) < IndexOf(order, b)
    else b !in order && Before(a, b)
  }

  lemma KeySetSnoc(out: seq<(string, nat)>, p: (string, nat))
    ensures KeySet(out + [p]) == KeySet(out) + {p.0}
  {
    var o := out + [p];
    assert forall i :: 0 <= i < |out| ==> o[i] == out[i];
    assert o[|out|] == p;
  }

  lemma KeySetConcat(head: seq<(string, nat)>, tail: seq<(string, nat)>)
    ensures KeySet(head + tail) == KeySet(head) + KeySet(tail)
  {
    var o := head + tail;
    assert forall i :: 0 <= i < |head| ==> o[i] == head[i];
    assert forall i :: 0 <= i < |tail| ==> o[|head| + i] == tail[i];
  }

  /** What the first loop of `_ordered` has done after the first i keys of
      order: those present in d moved, in that order, from d to head. */
  ghost predicate Popped(order: seq<string>, d: map<string, nat>, i: nat, head: seq<(string, nat)>, rest: map<string, nat>)
    requires i <= |order|
  {
    PoppedRest(order, d, i, rest) && PoppedHead(order, d, i, head)
  }

  /** What is left of d: the keys not among the first i of order. */
  ghost predicate PoppedRest(order: seq<string>, d: map<string, nat>, i: nat, rest: map<string, nat>)
    requires i <= |order|
  {
    && (forall k :: k in rest <==> k in d && k !in order[..i])
    && (forall k :: k in rest ==> rest[k] == d[k])
  }

  /** What was popped: the keys of d among the first i of order, in that order. */
  ghost predicate PoppedHead(order: seq<string>, d: map<string, nat>, i: nat, head: seq<(string, nat)>)
    requires i <= |order|
  {
    && (forall j :: 0 <= j < |head| ==> head[j].0 in order[..i] && head[j].0 in d && head[j].1 == d[head[j].0])
    && (forall k :: k in KeySet(head) <==> k in d && k in order[..i])
    && (forall a, b :: 0 <= a < b < |head| ==> IndexOf(order, head[a].0) < IndexOf(order, head[b].0))
  }

  /** A key of order that d no longer holds leaves the popped state as it is. */
  lemma PopSkip(order: seq<string>, d: map<string, nat>, i: nat, head: seq<(string, nat)>, rest: map<string, nat>)
    requires i < |order| && Popped(order, d, i, head, rest) && order[i] !in rest
    ensures Popped(order, d, i + 1, head, rest)
  {
    assert order[..i + 1] == order[..i] + [order[i]];
  }

  /** A key of order that d still holds moves to the end of head. */
  lemma PopTake(order: seq<string>, d: map<string, nat>, i: nat, head: seq<(string, nat)>, rest: map<string, nat>)
    requires i < |order| && Popped(order, d, i, head, rest) && order[i] in rest
    ensures Popped(order, d, i + 1, head + [(order[i], d[order[i]])], rest - {order[i]})
  {
    PopTakeRest(order, d, i, rest);
    PopTakeHead(order, d, i, head);
  }

  /** The key popped at turn i leaves what is left of d. */
  lemma PopTakeRest(order: seq<string>, d: map<string, nat>, i: nat, rest: map<string, nat>)
    requires i < |order| && PoppedRest(order, d, i, rest) && order[i] in rest
    ensures order[i] in d && order[i] !in order[..i]
    ensures PoppedRest(order, d, i + 1, rest - {order[i]})
  {
    assert order[..i + 1] == order[..i] + [order[i]];
  }

  /** The key popped at turn i goes after every key popped before it. */
  lemma PopTakeHead(order: seq<string>, d: map<string, nat>, i: nat, head: seq<(string, nat)>)
    requires i < |order| && PoppedHead(order, d, i, head)
    requires order[i] in d && order[i] !in order[..i]
    ensures PoppedHead(order, d, i + 1, head + [(order[i], d[order[i]])])
  {
    var k := order[i];
    assert order[..i + 1] == order[..i] + [k];
    assert IndexOf(order, k) == i;
    KeySetSnoc(head, (k, d[k]));
  }

  /** One turn of the first loop: pop order[i] if d still holds it. */
  method PopKey(order: seq<string>, d: map<string, nat>, i: nat, head0: seq<(string, nat)>, rest0: map<string, nat>)
    returns (head: seq<(string, nat)>, rest: map<string, nat>)
    requires i < |order| && Popped(order, d, i, head0, rest0)
    ensures Popped(order, d, i + 1, head, rest)
    ensures order[i] in rest0 ==> head == head0 + [(order[i], d[order[i]])] && rest == rest0 - {order[i]}
    ensures order[i] !in rest0 ==> head == head0 && rest == rest0
  {
    var k := order[i];
    head, rest := head0, rest0;
    if k in rest {
      PopTake(order, d, i, head, rest);
      head := head + [(k, rest[k])];
      rest := rest - {k};
    } else {
      PopSkip(order, d, i, head, rest);
    }
  }

  /** The first loop of `_ordered`: the keys of order, in that order, popped from d. */
  method PopOrder(order: seq<string>, d: map<string, nat>) returns (head: seq<(string, nat)>, rest: map<string, nat>)
    ensures forall j :: 0 <= j < |head| ==> head[j].0 in order && head[j].0 in d && head[j].1 == d[head[j].0]
    ensures forall k :: k in KeySet(head) <==> k in d && k in order
    ensures forall a, b :: 0 <= a < b < |head| ==> IndexOf(order, head[a].0) < IndexOf(order, head[b].0)
    ensures rest == map k | k in d && k !in order :: d[k]
  {
    head := [];
    rest := d;
    for i := 0 to |order|
      invariant Popped(order, d, i, head, rest)
    {
      head, rest := PopKey(order, d, i, head, rest);
    }
    assert order[..|order|] == order;
  }

  /** The second loop of `_ordered`: the remaining keys, sorted, with their values. */
  method AppendSorted(rest: map<string, nat>) returns (tail: seq<(string, nat)>)
    ensures forall j :: 0 <= j < |tail| ==> tail[j].0 in rest && tail[j].1 == rest[tail[j].0]
    ensures KeySet(tail) == rest.Keys
    ensures forall a, b :: 0 <= a < b < |tail| ==> Before(tail[a].0, tail[b].0)
  {
    var keys := SortedKeys(rest.Keys);
    tail := [];
    for i := 0 to |keys|
      invariant |tail| == i && forall j :: 0 <= j < i ==> tail[j] == (keys[j], rest[keys[j]])
    {
      tail := tail + [(keys[i], rest[keys[i]])];
    }
    assert forall k :: k in KeySet(tail) <==> k in keys;
  }

  /** The pairs of head then tail meet the order and no key repeats. */
  lemma ConcatInOrder(order: seq<string>, head: seq<(string, nat)>, tail: seq<(string, nat)>)
    requires forall j :: 0 <= j < |head| ==> head[j].0 in order
    requires forall a, b :: 0 <= a < b < |head| ==> IndexOf(order, head[a].0) < IndexOf(order, head[b].0)
    requires forall j :: 0 <= j < |tail| ==> tail[j].0 !in order
    requires forall a, b :: 0 <= a < b < |tail| ==> Before(tail[a].0, tail[b].0)
    ensures var out := head + tail;
            forall i, j :: 0 <= i < j < |out| ==> out[i].0 != out[j].0 && InOrder(order, out[i].0, out[j].0)
  {
    var out := head + tail;
    forall i, j | 0 <= i < j < |out|
      ensures out[i].0 != out[j].0 && InOrder(order, out[i].0, out[j].0)
    {
      if j < |head| {
        assert out[i] == head[i] && out[j] == head[j];
      } else if i < |head| {
        assert out[i] == head[i] && out[j] == tail[j - |head|];
      } else {
        assert out[i] == tail[i - |head|] && out[j] == tail[j - |head|];
        BeforeIrreflexive(out[i].0);
      }
    }
  }

  /** `_ordered(d)` with the presentation order as a parameter: the pairs of
      d, keys of order first in that order, then the others sorted; the keys
      of order are popped from the dict, which is the second result. */
  method OrderedBy(order: seq<string>, d: map<string, nat>) returns (out: seq<(string, nat)>, rest: map<string, nat>)
    ensures forall i :: 0 <= i < |out| ==> out[i].0 in d && out[i].1 == d[out[i].0]
    ensures KeySet(out) == d.Keys
    ensures forall i, j :: 0 <= i < j < |out| ==> out[i].0 != out[j].0 && InOrder(order, out[i].0, out[j].0)
    ensures rest == map k | k in d && k !in order :: d[k]
  {
    var head;
    head, rest := PopOrder(order, d);
    var tail := AppendSorted(rest);
    ConcatInOrder(order, head, tail);
    KeySetConcat(head, tail);
    out := head + tail;
    assert forall i :: 0 <= i < |out| ==> out[i] == if i < |head| then head[i] else tail[i - |head|];
  }

  /** `_ordered(d)`. */
  method Ordered(d: map<string, nat>) returns (out: seq<(string, nat)>, rest: map<string, nat>)
    ensures forall i :: 0 <= i < |out| ==> out[i].0 in d && out[i].1 == d[out[i].0]
    ensures KeySet(out) == d.Keys
    ensures forall i, j :: 0 <= i < j < |out| ==> out[i].0 != out[j].0 && InOrder(Order, out[i].0, out[j].0)
    ensures rest == map k | k in d && k !in Order :: d[k]
  {
    out, rest := OrderedBy(Order, d);
  }

  // ---------------------------------------------------------------- comparing the copies

  /** The copies agree outside the ignored keys, a key missing from a copy reading as None. */
  predicate Identical(obj1: map<string, nat>, obj2: map<string, nat>, ignored: set<string>)
  {
    forall k :: k in obj1.Keys + obj2.Keys && k !in ignored ==> Get(obj1, k) == Get(obj2, k)
  }

  /** A copy without its ignored keys. */
  function Without(m: map<string, nat>, ignored: set<string>): (r: map<string, nat>)
    ensures forall k :: k in r <==> k in m && k !in ignored
    ensures forall k :: k in r ==> r[k] == m[k]
  {
    map k | k in m && k !in ignored :: m[k]
  }

  /** Agreeing is having equal dicts once the ignored keys are dropped. */
  lemma IdenticalIffSameWithout(obj1: map<string, nat>, obj2: map<string, nat>, ignored: set<string>)
    ensures Identical(obj1, obj2, ignored) <==> Without(obj1, ignored) == Without(obj2, ignored)
  {
    var w1, w2 := Without(obj1, ignored), Without(obj2, ignored);
    if !Identical(obj1, obj2, ignored) {
      var k :| k in obj1.Keys + obj2.Keys && k !in ignored && Get(obj1, k) != Get(obj2, k);
      assert k in w1 || k in w2;
      assert w1 != w2 by {
        if k in w1 && k in w2 {
          assert w1[k] != w2[k];
        }
      }
    }
  }

  /** The ignored keys of `compare_jsb_copies` when none are given. */
  function IgnoredOrDefault(ignored: Option<set<string>>): set<string>
  {
    if ignored.None? then Patcher.IgnoredKeys else ignored.value
  }

  /** The loop of `compare_jsb_copies` over the sorted union of the keys,
      clearing the flag at the first difference. */
  method CompareCopies(obj1: map<string, nat>, obj2: map<string, nat>, ignored: Option<set<string>>) returns (ok: bool)
    ensures ok <==> Identical(obj1, obj2, IgnoredOrDefault(ignored))
  {
    var ign := IgnoredOrDefault(ignored);
    var keys := SortedKeys(obj1.Keys + obj2.Keys);
    ok := true;
    for i := 0 to |keys|
      invariant ok <==> forall j :: 0 <= j < i && keys[j] !in ign ==> Get(obj1, keys[j]) == Get(obj2, keys[j])
    {
      if keys[i] !in ign && Get(obj1, keys[i]) != Get(obj2, keys[i]) {
        ok := false;
      }
    }
    assert forall k :: (k in obj1 || k in obj2) ==> k in keys;
  }

  /** `compare_jsb_copies`: decode both copies, then compare them. */
  method CompareJsbCopies(jsb: seq<byte>, table: Table, ignored: Option<set<string>>) returns (r: Result<bool>)
    ensures Decode(jsb, table).Err? ==> r == Err(Decode(jsb, table).error)
    ensures Decode(jsb, table).Ok? ==>
              var objs := Decode(jsb, table).value;
              r.Ok? && (r.value <==> Identical(objs.obj1, objs.obj2, IgnoredOrDefault(ignored)))
  {
    var objs := DecodePhysicalConstraints(jsb, table);
    if objs.Err? {
      return Err(objs.error);
    }
    var ok := CompareCopies(objs.value.obj1, objs.value.obj2, ignored);
    return Ok(ok);
  }

  // ---------------------------------------------------------------- checking desired values

  /** A desired value is met when at least one copy holds it. */
  predicate Met(objs: Objects, want: (string, int)): (r: bool)
    // decoded values are unsigned, so a negative desired value is never met
    ensures r ==> want.1 >= 0
    ensures r <==> want.1 >= 0 && (Get(objs.obj1, want.0) == Some(want.1 as nat) || Get(objs.obj2, want.0) == Some(want.1 as nat))
  {
    (want.0 in objs.obj1 && objs.obj1[want.0] == want.1) || (want.0 in objs.obj2 && objs.obj2[want.0] == want.1)
  }

  /** A met value whose copies disagree draws a warning. */
  predicate Warns(objs: Objects, want: (string, int)): (r: bool)
    // a warning needs one copy to hold the value and the other to miss it or hold another
    ensures r <==> Met(objs, want) && !(want.0 in objs.obj1 && want.0 in objs.obj2 && objs.obj1[want.0] == objs.obj2[want.0])
  {
    Met(objs, want) && Get(objs.obj1, want.0) != Get(objs.obj2, want.0)
  }

  /** The desired entries that draw a warning, in order. */
  function Warnings(desired: seq<(string, int)>, objs: Objects): (r: seq<(string, int)>)
    ensures |r| <= |desired|
    ensures r == [] <==> forall i :: 0 <= i < |desired| ==> !Warns(objs, desired[i])
  {
    if desired == [] then []
    else (if Warns(objs, desired[0]) then [desired[0]] else []) + Warnings(desired[1..], objs)
  }

  /** The warnings are desired entries that warn, and every desired entry
      that warns is among them. */
  lemma {:induction false} WarningsExact(desired: seq<(string, int)>, objs: Objects)
    ensures forall j :: 0 <= j < |Warnings(desired, objs)| ==>
              Warnings(desired, objs)[j] in desired && Warns(objs, Warnings(desired, objs)[j])
    ensures forall i :: 0 <= i < |desired| && Warns(objs, desired[i]) ==> desired[i] in Warnings(desired, objs)
  {
    if desired != [] {
      var tail := desired[1..];
      WarningsExact(tail, objs);
      var r := Warnings(desired, objs);
      var rest := Warnings(tail, objs);
      var head := if Warns(objs, desired[0]) then [desired[0]] else [];
      assert r == head + rest;
      forall j | 0 <= j < |r|
        ensures r[j] in desired && Warns(objs, r[j])
      {
        if j >= |head| {
          assert r[j] == rest[j - |head|] && rest[j - |head|] in tail;
          var m :| 0 <= m < |tail| && tail[m] == r[j];
          assert desired[m + 1] == r[j];
        }
      }
      forall i | 0 <= i < |desired| && Warns(objs, desired[i])
        ensures desired[i] in r
      {
        if i == 0 {
          assert r[0] == desired[0];
        } else {
          assert desired[i] == tail[i - 1] && tail[i - 1] in rest;
        }
      }
    }
  }

  /** One pass of the loop below: the warnings so far, then those of
      desired[i], then those of the rest. */
  lemma WarningsStep(desired: seq<(string, int)>, i: nat, objs: Objects, warnings: seq<(string, int)>)
    requires i < |desired|
    requires Warnings(desired, objs) == warnings + Warnings(desired[i..], objs)
    ensures Warnings(desired, objs)
            == (if Warns(objs, desired[i]) then warnings + [desired[i]] else warnings) + Warnings(desired[i + 1..], objs)
  {
    assert desired[i..][1..] == desired[i + 1..];
    var later := Warnings(desired[i + 1..], objs);
    if Warns(objs, desired[i]) {
      assert warnings + ([desired[i]] + later) == (warnings + [desired[i]]) + later;
    } else {
      assert [] + later == later;
    }
  }

  /** The loop of `verify_physical_constraints`: every desired value must be
      met by a copy; disagreeing copies of a met value only warn. */
  method CheckDesired(desired: seq<(string, int)>, objs: Objects) returns (ok: bool, warnings: seq<(string, int)>)
    ensures ok <==> forall i :: 0 <= i < |desired| ==> Met(objs, desired[i])
    ensures warnings == Warnings(desired, objs)
  {
    ok := true;
    warnings := [];
    for i := 0 to |desired|
      invariant ok <==> forall j :: 0 <= j < i ==> Met(objs, desired[j])
      invariant Warnings(desired, objs) == warnings + Warnings(desired[i..], objs)
    {
      WarningsStep(desired, i, objs, warnings);
      if Met(objs, desired[i]) {
        if Get(objs.obj1, desired[i].0) != Get(objs.obj2, desired[i].0) {
          warnings := warnings + [desired[i]];
        }
      } else {
        ok := false;
      }
    }
    assert desired[|desired|..] == [];
  }

  /** `verify_physical_constraints`: no desired-values file means failure
      without decoding; otherwise the decoded copies are checked. */
  method VerifyPhysicalConstraints(desired: Option<seq<(string, int)>>, jsb: seq<byte>, table: Table)
    returns (r: Result<bool>, warnings: seq<(string, int)>)
    ensures desired.None? ==> r == Ok(false) && warnings == []
    ensures desired.Some? && Decode(jsb, table).Err? ==> r == Err(Decode(jsb, table).error)
    ensures desired.Some? && Decode(jsb, table).Ok? ==>
              var objs := Decode(jsb, table).value;
              && r.Ok? && (r.value <==> forall i :: 0 <= i < |desired.value| ==> Met(objs, desired.value[i]))
              && warnings == Warnings(desired.value, objs)
  {
    if desired.None? {
      return Ok(false), [];
    }
    var objs := DecodePhysicalConstraints(jsb, table);
    if objs.Err? {
      return Err(objs.error), [];
    }
    var ok;
    ok, warnings := CheckDesired(desired.value, objs.value);
    r := Ok(ok);
  }
}
