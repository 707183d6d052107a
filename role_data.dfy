/** `parse_role_data`: the role coefficients of the `role_data` section.

    The section body is scanned for name sentinels; after each one comes a
    label up to the next value sentinel, then a value. Coefficients are
    collected in blocks of 52; a trailing partial block is dropped. Offsets in
    errors and cursors are positions in the section data, which starts at the
    body offset.
 */
module RoleData {
  import opened Errors
  import opened Bytes
  import opened TokenStream
  import opened Varint

  datatype RoleCoeff = RoleCoeff(name: seq<byte>, value: int)

  const SectionKey: seq<byte> := [0x72, 0x6F, 0x6C, 0x65, 0x5F, 0x64, 0x61, 0x74, 0x61]  // "role_data"
  const NameSep: seq<byte> := [0x3A, 0x04, 0x6E, 0x61, 0x6D, 0x65]  // ":" then the 4-byte key "name"
  const ValueSep: seq<byte> := [0x05, 0x76, 0x61, 0x6C, 0x75, 0x65]  // the 5-byte key "value"
  const BlockSize: nat := 52

  // ---------------------------------------------------------------- labels

  /** The label with its leading control bytes (below 32) removed. */
  function StripControl(raw: seq<byte>): (r: seq<byte>)
    ensures |r| <= |raw| && r == raw[|raw| - |r|..]
    ensures r == [] || r[0] >= 32
    ensures forall i :: 0 <= i < |raw| - |r| ==> raw[i] < 32
  {
    if raw != [] && raw[0] < 32 then
      var r := StripControl(raw[1..]);
      assert raw[1..][|raw| - 1 - |r|..] == raw[|raw| - |r|..];
      r
    else raw
  }

  /** `_clean_label`: drops the header of a label. A long-string header
      (0x08 and a 4-byte length) is 5 bytes, a short-string header or the
      special 0x68 byte is 1, and anything else loses its leading control bytes. */
  function CleanLabel(raw: seq<byte>): (r: seq<byte>)
    ensures |r| <= |raw| && r == raw[|raw| - |r|..]
  {
    if raw == [] then []
    else if raw[0] == 0x08 && |raw| >= 5 then raw[5..]
    else if raw[0] >= 0x80 || raw[0] == 0x68 then raw[1..]
    else StripControl(raw)
  }

  /** How many header bytes CleanLabel drops, and that a label without a
      recognised header never keeps a leading control byte. */
  lemma CleanLabelHeader(raw: seq<byte>)
    requires raw != []
    ensures raw[0] == 0x08 && |raw| >= 5 ==> |CleanLabel(raw)| == |raw| - 5
    ensures (raw[0] >= 0x80 || raw[0] == 0x68) ==> |CleanLabel(raw)| == |raw| - 1
    ensures !(raw[0] == 0x08 && |raw| >= 5) && raw[0] < 0x80 && raw[0] != 0x68 ==>
              (CleanLabel(raw) == [] || CleanLabel(raw)[0] >= 32)
              && forall i :: 0 <= i < |raw| - |CleanLabel(raw)| ==> raw[i] < 32
  {
  }

  /** Stripping control bytes a second time changes nothing. */
  lemma StripControlIdempotent(raw: seq<byte>)
    ensures StripControl(StripControl(raw)) == StripControl(raw)
  {
  }

  /** `_clean_label` with its strip loop. */
  method CleanLabelOf(raw: seq<byte>) returns (r: seq<byte>)
    ensures r == CleanLabel(raw)
  {
    if raw == [] {
      return [];
    }
    var tag := raw[0];
    if tag == 0x08 && |raw| >= 5 {
      return raw[5..];
    }
    if tag >= 0x80 || tag == 0x68 {
      return raw[1..];
    }
    r := raw;
    while r != [] && r[0] < 32
      invariant StripControl(r) == StripControl(raw)
      decreases |r|
    {
      r := r[1..];
    }
  }

  // ---------------------------------------------------------------- values

  /** The value after a value sentinel at p: int32, int64, a tiny
      non-negative (0x80..0xBF), a tiny non-positive (0xC0..0xFF), or a
      ZigZag varint; the second component is the offset after it. */
  function RoleValue(data: seq<byte>, p: nat): (r: Result<(int, nat)>)
    ensures r.Err? <==> p >= |data| || (data[p] == 0x02 && p + 5 > |data|)
                                  || (data[p] == 0x03 && p + 9 > |data|)
    ensures r.Ok? ==> p < r.value.1 <= |data|
  {
    if p >= |data| then Err(IndexPastEnd(p))
    else
      var tag: int := data[p];
      if tag == 0x02 then
        var x :- UnpackFrom(data, p + 1, 4, true);
        Ok((x, p + 5))
      else if tag == 0x03 then
        var x :- UnpackFrom(data, p + 1, 8, true);
        Ok((x, p + 9))
      else if 0x80 <= tag <= 0xBF then Ok((tag - 0x80, p + 1))
      else if 0xC0 <= tag then Ok((-(tag - 0xC0), p + 1))
      else VarintDecode(data, p)
  }

  /** The value classes: tiny tags give 0..63 and -63..0 in one byte, any
      other tag below 0x80 is a one-byte varint, and the fixed-width tags
      read a little-endian two's-complement integer. */
  lemma RoleValueClasses(data: seq<byte>, p: nat)
    requires p < |data|
    ensures var r := RoleValue(data, p);
            var tag: int := data[p];
            && (0x80 <= tag <= 0xBF ==> r == Ok((tag - 0x80, p + 1)) && 0 <= r.value.0 <= 63)
            && (0xC0 <= tag ==> r == Ok((-(tag - 0xC0), p + 1)) && -63 <= r.value.0 <= 0)
            && (tag < 0x80 && tag != 0x02 && tag != 0x03 ==>
                  r == Ok((ZigZagDecode(tag), p + 1)) && -64 <= r.value.0 <= 63)
            && (tag == 0x02 && p + 5 <= |data| ==>
                  r == Ok((ToSigned(LeUnsigned(data[p + 1..p + 5]), 4), p + 5)))
            && (tag == 0x03 && p + 9 <= |data| ==>
                  r == Ok((ToSigned(LeUnsigned(data[p + 1..p + 9]), 8), p + 9)))
  {
    var tag := data[p];
    if tag < 0x80 && tag != 0x02 && tag != 0x03 {
      SingleByteVarint(data, p);
    }
  }

  /** The value decoder of the scan loop. */
  method ReadRoleValue(data: seq<byte>, p: nat) returns (r: Result<(int, nat)>)
    ensures r == RoleValue(data, p)
  {
    if p >= |data| {
      return Err(IndexPastEnd(p));
    }
    var tag: int := data[p];
    if tag == 0x02 {
      var x := UnpackFrom(data, p + 1, 4, true);
      if x.Err? {
        return Err(x.error);
      }
      r := Ok((x.value, p + 5));
    } else if tag == 0x03 {
      var x := UnpackFrom(data, p + 1, 8, true);
      if x.Err? {
        return Err(x.error);
      }
      r := Ok((x.value, p + 9));
    } else if 0x80 <= tag <= 0xBF {
      r := Ok((tag - 0x80, p + 1));
    } else if 0xC0 <= tag {
      r := Ok((-(tag - 0xC0), p + 1));
    } else {
      r := ReadVarint(data, p);
    }
  }

  // ---------------------------------------------------------------- the scan

  /** One iteration of the scan from cur: no further coefficient, a
      coefficient and the cursor after it, or an exception. */
  datatype Step = Done | Found(coeff: RoleCoeff, next: nat) | Raise(err: Error)

  function ScanStep(data: seq<byte>, cur: nat): (r: Step)
    // the cursor moves strictly forward and stays within the data
    ensures r.Found? ==> cur < r.next <= |data|
    ensures r.Done? <==> Find(data, NameSep, cur) == -1
                         || Find(data, ValueSep, Find(data, NameSep, cur) + |NameSep|) == -1
  {
    var npos := Find(data, NameSep, cur);
    if npos == -1 then Done else AfterName(data, npos + |NameSep|)
  }

  /** The rest of an iteration once the label starts at lstart. */
  function AfterName(data: seq<byte>, lstart: nat): (r: Step)
    ensures r.Found? ==> lstart < r.next <= |data|
    ensures r.Done? <==> Find(data, ValueSep, lstart) == -1
  {
    var vpos := Find(data, ValueSep, lstart);
    if vpos == -1 then Done else Entry(data, lstart, vpos)
  }

  /** The coefficient whose label runs from lstart to the value sentinel at vpos. */
  function Entry(data: seq<byte>, lstart: nat, vpos: nat): (r: Step)
    requires lstart <= vpos <= |data|
    ensures !r.Done?
    ensures r.Found? ==> vpos + |ValueSep| < r.next <= |data|
  {
    var name := CleanLabel(data[lstart..vpos]);
    match RoleValue(data, vpos + |ValueSep|)
    case Ok(v) => Found(RoleCoeff(name, v.0), v.1)
    case Err(e) => Raise(e)
  }

  /** The coefficients the scan collects from cur on. After each coefficient
      the scan ends once `body + cursor` reaches stop. */
  function Coeffs(data: seq<byte>, body: nat, stop: nat, cur: nat): (r: Result<seq<RoleCoeff>>)
    // every coefficient takes at least one byte past the cursor
    ensures r.Ok? ==> r.value == [] || cur + |r.value| <= |data|
    // the first coefficient is the one the scan finds at the cursor
    ensures r.Ok? && r.value != [] ==> ScanStep(data, cur).Found? && r.value[0] == ScanStep(data, cur).coeff
    // a found coefficient is never lost, and a raised error ends the scan
    ensures ScanStep(data, cur).Found? && r.Ok? ==> r.value != []
    ensures ScanStep(data, cur).Raise? ==> r == Err(ScanStep(data, cur).err)
    decreases |data| - cur
  {
    match ScanStep(data, cur)
    case Done => Ok([])
    case Raise(e) => Err(e)
    case Found(c, next) =>
      if body + next >= stop then Ok([c])
      else Prepend([c], Coeffs(data, body, stop, next))
  }

  /** The concatenation of some blocks. */
  function Flatten(blocks: seq<seq<RoleCoeff>>): (r: seq<RoleCoeff>)
  {
    if blocks == [] then [] else blocks[0] + Flatten(blocks[1..])
  }

  /** The complete blocks of 52 of a coefficient list, in order; a trailing
      partial block is not among them. */
  function Blocks(cs: seq<RoleCoeff>): (r: seq<seq<RoleCoeff>>)
    ensures forall i :: 0 <= i < |r| ==> |r[i]| == BlockSize
    ensures |r| == |cs| / BlockSize
    ensures Flatten(r) == cs[..BlockSize * |r|]
    decreases |cs|
  {
    if |cs| < BlockSize then []
    else
      var rest := Blocks(cs[BlockSize..]);
      assert cs[..BlockSize] + cs[BlockSize..][..BlockSize * |rest|] == cs[..BlockSize * (|rest| + 1)];
      [cs[..BlockSize]] + rest
  }

  /** Blocks of 52 followed by fewer than 52 more coefficients split back into those blocks. */
  lemma {:induction false} BlocksOfFlatten(blocks: seq<seq<RoleCoeff>>, tail: seq<RoleCoeff>)
    requires forall i :: 0 <= i < |blocks| ==> |blocks[i]| == BlockSize
    requires |tail| < BlockSize
    ensures Blocks(Flatten(blocks) + tail) == blocks
    decreases |blocks|
  {
    if blocks != [] {
      var cs := Flatten(blocks) + tail;
      assert cs == blocks[0] + (Flatten(blocks[1..]) + tail);
      assert cs[..BlockSize] == blocks[0];
      assert cs[BlockSize..] == Flatten(blocks[1..]) + tail;
      BlocksOfFlatten(blocks[1..], tail);
    }
  }

  /** The role_data section at start: the key text, a container marker (an
      object 0xC9/0x99, or an array 0x09 whose 4-byte length is skipped), then
      the blocks found in the data up to stop. */
  function RoleBlocks(buf: seq<byte>, start: nat, stop: nat): (r: Result<seq<seq<RoleCoeff>>>)
    ensures r.Ok? ==> forall i :: 0 <= i < |r.value| ==> |r.value[i]| == BlockSize
    ensures !KeyAt(buf, start, SectionKey) ==> r == Err(KeyTextMismatch(start))
  {
    if !KeyAt(buf, start, SectionKey) then Err(KeyTextMismatch(start))
    else
      var m := start + |SectionKey|;
      if m >= |buf| then Err(IndexPastEnd(m))
      else if buf[m] != 0xC9 && buf[m] != 0x99 && buf[m] != 0x09 then Err(UnknownContainer(m, buf[m]))
      else
        var body := if buf[m] == 0x09 then m + 5 else m + 1;
        var cs :- Coeffs(Slice(buf, body, stop), body, stop, 0);
        Ok(Blocks(cs))
  }

  /** The returned blocks are exactly the complete blocks of the coefficients
      the scan found, and fewer than 52 coefficients are left over. */
  lemma RoleBlocksAreCompleteBlocks(buf: seq<byte>, start: nat, stop: nat)
    requires RoleBlocks(buf, start, stop).Ok?
    ensures var m := start + |SectionKey|;
            var body := if buf[m] == 0x09 then m + 5 else m + 1;
            var cs := Coeffs(Slice(buf, body, stop), body, stop, 0);
            var blocks := RoleBlocks(buf, start, stop).value;
            && cs.Ok? && Flatten(blocks) == cs.value[..BlockSize * |blocks|]
            && |cs.value| - BlockSize * |blocks| < BlockSize
  {
  }

  /** `parse_role_data(buf, start, stop, verbose)`. */
  method ParseRoleData(buf: seq<byte>, start: nat, stop: nat) returns (r: Result<seq<seq<RoleCoeff>>>)
    ensures r == RoleBlocks(buf, start, stop)
  {
    if !KeyAt(buf, start, SectionKey) {
      return Err(KeyTextMismatch(start));
    }
    var m := start + |SectionKey|;
    if m >= |buf| {
      return Err(IndexPastEnd(m));
    }
    var marker := buf[m];
    var body: nat;
    if marker == 0xC9 || marker == 0x99 {
      body := m + 1;
    } else if marker == 0x09 {
      body := m + 5;
    } else {
      return Err(UnknownContainer(m, marker));
    }
    var data := Slice(buf, body, stop);
    var cs := ScanCoeffs(data, body, stop);
    if cs.Err? {
      return Err(cs.error);
    }
    r := Ok(cs.value);
  }

  /** The scan loop: coefficients are appended and sealed into a block once
      there are 52 of them. */
  method ScanCoeffs(data: seq<byte>, body: nat, stop: nat) returns (r: Result<seq<seq<RoleCoeff>>>)
    ensures r.Ok? <==> Coeffs(data, body, stop, 0).Ok?
    ensures r.Ok? ==> r.value == Blocks(Coeffs(data, body, stop, 0).value)
    ensures r.Err? ==> r.error == Coeffs(data, body, stop, 0).error
  {
    var blocks: seq<seq<RoleCoeff>> := [];
    var coeffs: seq<RoleCoeff> := [];
    var cur: nat := 0;
    PrependNothing(Coeffs(data, body, stop, 0));
    while true
      invariant cur <= |data|
      invariant forall i :: 0 <= i < |blocks| ==> |blocks[i]| == BlockSize
      invariant |coeffs| < BlockSize
      invariant Coeffs(data, body, stop, 0) == Prepend(Flatten(blocks) + coeffs, Coeffs(data, body, stop, cur))
      decreases |data| - cur
    {
      CoeffsAt(data, body, stop, cur);
      var step := ScanStepOf(data, cur);
      if step.Done? {
        break;
      }
      if step.Raise? {
        return Err(step.err);
      }
      ghost var done := Flatten(blocks) + coeffs;
      blocks, coeffs := AddCoeff(blocks, coeffs, step.coeff);
      if body + step.next >= stop {
        BlocksOfFlatten(blocks, coeffs);
        return Ok(blocks);
      }
      PrependStep(done, step.coeff, Coeffs(data, body, stop, step.next));
      cur := step.next;
    }
    assert Flatten(blocks) + coeffs + [] == Flatten(blocks) + coeffs;
    BlocksOfFlatten(blocks, coeffs);
    r := Ok(blocks);
  }

  /** One unfolding of the scan at cur. */
  lemma CoeffsAt(data: seq<byte>, body: nat, stop: nat, cur: nat)
    ensures ScanStep(data, cur).Done? ==> Coeffs(data, body, stop, cur) == Ok([])
    ensures ScanStep(data, cur).Raise? ==> Coeffs(data, body, stop, cur) == Err(ScanStep(data, cur).err)
    ensures ScanStep(data, cur).Found? ==>
              var c, next := ScanStep(data, cur).coeff, ScanStep(data, cur).next;
              Coeffs(data, body, stop, cur) ==
                if body + next >= stop then Ok([c]) else Prepend([c], Coeffs(data, body, stop, next))
  {
  }

  /** One coefficient appended; a full block of 52 is sealed. */
  method AddCoeff(blocks0: seq<seq<RoleCoeff>>, coeffs0: seq<RoleCoeff>, c: RoleCoeff)
    returns (blocks: seq<seq<RoleCoeff>>, coeffs: seq<RoleCoeff>)
    requires forall i :: 0 <= i < |blocks0| ==> |blocks0[i]| == BlockSize
    requires |coeffs0| < BlockSize
    ensures forall i :: 0 <= i < |blocks| ==> |blocks[i]| == BlockSize
    ensures |coeffs| < BlockSize
    ensures Flatten(blocks) + coeffs == Flatten(blocks0) + coeffs0 + [c]
  {
    blocks := blocks0;
    coeffs := coeffs0 + [c];
    if |coeffs| == BlockSize {
      FlattenSnoc(blocks, coeffs);
      blocks := blocks + [coeffs];
      coeffs := [];
      assert Flatten(blocks) + coeffs == Flatten(blocks);
    }
  }

  lemma FlattenSnoc(blocks: seq<seq<RoleCoeff>>, b: seq<RoleCoeff>)
    ensures Flatten(blocks + [b]) == Flatten(blocks) + b
    decreases |blocks|
  {
    if blocks == [] {
      assert [b][1..] == [];
    } else {
      assert (blocks + [b])[1..] == blocks[1..] + [b];
      FlattenSnoc(blocks[1..], b);
    }
  }

  /** One scan iteration: the two sentinel searches, the label and the value. */
  method ScanStepOf(data: seq<byte>, cur: nat) returns (r: Step)
    ensures r == ScanStep(data, cur)
  {
    var npos := Find(data, NameSep, cur);
    if npos == -1 {
      return Done;
    }
    r := AfterNameOf(data, npos + |NameSep|);
  }

  method AfterNameOf(data: seq<byte>, lstart: nat) returns (r: Step)
    ensures r == AfterName(data, lstart)
  {
    var vpos := Find(data, ValueSep, lstart);
    if vpos == -1 {
      return Done;
    }
    r := EntryOf(data, lstart, vpos);
  }

  method EntryOf(data: seq<byte>, lstart: nat, vpos: nat) returns (r: Step)
    requires lstart <= vpos <= |data|
    ensures r == Entry(data, lstart, vpos)
  {
    var name := CleanLabelOf(data[lstart..vpos]);
    var v := ReadRoleValue(data, vpos + |ValueSep|);
    if v.Err? {
      return Raise(v.error);
    }
    r := Found(RoleCoeff(name, v.value.0), v.value.1);
  }
}
