/** The weights decoder: the matched (key, payload) pairs of the weights file
    folded into season blocks by `_restructure`, then cleaned and turned into
    records.

    The fold keeps four pieces of state: the blocks made so far, a buffer of
    pending `ME_PACK_VERSION_*` values, whether there is a current block (it
    is always the last one made), and the current team-picking style.
 */
module Weights {
  import opened Errors
  import opened Bytes

  const MePrefix: string := "ME_PACK_VERSION_"
  const YearKey: string := "ME_PACK_VERSION_YEAR"
  const StylePrefix: string := "TEAM_PICKING_STYLE::"
  const SharedPrefix: string := "simatchshared::"
  /** The dict a weight goes to when no style header came before it. */
  const Misc: string := "MISC"

  /** The fields of `MEVersion`. */
  const MeFields: set<string> :=
    {"ME_PACK_VERSION_MAJOR", "ME_PACK_VERSION_MINOR", "ME_PACK_VERSION_RELEASE", "ME_PACK_VERSION_YEAR"}

  /** The fields of `TeamPickingWeights`, in declaration order. */
  const TsfFields: seq<string> := [
    "TSF_POSITION_ABILITY", "TSF_POSITION_ABILITY_IN_ROLE", "TSF_POSITION_TACTICAL_FAMILARITY",
    "TSF_LOAN_TERMS", "TSF_MATCH_RATING_TIME_ON", "TSF_CONDITION", "TSF_ALLOWED_MINS", "TSF_CA",
    "TSF_PA", "TSF_REPUTATION", "TSF_YOUNG_PLAYERS", "TSF_MORALE", "TSF_TESTIMONIAL",
    "TSF_FOOTBALL_PROMISES", "TSF_BOOST_LOW_MATCH_FITNESS", "TSF_CUP_KEEPER", "TSF_PPMS",
    "TSF_HUMAN_SELECTION", "TSF_TRIALIST_B_TEAM_PLAYERS", "TSF_DECLARED_FOR_RESERVES",
    "TSF_CAPTAINCY", "TSF_UNHAPPINESS", "TSF_INTERNATIONAL_CAPS", "TSF_CLUB_NATION_CHOICE_FACTORS",
    "TSF_FORM", "TSF_AGREED_PLAYING_TIME", "TSF_PLAYING_SIDE_PREFERENCE", "TSF_MATCH_FITNESS",
    "TSF_BOOST_SUBSTITUTE", "TSF_STAR_PLAYER", "TSF_OLYMPIC_U23", "TSF_REST_PROMISES",
    "TSF_UPCOMING_SUSPENSION", "TSF_NEED_MATCH_XP", "TSF_DISLIKE_BY_NON_PLAYER", "TSF_INTEGRATION",
    "TSF_LAST_RATINGS", "TSF_VIRTUAL", "TSF_EXTRA_ADJ"
  ]

  predicate StartsWith(k: string, p: string)
  {
    |p| <= |k| && k[..|p|] == p
  }

  // ---------------------------------------------------------------- values of the matches

  /** The four bytes after a 0x02 marker. */
  type Payload = b: seq<byte> | |b| == 4 witness [0, 0, 0, 0]

  /** The value of one match: a payload is a signed little-endian 32-bit
      number; without one, an `ME_PACK_VERSION_*` key other than the year is 0
      and every other key has no value. */
  function DecodeValue(key: string, vbytes: Option<Payload>): (r: Option<int>)
    ensures vbytes.Some? ==> r.Some? && -0x8000_0000 <= r.value < 0x8000_0000
                             && TwosComplement(r.value, 4) == LeUnsigned(vbytes.value)
    ensures vbytes.None? && StartsWith(key, MePrefix) && key != YearKey ==> r == Some(0)
    ensures vbytes.None? && !(StartsWith(key, MePrefix) && key != YearKey) ==> r == None
  {
    SignBoundWidths();
    match vbytes
    case Some(b) => Some(ToSigned(LeUnsigned(b), 4))
    case None => if StartsWith(key, MePrefix) && key != YearKey then Some(0) else None
  }

  /** The pair list `decode` builds from the matches. */
  method DecodePairs(matches: seq<(string, Option<Payload>)>) returns (pairs: seq<(string, Option<int>)>)
    ensures |pairs| == |matches|
    ensures forall i :: 0 <= i < |pairs| ==> pairs[i] == (matches[i].0, DecodeValue(matches[i].0, matches[i].1))
  {
    pairs := [];
    for i := 0 to |matches|
      invariant |pairs| == i
      invariant forall j :: 0 <= j < i ==> pairs[j] == (matches[j].0, DecodeValue(matches[j].0, matches[j].1))
    {
      var key := matches[i].0;
      var val: Option<int>;
      if matches[i].1.Some? {
        SignBoundWidths();
        val := Some(ToSigned(LeUnsigned(matches[i].1.value), 4));
      } else if StartsWith(key, MePrefix) && key != YearKey {
        val := Some(0);
      } else {
        val := None;
      }
      pairs := pairs + [(key, val)];
    }
  }

  // ---------------------------------------------------------------- the fold

  /** A block: its `ME_VERSION` dict and its style dicts. */
  datatype Block = Block(me: map<string, Option<int>>, styles: map<string, map<string, int>>)

  datatype State = State(blocks: seq<Block>, meBuf: map<string, Option<int>>, hasCur: bool, curTps: Option<string>)

  const Start: State := State([], map[], false, None)

  /** The current block, when there is one, is the last block, and the current
      style, when there is one, names a dict of it. */
  predicate Inv(s: State)
  {
    (s.hasCur ==> |s.blocks| > 0)
    && (s.curTps.Some? ==> s.hasCur && s.curTps.value in s.blocks[|s.blocks| - 1].styles)
  }

  /** A new current block holding the buffered `ME_VERSION` values; the buffer is cleared. */
  function OpenBlock(s: State): (r: State)
    ensures |r.blocks| == |s.blocks| + 1 && r.blocks[..|s.blocks|] == s.blocks
    ensures r.blocks[|s.blocks|] == Block(s.meBuf, map[])
    ensures r.meBuf == map[] && r.hasCur && r.curTps == s.curTps
  {
    State(s.blocks + [Block(s.meBuf, map[])], map[], true, s.curTps)
  }

  /** The current block with its dict `name` set to d. */
  function SetStyle(s: State, name: string, d: map<string, int>): (r: State)
    requires |s.blocks| > 0
    // only the dict `name` of the last block changes
    ensures |r.blocks| == |s.blocks| && r.blocks[..|s.blocks| - 1] == s.blocks[..|s.blocks| - 1]
    ensures var last, now := s.blocks[|s.blocks| - 1], r.blocks[|s.blocks| - 1];
            && now.me == last.me && name in now.styles && now.styles[name] == d
            && forall n :: n != name ==> (n in now.styles <==> n in last.styles)
                                         && (n in last.styles ==> now.styles[n] == last.styles[n])
    ensures r.meBuf == s.meBuf && r.hasCur == s.hasCur && r.curTps == s.curTps
  {
    var last := s.blocks[|s.blocks| - 1];
    s.(blocks := s.blocks[|s.blocks| - 1 := last.(styles := last.styles[name := d])])
  }

  /** One pair of `_restructure`'s loop. */
  function Step(s: State, p: (string, Option<int>)): (r: State)
    requires Inv(s)
    ensures Inv(r)
  {
    var (k, v) := p;
    if StartsWith(k, MePrefix) then
      var buf := s.meBuf[k := v];
      if k == YearKey then State(s.blocks + [Block(buf, map[])], map[], true, None)
      else s.(meBuf := buf)
    else if StartsWith(k, StylePrefix) then
      var s1 := if s.hasCur then s else OpenBlock(s);
      SetStyle(s1.(curTps := Some(k)), k, map[])
    else
      var s1 := if s.hasCur then s else OpenBlock(s);
      var s2 := if s1.curTps.None? then SetStyle(s1.(curTps := Some(Misc)), Misc, map[]) else s1;
      if v.None? then s2
      else
        var name := s2.curTps.value;
        var d := s2.blocks[|s2.blocks| - 1].styles[name];
        SetStyle(s2, name, d[k := v.value])
  }

  /** The state after the pairs, folded from the left. */
  function Run(pairs: seq<(string, Option<int>)>): (s: State)
    ensures Inv(s)
    decreases |pairs|
  {
    if pairs == [] then Start
    else Step(Run(pairs[..|pairs| - 1]), pairs[|pairs| - 1])
  }

  lemma RunNext(pairs: seq<(string, Option<int>)>, i: nat)
    requires i < |pairs|
    ensures Run(pairs[..i + 1]) == Step(Run(pairs[..i]), pairs[i])
  {
    assert pairs[..i + 1][..i] == pairs[..i];
  }

  // ---------------------------------------------------------------- properties of one step

  /** A year pair opens a new block whose `ME_VERSION` is the buffer with the
      year; the buffer is cleared, no style is current, earlier blocks stay. */
  lemma YearOpensBlock(s: State, v: Option<int>)
    requires Inv(s)
    ensures var r := Step(s, (YearKey, v));
            && |r.blocks| == |s.blocks| + 1 && r.blocks[..|s.blocks|] == s.blocks
            && r.blocks[|s.blocks|] == Block(s.meBuf[YearKey := v], map[])
            && r.meBuf == map[] && r.hasCur && r.curTps == None
  {
    var r := Step(s, (YearKey, v));
    assert r.blocks == s.blocks + [Block(s.meBuf[YearKey := v], map[])];
  }

  /** Any other `ME_PACK_VERSION_*` pair is only buffered. */
  lemma MeKeyBuffered(s: State, k: string, v: Option<int>)
    requires Inv(s) && StartsWith(k, MePrefix) && k != YearKey
    ensures Step(s, (k, v)) == s.(meBuf := s.meBuf[k := v])
  {
  }

  /** A style header makes its dict in the current block empty and current,
      opening a block first when there is none; the current block's other
      dicts and every earlier block stay. */
  lemma HeaderResetsStyle(s: State, k: string, v: Option<int>)
    requires Inv(s) && StartsWith(k, StylePrefix) && !StartsWith(k, MePrefix)
    ensures var r := Step(s, (k, v));
            && r.curTps == Some(k)
            && (s.hasCur ==>
                  var last := s.blocks[|s.blocks| - 1];
                  r.blocks == s.blocks[|s.blocks| - 1 := last.(styles := last.styles[k := map[]])] && r.meBuf == s.meBuf)
            && (!s.hasCur ==> r.blocks == s.blocks + [Block(s.meBuf, map[k := map[]])] && r.meBuf == map[])
  {
  }

  /** A weight before any style header of its block goes to a fresh "MISC"
      dict of the current block, opening a block first when there is none. */
  lemma StrayWeightGoesToMisc(s: State, k: string, v: Option<int>)
    requires Inv(s) && !StartsWith(k, MePrefix) && !StartsWith(k, StylePrefix) && s.curTps.None?
    ensures var r := Step(s, (k, v));
            && r.curTps == Some(Misc)
            && r.blocks[|r.blocks| - 1].styles[Misc] == (if v.Some? then map[k := v.value] else map[])
  {
  }

  /** A weight without a value changes nothing once a style is current. */
  lemma NoValueNotStored(s: State, k: string)
    requires Inv(s) && !StartsWith(k, MePrefix) && !StartsWith(k, StylePrefix) && s.curTps.Some?
    ensures Step(s, (k, None)) == s
  {
  }

  /** A weight with a value is stored in the current style's dict and in no other. */
  lemma WeightStored(s: State, k: string, v: int)
    requires Inv(s) && !StartsWith(k, MePrefix) && !StartsWith(k, StylePrefix) && s.curTps.Some?
    ensures var r := Step(s, (k, Some(v)));
            var last := s.blocks[|s.blocks| - 1];
            var name := s.curTps.value;
            && r.blocks == s.blocks[|s.blocks| - 1 := last.(styles := last.styles[name := last.styles[name][k := v]])]
            && r.meBuf == s.meBuf && r.curTps == s.curTps
  {
  }

  // ---------------------------------------------------------------- how many blocks

  function YearCount(pairs: seq<(string, Option<int>)>): (n: nat)
    ensures n <= |pairs|
    decreases |pairs|
  {
    if pairs == [] then 0
    else YearCount(pairs[..|pairs| - 1]) + (if pairs[|pairs| - 1].0 == YearKey then 1 else 0)
  }

  /** Pair i is no `ME_PACK_VERSION_*` pair and no year pair comes before it. */
  ghost predicate EarlyAt(pairs: seq<(string, Option<int>)>, i: int)
  {
    0 <= i < |pairs| && !StartsWith(pairs[i].0, MePrefix) && forall j :: 0 <= j < i ==> pairs[j].0 != YearKey
  }

  ghost predicate EarlyBlock(pairs: seq<(string, Option<int>)>)
  {
    exists i :: EarlyAt(pairs, i)
  }

  lemma {:induction false} NoYears(pairs: seq<(string, Option<int>)>)
    requires YearCount(pairs) == 0
    ensures forall j :: 0 <= j < |pairs| ==> pairs[j].0 != YearKey
    decreases |pairs|
  {
    if pairs != [] {
      NoYears(pairs[..|pairs| - 1]);
    }
  }

  /** How one step changes the number of blocks and whether there is a current one. */
  lemma StepShape(s: State, p: (string, Option<int>))
    requires Inv(s)
    ensures |Step(s, p).blocks| ==
            |s.blocks| + (if p.0 == YearKey || (!StartsWith(p.0, MePrefix) && !s.hasCur) then 1 else 0)
    ensures Step(s, p).hasCur == (s.hasCur || p.0 == YearKey || !StartsWith(p.0, MePrefix))
  {
    assert StartsWith(YearKey, MePrefix);
  }

  lemma EarlySnoc(pairs: seq<(string, Option<int>)>)
    requires |pairs| > 0
    ensures EarlyBlock(pairs) <==> EarlyBlock(pairs[..|pairs| - 1]) || EarlyAt(pairs, |pairs| - 1)
  {
    var pre := pairs[..|pairs| - 1];
    if EarlyBlock(pairs) {
      var i :| EarlyAt(pairs, i);
      if i < |pre| {
        assert EarlyAt(pre, i);
      }
    }
    if EarlyBlock(pre) {
      var i :| EarlyAt(pre, i);
      assert EarlyAt(pairs, i);
    }
  }

  lemma EarlyLast(pairs: seq<(string, Option<int>)>)
    requires |pairs| > 0
    ensures EarlyAt(pairs, |pairs| - 1) <==>
            !StartsWith(pairs[|pairs| - 1].0, MePrefix) && YearCount(pairs[..|pairs| - 1]) == 0
  {
    var n := |pairs| - 1;
    if YearCount(pairs[..n]) == 0 {
      NoYears(pairs[..n]);
      assert forall j :: 0 <= j < n ==> pairs[..n][j] == pairs[j];
    }
    if EarlyAt(pairs, n) {
      NoYearsBefore(pairs, n);
    }
  }

  /** There is one block per year pair, and one more when a pair other than
      an `ME_PACK_VERSION_*` pair comes before the first year pair; there is
      a current block once either has happened. */
  lemma {:induction false} BlockCount(pairs: seq<(string, Option<int>)>)
    ensures |Run(pairs).blocks| == YearCount(pairs) + (if EarlyBlock(pairs) then 1 else 0)
    ensures Run(pairs).hasCur <==> YearCount(pairs) > 0 || EarlyBlock(pairs)
    decreases |pairs|
  {
    if pairs != [] {
      var n := |pairs| - 1;
      BlockCount(pairs[..n]);
      StepShape(Run(pairs[..n]), pairs[n]);
      EarlySnoc(pairs);
      EarlyLast(pairs);
    }
  }

  /** No year pair before n means no year counted in the first n pairs. */
  lemma {:induction false} NoYearsBefore(pairs: seq<(string, Option<int>)>, n: nat)
    requires n <= |pairs| && forall j :: 0 <= j < n ==> pairs[j].0 != YearKey
    ensures YearCount(pairs[..n]) == 0
    decreases n
  {
    if n > 0 {
      assert pairs[..n][..n - 1] == pairs[..n - 1];
      NoYearsBefore(pairs, n - 1);
    }
  }

  // ---------------------------------------------------------------- post-processing

  /** `blk["ME_VERSION"].get("ME_PACK_VERSION_YEAR")`. */
  function YearOf(b: Block): (y: Option<int>)
    ensures y.Some? <==> YearKey in b.me && b.me[YearKey].Some?
  {
    if YearKey in b.me then b.me[YearKey] else None
  }

  /** A block without a year gets year 0; nothing else changes. */
  function Normalize(b: Block): (r: Block)
    ensures YearOf(r) == (if YearOf(b).None? then Some(0) else YearOf(b))
    ensures r.styles == b.styles
    ensures forall k :: k != YearKey ==> (k in r.me <==> k in b.me)
    ensures forall k :: k != YearKey && k in b.me ==> r.me[k] == b.me[k]
    ensures YearKey in r.me
  {
    if YearOf(b).None? then b.(me := b.me[YearKey := Some(0)]) else b
  }

  /** The blocks normalized, without those of year 23. */
  function Clean(blocks: seq<Block>): (r: seq<Block>)
    ensures |r| <= |blocks|
    ensures forall i :: 0 <= i < |r| ==> YearOf(r[i]).Some? && YearOf(r[i]).value != 23
    decreases |blocks|
  {
    if blocks == [] then []
    else
      var b := Normalize(blocks[|blocks| - 1]);
      Clean(blocks[..|blocks| - 1]) + (if YearOf(b) == Some(23) then [] else [b])
  }

  /** Without year-23 blocks nothing is dropped and each block is only normalized. */
  lemma {:induction false} CleanKeepsOthers(blocks: seq<Block>)
    requires forall i :: 0 <= i < |blocks| ==> YearOf(blocks[i]) != Some(23)
    ensures |Clean(blocks)| == |blocks|
    ensures forall i :: 0 <= i < |blocks| ==> Clean(blocks)[i] == Normalize(blocks[i])
    decreases |blocks|
  {
    if blocks != [] {
      CleanKeepsOthers(blocks[..|blocks| - 1]);
    }
  }

  /** The number of year-23 blocks. */
  function Dropped(blocks: seq<Block>): (n: nat)
    ensures n <= |blocks|
    decreases |blocks|
  {
    if blocks == [] then 0
    else Dropped(blocks[..|blocks| - 1]) + (if YearOf(blocks[|blocks| - 1]) == Some(23) then 1 else 0)
  }

  /** Clean drops exactly the year-23 blocks. */
  lemma {:induction false} CleanLength(blocks: seq<Block>)
    ensures |Clean(blocks)| == |blocks| - Dropped(blocks)
    decreases |blocks|
  {
    if blocks != [] {
      CleanLength(blocks[..|blocks| - 1]);
    }
  }

  /** A block of another year is kept, normalized, after the blocks kept before it. */
  lemma {:induction false} CleanAt(blocks: seq<Block>, i: nat)
    requires i < |blocks| && YearOf(blocks[i]) != Some(23)
    ensures Dropped(blocks[..i]) <= i && i - Dropped(blocks[..i]) < |Clean(blocks)|
    ensures Clean(blocks)[i - Dropped(blocks[..i])] == Normalize(blocks[i])
    decreases |blocks|
  {
    var n := |blocks| - 1;
    var prefix := blocks[..n];
    var b := Normalize(blocks[n]);
    assert Clean(blocks) == Clean(prefix) + (if YearOf(b) == Some(23) then [] else [b]);
    if i < n {
      assert prefix[i] == blocks[i] && prefix[..i] == blocks[..i];
      CleanAt(prefix, i);
    } else {
      assert blocks[..i] == prefix;
      CleanLength(prefix);
    }
  }

  /** Clean keeps every block not of year 23, normalized and in order, and
      drops the others: the kept blocks fill Clean exactly. */
  lemma CleanExact(blocks: seq<Block>)
    ensures |Clean(blocks)| == |blocks| - Dropped(blocks)
    ensures forall i :: 0 <= i < |blocks| && YearOf(blocks[i]) != Some(23) ==>
              Dropped(blocks[..i]) <= i && i - Dropped(blocks[..i]) < |Clean(blocks)|
              && Clean(blocks)[i - Dropped(blocks[..i])] == Normalize(blocks[i])
  {
    CleanLength(blocks);
    forall i | 0 <= i < |blocks| && YearOf(blocks[i]) != Some(23)
      ensures Dropped(blocks[..i]) <= i && i - Dropped(blocks[..i]) < |Clean(blocks)|
              && Clean(blocks)[i - Dropped(blocks[..i])] == Normalize(blocks[i])
    {
      CleanAt(blocks, i);
    }
  }

  lemma CleanNext(blocks: seq<Block>, i: nat)
    requires i < |blocks|
    ensures var b := Normalize(blocks[i]);
            Clean(blocks[..i + 1]) == Clean(blocks[..i]) + (if YearOf(b) == Some(23) then [] else [b])
  {
    assert blocks[..i + 1][..i] == blocks[..i];
  }

  // ---------------------------------------------------------------- records

  datatype MEVersion = MEVersion(major: Option<int>, minor: Option<int>, release: Option<int>, year: Option<int>)

  /** `TeamPickingWeights`: one value per field of TsfFields. */
  datatype TeamPickingWeights = TeamPickingWeights(values: seq<int>)

  datatype SeasonWeights = SeasonWeights(
    me: MEVersion,
    first: TeamPickingWeights,
    semi: TeamPickingWeights,
    slightly: TeamPickingWeights,
    total: TeamPickingWeights)

  datatype WeightsDoc = WeightsDoc(weights: seq<SeasonWeights>)

  /** `MEVersion(**me)`: raises TypeError unless the dict holds exactly the four fields. */
  function MakeMEVersion(me: map<string, Option<int>>): (r: Result<MEVersion>)
    ensures r.Ok? <==> me.Keys == MeFields
    ensures r.Err? ==> r.error == FieldMismatch
    ensures r.Ok? ==> r.value.year == me[YearKey]
  {
    if me.Keys == MeFields then
      Ok(MEVersion(me["ME_PACK_VERSION_MAJOR"], me["ME_PACK_VERSION_MINOR"], me["ME_PACK_VERSION_RELEASE"], me[YearKey]))
    else Err(FieldMismatch)
  }

  /** `_make_tpw`: every field takes the value of its `simatchshared::` key, or 0. */
  function MakeTpw(raw: map<string, int>): (r: TeamPickingWeights)
    ensures |r.values| == |TsfFields|
    ensures forall i :: 0 <= i < |TsfFields| ==>
              r.values[i] == if SharedPrefix + TsfFields[i] in raw then raw[SharedPrefix + TsfFields[i]] else 0
  {
    TeamPickingWeights(seq(|TsfFields|, i requires 0 <= i < |TsfFields| =>
      var key := SharedPrefix + TsfFields[i];
      if key in raw then raw[key] else 0))
  }

  /** `pick(name)`: the record of that style's dict; a style absent from the block is all zeros. */
  function Pick(b: Block, name: string): (r: TeamPickingWeights)
    ensures |r.values| == |TsfFields|
    ensures StylePrefix + name !in b.styles ==> forall i :: 0 <= i < |r.values| ==> r.values[i] == 0
  {
    MakeTpw(if StylePrefix + name in b.styles then b.styles[StylePrefix + name] else map[])
  }

  /** One season: its version record and the four team-picking records. */
  function Season(b: Block): (r: Result<SeasonWeights>)
    ensures r.Ok? <==> b.me.Keys == MeFields
    ensures r.Err? ==> r.error == FieldMismatch
    ensures r.Ok? ==> r.value.me.year == b.me[YearKey]
    ensures r.Ok? ==> && |r.value.first.values| == |TsfFields| && |r.value.semi.values| == |TsfFields|
                      && |r.value.slightly.values| == |TsfFields| && |r.value.total.values| == |TsfFields|
  {
    var me :- MakeMEVersion(b.me);
    Ok(SeasonWeights(me, Pick(b, "TPS_FIRST_TEAM_PICKING"), Pick(b, "TPS_SEMI_RESERVE_PICKING"),
                     Pick(b, "TPS_SLIGHTLY_RESERVE_PICKING"), Pick(b, "TPS_TOTAL_RESERVE_PICKING")))
  }

  /** Every block carries exactly the four version fields. */
  predicate AllVersioned(blocks: seq<Block>)
  {
    forall i :: 0 <= i < |blocks| ==> blocks[i].me.Keys == MeFields
  }

  /** The seasons of the blocks, in order; any block without exactly the
      four version fields makes the whole conversion fail. */
  function Seasons(blocks: seq<Block>): (r: Result<seq<SeasonWeights>>)
    ensures r.Ok? <==> forall i :: 0 <= i < |blocks| ==> blocks[i].me.Keys == MeFields
    ensures r.Err? ==> r.error == FieldMismatch
    ensures r.Ok? ==> |r.value| == |blocks|
    decreases |blocks|
  {
    if blocks == [] then Ok([])
    else
      var pre := blocks[..|blocks| - 1];
      var prev :- Seasons(pre);
      var s :- Season(blocks[|blocks| - 1]);
      assert forall i :: 0 <= i < |pre| ==> pre[i] == blocks[i];
      Ok(prev + [s])
  }

  /** Season i of the result is the season of block i. */
  lemma {:induction false} SeasonsPointwise(blocks: seq<Block>)
    requires Seasons(blocks).Ok?
    ensures forall i :: 0 <= i < |blocks| ==> Season(blocks[i]) == Ok(Seasons(blocks).value[i])
    decreases |blocks|
  {
    if blocks != [] {
      var pre := blocks[..|blocks| - 1];
      SeasonsPointwise(pre);
      var r := Seasons(blocks).value;
      assert r == Seasons(pre).value + [Season(blocks[|blocks| - 1]).value];
      forall i | 0 <= i < |blocks|
        ensures Season(blocks[i]) == Ok(r[i])
      {
        if i < |pre| {
          assert pre[i] == blocks[i];
        }
      }
    }
  }

  lemma SeasonsNext(blocks: seq<Block>, i: nat, done: seq<SeasonWeights>)
    requires i < |blocks| && Seasons(blocks[..i]) == Ok(done)
    ensures Season(blocks[i]).Ok? ==> Seasons(blocks[..i + 1]) == Ok(done + [Season(blocks[i]).value])
  {
    var pre := blocks[..i + 1];
    assert pre[..i] == blocks[..i];
  }

  /** One block without exactly the four version fields fails the whole conversion. */
  lemma SeasonsFail(blocks: seq<Block>, i: nat)
    requires i < |blocks| && blocks[i].me.Keys != MeFields
    ensures Seasons(blocks) == Err(FieldMismatch)
  {
  }

  /** `_restructure`: the fold, the clean-up, then the records. */
  function Restructured(pairs: seq<(string, Option<int>)>): (r: Result<WeightsDoc>)
    ensures r.Ok? <==> AllVersioned(Clean(Run(pairs).blocks))
    ensures r.Ok? ==> |r.value.weights| == |Clean(Run(pairs).blocks)|
  {
    var cleaned := Clean(Run(pairs).blocks);
    var seasons := Seasons(cleaned);
    assert seasons.Ok? <==> AllVersioned(cleaned);
    if seasons.Err? then Err(seasons.error)
    else Ok(WeightsDoc(seasons.value))
  }

  /** Every season of the result has a year, and none has year 23. */
  lemma RestructuredYears(pairs: seq<(string, Option<int>)>)
    requires Restructured(pairs).Ok?
    ensures forall i :: 0 <= i < |Restructured(pairs).value.weights| ==>
              var y := Restructured(pairs).value.weights[i].me.year;
              y.Some? && y.value != 23
  {
    var cleaned := Clean(Run(pairs).blocks);
    var ws := Restructured(pairs).value.weights;
    SeasonsPointwise(cleaned);
    forall i | 0 <= i < |ws|
      ensures ws[i].me.year.Some? && ws[i].me.year.value != 23
    {
      assert Season(cleaned[i]) == Ok(ws[i]);
      assert YearOf(cleaned[i]).Some?;
    }
  }

  // ---------------------------------------------------------------- the methods

  /** The body of `_restructure`'s loop for one pair, on its four variables. */
  method FoldPair(blocks0: seq<Block>, meBuf0: map<string, Option<int>>, hasCur0: bool, curTps0: Option<string>,
                  k: string, v: Option<int>)
    returns (blocks: seq<Block>, meBuf: map<string, Option<int>>, hasCur: bool, curTps: Option<string>)
    requires Inv(State(blocks0, meBuf0, hasCur0, curTps0))
    ensures State(blocks, meBuf, hasCur, curTps) == Step(State(blocks0, meBuf0, hasCur0, curTps0), (k, v))
  {
    blocks, meBuf, hasCur, curTps := blocks0, meBuf0, hasCur0, curTps0;
    if StartsWith(k, MePrefix) {
      meBuf := meBuf[k := v];
      if k == YearKey {
        blocks := blocks + [Block(meBuf, map[])];
        hasCur := true;
        meBuf := map[];
        curTps := None;
      }
    } else {
      if !hasCur {
        blocks := blocks + [Block(meBuf, map[])];
        hasCur := true;
        meBuf := map[];
      }
      var last := blocks[|blocks| - 1];
      if StartsWith(k, StylePrefix) {
        curTps := Some(k);
        blocks := blocks[|blocks| - 1 := last.(styles := last.styles[k := map[]])];
      } else {
        if curTps.None? {
          curTps := Some(Misc);
          last := last.(styles := last.styles[Misc := map[]]);
          blocks := blocks[|blocks| - 1 := last];
        }
        if v.Some? {
          var name := curTps.value;
          blocks := blocks[|blocks| - 1 := last.(styles := last.styles[name := last.styles[name][k := v.value]])];
        }
      }
    }
  }

  /** `_restructure`'s loop over the pairs. */
  method Fold(pairs: seq<(string, Option<int>)>) returns (blocks: seq<Block>)
    ensures blocks == Run(pairs).blocks
  {
    blocks := [];
    var meBuf: map<string, Option<int>> := map[];
    var hasCur := false;
    var curTps: Option<string> := None;
    for i := 0 to |pairs|
      invariant Run(pairs[..i]) == State(blocks, meBuf, hasCur, curTps)
    {
      RunNext(pairs, i);
      blocks, meBuf, hasCur, curTps := FoldPair(blocks, meBuf, hasCur, curTps, pairs[i].0, pairs[i].1);
    }
    assert pairs[..|pairs|] == pairs;
  }

  /** The post-processing loop: years defaulted, year-23 blocks dropped. */
  method CleanBlocks(blocks: seq<Block>) returns (cleaned: seq<Block>)
    ensures cleaned == Clean(blocks)
  {
    cleaned := [];
    for i := 0 to |blocks|
      invariant cleaned == Clean(blocks[..i])
    {
      CleanNext(blocks, i);
      var blk := blocks[i];
      var year := YearOf(blk);
      if year.None? {
        blk := blk.(me := blk.me[YearKey := Some(0)]);
        year := Some(0);
      }
      if year != Some(23) {
        cleaned := cleaned + [blk];
      }
    }
    assert blocks[..|blocks|] == blocks;
  }

  /** `_restructure`. */
  method Restructure(pairs: seq<(string, Option<int>)>) returns (r: Result<WeightsDoc>)
    ensures r == Restructured(pairs)
  {
    var blocks := Fold(pairs);
    var cleaned := CleanBlocks(blocks);
    var seasons: seq<SeasonWeights> := [];
    for i := 0 to |cleaned|
      invariant Seasons(cleaned[..i]) == Ok(seasons)
    {
      SeasonsNext(cleaned, i, seasons);
      var s := Season(cleaned[i]);
      if s.Err? {
        SeasonsFail(cleaned, i);
        return Err(s.error);
      }
      seasons := seasons + [s.value];
    }
    assert cleaned[..|cleaned|] == cleaned;
    return Ok(WeightsDoc(seasons));
  }

  /** `decode` on the matches of the weights file. */
  method Decode(matches: seq<(string, Option<Payload>)>) returns (r: Result<WeightsDoc>)
    ensures r == Restructured(seq(|matches|, i requires 0 <= i < |matches| =>
                                  (matches[i].0, DecodeValue(matches[i].0, matches[i].1))))
  {
    var pairs := DecodePairs(matches);
    assert pairs == seq(|matches|, i requires 0 <= i < |matches| =>
                          (matches[i].0, DecodeValue(matches[i].0, matches[i].1)));
    r := Restructure(pairs);
  }
}
