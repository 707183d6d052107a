/** `decode_season`: one season object of the ratings file.

    The five section offsets are checked against the buffer before anything
    is parsed; then the sections are parsed in file order, each one bounded by
    the offset of the section after it, and the first failure is the result.
 */
module Season {
  import opened Errors
  import opened Bytes
  import ExpectedScore
  import RoleData
  import RoleLookup
  import ScalarFields

  /** The offsets at which the five sections of a season start. */
  datatype Locations = Locations(expected: int, role: int, lookup: int, start: int, version: int)

  datatype Ratings = Ratings(
    locations: Locations,
    expected: seq<ExpectedScore.ExpectedScoreRow>,
    role: seq<seq<RoleData.RoleCoeff>>,
    lookup: seq<RoleLookup.RoleLookupRow>,
    start: int,
    version: ScalarFields.VersionInfo)

  predicate InBuffer(buf: seq<byte>, p: int)
  {
    0 <= p < |buf|
  }

  /** Every one of the five offsets names a byte of the buffer. */
  predicate ValidLocations(buf: seq<byte>, loc: Locations)
  {
    InBuffer(buf, loc.expected) && InBuffer(buf, loc.role) && InBuffer(buf, loc.lookup)
    && InBuffer(buf, loc.start) && InBuffer(buf, loc.version)
  }

  /** The decoded season, or the first error: the offset check, then the
      sections in the order expected score, role data, role lookup, start
      value, version. An offset outside the buffer fails before any section
      is read; a decoded season keeps its locations, has its eleven
      expected-score rows and only complete role blocks. */
  function Decode(buf: seq<byte>, loc: Locations, verbose: bool): (r: Result<Ratings>)
    ensures !ValidLocations(buf, loc) ==> r == Err(InvalidOffsets)
    ensures r.Ok? ==> ValidLocations(buf, loc) && r.value.locations == loc
    ensures r.Ok? ==> |r.value.expected| == ExpectedScore.RowCount
    ensures r.Ok? ==> forall i :: 0 <= i < |r.value.role| ==> |r.value.role[i]| == RoleData.BlockSize
  {
    if !ValidLocations(buf, loc) then Err(InvalidOffsets)
    else
      var expected :- ExpectedScore.ExpectedScores(buf, loc.expected, loc.role, verbose);
      var role :- RoleData.RoleBlocks(buf, loc.role, loc.lookup);
      var lookup :- RoleLookup.Lookup(buf, loc.lookup, loc.start);
      var start :- ScalarFields.StartValue(buf, loc.start);
      var version :- ScalarFields.Version(buf, loc.version);
      Ok(Ratings(loc, expected, role, lookup, start, version))
  }

  /** A season decodes exactly when the offsets are valid and every one of
      the five sections parses; the parts are then those of the sections. */
  lemma DecodeIffParts(buf: seq<byte>, loc: Locations, verbose: bool)
    requires ValidLocations(buf, loc)
    ensures var e := ExpectedScore.ExpectedScores(buf, loc.expected, loc.role, verbose);
            var rd := RoleData.RoleBlocks(buf, loc.role, loc.lookup);
            var rl := RoleLookup.Lookup(buf, loc.lookup, loc.start);
            var sv := ScalarFields.StartValue(buf, loc.start);
            var v := ScalarFields.Version(buf, loc.version);
            && (Decode(buf, loc, verbose).Ok? <==> e.Ok? && rd.Ok? && rl.Ok? && sv.Ok? && v.Ok?)
            && (Decode(buf, loc, verbose).Ok? ==>
                  Decode(buf, loc, verbose).value == Ratings(loc, e.value, rd.value, rl.value, sv.value, v.value))
  {
    var e := ExpectedScore.ExpectedScores(buf, loc.expected, loc.role, verbose);
    var rd := RoleData.RoleBlocks(buf, loc.role, loc.lookup);
    var rl := RoleLookup.Lookup(buf, loc.lookup, loc.start);
    var sv := ScalarFields.StartValue(buf, loc.start);
    var v := ScalarFields.Version(buf, loc.version);
    if e.Ok? && rd.Ok? && rl.Ok? && sv.Ok? && v.Ok? {
      assert Decode(buf, loc, verbose) == Ok(Ratings(loc, e.value, rd.value, rl.value, sv.value, v.value));
    } else {
      assert Decode(buf, loc, verbose).Err?;
    }
  }

  /** The error of a failing season is that of the first section that fails. */
  lemma FirstFailureWins(buf: seq<byte>, loc: Locations, verbose: bool)
    requires ValidLocations(buf, loc)
    ensures var e := ExpectedScore.ExpectedScores(buf, loc.expected, loc.role, verbose);
            var rd := RoleData.RoleBlocks(buf, loc.role, loc.lookup);
            var rl := RoleLookup.Lookup(buf, loc.lookup, loc.start);
            var sv := ScalarFields.StartValue(buf, loc.start);
            var v := ScalarFields.Version(buf, loc.version);
            && (e.Err? ==> Decode(buf, loc, verbose) == Err(e.error))
            && (e.Ok? && rd.Err? ==> Decode(buf, loc, verbose) == Err(rd.error))
            && (e.Ok? && rd.Ok? && rl.Err? ==> Decode(buf, loc, verbose) == Err(rl.error))
            && (e.Ok? && rd.Ok? && rl.Ok? && sv.Err? ==> Decode(buf, loc, verbose) == Err(sv.error))
            && (e.Ok? && rd.Ok? && rl.Ok? && sv.Ok? && v.Err? ==> Decode(buf, loc, verbose) == Err(v.error))
  {
  }

  /** `decode_season(buf, loc, verbose)`. */
  method DecodeSeason(buf: seq<byte>, loc: Locations, verbose: bool) returns (r: Result<Ratings>)
    ensures r == Decode(buf, loc, verbose)
  {
    if !ValidLocations(buf, loc) {
      return Err(InvalidOffsets);
    }
    var expected := ExpectedScore.ParseExpectedScore(buf, loc.expected, loc.role, verbose);
    if expected.Err? {
      return Err(expected.error);
    }
    var role := RoleData.ParseRoleData(buf, loc.role, loc.lookup);
    if role.Err? {
      return Err(role.error);
    }
    var lookup := RoleLookup.ParseRoleLookup(buf, loc.lookup, loc.start);
    if lookup.Err? {
      return Err(lookup.error);
    }
    var start := ScalarFields.StartValue(buf, loc.start);
    if start.Err? {
      return Err(start.error);
    }
    var version := ScalarFields.ParseVersion(buf, loc.version);
    if version.Err? {
      return Err(version.error);
    }
    r := Ok(Ratings(loc, expected.value, role.value, lookup.value, start.value, version.value));
  }
}
