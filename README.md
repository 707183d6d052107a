# A verified model of the `.jsb` decoders and the physics patcher

This project models the core of a toolkit for the binary `.jsb` container files
of a football match engine, and proves properties of that model. The core has
four parts:

- **player ratings decoder** (`src/player_ratings_decoder.py`):
  - a token reader (`tok_stream`) walks key headers and typed values;
  - the section parsers use it: expected-score triplets, role coefficient
    blocks, the role lookup table, the start value and the version object;
  - `decode_season` checks the five section offsets, then runs the section
    parsers in file order.
- **physics patcher** (the loop of `patch_physical_constraints` in
  `prepare_simatch.py`): overwrites the 4-byte value slot after the 0x02
  indicator of every stored copy of a key, in a bytearray.
- **physics reader** (`src/physics_decode_jsb.py`): the read side of the
  patcher. `_find_indicator`, `_int_size` and `_grab` decode both copies of
  every key; the two copies are compared, desired values are verified and
  keys are put in presentation order.
- **weights restructuring** (`src/weight_decoder.py`): a state machine folds
  the flat (key, value) pairs of the weights file into season blocks, which
  become `SeasonWeights` records.

How things are represented:

- Buffers are `seq<byte>`, with `byte` the integers 0..255.
- An exception the Python code raises (`IndexError`, `struct.error`,
  `RuntimeError`, `ValueError`, `TypeError`, `OverflowError`) becomes a
  variant of `Errors.Error`, carried in a `Result`.
- Loops are methods with loop invariants. Each is proved equal to a
  recursive specification function, and the properties are lemmas about that
  function.
- The token generator is a class whose one piece of mutable state is its
  cursor. The patcher writes to an `array<byte>`.

Modules, in dependency order:

- `Errors`: error values, `Result`, `Option`.
- `Bytes`: little-endian and two's-complement reading, Python's slicing and
  `find`, `struct.unpack_from`, `int.to_bytes`.
- `Varint`: `_read_varint` and ZigZag.
- `TokenStream`: `tok_stream`, `expect`, `next_token`, `body_start`.
- `TokenProperties`: an encoder for entries and the proofs that the reader
  reads them back.
- `ExpectedScore`, `RoleData`, `RoleLookup`, `ScalarFields`: the section
  parsers.
- `Season`: `decode_season`.
- `Patcher`: the patch loop.
- `Physics`: the physics reader, ordering, comparison and verification.
- `Weights`: `decode` and `_restructure`.

Where the prose description of the format and the code disagree, the model
follows the code:

- A prefix byte followed by an invalid length skips two bytes, not one.
- The reader stops once fewer than three bytes remain before `stop`
  (`i + 2 < n`).
- A stray control byte at the end of an expected-score name is trimmed only
  in verbose mode. The stream is rewound one byte in both modes.
- An array in the role lookup table is rejected whenever the number of rows
  differs from the declared count. Too many rows is therefore rejected as
  well, for instance a declared count of 0 with a row present.
- `_tiny_nibble` is documented as giving 0-15. Because of the mask
  `(tag & 0x7F) >> 4`, it gives 0-7.

## Model

| member | source | states |
|---|---|---|
| Bytes.LeDecodeEncode | src/player_ratings_decoder.py:280-281 | reading the n-byte little-endian spelling of v gives v back |
| Bytes.LeEncodeDecode | src/player_ratings_decoder.py:280-281 | spelling the unsigned reading of some bytes in as many bytes gives those bytes back |
| Bytes.LeUnsigned | src/player_ratings_decoder.py:280-281 | the unsigned little-endian reading of n bytes is below 256^n |
| Bytes.ToSigned | src/player_ratings_decoder.py:272-277 | the signed reading lies in the signed range of the width, is u or u - 256^width, and is negative exactly when u is at least half of 256^width |
| Bytes.TwosComplement | src/player_ratings_decoder.py:272-277 | the unsigned number below 256^width whose signed reading is v |
| Bytes.UnpackFrom | src/player_ratings_decoder.py:272-281 | `struct.unpack_from` fails with `struct.error` exactly when fewer than width bytes remain at the offset; on success it gives the signed or unsigned little-endian reading of those bytes |
| Bytes.ToBytes | prepare_simatch.py:605 | `to_bytes(n, "little")` succeeds exactly for 0 <= v < 256^n and gives n bytes that read back as v; otherwise `OverflowError` |
| Bytes.Slice | src/player_ratings_decoder.py:327 | a Python slice with clamped bounds: the sub-sequence when the bounds fit, otherwise the clamped length |
| Bytes.Find | src/player_ratings_decoder.py:531 | `bytes.find` gives -1 or an offset at or after `from` at which the pattern occurs |
| Bytes.FindIsLeast | src/player_ratings_decoder.py:531-537 | `find` gives the first occurrence, and -1 only when the pattern occurs nowhere from `from` on |
| Varint.VarintRaw | src/player_ratings_decoder.py:463-471 | at least one byte is consumed, the last one below 0x80 and all before it at 0x80 or above; reading fails with IndexError exactly when no byte below 0x80 is left |
| Varint.ZigZagDecode | src/player_ratings_decoder.py:472 | `(res >> 1) ^ -(res & 1)` inverts the ZigZag map, and is non-negative exactly for even res |
| Varint.ZigZagRoundTrip | src/player_ratings_decoder.py:472 | ZigZag-decoding the ZigZag number of any integer gives it back |
| Varint.VarintDecode | src/player_ratings_decoder.py:463-473 | succeeds exactly when the 7-bit groups end, and its value is the integer whose ZigZag number they spell |
| Varint.VarintRawOfBytes | src/player_ratings_decoder.py:463-471 | the 7-bit groups of n, placed anywhere in a buffer, read back as n, with the cursor just after them |
| Varint.VarintRoundTrip | src/player_ratings_decoder.py:463-473 | any integer, ZigZag-encoded as 7-bit groups, decodes back to itself, with the cursor just after its bytes |
| Varint.SingleByteVarint | src/player_ratings_decoder.py:466-470 | a byte below 0x80 is a whole varint |
| Varint.ReadVarint | src/player_ratings_decoder.py:463-473 | the loop with `res`, `shift` and `p_` computes VarintDecode: the or-ed groups never overlap |
| TokenStream.ReadKeyAndValue | src/player_ratings_decoder.py:327-351 | reading a key and a value never skips; a token's cursor lies beyond its key and its value has the shape of its kind |
| TokenStream.ReadEntry | src/player_ratings_decoder.py:310-351 | one pass of the reader loop: a token's cursor is at least two past the header, and its value is well typed |
| TokenStream.KeyAndValueRules | src/player_ratings_decoder.py:327-350 | the key is the klen bytes at the key offset; the read raises exactly when the marker byte is missing or an int32, int64 or long-string header runs past the end |
| TokenStream.HeaderRules | src/player_ratings_decoder.py:314-325 | a prefix byte 0x2A/0x4A/0x5A/0x6A takes the next byte as the key length, and a byte in 1..96 is itself the length; any other byte moves on by one, a prefix with a bad length by two, and neither yields a token |
| TokenStream.IsKeyPrefix | src/player_ratings_decoder.py:314 | the four prefix bytes 0x2A, 0x4A, 0x5A and 0x6A |
| TokenStream.IsKeyLength | src/player_ratings_decoder.py:318-320 | a key length in 1..96 |
| TokenStream.IsNoise | src/player_ratings_decoder.py:314-325 | a byte is stepped over exactly when it lies outside 1..96 and is not the prefix 0x6A |
| TokenStream.NextSpec | src/player_ratings_decoder.py:309-353 | `next()` on the generator: skips entries while `i + 2 < stop`; a yielded token is well typed and its cursor lies past the header |
| TokenStream.TokenStream.constructor | src/player_ratings_decoder.py:304-309 | a stream over the buffer between start and stop, with its cursor at start |
| TokenStream.TokenStream.Restart | src/player_ratings_decoder.py:445 | a fresh `tok_stream` over the same buffer and stop: the cursor moves to the given offset |
| TokenStream.TokenStream.Next | src/player_ratings_decoder.py:309-353 | the generator loop gives NextSpec from the old cursor and leaves the cursor after the token |
| TokenStream.TokenStream.ReadKeyValue | src/player_ratings_decoder.py:327-351 | the value decoding of the loop body computes ReadKeyAndValue |
| TokenStream.ExpectOf | src/player_ratings_decoder.py:379-396 | `expect` succeeds exactly when a token arrives with the wanted key and one of the wanted kinds, returning its value and cursor; otherwise it fails with an EOF or mismatch error, or passes a reader error on |
| TokenStream.StreamSound | src/player_ratings_decoder.py:304-351 | every token of a real stream ends past its header and carries a value of its kind |
| TokenStream.Expect | src/player_ratings_decoder.py:371-396 | `expect(ts, key, kinds)` on the stream object is ExpectOf of the next token, and a success leaves the cursor after it |
| TokenStream.NextTokenOf | src/player_ratings_decoder.py:358-368 | `next_token` is `expect` with one kind, returning only the value |
| TokenStream.KeyAtInBounds | src/player_ratings_decoder.py:406 | the key-text check `buf[a:a+len(key)] == key` holds exactly when the key fits in the buffer there and equals those bytes |
| TokenStream.BodyStart | src/player_ratings_decoder.py:399-413 | succeeds exactly when the key text is at the anchor and followed by 0xC9 or 0x99, giving the offset after that marker; a missing key text is its own error |
| TokenProperties.ReadEncodedField | src/player_ratings_decoder.py:329-351 | every encodable value (int32, int64, long text, short text, control marker) written after a key reads back as its token, with the cursor just past it |
| TokenProperties.ReadEncodedInt | src/player_ratings_decoder.py:332-337 | an int32 (4 bytes) or int64 (8 bytes) in two's complement reads back as its value |
| TokenProperties.ReadEncodedLongText | src/player_ratings_decoder.py:338-343 | a u32 length and that many bytes read back as the text |
| TokenProperties.ReadEncodedShortText | src/player_ratings_decoder.py:344-348 | a marker 0x80 + n and n bytes read back as the text |
| TokenProperties.ReadEncodedControl | src/player_ratings_decoder.py:349-350 | any other marker reads as a control token and consumes only the marker |
| TokenProperties.ReadsInt | src/player_ratings_decoder.py:332-337 | marker 0x02 or 0x03 followed by 4 or 8 bytes yields an i32 or i64 token whose cursor is after those bytes |
| TokenProperties.ReadsLongText | src/player_ratings_decoder.py:338-343 | marker 0x08, a u32 length and the text yield a string token whose cursor is after the text |
| TokenProperties.ReadsShortText | src/player_ratings_decoder.py:344-348 | marker 0x80 + n and n bytes yield a string token whose cursor is after them |
| TokenProperties.ReadEncodedEntry | src/player_ratings_decoder.py:314-351 | a whole entry (inline or prefixed key header, key, value) anywhere in a buffer reads back as its token |
| TokenProperties.HeaderRead | src/player_ratings_decoder.py:314-322 | a well-formed inline or prefixed header hands the key length and key offset over to the value read |
| TokenProperties.NoiseSkipped | src/player_ratings_decoder.py:323-325 | bytes at which no header starts are stepped over without producing anything |
| TokenProperties.StreamYieldsEncoded | src/player_ratings_decoder.py:310-351 | after noise bytes, the next token of the stream is the encoded entry, with the cursor just past it |
| TokenProperties.YieldedEntry | src/player_ratings_decoder.py:310-351 | a token read at a cursor with room before stop is what `next()` yields |
| TokenProperties.OverlongHeaderSkipped | src/player_ratings_decoder.py:320-325 | a header byte claiming 200 key bytes yields nothing and moves the cursor on by one |
| ExpectedScore.ReadName | src/player_ratings_decoder.py:437-445 | the name token of a triplet; the stream cursor moves forward |
| ExpectedScore.ReadMultipliers | src/player_ratings_decoder.py:449-455 | both multipliers are read as i32 or i64, so they lie in the 64-bit signed range; the cursor moves forward |
| ExpectedScore.ReadRow | src/player_ratings_decoder.py:435-457 | one triplet; the cursor moves forward |
| ExpectedScore.ReadRows | src/player_ratings_decoder.py:434-457 | count triplets, or the first error |
| ExpectedScore.ExpectedScores | src/player_ratings_decoder.py:416-460 | a parsed section has exactly eleven rows, and its key text and object marker were found |
| ExpectedScore.RowName | src/player_ratings_decoder.py:437-445 | the name token must be `name` of kind str; when its last byte is below 32 the stream restarts one byte before the token's end and, in verbose mode only, that byte is trimmed; otherwise the name is kept and the stream continues |
| ExpectedScore.VerboseOnlyTrims | src/player_ratings_decoder.py:438-445 | verbose mode changes only the names: a row succeeds in both modes or in neither, at the same cursor and with the same multipliers |
| ExpectedScore.VerboseKeepsMultipliers | src/player_ratings_decoder.py:434-457 | over any number of rows, both modes succeed or fail together and give the same multiplier pairs |
| ExpectedScore.RowsAdvance | src/player_ratings_decoder.py:434-457 | one turn of the row loop: a failing row is the result, and otherwise the row is appended and the loop goes on from its cursor |
| ExpectedScore.ReadNameOf | src/player_ratings_decoder.py:437-445 | the name-reading statements, including the restart, compute ReadName |
| ExpectedScore.ReadMultipliersOf | src/player_ratings_decoder.py:449-455 | the two `expect` calls compute ReadMultipliers |
| ExpectedScore.ReadTriplet | src/player_ratings_decoder.py:435-457 | one row of the loop computes ReadRow |
| ExpectedScore.ReadTriplets | src/player_ratings_decoder.py:434-457 | the row loop computes ReadRows |
| ExpectedScore.ParseExpectedScore | src/player_ratings_decoder.py:416-460 | `parse_expected_score` computes ExpectedScores |
| RoleData.StripControl | src/player_ratings_decoder.py:521-523 | the strip loop removes the longest prefix of control bytes (below 32) and leaves a suffix of the label |
| RoleData.StripControlIdempotent | src/player_ratings_decoder.py:521-523 | stripping the control bytes twice is stripping them once |
| RoleData.CleanLabel | src/player_ratings_decoder.py:513-524 | `_clean_label` keeps a suffix of the raw label |
| RoleData.CleanLabelHeader | src/player_ratings_decoder.py:516-523 | a long header (0x08 and at least 5 bytes) drops 5 bytes; a short (0x80 or more) or 0x68 header drops 1; any other label loses exactly its leading control bytes |
| RoleData.CleanLabelOf | src/player_ratings_decoder.py:513-524 | the function with its strip loop computes CleanLabel |
| RoleData.RoleValue | src/player_ratings_decoder.py:545-565 | the value read raises exactly when the tag is missing or an int32/int64 runs past the end; the cursor moves forward and stays within the data |
| RoleData.RoleValueClasses | src/player_ratings_decoder.py:547-565 | tags 0x80-0xBF give 0..63, tags from 0xC0 give -63..0, 0x02/0x03 read a little-endian int32/int64, and any other tag is a one-byte ZigZag varint in -64..63 |
| RoleData.ReadRoleValue | src/player_ratings_decoder.py:545-565 | the branches of the value read compute RoleValue |
| RoleData.ScanStep | src/player_ratings_decoder.py:531-565 | one pass of the scan: it ends exactly when either sentinel is not found; a coefficient moves the cursor strictly forward within the data, so the scan terminates |
| RoleData.AfterName | src/player_ratings_decoder.py:536-565 | from the label start: ends exactly when no value sentinel follows, and otherwise moves forward |
| RoleData.Entry | src/player_ratings_decoder.py:541-565 | with both sentinels found, the pass yields a coefficient or raises, never ends; the cursor is past the value sentinel |
| RoleData.Blocks | src/player_ratings_decoder.py:574-577 | every block has exactly 52 coefficients; there are as many blocks as whole 52s, and together they are the coefficients without the trailing partial block |
| RoleData.BlocksOfFlatten | src/player_ratings_decoder.py:574-587 | blocks of 52 followed by fewer than 52 more coefficients come back as those blocks |
| RoleData.RoleBlocks | src/player_ratings_decoder.py:485-587 | every returned block has exactly 52 coefficients; a missing key text raises |
| RoleData.RoleBlocksAreCompleteBlocks | src/player_ratings_decoder.py:574-587 | the returned blocks are exactly the complete blocks of the coefficients scanned, and fewer than 52 are left over and discarded |
| RoleData.ParseRoleData | src/player_ratings_decoder.py:476-587 | `parse_role_data` computes RoleBlocks |
| RoleData.ScanCoeffs | src/player_ratings_decoder.py:527-587 | the scan loop with `blocks` and `coeffs` gives the complete blocks of the scanned coefficients, or the scan's error |
| RoleData.CoeffsAt | src/player_ratings_decoder.py:530-581 | one turn of the scan: it ends, raises, or appends a coefficient and stops once `body + cursor` reaches stop |
| RoleData.Coeffs | src/player_ratings_decoder.py:527-581 | each coefficient takes at least a byte, the first is the one found at the cursor, a found coefficient is never lost and a raised error ends the scan |
| RoleData.AddCoeff | src/player_ratings_decoder.py:567-577 | appending a coefficient and sealing at 52 keeps every sealed block at 52 and the open block below 52, and adds the coefficient to their concatenation |
| RoleData.ScanStepOf | src/player_ratings_decoder.py:531-565 | the statements of one pass compute ScanStep |
| RoleData.AfterNameOf | src/player_ratings_decoder.py:536-565 | the statements after the name sentinel compute AfterName |
| RoleData.EntryOf | src/player_ratings_decoder.py:541-565 | the label clean-up and the value read compute Entry |
| RoleLookup.TinyNibble | src/player_ratings_decoder.py:635-637 | `(tag & 0x7F) >> 4` is below 8, and for tags from 0x80 it is the sixteen-wide band of the tag above 0x80 |
| RoleLookup.ReadInt | src/player_ratings_decoder.py:639-654 | a successful read moves the cursor forward within the data |
| RoleLookup.ReadIntRules | src/player_ratings_decoder.py:639-654 | a tag from 0x80 with low nibble 2 is a nibble int, tried before the tiny rule `tag - 0x80` (0..127); 0x02/0x03 are int32/int64 and 0x04/0x05 uint32/uint64, failing exactly when their bytes run out; any other tag below 0x80 raises |
| RoleLookup.ScanStep | src/player_ratings_decoder.py:659-666 | the scan ends exactly when no index sentinel is left; a row moves the cursor strictly forward within the data |
| RoleLookup.RoleAfter | src/player_ratings_decoder.py:665-666 | after an index the pass yields a row with that index or raises, never ends |
| RoleLookup.Rows | src/player_ratings_decoder.py:657-671 | with a declared count, the scan never collects more rows than are still owed, or more than one when none is owed |
| RoleLookup.RowsAfter | src/player_ratings_decoder.py:657-671 | the same bound once the pass at the cursor is known |
| RoleLookup.Container | src/player_ratings_decoder.py:620-628 | the container tag is 0xC9, 0x99 or 0x09; only an array declares a count, read as a u32; the body starts 1 or 5 bytes after the tag |
| RoleLookup.Lookup | src/player_ratings_decoder.py:615-684 | a missing key text raises, and a result needs a known container |
| RoleLookup.ArrayHasDeclaredRows | src/player_ratings_decoder.py:669-677 | an array section that parses has exactly its declared number of rows |
| RoleLookup.EmptyArrayWithRowsRejected | src/player_ratings_decoder.py:669-677 | an array declaring 0 rows whose data holds a row is rejected with (0, 1) |
| RoleLookup.ShortArrayRejected | src/player_ratings_decoder.py:673-677 | an array whose scan finds fewer rows than declared is rejected as truncated or malformed |
| RoleLookup.ParseRoleLookup | src/player_ratings_decoder.py:596-684 | `parse_role_lookup` computes Lookup |
| RoleLookup.ScanRows | src/player_ratings_decoder.py:657-671 | the scan loop computes Rows from the start of the data |
| RoleLookup.ScanRowsStep | src/player_ratings_decoder.py:658-671 | one turn of the scan loop: it ends, raises, stops at the declared count, or goes on from the row's cursor |
| RoleLookup.ScanStepOf | src/player_ratings_decoder.py:659-666 | the statements of one pass compute ScanStep |
| RoleLookup.RoleAfterOf | src/player_ratings_decoder.py:665-666 | the role sentinel search and read compute RoleAfter |
| ScalarFields.StartValue | src/player_ratings_decoder.py:688-725 | a value needs the exact key text followed by marker 0x02 or 0x03; a missing key text and any other marker raise |
| ScalarFields.StartValueRoundTrip | src/player_ratings_decoder.py:702-716 | any int32 or int64 written after the key text reads back as itself |
| ScalarFields.DecodeInt | src/player_ratings_decoder.py:750-766 | a tag from 0x80 is `tag & 0x3F` (0..63) in one byte; tags below 0x80 other than 0x02/0x03 raise; reading past the end raises |
| ScalarFields.ReadField | src/player_ratings_decoder.py:788-798 | a field needs a length byte equal to its key's length, then the key text, failing with the matching error otherwise |
| ScalarFields.ReadFields | src/player_ratings_decoder.py:786-799 | the fields in the given order give one value per key |
| ScalarFields.Version | src/player_ratings_decoder.py:731-804 | a version needs the key text, then 0x5A, then the four fields in the order major, minor, release, year |
| ScalarFields.KeysInOrder | src/player_ratings_decoder.py:786-795 | in a version that parses, each key sits behind a length byte equal to its length, each after the end of the one before |
| ScalarFields.KeyAtStart | src/player_ratings_decoder.py:786-795 | field i starts with its own key header, and field i + 1 starts after it |
| ScalarFields.ParseVersion | src/player_ratings_decoder.py:731-804 | `parse_version` computes Version |
| ScalarFields.ReadFieldsOf | src/player_ratings_decoder.py:786-799 | the loop over the wanted keys computes ReadFields |
| ScalarFields.ReadFieldOf | src/player_ratings_decoder.py:788-798 | one turn of that loop computes ReadField |
| ScalarFields.ReadIntRoundTrip | src/player_ratings_decoder.py:788-798 | a keyed int32 or int64 in two's complement reads back as its value, with the cursor after it |
| ScalarFields.KeyedAt | src/player_ratings_decoder.py:788-798 | a keyed int field found between two offsets reads back as its value, ending at the second offset |
| ScalarFields.ChainedFields | src/player_ratings_decoder.py:786-799 | fields that are each read from where the one before ended are read together, in order |
| ScalarFields.FieldsRoundTrip | src/player_ratings_decoder.py:786-799 | keyed fields laid out one after the other read back as their values |
| ScalarFields.VersionRoundTrip | src/player_ratings_decoder.py:769-799 | a version object written with its four int fields under the wanted keys reads back as those four values |
| Season.Decode | src/player_ratings_decoder.py:828-859 | an offset outside the buffer fails before any section is read; a decoded season keeps its locations, has eleven expected-score rows and only 52-coefficient role blocks |
| Season.DecodeIffParts | src/player_ratings_decoder.py:853-859 | with valid offsets, a season decodes exactly when all five sections parse, and it is made of their results |
| Season.FirstFailureWins | src/player_ratings_decoder.py:853-857 | the error of a failing season is that of the first section, in file order, that fails |
| Season.DecodeSeason | src/player_ratings_decoder.py:828-859 | `decode_season` computes Decode |
| Patcher.CopiesOf | prepare_simatch.py:592-595 | the copies of one key, in the order "loc", "loc2", skipping a missing occurrence key; each carries the key, the value and a listed offset |
| Patcher.UpdateCopies | prepare_simatch.py:585-590 | an ignored `version_*` key or a key missing from the offset table touches no copy |
| Patcher.Occurrences | prepare_simatch.py:585-595 | every copy visited has a listed, non-ignored key and a listed offset; at most two per update |
| Patcher.Listed | prepare_simatch.py:585-590 | the updates kept are listed and not ignored |
| Patcher.SkippedUpdates | prepare_simatch.py:585-590 | dropping ignored and unlisted updates changes nothing that is written |
| Patcher.NothingListed | prepare_simatch.py:585-590 | updates that are all ignored or unlisted leave the file as it was |
| Patcher.PatchSlot | prepare_simatch.py:597-606 | one copy keeps the buffer length; an indicator past the end raises IndexError; an indicator other than 0x02 leaves the buffer unchanged; a value outside [0, 2^32) raises; a slot past the end fails |
| Patcher.WrittenSlot | prepare_simatch.py:597-606 | a written copy's four bytes after the indicator read back as the value, and every other byte, the indicator included, is unchanged |
| Patcher.PatchSlotAt | prepare_simatch.py:603-606 | byte by byte, a written slot holds the value's little-endian bytes and everything else is as before |
| Patcher.Patch | prepare_simatch.py:592-606 | patching the copies one after the other keeps the buffer length |
| Patcher.PatchFile | prepare_simatch.py:585-608 | a successful patch of the whole file keeps its length |
| Patcher.PatchAt | prepare_simatch.py:592-606 | with no value slot over an indicator and every copy patchable, the patch succeeds and each byte is what the last copy writing there wrote, or the original byte |
| Patcher.PatchOkIsSafe | prepare_simatch.py:597-606 | with no overlap, a patch that succeeds had every copy patchable |
| Patcher.PatchTwice | prepare_simatch.py:592-606 | with no value slot over an indicator, patching twice with the same copies is patching once |
| Patcher.PatchFileTwice | prepare_simatch.py:585-606 | under the same proviso, patching the file twice with the same updates is patching it once |
| Patcher.WriteSlot | prepare_simatch.py:606 | the slice assignment replaces exactly the four bytes at the slot in the array |
| Patcher.UpdateStep | prepare_simatch.py:585-595 | one update contributes its copies, unless ignored or unlisted, ahead of the later ones |
| Patcher.CopyStep | prepare_simatch.py:592-606 | one occurrence key is patched before the later ones, a missing one skipped, a failure ending the patch |
| Patcher.PatchCopy | prepare_simatch.py:597-606 | patching one copy in the bytearray succeeds exactly when PatchSlot does, leaving its result in the array, or fails with its error |
| Patcher.PatchUpdate | prepare_simatch.py:592-606 | the inner loop over "loc" and "loc2" patches the array as Patch does with those copies |
| Patcher.PatchPhysicalConstraints | prepare_simatch.py:567-613 | the nested loops over the updates and the occurrence keys, in a copy of the file, compute PatchFile |
| Patcher.PatchSlotAsWritten | prepare_simatch.py:603-606 | the slice assignment as written agrees with PatchSlot whenever the slot fits the buffer |
| Patcher.AsWrittenGrows | prepare_simatch.py:606 | for a two-byte buffer the assignment as written grows the buffer to six bytes, where the corrected PatchSlot fails |
| Physics.IndicatorAt | src/physics_decode_jsb.py:31-35 | the first offset at or after pos that is the end of the buffer or holds a byte that is no ASCII letter, digit or underscore; every byte before it is one |
| Physics.IndicatorAtStop | src/physics_decode_jsb.py:31-35 | that offset is unique: any p with key bytes before it and a non-key byte or the end at it is the indicator |
| Physics.FindIndicator | src/physics_decode_jsb.py:31-35 | the while loop computes IndicatorAt |
| Physics.IntSize | src/physics_decode_jsb.py:37-42 | 4 exactly for 0x02, 1 exactly for bytes with bit 7 set and low nibble 2, None otherwise |
| Physics.Get | src/physics_decode_jsb.py:466-467 | `dict.get`: a value exactly for a key of the dict, and then that key's value |
| Physics.Store | src/physics_decode_jsb.py:468-471 | storing a read value sets the key to it, storing None leaves the key as it was, and no other key changes |
| Physics.ReadSlot | src/physics_decode_jsb.py:466-467 | `_grab` at the entry's `loc` or `loc2` offset, None when the entry has none |
| Physics.EntryOk | src/physics_decode_jsb.py:463-467 | an entry reads without an exception when it is ignored or both of its slots read |
| Physics.EntryError | src/physics_decode_jsb.py:466-467 | the exception of a failing entry: that of `loc` when it fails, otherwise that of `loc2` |
| Physics.Grab | src/physics_decode_jsb.py:450-460 | no offset gives None; an indicator at the end raises IndexError; otherwise the read succeeds, and a value it gives is the unsigned little-endian reading of the bytes after a known indicator that fit in the buffer, below 2^32, and below 256 for size 1; conversely a known indicator whose value bytes fit always gives a value |
| Physics.GrabAt | src/physics_decode_jsb.py:450-460 | `_grab` with the indicator loop computes Grab |
| Physics.DecodeEntry | src/physics_decode_jsb.py:463-471 | one table entry succeeds exactly when it is ignored or both of its slots read, and fails with the first slot's error; an ignored entry changes nothing; every other key keeps its value, and the entry's key takes the value read at its slot when there is one and keeps its old value otherwise |
| Physics.Decode | src/physics_decode_jsb.py:442-471 | the decoded keys are table keys, never the ignored `version_*` keys, and every value is below 2^32 |
| Physics.DecodeFailureStays | src/physics_decode_jsb.py:462-471 | a failure in a prefix of the table is the failure of the whole table |
| Physics.DecodedValuesRead | src/physics_decode_jsb.py:462-471 | every decoded value is what some entry of its key reads in that copy |
| Physics.FirstFailure | src/physics_decode_jsb.py:463-467 | entry i fails and every entry before it reads |
| Physics.DecodeOkIff | src/physics_decode_jsb.py:462-471 | the decoding succeeds exactly when every entry reads, and a failure is the error of the first failing entry |
| Physics.DistinctKeys | src/physics_decode_jsb.py:463 | the keys of the offset table are pairwise distinct, as the keys of a dict are |
| Physics.DecodedKeysComplete | src/physics_decode_jsb.py:462-471 | with distinct keys, every non-ignored entry's key holds in each copy exactly what its slot reads: the value when there is one, and no key when it reads None |
| Physics.DecodeEntryAt | src/physics_decode_jsb.py:463-471 | the loop body computes DecodeEntry |
| Physics.DecodeNext | src/physics_decode_jsb.py:463-471 | one more entry is one more step of the loop, and a failure there fails the table |
| Physics.DecodePhysicalConstraints | src/physics_decode_jsb.py:430-477 | the loop over the table computes Decode |
| Physics.PatchThenGrab | src/physics_decode_jsb.py:450-460 | after the patcher writes a 32-bit value at a key whose indicator is 0x02, reading that copy gives the value |
| Physics.GrabThenPatch | src/physics_decode_jsb.py:450-460 | patching a copy with the value it already reads leaves the buffer byte-identical |
| Physics.GrabbedSlot | src/physics_decode_jsb.py:453-460 | the value a copy with indicator 0x02 reads is its four slot bytes |
| Physics.BeforeIrreflexive | src/physics_decode_jsb.py:485 | Python's string `<` is irreflexive |
| Physics.BeforeTransitive | src/physics_decode_jsb.py:485 | and transitive |
| Physics.BeforeTotal | src/physics_decode_jsb.py:485 | and total on distinct strings |
| Physics.Least | src/physics_decode_jsb.py:485 | the least string of a non-empty set |
| Physics.SortedKeys | src/physics_decode_jsb.py:485 | `sorted` on a set: strictly increasing, with exactly the set's keys |
| Physics.PopTake | src/physics_decode_jsb.py:482-484 | a key of ORDER still in the dict moves, with its value, to the end of the output |
| Physics.PopSkip | src/physics_decode_jsb.py:482-484 | a key of ORDER not in the dict changes nothing |
| Physics.PopKey | src/physics_decode_jsb.py:483-484 | one turn of the first loop pops the key when the dict holds it, and keeps the loop invariant |
| Physics.PopOrder | src/physics_decode_jsb.py:482-484 | the first loop outputs the dict's keys of ORDER in ORDER order with their values, and leaves the dict without them |
| Physics.AppendSorted | src/physics_decode_jsb.py:485-486 | the second loop outputs every remaining key once, in increasing order, with its value |
| Physics.ConcatInOrder | src/physics_decode_jsb.py:480-487 | ORDER keys, then other keys sorted: no key repeats and every pair is in presentation order |
| Physics.OrderedBy | src/physics_decode_jsb.py:480-487 | the output holds exactly the dict's pairs, each key once, ORDER keys first in ORDER order and the rest sorted; the dict loses its ORDER keys |
| Physics.Ordered | src/physics_decode_jsb.py:480-487 | `_ordered` with the fixed ORDER list |
| Physics.Without | src/physics_decode_jsb.py:503-506 | a copy without the ignored keys |
| Physics.IdenticalIffSameWithout | src/physics_decode_jsb.py:503-510 | the copies agree key by key (missing read as None) exactly when they are equal once the ignored keys are dropped |
| Physics.CompareCopies | src/physics_decode_jsb.py:502-510 | the loop over the sorted key union is true exactly when every non-ignored key reads the same in both copies; the default ignores the `version_*` keys |
| Physics.CompareJsbCopies | src/physics_decode_jsb.py:490-510 | `compare_jsb_copies`: a decoding failure is the result, otherwise the comparison of the decoded copies |
| Physics.IgnoredOrDefault | src/physics_decode_jsb.py:495-497 | without an argument, the ignored keys are the four `version_*` keys |
| Physics.WarningsExact | src/physics_decode_jsb.py:525-529 | the warnings are exactly the desired entries met by one copy where the copies disagree |
| Physics.WarningsStep | src/physics_decode_jsb.py:525-532 | one desired entry adds a warning exactly when it warns |
| Physics.Met | src/physics_decode_jsb.py:526-527 | a desired value is met exactly when it is not negative and one of the copies holds it at its key |
| Physics.Warns | src/physics_decode_jsb.py:526-528 | a desired value draws a warning exactly when it is met and the copies do not hold the same value at its key |
| Physics.Warnings | src/physics_decode_jsb.py:525-529 | no more warnings than desired values, and none exactly when no desired value warns |
| Physics.CheckDesired | src/physics_decode_jsb.py:524-535 | the loop is true exactly when every desired value is met by at least one copy, and disagreeing copies of a met value only warn |
| Physics.VerifyPhysicalConstraints | src/physics_decode_jsb.py:512-535 | no desired-values file (None) means false without decoding, while an empty list of desired values is decoded and checked; a decoding failure is the result; otherwise the check of the decoded copies |
| Weights.DecodeValue | src/weight_decoder.py:190-197 | a payload is read as a signed 32-bit little-endian integer; without one, `ME_PACK_VERSION_*` keys other than YEAR get 0 and every other key gets None |
| Weights.DecodePairs | src/weight_decoder.py:190-198 | one pair per match, in order, with its decoded value |
| Weights.Step | src/weight_decoder.py:121-151 | one pair of the state machine keeps the invariant: the current block is the last block, and the current style names a dict of it |
| Weights.Run | src/weight_decoder.py:116-151 | the fold over the pairs keeps that invariant |
| Weights.RunNext | src/weight_decoder.py:121 | the fold over one more pair is one more step |
| Weights.YearOpensBlock | src/weight_decoder.py:123-130 | a year pair opens a new block whose version dict is the buffer with the year; the buffer is cleared, no style is current, earlier blocks stay |
| Weights.OpenBlock | src/weight_decoder.py:126-128 | a new last block whose version dict is the buffer and which has no styles; earlier blocks stay, the buffer is cleared and a block is current |
| Weights.SetStyle | src/weight_decoder.py:139 | only the dict of the named style in the last block changes, to the given dict; the version dict, the other styles and all other blocks stay |
| Weights.MeKeyBuffered | src/weight_decoder.py:123-124 | any other `ME_PACK_VERSION_*` pair is only buffered |
| Weights.HeaderResetsStyle | src/weight_decoder.py:133-140 | a style header becomes the current style with an empty dict in the current block, a block being opened from the buffer first when there is none |
| Weights.StrayWeightGoesToMisc | src/weight_decoder.py:143-151 | a weight before any style header goes to a fresh "MISC" dict, stored there when it has a value |
| Weights.NoValueNotStored | src/weight_decoder.py:150-151 | a weight without a value changes nothing once a style is current |
| Weights.WeightStored | src/weight_decoder.py:150-151 | a weight with a value is stored in the current style's dict and nowhere else |
| Weights.BlockCount | src/weight_decoder.py:121-151 | the number of blocks is the number of year pairs, plus one when a non-version pair came before the first year; there is a current block once either has happened |
| Weights.YearOf | src/weight_decoder.py:156 | a block's year is present exactly when its version dict holds a non-None year |
| Weights.Normalize | src/weight_decoder.py:156-159 | a missing year becomes 0; the styles and every other version field stay |
| Weights.Clean | src/weight_decoder.py:153-162 | every kept block has a year and none has year 23 |
| Weights.Dropped | src/weight_decoder.py:160-161 | the number of blocks of year 23, never more than the blocks |
| Weights.CleanLength | src/weight_decoder.py:155-162 | the clean-up drops exactly the year-23 blocks |
| Weights.CleanAt | src/weight_decoder.py:155-162 | a block of another year is kept, normalized, right after the blocks kept before it |
| Weights.CleanExact | src/weight_decoder.py:155-162 | the clean-up is exactly the normalized blocks of other years than 23, in their order |
| Weights.CleanKeepsOthers | src/weight_decoder.py:153-162 | without year-23 blocks, nothing is dropped and each block is only normalized |
| Weights.CleanNext | src/weight_decoder.py:155-162 | one more block is normalized and kept unless its year is 23 |
| Weights.MakeMEVersion | src/weight_decoder.py:167 | `MEVersion(**me)` succeeds exactly when the dict's keys are the four version fields, keeping the year, and otherwise raises TypeError |
| Weights.MakeTpw | src/weight_decoder.py:105-111 | every `TeamPickingWeights` field takes the value of its `simatchshared::` key, or 0 |
| Weights.Pick | src/weight_decoder.py:169-170 | a style absent from the block gives all zeros |
| Weights.Season | src/weight_decoder.py:166-180 | a season is built exactly when the version dict's keys are the four fields; it carries the block's year and four full team-picking records |
| Weights.Seasons | src/weight_decoder.py:164-182 | the seasons, one per block, are built exactly when every block's version dict has exactly the four fields; otherwise the conversion fails |
| Weights.SeasonsPointwise | src/weight_decoder.py:165-180 | season i is the season of block i |
| Weights.SeasonsNext | src/weight_decoder.py:166-180 | one more block appends its season |
| Weights.SeasonsFail | src/weight_decoder.py:167 | one block without exactly the four fields fails the whole conversion |
| Weights.RestructuredYears | src/weight_decoder.py:153-182 | every season of the result has a year, and none has year 23 |
| Weights.Restructured | src/weight_decoder.py:115-182 | `_restructure` succeeds exactly when every kept block has exactly the four version fields, with one season per kept block |
| Weights.FoldPair | src/weight_decoder.py:121-151 | the loop body on `blocks`, `me_buf`, `cur_block` and `cur_tps` computes Step |
| Weights.Fold | src/weight_decoder.py:115-151 | the loop over the pairs computes the blocks of Run |
| Weights.CleanBlocks | src/weight_decoder.py:153-162 | the post-processing loop computes Clean |
| Weights.Restructure | src/weight_decoder.py:115-182 | the loops of `_restructure` compute the fold, the clean-up and the record conversion, whose years RestructuredYears bounds |
| Weights.Decode | src/weight_decoder.py:186-200 | `decode` on the matched keys and payloads is `_restructure` of the decoded pairs |

## Left out

- File I/O is left out: reading the `.jsb` files, JSON and spreadsheet files, `write_bytes` and `exists()`. Buffers, tables, updates and desired values are parameters, and results are returned.
- `print`, `dump_bytes`, `input()`, `sys.exit` and every diagnostic message are left out. Errors keep the offset or value the message reports.
- The `verbose` argument of `parse_role_data`, `parse_role_lookup`, `parse_start_value` and `parse_version` only prints, so those members do not take it.
- `hex_to_int` is left out: offsets are given as integers.
- The literal offset tables are parameters: `physical_constraints_offsets` and the season locations.
- The `which` selector of `decode_physical_constraints` is left out. It returns both copies, which is what the comparison and verification use.
- The regular expression of `weight_decoder.decode` is left out. `Weights.Decode` takes the matched keys and optional 4-byte payloads.
- UTF-8 decoding with replacement is left out: keys and strings stay bytes. Comparing a decoded key with an ASCII literal is modelled as comparing bytes, and `ord(name[-1]) < 32` is modelled as the last byte being below 32.
- Offsets are non-negative (`nat`). Python's negative indices, which count from the end, are not modelled.
- In the role data and role lookup sections, errors report offsets relative to the section's data, as the Python code computes them.
- Desired values are integers. JSON values of other types are not modelled.
- The fields of `Weights.MEVersion` are `Option<int>`, because a buffered version key may hold None.
- Python dicts are maps, and insertion order is modelled only where the code depends on it: `_ordered` returns a sequence of pairs, and the patch loop takes its updates as a sequence.
- Physics.Grab: does not take `_grab`'s `key` argument, which the function never reads.
- `sorted` is modelled by `Physics.SortedKeys`, a selection of least elements, rather than by a model of Timsort.
- ExpectedScore.ReadName: the row parsers are stated over any reader that behaves like the token stream (`Sound`), and `StreamSound` ties that reader to the real one.
- RoleLookup.Rows: states only the bound on the number of rows. The exact count and the rejections are stated by ArrayHasDeclaredRows, EmptyArrayWithRowsRejected and ShortArrayRejected.
- Patcher: the bytearray is a fresh copy that is either returned whole or discarded. Writing the file back and any partial file after a failure are left out.

## Findings

| source | as written | input that shows it | evidently intended | confidence | as-written member | corrected member |
|---|---|---|---|---|---|---|
| prepare_simatch.py:606 | the slice assignment `jsb_data[data_pos:data_pos + 4] = value_bytes` replaces a shorter slice when the slot runs past the end of the buffer, so the bytearray grows | the two bytes "k", 0x02, with key "k" at offset 0 and value 7: the buffer becomes six bytes long | a patch keeps the file's length and never writes past its end; a slot past the end is an error | not executed | Patcher.AsWrittenGrows | Patcher.PatchSlot |
