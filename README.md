# JsNbtParser in Dafny

This project models the core of JsNbtParser, a JavaScript library for
Minecraft data. It has two parts, each in two versions:

- **The NBT codec.** NBT ("Named Binary Tag") is Minecraft's binary tree
  format. The reader walks a byte string with a position pointer and
  rebuilds a tree of tags of 11 kinds: End, Byte, Short, Int, Long, Float,
  Double, ByteArray, String, List and Compound. The later version adds a
  twelfth kind, IntArray. The writer produces the byte string back from the
  tree. The later version is `src/NbtParser.js`; the earlier one is
  `js/NbtParser.js`.
- **The schematic region.** A schematic is a Width x Height x Length volume
  of block ids and block metadata. Each is held in a flat array indexed
  `x + z*W + y*W*L`. Beside the volume sit three record lists: TileEntities,
  Entities and TileTicks. The region has:
  - bounds-checked setters and getters that return 0 off the grid;
  - a forced setter that grows the volume;
  - a resize that moves the content by an offset;
  - quarter-turn rotation, in the later version only.

  The later version is `sample/World_Schematic.js`; the earlier one is
  `js/World_Schematic.js`.

Both versions share one set of datatypes. Where the versions differ, a
`Version` parameter (`Earlier` or `Later`) selects the behaviour, or there
are two classes.

## How the model is built

- **Bytes and tags.** Bytes are `byte` values (0..255). A tag is
  `Tag(kind, payload)`. A compound is an insertion-ordered list of named
  entries. Storing a name that is already present overwrites that entry in
  place, as a JavaScript object assignment does. Names that a JavaScript
  object orders first are the exception; see "Left out". Long, Float and Double
  payloads are opaque blocks of 8, 4 and 8 bytes. Byte, Short and Int are
  big-endian two's complement.
- **Reading.** The reader is specified by pure functions over
  `(data, pointer)` in `NbtParse`. These return the value and the new
  pointer, or an error for each exception the JavaScript throws. The
  decoder class `NbtDecoder.Decoder` holds the source's `binaryNbtData`
  (as the field `nbtData`) and `pointer`. Each of its methods is proved to behave as the matching
  function: same result, same pointer afterwards.
- **Writing.** `NbtEncode` specifies the writers as functions. The later
  writer appends to a `returnData` field, so it is the class
  `NbtEncoder.Encoder`. The earlier writer returns strings, so it is the
  module of methods `NbtEncoderEarlier`. Both are proved equal to the
  specifying functions.
- **The round trip.** `NbtRoundTrip` and `NbtRoot` prove that decoding the
  writer's output gives the tree back. `NbtQuirks` states what happens
  outside the round trip.
- **The region.** `Grid`, `Cells` and `Records` specify the index
  arithmetic, the array contents after a resize or a turn, and the record
  moves as values. `Region` holds:
  - the array-rebuilding loops, one method per loop nesting level, each
    proved against those functions;
  - the record loops;
  - the growth rule of the forced setter.

  `SchematicLater.Schematic` and `SchematicEarlier.Schematic` are the two
  region classes. Their fields are the sizes, the `blocks` and `data`
  arrays and the three record lists.
- **Errors.** A thrown exception is a `Result`/`Outcome` error value. When
  the source has already changed some state before it throws, the model
  changes that same state before returning the error.
- **Termination.** A name length read as a negative short moves the
  pointer backwards, so the JavaScript reader can loop forever on some
  inputs. The reading functions therefore take a step bound `fuel`, and
  running out of it is the error `OutOfFuel`.

## Model

| member | source | states |
|---|---|---|
| NbtParse.BufferAt | js/NbtParser.js:46-69 | a read of fewer than one byte gives the empty string with no bounds check; a read of n >= 1 bytes fails exactly when pointer + n passes the end, and otherwise gives exactly the n bytes at the pointer |
| NbtDecoder.Decoder.constructor | src/NbtParser.js:8-24 | a new reader of the given version holds no data and stands at position 0 |
| NbtDecoder.Decoder.ReadBuffer | src/NbtParser.js:48-71 | the result is the bounded read above; the pointer moves by n, even a negative n, unless the call peeks or fails |
| NbtDecoder.Decoder.ReadByte | src/NbtParser.js:25 | reads one signed byte; a peek leaves the pointer where it was |
| NbtDecoder.Decoder.ReadShort | src/NbtParser.js:26 | reads a big-endian signed short; a peek leaves the pointer where it was |
| NbtDecoder.Decoder.ReadInt | src/NbtParser.js:27 | reads a big-endian signed int and always advances by 4, because the peek flag goes to the converter and not to the buffer read |
| NbtDecoder.Decoder.ReadBlock | src/NbtParser.js:28-30 | Long, Float and Double read 8, 4 and 8 bytes and always advance, whatever the peek flag |
| NbtDecoder.Decoder.ReadString | src/NbtParser.js:31 | reads a signed short length, then that many bytes |
| NbtDecoder.Decoder.ReadTagData | src/NbtParser.js:171-212 | result and final pointer are those of the payload reader for the kind: End reads nothing, kinds 1-11 dispatch, any other kind fails |
| NbtDecoder.Decoder.ReadByteArray | src/NbtParser.js:242-252 | reads an int count, then count bytes, each in 0..255 |
| NbtDecoder.Decoder.ReadIntArray | src/NbtParser.js:254-263 | reads the count and the ints, then fails, because the array it returns is an undeclared variable |
| NbtDecoder.Decoder.ReadList | src/NbtParser.js:265-275 | reads an element-kind byte and an int count, then count payloads of that kind, in order |
| NbtDecoder.Decoder.ReadCompound | src/NbtParser.js:277-290 | reads (kind, name, payload) entries until an End kind; a repeated name overwrites the earlier entry in place |
| NbtDecoder.Decoder.ReadRoot | src/NbtParser.js:119-140 | reads an id; if the next two bytes, peeked, are the short 0, skips them and reads the id again; an id other than Compound fails; then reads the name and the payload |
| NbtDecoder.Decoder.DecodeNonGzipped | src/NbtParser.js:113-143 | resets the pointer to 0 on the new data and gives the root object read from it |
| NbtDecoder.Decoder.Decode | src/NbtParser.js:73-103 | input that starts with the gzip magic 0x1F 0x8B is inflated by the given inflater before root decoding; other input is decoded as it is |
| NbtDecoder.Decoder.DecodeEarlierData | js/NbtParser.js:79-124 | reads two bytes before the gzip test, so input shorter than 2 bytes fails as truncated; then resets the pointer and reads the root |
| NbtEncoder.Encoder.constructor | src/NbtParser.js:305 | the writer starts with an empty output |
| NbtEncoder.Encoder.Encode | src/NbtParser.js:300-352 | more than one root key, no root key, or a root that is not a Compound fails; otherwise the output is the root written by the compound writer, inside `0A 00 00` ... `00` when enclosed |
| NbtEncoder.Encoder.WriteTagData | src/NbtParser.js:362-403 | appends exactly the payload's encoding to the output, or fails for an unknown kind; End appends nothing |
| NbtEncoder.Encoder.WriteTagDataByteArray | src/NbtParser.js:430-435 | appends an int count, then one byte per element |
| NbtEncoder.Encoder.WriteTagDataIntArray | src/NbtParser.js:437-442 | appends an int count, then one int per element |
| NbtEncoder.Encoder.WriteTagDataList | src/NbtParser.js:448-457 | appends the element kind, the int count, then each element in order |
| NbtEncoder.Encoder.WriteTagDataCompound | src/NbtParser.js:459-469 | appends kind byte, length-prefixed name and payload for each entry in order, then an End byte |
| NbtEncoderEarlier.Encode | js/NbtParser.js:267-297 | the same root checks; output is the optional `0A 00 00`, the id, the name and the payload, then the optional `00`, with no extra End byte |
| NbtEncoderEarlier.WriteTagData | js/NbtParser.js:307-345 | returns the payload's encoding; kind 11 is unknown in this version and fails; End yields the text "undefined" |
| NbtEncoderEarlier.WriteTagDataByteArray | js/NbtParser.js:371-380 | an int count equal to the number of bytes emitted, then the low byte of each element |
| NbtEncoderEarlier.WriteTagDataList | js/NbtParser.js:386-396 | element kind, count, then the elements in list order |
| NbtEncoderEarlier.WriteTagDataCompound | js/NbtParser.js:398-410 | the entries in order, then an End byte |
| Wire.UnsignedRange | src/NbtParser.js:25-27 | the big-endian value of n bytes lies in [0, 256^n) |
| Wire.SignedTwosComplement | src/NbtParser.js:25-27 | the signed reading of n bytes is the unsigned one less 256^n when the top bit is set, and lies in [-256^n/2, 256^n/2) |
| Wire.ByteBack | src/NbtParser.js:25-33 | a byte written by the writer reads back as the same signed value |
| Wire.ShortBack | src/NbtParser.js:26-34 | a short written by the writer reads back as the same value |
| Wire.IntBack | src/NbtParser.js:27-35 | an int written by the writer reads back as the same value |
| Wire.Substr | src/NbtParser.js:65 | the substring at an in-range start and length is exactly that slice, and never longer than asked |
| Tags.FindSpec | src/NbtParser.js:286 | the key lookup gives the first entry with the name, and no entry before it has that name |
| Tags.LookupHas | src/NbtParser.js:286 | a name has a value exactly when some entry carries it |
| Tags.PutSize | src/NbtParser.js:286 | storing a present name keeps the number of entries; a new name adds one |
| Tags.PutNew | src/NbtParser.js:286 | a new name is appended after all existing entries |
| Tags.PutLookup | src/NbtParser.js:286 | after storing, the name gives the stored tag |
| Tags.PutOthers | src/NbtParser.js:286 | storing one name leaves every other name's value as it was |
| Tags.PutInPlace | src/NbtParser.js:286 | storing a present name replaces that entry at its position |
| Tags.PutUnique | src/NbtParser.js:286 | storing keeps the names unique |
| NbtEncode.EntriesSnoc | src/NbtParser.js:459-469 | one more entry appends its kind byte, name and payload to the compound body |
| NbtEncode.ItemsSnoc | src/NbtParser.js:448-457 | one more element appends its payload to the list body |
| NbtEncode.EntriesErrorPropagates | src/NbtParser.js:459-469 | an entry that fails makes the whole compound fail with its error |
| NbtEncode.ItemsErrorPropagates | src/NbtParser.js:448-457 | an element that fails makes the whole list fail with its error |
| NbtRoundTrip.PayloadEncodes | src/NbtParser.js:362-403 | every encodable payload is written without error |
| NbtRoundTrip.ReadBuffer | src/NbtParser.js:48-71 | bytes that stand at the pointer are read back exactly |
| NbtRoundTrip.ReadString | src/NbtParser.js:31-39 | a written string reads back and the pointer ends just past it |
| NbtRoundTrip.PayloadRoundTrip | src/NbtParser.js:171-290 | reading a written payload of any kind, at any position, gives it back and stops just past its bytes |
| NbtRoundTrip.ByteRoundTrip | src/NbtParser.js:214-216 | a Byte payload reads back |
| NbtRoundTrip.ShortRoundTrip | src/NbtParser.js:218-220 | a Short payload reads back |
| NbtRoundTrip.IntRoundTrip | src/NbtParser.js:222-224 | an Int payload reads back |
| NbtRoundTrip.LongRoundTrip | src/NbtParser.js:226-228 | a Long payload's 8 bytes read back |
| NbtRoundTrip.FloatRoundTrip | src/NbtParser.js:230-232 | a Float payload's 4 bytes read back |
| NbtRoundTrip.DoubleRoundTrip | src/NbtParser.js:234-236 | a Double payload's 8 bytes read back |
| NbtRoundTrip.StringRoundTrip | src/NbtParser.js:238-240 | a String payload reads back |
| NbtRoundTrip.ByteArrayRoundTrip | src/NbtParser.js:242-252 | a ByteArray of values in 0..255 reads back |
| NbtRoundTrip.ListRoundTrip | src/NbtParser.js:265-275 | a homogeneous list reads back, element by element |
| NbtRoundTrip.CompoundRoundTrip | src/NbtParser.js:277-290 | a compound with unique names reads back with its entries in order |
| NbtRoundTrip.CompoundReads | src/NbtParser.js:283-288 | the entry loop rebuilds the entries in order and stops at the End byte |
| NbtRoot.LaterRoundTrip | src/NbtParser.js:113-143 | decoding the later writer's output, enclosed or not and followed by any bytes, gives back every root object that `RootEncodable` admits: one Compound entry whose name is non-empty unless the output is enclosed; names and Strings shorter than 0x8000 bytes and names unique within each compound; Byte, Short and Int values in their signed ranges; ByteArray elements in 0..255; counts below 2^31; list elements of the list's kind; no entry of the End kind and no IntArray |
| NbtRoot.EarlierRoundTrip | js/NbtParser.js:79-124 | the same for the earlier writer and decode, for every root object that `RootEncodable` admits for the earlier version: all the conditions listed for the later round trip, and in addition no End payload anywhere, not even as a list element |
| NbtRoot.EarlierNeverInflates | js/NbtParser.js:87-101 | the earlier gzip test compares a signed byte with 0x8B and never succeeds: input of 2 or more bytes is read as a root directly |
| NbtRoot.LaterExtraEnd | src/NbtParser.js:330-342 | the later output is the earlier output plus one End byte, and enclosing adds `0A 00 00` before and a second End byte after |
| NbtRoot.LaterBytes | src/NbtParser.js:330-342 | the later output is the root entry written by the compound writer, with its End byte, inside the optional wrapper |
| NbtRoot.EarlierBytes | js/NbtParser.js:287-296 | the earlier output is id, name and payload inside the optional wrapper |
| NbtRoot.NotGzip | src/NbtParser.js:82-85 | no writer output starts with the gzip magic bytes |
| NbtRoot.RootReads | src/NbtParser.js:119-140 | a Compound root with a non-empty name, or inside the wrapper, is found and read back |
| NbtRoot.SameEncoding | src/NbtParser.js:362-469 | the two writers write the same payload bytes for every tree the earlier one accepts |
| NbtRoot.LaterEncodable | src/NbtParser.js:9-20 | every tree the earlier writer can write, the later one can |
| NbtQuirks.UnknownKindFails | src/NbtParser.js:208-209 | a kind the version does not know fails both when read and when written |
| NbtQuirks.EndPayload | src/NbtParser.js:173-174 | an End payload reads nothing; the later writer writes nothing for it and the earlier one writes "undefined" |
| NbtQuirks.IntArrayNeverDecodes | src/NbtParser.js:254-263 | reading an IntArray always fails, in both versions |
| NbtQuirks.EncodeRootErrors | src/NbtParser.js:316-327 | more than one root key, or none, fails in both writers |
| NbtQuirks.RootMustBeCompound | src/NbtParser.js:132-134 | an unwrapped root whose id is not Compound is rejected with that id |
| NbtQuirks.SignedPair | src/NbtParser.js:126 | two bytes peeked as a short are read as a signed big-endian value |
| NbtQuirks.EmptyNameRead | src/NbtParser.js:121-140 | on a root compound with an empty name, the zero name length is taken for the wrapper's and the next byte is read as the root id: no entries fails with id 0, a first entry of another kind fails with that kind, and a first Compound entry is read as the root |
| NbtQuirks.FirstEntryKindRead | src/NbtParser.js:126-134 | after an empty root name, a first entry that is not a Compound is rejected with its kind as the root id |
| NbtQuirks.FirstEntryRootRead | src/NbtParser.js:126-140 | after an empty root name, a first Compound entry is read back as the whole root |
| NbtQuirks.WrappedRootId | src/NbtParser.js:121-134 | input starting 0A 00 00 is taken as wrapped, and a next byte that is not Compound's id is rejected as the root id |
| NbtQuirks.EmptyRootNameLater | src/NbtParser.js:126-140 | a root with an empty name, otherwise one that round-trips, is never read back from the later writer's unenclosed output: decode fails, or returns its first Compound child as the root |
| NbtQuirks.EmptyRootNameEarlier | js/NbtParser.js:101-121 | the same for the earlier writer and decode |
| NbtQuirks.CircularEntries | src/NbtParser.js:56-69 | on the crafted input, a negative name length moves the pointer back to the same entry, and the entry loop runs out of any step bound |
| NbtQuirks.CircularNeverEnds | src/NbtParser.js:283-288 | both decodes of the crafted input run out of any step bound |
| Grid.Chunk | sample/World_Schematic.js:621 | floor division by 16: the coordinate lies in [16r, 16r + 16) |
| Grid.ChunkPosition | sample/World_Schematic.js:620-629 | each chunk coordinate brackets the block coordinate in the same way |
| Grid.PositionRange | sample/World_Schematic.js:139-148 | getPosition fails exactly off the grid, and on the grid gives an offset in [0, W*H*L) |
| Grid.PositionInjective | sample/World_Schematic.js:148 | distinct cells on the grid have distinct offsets |
| Grid.CoordsOfIndex | sample/World_Schematic.js:148 | the coordinates of a cell's offset are that cell's |
| Grid.IndexOfCoords | sample/World_Schematic.js:148 | every offset in [0, W*H*L) is the position of one cell on the grid |
| Cells.CellsEqual | sample/World_Schematic.js:154-166 | two arrays of a volume that the getter cannot tell apart are equal |
| Cells.MigratedCell | sample/World_Schematic.js:269-295 | after a resize, the cell at (x, y, z) holds the old cell at (x, y, z) minus the offset when that is on the old grid, and 0 otherwise |
| Cells.MigratedSame | sample/World_Schematic.js:269-295 | resizing to the same size with no offset leaves the content unchanged |
| Cells.ResizeRoundTrip | sample/World_Schematic.js:256-295 | a resize that keeps the whole old volume is undone by resizing back with the opposite offset |
| Cells.Turned | sample/World_Schematic.js:372-417 | a turn of 90, 180 or 270 degrees keeps the number of cells |
| Cells.RotatedCell | sample/World_Schematic.js:372-421 | after a turn, each cell holds the old cell at the turn's source column at the same height, and that column is on the old grid |
| Cells.HalfTurnTwice | sample/World_Schematic.js:390-402 | two half turns restore the arrays |
| Cells.QuarterTurnsUndo | sample/World_Schematic.js:372-417 | a quarter turn then a three-quarter turn, in either order, restores the size and the arrays |
| Cells.FourQuarterTurns | sample/World_Schematic.js:372-389 | two quarter turns are a half turn, and four quarter turns restore the arrays |
| Records.PrunedMembers | sample/World_Schematic.js:297-312 | a record is kept exactly when it was there and lies below the new size on every axis; negative coordinates are kept |
| Records.PrunedAppend | sample/World_Schematic.js:297-312 | pruning keeps the records' order |
| Records.PrunedNone | sample/World_Schematic.js:297-312 | when every record lies below the new size, none is dropped |
| Records.TurnKeepsBlock | sample/World_Schematic.js:423-538 | a record on the grid stays on the turned grid and stands on the same block after the turn |
| Records.TurnsUndo | sample/World_Schematic.js:423-538 | a quarter turn and a three-quarter turn, two half turns, or four quarter turns put every record back |
| Region.GrowthFits | sample/World_Schematic.js:215-244 | the clamped coordinate is the requested one plus the offset and lies in the grown volume; a cell already on the grid needs no growth |
| Region.MovedFits | sample/World_Schematic.js:215-238 | every old cell moved by the growth offset lies in the grown volume |
| Region.GrownKeepsCell | sample/World_Schematic.js:215-238 | after growing, every old cell is found at its position moved by the offset |
| Region.GrowthUndone | sample/World_Schematic.js:215-238 | growing loses nothing: resizing back with the opposite offset restores the content |
| Region.GrowthKeepsRecords | sample/World_Schematic.js:297-312 | records that stood in the old volume all survive the pruning that growth triggers |
| Region.Forced | sample/World_Schematic.js:215-245 | the arrays after the forced set have the grown volume's length, and the clamped cell has an offset inside them |
| Region.ForcedCell | sample/World_Schematic.js:215-245 | each cell of the grown volume after the forced set holds the written value at the clamped cell, the old cell at its coordinates minus the growth offset where there was one, and 0 (air) in every cell the growth added |
| Region.ForcedKeeps | sample/World_Schematic.js:215-245 | every old cell other than the written one is found at its moved position after the forced set |
| Region.CellUpdate | sample/World_Schematic.js:188-203 | writing one cell changes what the getter returns at that cell and nowhere else |
| Region.NewCells | sample/World_Schematic.js:46-49 | two fresh, distinct arrays of n zeros |
| Region.MigrateCells | sample/World_Schematic.js:269-295 | the nested loops build fresh arrays equal to the resized content |
| Region.RotateCells | sample/World_Schematic.js:372-421 | the nested loops build fresh arrays equal to the turned content |
| Region.ShiftAndPrune | sample/World_Schematic.js:297-312 | the record loop gives the records moved by the offset and pruned to the new size, in order |
| Region.ShiftEach | js/World_Schematic.js:290-296 | the record loop gives every record moved by the offset, in order |
| Region.TurnEach | sample/World_Schematic.js:423-460 | the record loop gives every record turned, in order |
| SchematicLater.Schematic.constructor | sample/World_Schematic.js:14-30 | without a schematic, an all-zero volume of the default size with empty lists; with one, that schematic, with an empty TileTicks list added when it has none |
| SchematicLater.Schematic.MakeNew | sample/World_Schematic.js:42-103 | sizes as given, all-zero arrays of length sx*sy*sz, empty record lists |
| SchematicLater.Schematic.GetBlockId | sample/World_Schematic.js:154-166 | the block id of the cell, 0 off the grid |
| SchematicLater.Schematic.GetBlockMetadata | sample/World_Schematic.js:171-183 | the metadata of the cell, 0 off the grid |
| SchematicLater.Schematic.SetBlockMetadata | sample/World_Schematic.js:199-203 | metadata outside 0..15 fails first, then a cell off the grid, naming the axis; otherwise only that cell of Data changes |
| SchematicLater.Schematic.SetBlockAndMetadata | sample/World_Schematic.js:188-193 | an id outside 0..255 or a cell off the grid fails with nothing written; otherwise the id is stored and then the metadata is checked, so a bad metadata fails with the id in place; no other cell changes |
| SchematicLater.Schematic.SetBlockId | sample/World_Schematic.js:195-197 | sets the id and resets the cell's metadata to 0 |
| SchematicLater.Schematic.SetDimensions | sample/World_Schematic.js:256-347 | new sizes and resized arrays; tile entities moved and pruned; with entities present it fails at the entity loop, leaving entities and tile ticks as they were; otherwise tile ticks are moved and pruned too |
| SchematicLater.Schematic.MoveRecords | sample/World_Schematic.js:297-346 | the three record loops of setDimensions, in their order, with the failure at the entity loop |
| SchematicLater.Schematic.GrowToInclude | sample/World_Schematic.js:215-238 | a cell off the grid resizes to the grown size with the growth offset, moving and pruning the records as setDimensions does; a cell on the grid changes nothing; Materials never changes |
| SchematicLater.Schematic.ForceSetBlockAndMetadata | sample/World_Schematic.js:215-245 | the size becomes the grown size and both arrays are stated whole: the old content moved by the growth offset, with the clamped cell's id written unless the growth threw or the id is invalid, and its metadata written on success; the growth throws only for an off-grid cell with entities present, so an on-grid cell or an empty Entities list never fails there; every added cell is 0 (air), every other old cell keeps its content at its moved position, and Materials never changes |
| SchematicLater.Schematic.RotateSelection | sample/World_Schematic.js:354-539 | an amount other than 90, 180 or 270 fails with nothing changed; otherwise the sizes and arrays are turned and all three record lists are turned, in order |
| SchematicLater.Schematic.TurnRecords | sample/World_Schematic.js:423-538 | the three record loops of rotateSelection |
| SchematicLater.Schematic.SetEntities | sample/World_Schematic.js:572-574 | replaces the Entities list and nothing else |
| SchematicLater.Schematic.SetTileEntities | sample/World_Schematic.js:586-588 | replaces the TileEntities list and nothing else |
| SchematicLater.Schematic.SetTickData | sample/World_Schematic.js:600-602 | replaces the TileTicks list and nothing else |
| SchematicEarlier.Schematic.constructor | js/World_Schematic.js:14-30 | as in the later version; no list has been stored beside the read ones |
| SchematicEarlier.Schematic.MakeNew | js/World_Schematic.js:35-96 | as in the later version; the new schematic object drops any list stored beside the read ones |
| SchematicEarlier.Schematic.GetBlockId | js/World_Schematic.js:147-159 | the block id of the cell, 0 off the grid |
| SchematicEarlier.Schematic.GetBlockMetadata | js/World_Schematic.js:164-176 | the metadata of the cell, 0 off the grid |
| SchematicEarlier.Schematic.SetBlockId | js/World_Schematic.js:186-190 | an id outside 0..255 fails first, then a cell off the grid; otherwise only that cell of Blocks changes, and Data is not touched |
| SchematicEarlier.Schematic.SetBlockMetadata | js/World_Schematic.js:192-196 | metadata outside 0..15 fails first, then a cell off the grid; otherwise only that cell of Data changes |
| SchematicEarlier.Schematic.SetBlockAndMetadata | js/World_Schematic.js:181-184 | setBlockID, then setBlockMetadata: a bad metadata fails with the new id in place; no other cell changes |
| SchematicEarlier.Schematic.SetDimensions | js/World_Schematic.js:249-313 | new sizes and resized arrays; tile entities moved and never pruned; with entities present it fails at the entity loop; otherwise tile ticks are moved, never pruned |
| SchematicEarlier.Schematic.MoveRecords | js/World_Schematic.js:290-312 | the three record loops of setDimensions, in their order, with the failure at the entity loop |
| SchematicEarlier.Schematic.GrowToInclude | js/World_Schematic.js:208-231 | the same growth rule as the later version, with records moved and never pruned |
| SchematicEarlier.Schematic.ForceSetBlockAndMetadata | js/World_Schematic.js:208-238 | the same as the later version: both arrays stated whole, success of the growth for an on-grid cell or no entities, added cells 0, old cells kept, Materials unchanged; records moved and never pruned |
| SchematicEarlier.Schematic.SetEntities | js/World_Schematic.js:374-376 | the list goes to a member no getter reads, so the Entities list is unchanged |
| SchematicEarlier.Schematic.SetTileEntities | js/World_Schematic.js:346-348 | the list goes to a member no getter reads, so the TileEntities list is unchanged |
| SchematicEarlier.Schematic.SetTickData | js/World_Schematic.js:360-362 | the list goes to a member no getter reads, so the TileTicks list is unchanged |

## Left out

- src/gzip.js and the inflation it performs are not part of this model. The later decode takes the inflater as a parameter. The asynchronous path, with its progress and cancel callbacks, is not modelled.
- `GZip.load` in the earlier decode is not part of this model. Its branch can never be taken (`NbtRoot.EarlierNeverInflates`).
- The `BinaryParser` converters are not part of this model. Byte, Short and Int are modelled as big-endian two's complement. Long, Float and Double are opaque byte blocks, so IEEE-754 values and JavaScript number precision are not modelled.
- `byteToHex`, the error message texts, and the `gzipDeflate` no-op are not modelled.
- sample/testApp.js, js/testApp.js and php/getSchematic.php are not part of this model. They are preview UI and HTTP I/O.
- `destroy`, `getNbtData` and `loadedTileEntities` are not modelled. They only manage references.
- Binary strings are modelled as byte sequences. `writeByte` (`String.fromCharCode`) of a value outside 0..255 is modelled as its low 8 bits, which is what the output holds when read back as bytes.
- NbtParse.ParsePayload: the reading functions take a step bound. Running out of it is reported as an error, standing for a JavaScript reader that never returns. The round trips hold for every bound at least the tree's size.
- The schematic getters `getSizeX`, `getSizeY` and `getSizeZ` are the class function `Size`. `getEntities`, `getTileEntities` and `getTickData` are reads of the list fields.
- Sizes are natural numbers, so a negative size passed to `setDimensions` or `makeNew` is not modelled. Coordinates are integers, so fractional entity positions and fractional arguments to `getBlockChunkPosition` are not modelled.
- Records keep only the x, y and z they are moved by. All other tags ride along unread. An entity's `Pos` list is modelled by the same three integers.
- SchematicLater.Schematic.SetDimensions: the entity loop reads `Pos.payload[0].list`, which does not exist. It throws on the first entity, and that throw is all the model keeps of the loop. The moves it would have made are not modelled.
- SchematicEarlier.Schematic.SetDimensions: the entity loop reads a lower-case `pos` member, which entity records do not have. It is modelled as throwing on the first entity. Had the member existed, all three of its components would have been moved by the x offset; that is not modelled.
- Tags.PutNew: appends every new name at the end. A JavaScript object enumerates names that are array indices ("0", "42", up to 2^32 - 2) first, in ascending numeric order, before all other names in insertion order. The compound writer walks the object in that order (src/NbtParser.js:460, js/NbtParser.js:401). So for a compound holding such names, the decoded entry order and the re-encoded byte order differ from the model's. The round-trip lemmas hold for trees whose entries are already in the object's own order, but that ordering is not modelled.
- Tags.Put: the name `__proto__` is not modelled. Storing it (src/NbtParser.js:286, js/NbtParser.js:253) replaces the decoded object's prototype instead of adding an entry. The JavaScript result lacks that entry, and the writer's for-in loop then walks the stored tag's inherited `type` and `payload` members as if they were entries.
- SchematicLater.Schematic.constructor and SchematicEarlier.Schematic.constructor: require a loaded schematic whose Blocks and Data lengths are Width x Height x Length. `construct` accepts any object unchecked. Schematics with other lengths are not modelled: their getters would read undefined cells and their resizes would copy undefined values. The model also takes the Width, Height, Length, Entities and TileEntities nodes to be present. `construct` adds only a missing TileTicks node (sample/World_Schematic.js:20-28). A schematic without one of the others is not modelled: its size getters return undefined, and `setDimensions` throws when it reads the missing TileEntities list (sample/World_Schematic.js:298).
- Aliasing is not modelled. The source mutates record objects in place and shares them, and the loaded schematic object, with its caller. Here records are values and the constructor copies the schematic.
- SchematicLater.Schematic.RotateSelection: the start and size parameters are ignored, as the source does. The whole volume turns.
- The model uses `Outcome` and `Result` values where the source throws. A caller that catches the exception and carries on sees the partial changes each method's contract describes.
