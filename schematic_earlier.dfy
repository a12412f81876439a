/**
 * The earlier schematic region: the same volume and records as the later
 * one, with setBlockID writing only the block id, setDimensions moving
 * records without dropping any, no rotation, and list setters that store
 * the new list beside the one the getters return.
 */
module SchematicEarlier {
  import opened Wrappers
  import opened Grid
  import opened Cells
  import opened Records
  import opened Region

  class Schematic {
    var width: nat
    var height: nat
    var length: nat
    var blocks: array<int>
    var data: array<int>
    var entities: seq<Record>
    var tileEntities: seq<Record>
    var tileTicks: seq<Record>
    var materials: string
    // the members setEntities, setTileEntities and setTickData write; no getter and no other method reads them
    var strayEntities: Option<seq<Record>>
    var strayTileEntities: Option<seq<Record>>
    var strayTickData: Option<seq<Record>>

    /** getSizeX, getSizeY and getSizeZ together. */
    function Size(): Dims
      reads this
    {
      Dims(width, height, length)
    }

    /** The two arrays are distinct and hold one cell per position of the volume. */
    ghost predicate Valid()
      reads this
    {
      blocks != data && blocks.Length == Volume(Size()) && data.Length == Volume(Size())
    }

    /**
     * construct: without a schematic, a new one of the default size; with
     * one, that schematic, given an empty TileTicks list when it has none.
     */
    constructor (schematic: Option<Loaded>, defaultX: nat, defaultY: nat, defaultZ: nat)
      requires schematic.Some? ==> WellFormed(schematic.value)
      ensures Valid() && fresh(blocks) && fresh(data)
      ensures strayEntities.None? && strayTileEntities.None? && strayTickData.None?
      ensures schematic.None? ==>
        Size() == Dims(defaultX, defaultY, defaultZ)
        && blocks[..] == seq(Volume(Size()), _ => 0) && data[..] == seq(Volume(Size()), _ => 0)
        && entities == [] && tileEntities == [] && tileTicks == [] && materials == ALPHA
      ensures schematic.Some? ==>
        var s := schematic.value;
        Size() == s.size && blocks[..] == s.blocks && data[..] == s.data
        && entities == s.entities && tileEntities == s.tileEntities && materials == s.materials
        && tileTicks == (if s.tileTicks.Some? then s.tileTicks.value else [])
    {
      if schematic.None? {
        width, height, length := defaultX, defaultY, defaultZ;
        var b, m := NewCells(Volume(Dims(defaultX, defaultY, defaultZ)));
        blocks, data := b, m;
        entities, tileEntities, tileTicks := [], [], [];
        materials := ALPHA;
        strayEntities, strayTileEntities, strayTickData := None, None, None;
      } else {
        var s := schematic.value;
        width, height, length := s.size.w, s.size.h, s.size.l;
        blocks := new int[|s.blocks|](i requires 0 <= i < |s.blocks| => s.blocks[i]);
        data := new int[|s.data|](i requires 0 <= i < |s.data| => s.data[i]);
        entities, tileEntities, materials := s.entities, s.tileEntities, s.materials;
        tileTicks := if s.tileTicks.Some? then s.tileTicks.value else [];
        strayEntities, strayTileEntities, strayTickData := None, None, None;
      }
    }

    /** makeNew: an all-air volume of the given size, with empty record lists. */
    method MakeNew(sizeX: nat, sizeY: nat, sizeZ: nat)
      modifies this
      ensures Valid() && fresh(blocks) && fresh(data)
      ensures Size() == Dims(sizeX, sizeY, sizeZ)
      ensures blocks[..] == seq(Volume(Size()), _ => 0) && data[..] == seq(Volume(Size()), _ => 0)
      ensures entities == [] && tileEntities == [] && tileTicks == [] && materials == ALPHA
      ensures strayEntities.None? && strayTileEntities.None? && strayTickData.None?
    {
      var b, m := NewCells(Volume(Dims(sizeX, sizeY, sizeZ)));
      width, height, length := sizeX, sizeY, sizeZ;
      blocks, data := b, m;
      entities, tileEntities, tileTicks := [], [], [];
      materials := ALPHA;
      ForgetStored();
    }

    /** The new schematic object makeNew builds has no list stored beside the read ones. */
    method ForgetStored()
      modifies this
      ensures strayEntities.None? && strayTileEntities.None? && strayTickData.None?
      ensures Size() == old(Size()) && blocks == old(blocks) && data == old(data)
      ensures entities == old(entities) && tileEntities == old(tileEntities) && tileTicks == old(tileTicks) && materials == old(materials)
    {
      strayEntities, strayTileEntities, strayTickData := None, None, None;
    }

    /** getBlockId: the block id at a cell, 0 (air) off the grid. */
    function GetBlockId(x: int, y: int, z: int): (r: int)
      requires Valid()
      reads this, blocks
      ensures r == CellAt(blocks[..], Size(), x, y, z)
      ensures !InBounds(Size(), x, y, z) ==> r == 0
    {
      if x >= width || x < 0 || y >= height || y < 0 || z >= length || z < 0 then 0
      else PositionRange(Size(), x, y, z); blocks[Position(Size(), x, y, z).value]
    }

    /** getBlockMetadata: the metadata at a cell, 0 off the grid. */
    function GetBlockMetadata(x: int, y: int, z: int): (r: int)
      requires Valid()
      reads this, data
      ensures r == CellAt(data[..], Size(), x, y, z)
      ensures !InBounds(Size(), x, y, z) ==> r == 0
    {
      if x >= width || x < 0 || y >= height || y < 0 || z >= length || z < 0 then 0
      else PositionRange(Size(), x, y, z); data[Position(Size(), x, y, z).value]
    }

    /**
     * setBlockMetadata: a value outside 0..15 fails first, then a cell off the
     * grid; otherwise that one cell of Data is written.
     */
    method SetBlockMetadata(x: int, y: int, z: int, meta: int) returns (r: Outcome<RegionError>)
      requires Valid()
      modifies data
      ensures !IsMetadata(meta) ==> r == Fail(BadMetadata(meta)) && unchanged(data)
      ensures IsMetadata(meta) && Position(Size(), x, y, z).Err? ==>
        r == Fail(OutOfBounds(Position(Size(), x, y, z).error)) && unchanged(data)
      ensures IsMetadata(meta) && Position(Size(), x, y, z).Ok? ==>
        r == Pass && 0 <= Position(Size(), x, y, z).value < data.Length
        && data[..] == old(data[..])[Position(Size(), x, y, z).value := meta]
    {
      if !IsMetadata(meta) {
        return Fail(BadMetadata(meta));
      }
      var position := Position(Size(), x, y, z);
      PositionRange(Size(), x, y, z);
      if position.Err? {
        return Fail(OutOfBounds(position.error));
      }
      data[position.value] := meta;
      r := Pass;
    }

    /**
     * setBlockID: an id outside 0..255 fails first, then a cell off the grid;
     * otherwise that one cell of Blocks is written, and Data is left alone.
     */
    method SetBlockId(x: int, y: int, z: int, id: int) returns (r: Outcome<RegionError>)
      requires Valid()
      modifies blocks
      ensures !IsBlockId(id) ==> r == Fail(BadBlockId(id)) && unchanged(blocks)
      ensures IsBlockId(id) && !InBounds(Size(), x, y, z) ==>
        r == Fail(OutOfBounds(Position(Size(), x, y, z).error)) && unchanged(blocks)
      ensures IsBlockId(id) && InBounds(Size(), x, y, z) ==>
        r == Pass && 0 <= Index(Size(), x, y, z) < blocks.Length
        && blocks[..] == old(blocks[..])[Index(Size(), x, y, z) := id]
    {
      if !IsBlockId(id) {
        return Fail(BadBlockId(id));
      }
      var position := Position(Size(), x, y, z);
      PositionRange(Size(), x, y, z);
      if position.Err? {
        return Fail(OutOfBounds(position.error));
      }
      blocks[position.value] := id;
      r := Pass;
    }

    /**
     * setBlockAndMetadata: setBlockID, then setBlockMetadata. An invalid id
     * or a cell off the grid fails before anything is written; an invalid
     * metadata value fails with the new id already in place. On success the
     * cell reads back as (id, meta) and no other cell changes.
     */
    method SetBlockAndMetadata(x: int, y: int, z: int, id: int, meta: int) returns (r: Outcome<RegionError>)
      requires Valid()
      modifies blocks, data
      ensures !IsBlockId(id) ==> r == Fail(BadBlockId(id)) && unchanged(blocks, data)
      ensures IsBlockId(id) && !InBounds(Size(), x, y, z) ==>
        r == Fail(OutOfBounds(Position(Size(), x, y, z).error)) && unchanged(blocks, data)
      ensures IsBlockId(id) && InBounds(Size(), x, y, z) ==>
        r == (if IsMetadata(meta) then Pass else Fail(BadMetadata(meta)))
        && GetBlockId(x, y, z) == id
        && (IsMetadata(meta) ==> GetBlockMetadata(x, y, z) == meta)
        && (!IsMetadata(meta) ==> unchanged(data))
        && 0 <= Index(Size(), x, y, z) < blocks.Length
        && blocks[..] == old(blocks[..])[Index(Size(), x, y, z) := id]
        && data[..] == if IsMetadata(meta) then old(data[..])[Index(Size(), x, y, z) := meta] else old(data[..])
      ensures forall a, b, c :: (a, b, c) != (x, y, z) ==>
        CellAt(blocks[..], Size(), a, b, c) == CellAt(old(blocks[..]), Size(), a, b, c)
        && CellAt(data[..], Size(), a, b, c) == CellAt(old(data[..]), Size(), a, b, c)
    {
      ghost var b0, d0 := blocks[..], data[..];
      PositionRange(Size(), x, y, z);
      r := SetBlockId(x, y, z, id);
      if r.Fail? {
        assert blocks[..] == b0 && data[..] == d0;
        return;
      }
      ghost var b1 := blocks[..];
      r := SetBlockMetadata(x, y, z, meta);
      ghost var m1 := data[..];
      assert blocks[..] == b1 == b0[Index(Size(), x, y, z) := id];
      assert m1 == if IsMetadata(meta) then d0[Index(Size(), x, y, z) := meta] else d0;
      forall a, b, c
        ensures CellAt(b1, Size(), a, b, c) == if (a, b, c) == (x, y, z) then id else CellAt(b0, Size(), a, b, c)
        ensures CellAt(m1, Size(), a, b, c) == if (a, b, c) == (x, y, z) && IsMetadata(meta) then meta else CellAt(d0, Size(), a, b, c)
      {
        CellUpdate(b0, Size(), x, y, z, id, a, b, c);
        CellUpdate(d0, Size(), x, y, z, meta, a, b, c);
      }
    }

    /**
     * setDimensions: the volume takes the new size, each new cell holding the
     * old cell at its coordinates minus the offset (0 off the old grid), and
     * every tile entity is moved by the offset, none dropped. The entities
     * loop reads a lower-case pos member, which entity records (whose
     * position is Pos) do not have, so a non-empty Entities list throws
     * there, leaving Entities and TileTicks as they were; otherwise every
     * tile tick is moved by the offset.
     */
    method SetDimensions(sizeX: nat, sizeY: nat, sizeZ: nat, ox: int, oy: int, oz: int) returns (r: Outcome<RegionError>)
      requires Valid()
      modifies this
      ensures strayEntities == old(strayEntities) && strayTileEntities == old(strayTileEntities) && strayTickData == old(strayTickData)
      ensures Valid() && fresh(blocks) && fresh(data)
      ensures Size() == Dims(sizeX, sizeY, sizeZ)
      ensures blocks[..] == Migrated(old(blocks[..]), old(Size()), Size(), ox, oy, oz)
      ensures data[..] == Migrated(old(data[..]), old(Size()), Size(), ox, oy, oz)
      ensures tileEntities == ShiftAll(old(tileEntities), ox, oy, oz)
      ensures materials == old(materials)
      ensures old(entities) != [] ==>
        r == Fail(NoEntityPosition) && entities == old(entities) && tileTicks == old(tileTicks)
      ensures old(entities) == [] ==>
        r == Pass && entities == [] && tileTicks == ShiftAll(old(tileTicks), ox, oy, oz)
    {
      var newBlocks, newData := MigrateCells(blocks, data, Size(), Dims(sizeX, sizeY, sizeZ), ox, oy, oz);
      width, height, length, blocks, data := sizeX, sizeY, sizeZ, newBlocks, newData;
      r := MoveRecords(ox, oy, oz);
    }

    /**
     * setDimensions' record loops: tile entities moved, then the entities
     * loop, which throws on the first entity, then tile ticks moved.
     */
    method MoveRecords(ox: int, oy: int, oz: int) returns (r: Outcome<RegionError>)
      modifies this
      ensures strayEntities == old(strayEntities) && strayTileEntities == old(strayTileEntities) && strayTickData == old(strayTickData)
      ensures tileEntities == ShiftAll(old(tileEntities), ox, oy, oz)
      ensures old(entities) != [] ==>
        r == Fail(NoEntityPosition) && entities == old(entities) && tileTicks == old(tileTicks)
      ensures old(entities) == [] ==>
        r == Pass && entities == [] && tileTicks == ShiftAll(old(tileTicks), ox, oy, oz)
      ensures Size() == old(Size()) && blocks == old(blocks) && data == old(data) && materials == old(materials)
    {
      tileEntities := ShiftEach(tileEntities, ox, oy, oz);
      if entities != [] {
        return Fail(NoEntityPosition);
      }
      tileTicks := ShiftEach(tileTicks, ox, oy, oz);
      r := Pass;
    }

    /**
     * The first step of forceSetBlockAndMetadata: when the cell is off the
     * grid, setDimensions to the grown size, with the content moved up by
     * |c| on each axis where c is negative. A cell on the grid changes
     * nothing, which is the migration to the same size with no offset.
     */
    method GrowToInclude(x: int, y: int, z: int) returns (r: Outcome<RegionError>)
      requires Valid()
      modifies this
      ensures strayEntities == old(strayEntities) && strayTileEntities == old(strayTileEntities) && strayTickData == old(strayTickData)
      ensures Valid()
      ensures Size() == Grown(old(Size()), x, y, z)
      ensures blocks[..] == Migrated(old(blocks[..]), old(Size()), Size(), GrowOffset(x), GrowOffset(y), GrowOffset(z))
      ensures data[..] == Migrated(old(data[..]), old(Size()), Size(), GrowOffset(x), GrowOffset(y), GrowOffset(z))
      ensures materials == old(materials)
      ensures InBounds(old(Size()), x, y, z) ==> r == Pass && unchanged(this)
      ensures !InBounds(old(Size()), x, y, z) ==>
        fresh(blocks) && fresh(data)
        && tileEntities == ShiftAll(old(tileEntities), GrowOffset(x), GrowOffset(y), GrowOffset(z))
      ensures !InBounds(old(Size()), x, y, z) && old(entities) != [] ==>
        r == Fail(NoEntityPosition) && entities == old(entities) && tileTicks == old(tileTicks)
      ensures !InBounds(old(Size()), x, y, z) && old(entities) == [] ==>
        r == Pass && entities == [] && tileTicks == ShiftAll(old(tileTicks), GrowOffset(x), GrowOffset(y), GrowOffset(z))
    {
      GrowthFits(Size(), x, y, z);
      if x < 0 || y < 0 || z < 0 || x > width - 1 || y > height - 1 || z > length - 1 {
        var g := Grown(Size(), x, y, z);
        r := SetDimensions(g.w, g.h, g.l, GrowOffset(x), GrowOffset(y), GrowOffset(z));
      } else {
        MigratedSame(blocks[..], Size());
        MigratedSame(data[..], Size());
        r := Pass;
      }
    }

    /**
     * forceSetBlockAndMetadata: a cell off the grid first grows the volume
     * (to the cell when past the end, by |c| with the content moved up by |c|
     * when negative), then the clamped cell is set. Every old cell other than
     * the one set keeps its content at its moved position, and on success the
     * clamped cell reads back as (id, meta).
     */
    method ForceSetBlockAndMetadata(x: int, y: int, z: int, id: int, meta: int) returns (r: Outcome<RegionError>)
      requires Valid()
      modifies this, blocks, data
      ensures strayEntities == old(strayEntities) && strayTileEntities == old(strayTileEntities) && strayTickData == old(strayTickData)
      ensures Valid()
      ensures Size() == Grown(old(Size()), x, y, z)
      ensures InBounds(old(Size()), x, y, z) ==>
        entities == old(entities) && tileEntities == old(tileEntities) && tileTicks == old(tileTicks)
      ensures !InBounds(old(Size()), x, y, z) ==>
        tileEntities == ShiftAll(old(tileEntities), GrowOffset(x), GrowOffset(y), GrowOffset(z))
      ensures !InBounds(old(Size()), x, y, z) && old(entities) != [] ==>
        r == Fail(NoEntityPosition) && entities == old(entities) && tileTicks == old(tileTicks)
      ensures !InBounds(old(Size()), x, y, z) && old(entities) == [] ==>
        entities == [] && tileTicks == ShiftAll(old(tileTicks), GrowOffset(x), GrowOffset(y), GrowOffset(z))
      ensures r != Fail(NoEntityPosition) ==>
        (!IsBlockId(id) ==> r == Fail(BadBlockId(id)))
        && (IsBlockId(id) ==> r == (if IsMetadata(meta) then Pass else Fail(BadMetadata(meta)))
                              && GetBlockId(Clamp(x), Clamp(y), Clamp(z)) == id)
        && (r == Pass ==> GetBlockMetadata(Clamp(x), Clamp(y), Clamp(z)) == meta)
      ensures InBounds(old(Size()), x, y, z) || old(entities) == [] ==> r != Fail(NoEntityPosition)
      ensures materials == old(materials)
      ensures blocks[..] == Forced(old(blocks[..]), old(Size()), x, y, z, id, r != Fail(NoEntityPosition) && IsBlockId(id))
      ensures data[..] == Forced(old(data[..]), old(Size()), x, y, z, meta, r == Pass)
      ensures forall a, b, c ::
        InBounds(Size(), a, b, c) && !InBounds(old(Size()), a - GrowOffset(x), b - GrowOffset(y), c - GrowOffset(z)) && (a, b, c) != (Clamp(x), Clamp(y), Clamp(z)) ==>
        CellAt(blocks[..], Size(), a, b, c) == 0 && CellAt(data[..], Size(), a, b, c) == 0
      ensures forall a, b, c ::
        InBounds(old(Size()), a, b, c) && (a + GrowOffset(x), b + GrowOffset(y), c + GrowOffset(z)) != (Clamp(x), Clamp(y), Clamp(z)) ==>
        CellAt(blocks[..], Size(), a + GrowOffset(x), b + GrowOffset(y), c + GrowOffset(z)) == CellAt(old(blocks[..]), old(Size()), a, b, c)
        && CellAt(data[..], Size(), a + GrowOffset(x), b + GrowOffset(y), c + GrowOffset(z)) == CellAt(old(data[..]), old(Size()), a, b, c)
    {
      ghost var d0, b0, m0 := Size(), blocks[..], data[..];
      GrowthFits(d0, x, y, z);
      r := GrowToInclude(x, y, z);
      if r != Fail(NoEntityPosition) {
        r := SetBlockAndMetadata(Clamp(x), Clamp(y), Clamp(z), id, meta);
      }
      assert blocks[..] == Forced(b0, d0, x, y, z, id, r != Fail(NoEntityPosition) && IsBlockId(id));
      assert data[..] == Forced(m0, d0, x, y, z, meta, r == Pass);
      forall a, b, c | InBounds(d0, a, b, c) && (a + GrowOffset(x), b + GrowOffset(y), c + GrowOffset(z)) != (Clamp(x), Clamp(y), Clamp(z))
        ensures CellAt(blocks[..], Size(), a + GrowOffset(x), b + GrowOffset(y), c + GrowOffset(z)) == CellAt(b0, d0, a, b, c)
        ensures CellAt(data[..], Size(), a + GrowOffset(x), b + GrowOffset(y), c + GrowOffset(z)) == CellAt(m0, d0, a, b, c)
      {
        ForcedKeeps(b0, d0, x, y, z, id, r != Fail(NoEntityPosition) && IsBlockId(id), a, b, c);
        ForcedKeeps(m0, d0, x, y, z, meta, r == Pass, a, b, c);
      }
      forall a, b, c | InBounds(Size(), a, b, c) && !InBounds(d0, a - GrowOffset(x), b - GrowOffset(y), c - GrowOffset(z)) && (a, b, c) != (Clamp(x), Clamp(y), Clamp(z))
        ensures CellAt(blocks[..], Size(), a, b, c) == 0 && CellAt(data[..], Size(), a, b, c) == 0
      {
        ForcedCell(b0, d0, x, y, z, id, r != Fail(NoEntityPosition) && IsBlockId(id), a, b, c);
        ForcedCell(m0, d0, x, y, z, meta, r == Pass, a, b, c);
      }
    }

    /** setEntities: the list goes to a member the getter does not read, so getEntities still returns the old list. */
    method SetEntities(es: seq<Record>)
      modifies this
      ensures strayEntities == Some(es) && entities == old(entities)
      ensures Size() == old(Size()) && blocks == old(blocks) && data == old(data)
      ensures tileEntities == old(tileEntities) && tileTicks == old(tileTicks) && materials == old(materials)
      ensures strayTileEntities == old(strayTileEntities) && strayTickData == old(strayTickData)
    {
      strayEntities := Some(es);
    }

    /** setTileEntities: likewise, getTileEntities still returns the old list. */
    method SetTileEntities(ts: seq<Record>)
      modifies this
      ensures strayTileEntities == Some(ts) && tileEntities == old(tileEntities)
      ensures Size() == old(Size()) && blocks == old(blocks) && data == old(data)
      ensures entities == old(entities) && tileTicks == old(tileTicks) && materials == old(materials)
      ensures strayEntities == old(strayEntities) && strayTickData == old(strayTickData)
    {
      strayTileEntities := Some(ts);
    }

    /** setTickData: likewise, getTickData still returns the old list. */
    method SetTickData(ts: seq<Record>)
      modifies this
      ensures strayTickData == Some(ts) && tileTicks == old(tileTicks)
      ensures Size() == old(Size()) && blocks == old(blocks) && data == old(data)
      ensures entities == old(entities) && tileEntities == old(tileEntities) && materials == old(materials)
      ensures strayEntities == old(strayEntities) && strayTileEntities == old(strayTileEntities)
    {
      strayTickData := Some(ts);
    }
  }
}
