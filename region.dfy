/**
 * What both versions of the schematic region share: its errors, the
 * schematic it is constructed from, the value checks of the setters, the
 * growth rule of forceSetBlockAndMetadata, and the loops of makeNew and of
 * the block migration in setDimensions, which are the same in both files.
 */
module Region {
  import opened Wrappers
  import opened Grid
  import opened Cells
  import opened Records

  /** Why a region operation throws. */
  datatype RegionError =
    | OutOfBounds(axis: Axis)          // getPosition: a coordinate off the grid
    | BadBlockId(id: int)              // a block id outside 0..255
    | BadMetadata(meta: int)           // a metadata value outside 0..15
    | UnexpectedAmount(amount: int)    // rotateSelection: not 90, 180 or 270
    | NoEntityPosition                 // setDimensions: an entity's position is read from a member it does not have

  /** A schematic handed to the region: the nodes of the Schematic compound the region uses. */
  datatype Loaded = Loaded(
    size: Dims,
    blocks: seq<int>,
    data: seq<int>,
    entities: seq<Record>,
    tileEntities: seq<Record>,
    tileTicks: Option<seq<Record>>,   // some exporters leave TileTicks out
    materials: string)

  /** The Blocks and Data arrays match the Width, Height and Length nodes. */
  predicate WellFormed(s: Loaded) {
    |s.blocks| == Volume(s.size) && |s.data| == Volume(s.size)
  }

  /** The Materials node of a new schematic. */
  const ALPHA: string := "Alpha"

  /** The block ids the setters accept. */
  predicate IsBlockId(id: int) {
    0 <= id <= 0xFF
  }

  /** The metadata values the setters accept. */
  predicate IsMetadata(meta: int) {
    0 <= meta <= 0xF
  }

  /**
   * The new size of one axis when forceSetBlockAndMetadata meets coordinate c:
   * up to c when c is past the end, grown by |c| when c is negative.
   */
  function GrownSize(size: nat, c: int): nat {
    if c >= size then c + 1 else size + (if c < 0 then -c else 0)
  }

  /** The offset of one axis: the old content moves up by |c| when c is negative. */
  function GrowOffset(c: int): nat {
    if c < 0 then -c else 0
  }

  /** The coordinate the block is then written at: a negative one becomes 0. */
  function Clamp(c: int): nat {
    if c < 0 then 0 else c
  }

  function Grown(d: Dims, x: int, y: int, z: int): Dims {
    Dims(GrownSize(d.w, x), GrownSize(d.h, y), GrownSize(d.l, z))
  }

  /**
   * The growth rule: the clamped coordinate is the requested one moved by the
   * offset, and it lies in the grown volume; an in-bounds request needs no
   * growth.
   */
  lemma GrowthFits(d: Dims, x: int, y: int, z: int)
    ensures Clamp(x) == x + GrowOffset(x) && Clamp(y) == y + GrowOffset(y) && Clamp(z) == z + GrowOffset(z)
    ensures InBounds(Grown(d, x, y, z), Clamp(x), Clamp(y), Clamp(z))
    ensures InBounds(d, x, y, z) ==> Grown(d, x, y, z) == d && GrowOffset(x) == GrowOffset(y) == GrowOffset(z) == 0
  {
  }

  /** Every old cell moved by the growth offset lies in the grown volume. */
  lemma MovedFits(d: Dims, x: int, y: int, z: int, a: int, b: int, c: int)
    requires InBounds(d, a, b, c)
    ensures InBounds(Grown(d, x, y, z), a + GrowOffset(x), b + GrowOffset(y), c + GrowOffset(z))
  {
  }

  /**
   * forceSetBlockAndMetadata's growth keeps the content: after migrating to
   * the grown size with the growth offset, an old cell is found at its
   * position moved by the offset.
   */
  lemma GrownKeepsCell(cells: seq<int>, d: Dims, x: int, y: int, z: int, a: int, b: int, c: int)
    requires |cells| == Volume(d) && InBounds(d, a, b, c)
    ensures CellAt(Migrated(cells, d, Grown(d, x, y, z), GrowOffset(x), GrowOffset(y), GrowOffset(z)),
                   Grown(d, x, y, z), a + GrowOffset(x), b + GrowOffset(y), c + GrowOffset(z))
         == CellAt(cells, d, a, b, c)
  {
    MovedFits(d, x, y, z, a, b, c);
    MigratedCell(cells, d, Grown(d, x, y, z), GrowOffset(x), GrowOffset(y), GrowOffset(z),
                 a + GrowOffset(x), b + GrowOffset(y), c + GrowOffset(z));
  }

  /**
   * The growth of forceSetBlockAndMetadata loses nothing: resizing the grown
   * volume back to the old size with the opposite offset restores the content.
   */
  lemma GrowthUndone(cells: seq<int>, d: Dims, x: int, y: int, z: int)
    requires |cells| == Volume(d)
    ensures var g, ox: int, oy: int, oz: int := Grown(d, x, y, z), GrowOffset(x), GrowOffset(y), GrowOffset(z);
      Migrated(Migrated(cells, d, g, ox, oy, oz), g, d, -ox, -oy, -oz) == cells
  {
    ResizeRoundTrip(cells, d, Grown(d, x, y, z), GrowOffset(x), GrowOffset(y), GrowOffset(z));
  }

  /**
   * Growing keeps every record that stood in the old volume: moved by the
   * growth offset, each lies below the grown size, so the later setDimensions
   * drops none of them.
   */
  lemma GrowthKeepsRecords(rs: seq<Record>, d: Dims, x: int, y: int, z: int)
    requires forall i :: 0 <= i < |rs| ==> InBounds(d, rs[i].x, rs[i].y, rs[i].z)
    ensures var moved := ShiftAll(rs, GrowOffset(x), GrowOffset(y), GrowOffset(z));
      Pruned(moved, Grown(d, x, y, z)) == moved
  {
    var moved := ShiftAll(rs, GrowOffset(x), GrowOffset(y), GrowOffset(z));
    forall i | 0 <= i < |moved| ensures Below(moved[i], Grown(d, x, y, z)) {
      MovedFits(d, x, y, z, rs[i].x, rs[i].y, rs[i].z);
    }
    PrunedNone(moved, Grown(d, x, y, z));
  }

  /**
   * The arrays after forceSetBlockAndMetadata: grown to include the cell,
   * then the clamped cell written with v when write holds.
   */
  function Forced(cells: seq<int>, d: Dims, x: int, y: int, z: int, v: int, write: bool): (r: seq<int>)
    requires |cells| == Volume(d)
    ensures |r| == Volume(Grown(d, x, y, z))
    ensures 0 <= Index(Grown(d, x, y, z), Clamp(x), Clamp(y), Clamp(z)) < |r|
  {
    var g := Grown(d, x, y, z);
    GrowthFits(d, x, y, z);
    IndexRange(g, Clamp(x), Clamp(y), Clamp(z));
    var moved := Migrated(cells, d, g, GrowOffset(x), GrowOffset(y), GrowOffset(z));
    if write then moved[Index(g, Clamp(x), Clamp(y), Clamp(z)) := v] else moved
  }

  /**
   * What forceSetBlockAndMetadata leaves in each cell of the grown volume:
   * v at the written cell, the old cell at the coordinates minus the offset
   * where there was one, and 0 (air) in every cell the growth added.
   */
  lemma ForcedCell(cells: seq<int>, d: Dims, x: int, y: int, z: int, v: int, write: bool, a: int, b: int, c: int)
    requires |cells| == Volume(d) && InBounds(Grown(d, x, y, z), a, b, c)
    ensures CellAt(Forced(cells, d, x, y, z, v, write), Grown(d, x, y, z), a, b, c)
         == if write && (a, b, c) == (Clamp(x), Clamp(y), Clamp(z)) then v
            else if InBounds(d, a - GrowOffset(x), b - GrowOffset(y), c - GrowOffset(z))
            then CellAt(cells, d, a - GrowOffset(x), b - GrowOffset(y), c - GrowOffset(z))
            else 0
  {
    var g := Grown(d, x, y, z);
    var moved := Migrated(cells, d, g, GrowOffset(x), GrowOffset(y), GrowOffset(z));
    GrowthFits(d, x, y, z);
    MigratedCell(cells, d, g, GrowOffset(x), GrowOffset(y), GrowOffset(z), a, b, c);
    if write {
      CellUpdate(moved, g, Clamp(x), Clamp(y), Clamp(z), v, a, b, c);
    }
  }

  /** ForcedCell at the moved position of an old cell other than the written one: the old content. */
  lemma ForcedKeeps(cells: seq<int>, d: Dims, x: int, y: int, z: int, v: int, write: bool, a: int, b: int, c: int)
    requires |cells| == Volume(d) && InBounds(d, a, b, c)
    requires (a + GrowOffset(x), b + GrowOffset(y), c + GrowOffset(z)) != (Clamp(x), Clamp(y), Clamp(z))
    ensures CellAt(Forced(cells, d, x, y, z, v, write), Grown(d, x, y, z), a + GrowOffset(x), b + GrowOffset(y), c + GrowOffset(z))
         == CellAt(cells, d, a, b, c)
  {
    MovedFits(d, x, y, z, a, b, c);
    ForcedCell(cells, d, x, y, z, v, write, a + GrowOffset(x), b + GrowOffset(y), c + GrowOffset(z));
  }

  /** Writing one cell changes what the getter returns at that cell and nowhere else. */
  lemma CellUpdate(cells: seq<int>, d: Dims, x: int, y: int, z: int, v: int, a: int, b: int, c: int)
    requires |cells| == Volume(d) && InBounds(d, x, y, z)
    ensures Index(d, x, y, z) < |cells|
    ensures CellAt(cells[Index(d, x, y, z) := v], d, a, b, c)
         == if (a, b, c) == (x, y, z) then v else CellAt(cells, d, a, b, c)
  {
    IndexRange(d, x, y, z);
    if InBounds(d, a, b, c) && (a, b, c) != (x, y, z) {
      IndexRange(d, a, b, c);
      IndexesDiffer(d, x, y, z, a, b, c);
    }
  }

  lemma IndexesDiffer(d: Dims, x: int, y: int, z: int, a: int, b: int, c: int)
    requires InBounds(d, x, y, z) && InBounds(d, a, b, c) && (a, b, c) != (x, y, z)
    ensures Index(d, x, y, z) != Index(d, a, b, c)
  {
    CoordsOfIndex(d, x, y, z);
    CoordsOfIndex(d, a, b, c);
  }

  /** makeNew's loop: two arrays of n zeros. */
  method NewCells(n: nat) returns (blocks: array<int>, data: array<int>)
    ensures fresh(blocks) && fresh(data) && blocks != data
    ensures blocks[..] == seq(n, _ => 0) && data[..] == seq(n, _ => 0)
  {
    blocks := new int[n];
    data := new int[n];
    for i := 0 to n
      invariant blocks[..i] == seq(i, _ => 0) && data[..i] == seq(i, _ => 0)
    {
      blocks[i] := 0;
      data[i] := 0;
    }
  }

  /** Stepping to the next row along x: the offset of its first cell. */
  lemma RowStep(d: Dims, y: int, z: int)
    ensures Index(d, d.w, y, z) == Index(d, 0, y, z + 1)
  {
  }

  /** Stepping to the next layer along y. */
  lemma LayerStep(d: Dims, y: int)
    ensures Index(d, 0, y, d.l) == Index(d, 0, y + 1, 0)
  {
    assert (y + 1) * d.w * d.l == y * d.w * d.l + d.w * d.l;
  }

  /** The migrated content at the offset of an in-bounds new cell. */
  lemma MigratedAtIndex(blocks: seq<int>, data: seq<int>, d: Dims, nd: Dims, ox: int, oy: int, oz: int, x: int, y: int, z: int)
    requires |blocks| == Volume(d) && |data| == Volume(d) && InBounds(nd, x, y, z)
    ensures 0 <= Index(nd, x, y, z) < Volume(nd)
    ensures MigratedAt(blocks, d, nd, ox, oy, oz, Index(nd, x, y, z)) == CellAt(blocks, d, x - ox, y - oy, z - oz)
    ensures MigratedAt(data, d, nd, ox, oy, oz, Index(nd, x, y, z)) == CellAt(data, d, x - ox, y - oy, z - oz)
  {
    IndexRange(nd, x, y, z);
    CoordsOfIndex(nd, x, y, z);
  }

  /** Both arrays agree with the migrated content below offset n. */
  ghost predicate MigratedBelow(newBlocks: array<int>, newData: array<int>, blocks: seq<int>, data: seq<int>,
                                d: Dims, nd: Dims, ox: int, oy: int, oz: int, n: int)
    requires |blocks| == Volume(d) && |data| == Volume(d)
    requires newBlocks.Length == Volume(nd) && newData.Length == Volume(nd) && 0 <= n <= Volume(nd)
    reads newBlocks, newData
  {
    forall k :: 0 <= k < n ==>
      newBlocks[k] == MigratedAt(blocks, d, nd, ox, oy, oz, k) && newData[k] == MigratedAt(data, d, nd, ox, oy, oz, k)
  }

  /** One row of the migration: the new cells (0, y, z) to (Width - 1, y, z). */
  method MigrateRow(blocks: array<int>, data: array<int>, newBlocks: array<int>, newData: array<int>,
                    d: Dims, nd: Dims, ox: int, oy: int, oz: int, iy: int, iz: int, start: int)
    requires blocks.Length == Volume(d) && data.Length == Volume(d)
    requires newBlocks.Length == Volume(nd) && newData.Length == Volume(nd) && newBlocks != newData
    requires newBlocks != blocks && newBlocks != data && newData != blocks && newData != data
    requires 0 <= iy < nd.h && 0 <= iz < nd.l && start == Index(nd, 0, iy, iz) && 0 <= start <= Volume(nd)
    requires MigratedBelow(newBlocks, newData, blocks[..], data[..], d, nd, ox, oy, oz, start)
    modifies newBlocks, newData
    ensures start + nd.w <= Volume(nd)
    ensures MigratedBelow(newBlocks, newData, blocks[..], data[..], d, nd, ox, oy, oz, start + nd.w)
  {
    var offset := start;
    for ix := 0 to nd.w
      invariant offset == start + ix && offset <= Volume(nd)
      invariant MigratedBelow(newBlocks, newData, blocks[..], data[..], d, nd, ox, oy, oz, offset)
    {
      MigratedAtIndex(blocks[..], data[..], d, nd, ox, oy, oz, ix, iy, iz);
      var source := Position(d, ix - ox, iy - oy, iz - oz);
      PositionRange(d, ix - ox, iy - oy, iz - oz);
      if source.Ok? {
        newBlocks[offset] := blocks[source.value];
        newData[offset] := data[source.value];
      } else {
        newBlocks[offset] := 0;
        newData[offset] := 0;
      }
      offset := offset + 1;
    }
  }

  /** One layer of the migration: the rows z = 0 .. Length - 1 at height y. */
  method MigrateLayer(blocks: array<int>, data: array<int>, newBlocks: array<int>, newData: array<int>,
                      d: Dims, nd: Dims, ox: int, oy: int, oz: int, iy: int, start: int)
    requires blocks.Length == Volume(d) && data.Length == Volume(d)
    requires newBlocks.Length == Volume(nd) && newData.Length == Volume(nd) && newBlocks != newData
    requires newBlocks != blocks && newBlocks != data && newData != blocks && newData != data
    requires 0 <= iy < nd.h && start == Index(nd, 0, iy, 0) && 0 <= start <= Volume(nd)
    requires MigratedBelow(newBlocks, newData, blocks[..], data[..], d, nd, ox, oy, oz, start)
    modifies newBlocks, newData
    ensures Index(nd, 0, iy + 1, 0) <= Volume(nd)
    ensures MigratedBelow(newBlocks, newData, blocks[..], data[..], d, nd, ox, oy, oz, Index(nd, 0, iy + 1, 0))
  {
    var offset := start;
    for iz := 0 to nd.l
      invariant offset == Index(nd, 0, iy, iz) && offset <= Volume(nd)
      invariant MigratedBelow(newBlocks, newData, blocks[..], data[..], d, nd, ox, oy, oz, offset)
    {
      MigrateRow(blocks, data, newBlocks, newData, d, nd, ox, oy, oz, iy, iz, offset);
      RowStep(nd, iy, iz);
      offset := offset + nd.w;
    }
    LayerStep(nd, iy);
  }

  /**
   * setDimensions' block migration: for every new cell in y, z, x order, the
   * old cell at the coordinates minus the offset, or 0 off the old grid.
   */
  method MigrateCells(blocks: array<int>, data: array<int>, d: Dims, nd: Dims, ox: int, oy: int, oz: int)
    returns (newBlocks: array<int>, newData: array<int>)
    requires blocks.Length == Volume(d) && data.Length == Volume(d)
    ensures fresh(newBlocks) && fresh(newData) && newBlocks != newData
    ensures newBlocks[..] == Migrated(blocks[..], d, nd, ox, oy, oz)
    ensures newData[..] == Migrated(data[..], d, nd, ox, oy, oz)
  {
    newBlocks := new int[Volume(nd)];
    newData := new int[Volume(nd)];
    var offset := 0;
    for iy := 0 to nd.h
      invariant offset == Index(nd, 0, iy, 0) && offset <= Volume(nd)
      invariant MigratedBelow(newBlocks, newData, blocks[..], data[..], d, nd, ox, oy, oz, offset)
    {
      MigrateLayer(blocks, data, newBlocks, newData, d, nd, ox, oy, oz, iy, offset);
      offset := Index(nd, 0, iy + 1, 0);
    }
    LastLayer(nd);
  }

  /** Past the last layer is the end of the arrays. */
  lemma LastLayer(d: Dims)
    ensures Index(d, 0, d.h, 0) == Volume(d)
  {
    assert d.h * d.w * d.l == d.w * d.h * d.l;
  }

  /** The turned content at the offset of an in-bounds cell of the turned volume, read from an in-bounds old cell. */
  lemma RotatedAtIndex(blocks: seq<int>, data: seq<int>, amount: int, d: Dims, x: int, y: int, z: int)
    requires |blocks| == Volume(d) && |data| == Volume(d) && IsTurn(amount) && InBounds(Turned(amount, d), x, y, z)
    ensures 0 <= Index(Turned(amount, d), x, y, z) < Volume(d)
    ensures var (sx, sz) := TurnSource(amount, d, x, z);
      InBounds(d, sx, y, sz)
      && RotatedAt(blocks, amount, d, Index(Turned(amount, d), x, y, z)) == CellAt(blocks, d, sx, y, sz)
      && RotatedAt(data, amount, d, Index(Turned(amount, d), x, y, z)) == CellAt(data, d, sx, y, sz)
  {
    var nd := Turned(amount, d);
    IndexRange(nd, x, y, z);
    CoordsOfIndex(nd, x, y, z);
  }

  /** Both arrays agree with the turned content below offset n. */
  ghost predicate RotatedBelow(newBlocks: array<int>, newData: array<int>, blocks: seq<int>, data: seq<int>,
                               amount: int, d: Dims, n: int)
    requires |blocks| == Volume(d) && |data| == Volume(d) && IsTurn(amount)
    requires newBlocks.Length == Volume(d) && newData.Length == Volume(d) && 0 <= n <= Volume(d)
    reads newBlocks, newData
  {
    forall k :: 0 <= k < n ==>
      newBlocks[k] == RotatedAt(blocks, amount, d, k) && newData[k] == RotatedAt(data, amount, d, k)
  }

  /** One row of the turned volume: its cells (0, y, z) to (newWidth - 1, y, z), each read from its source column. */
  method RotateRow(blocks: array<int>, data: array<int>, newBlocks: array<int>, newData: array<int>,
                   amount: int, d: Dims, iy: int, iz: int, start: int)
    requires blocks.Length == Volume(d) && data.Length == Volume(d) && IsTurn(amount)
    requires newBlocks.Length == Volume(d) && newData.Length == Volume(d) && newBlocks != newData
    requires newBlocks != blocks && newBlocks != data && newData != blocks && newData != data
    requires 0 <= iy < Turned(amount, d).h && 0 <= iz < Turned(amount, d).l
    requires start == Index(Turned(amount, d), 0, iy, iz) && 0 <= start <= Volume(d)
    requires RotatedBelow(newBlocks, newData, blocks[..], data[..], amount, d, start)
    modifies newBlocks, newData
    ensures start + Turned(amount, d).w <= Volume(d)
    ensures RotatedBelow(newBlocks, newData, blocks[..], data[..], amount, d, start + Turned(amount, d).w)
  {
    var nd := Turned(amount, d);
    var offset := start;
    for ix := 0 to nd.w
      invariant offset == start + ix && offset <= Volume(d)
      invariant RotatedBelow(newBlocks, newData, blocks[..], data[..], amount, d, offset)
    {
      RotatedAtIndex(blocks[..], data[..], amount, d, ix, iy, iz);
      var (sx, sz) := TurnSource(amount, d, ix, iz);
      var source := Position(d, sx, iy, sz);
      PositionRange(d, sx, iy, sz);
      newBlocks[offset] := blocks[source.value];
      newData[offset] := data[source.value];
      offset := offset + 1;
    }
  }

  /** One layer of the turned volume: its rows z = 0 .. newLength - 1 at height y. */
  method RotateLayer(blocks: array<int>, data: array<int>, newBlocks: array<int>, newData: array<int>,
                     amount: int, d: Dims, iy: int, start: int)
    requires blocks.Length == Volume(d) && data.Length == Volume(d) && IsTurn(amount)
    requires newBlocks.Length == Volume(d) && newData.Length == Volume(d) && newBlocks != newData
    requires newBlocks != blocks && newBlocks != data && newData != blocks && newData != data
    requires 0 <= iy < Turned(amount, d).h && start == Index(Turned(amount, d), 0, iy, 0) && 0 <= start <= Volume(d)
    requires RotatedBelow(newBlocks, newData, blocks[..], data[..], amount, d, start)
    modifies newBlocks, newData
    ensures Index(Turned(amount, d), 0, iy + 1, 0) <= Volume(d)
    ensures RotatedBelow(newBlocks, newData, blocks[..], data[..], amount, d, Index(Turned(amount, d), 0, iy + 1, 0))
  {
    var nd := Turned(amount, d);
    var offset := start;
    for iz := 0 to nd.l
      invariant offset == Index(nd, 0, iy, iz) && offset <= Volume(d)
      invariant RotatedBelow(newBlocks, newData, blocks[..], data[..], amount, d, offset)
    {
      RotateRow(blocks, data, newBlocks, newData, amount, d, iy, iz, offset);
      RowStep(nd, iy, iz);
      offset := offset + nd.w;
    }
    LayerStep(nd, iy);
  }

  /**
   * rotateSelection's block loops: the cells of the turned volume in y, z, x
   * order, each read from the old cell its turn names.
   */
  method RotateCells(blocks: array<int>, data: array<int>, amount: int, d: Dims)
    returns (newBlocks: array<int>, newData: array<int>)
    requires blocks.Length == Volume(d) && data.Length == Volume(d) && IsTurn(amount)
    ensures fresh(newBlocks) && fresh(newData) && newBlocks != newData
    ensures newBlocks[..] == Rotated(blocks[..], amount, d)
    ensures newData[..] == Rotated(data[..], amount, d)
  {
    var nd := Turned(amount, d);
    newBlocks := new int[Volume(d)];
    newData := new int[Volume(d)];
    var offset := 0;
    for iy := 0 to nd.h
      invariant offset == Index(nd, 0, iy, 0) && offset <= Volume(d)
      invariant RotatedBelow(newBlocks, newData, blocks[..], data[..], amount, d, offset)
    {
      RotateLayer(blocks, data, newBlocks, newData, amount, d, iy, offset);
      offset := Index(nd, 0, iy + 1, 0);
    }
    LastLayer(nd);
  }

  /** The Later setDimensions' record loop: each record moved by the offset, kept when below the new size. */
  method ShiftAndPrune(rs: seq<Record>, ox: int, oy: int, oz: int, nd: Dims) returns (kept: seq<Record>)
    ensures kept == Pruned(ShiftAll(rs, ox, oy, oz), nd)
  {
    kept := [];
    for i := 0 to |rs|
      invariant kept == Pruned(ShiftAll(rs[..i], ox, oy, oz), nd)
    {
      var moved := Shift(rs[i], ox, oy, oz);
      assert ShiftAll(rs[..i + 1], ox, oy, oz)[..i] == ShiftAll(rs[..i], ox, oy, oz);
      if Below(moved, nd) {
        kept := kept + [moved];
      }
    }
    assert rs[..|rs|] == rs;
  }

  /** The Earlier setDimensions' record loop: each record moved by the offset, none dropped. */
  method ShiftEach(rs: seq<Record>, ox: int, oy: int, oz: int) returns (moved: seq<Record>)
    ensures moved == ShiftAll(rs, ox, oy, oz)
  {
    moved := rs;
    for i := 0 to |rs|
      invariant |moved| == |rs|
      invariant forall k :: 0 <= k < i ==> moved[k] == Shift(rs[k], ox, oy, oz)
      invariant forall k :: i <= k < |rs| ==> moved[k] == rs[k]
    {
      moved := moved[i := Shift(moved[i], ox, oy, oz)];
    }
  }

  /** rotateSelection's record loops: each record's x and z replaced by its turned column. */
  method TurnEach(rs: seq<Record>, amount: int, d: Dims) returns (turned: seq<Record>)
    requires IsTurn(amount)
    ensures turned == TurnAll(rs, amount, d)
  {
    turned := rs;
    for i := 0 to |rs|
      invariant |turned| == |rs|
      invariant forall k :: 0 <= k < i ==> turned[k] == Turn(rs[k], amount, d)
      invariant forall k :: i <= k < |rs| ==> turned[k] == rs[k]
    {
      turned := turned[i := Turn(turned[i], amount, d)];
    }
  }
}
