/**
 * The contents of the Blocks and Data arrays as values: what a getter
 * returns, and the arrays setDimensions and rotateSelection rebuild.
 */
module Cells {
  import opened Wrappers
  import opened Grid

  /** getBlockId / getBlockMetadata on array contents: the cell's value, 0 off the grid. */
  function CellAt(cells: seq<int>, d: Dims, x: int, y: int, z: int): int
    requires |cells| == Volume(d)
  {
    if InBounds(d, x, y, z) then IndexRange(d, x, y, z); cells[Index(d, x, y, z)] else 0
  }

  /** Every element of the arrays is the cell at its offset's coordinates. */
  lemma CellOfIndex(cells: seq<int>, d: Dims, k: int)
    requires |cells| == Volume(d) && 0 <= k < |cells|
    ensures d.w > 0 && d.l > 0
    ensures var (x, y, z) := Coords(d, k); InBounds(d, x, y, z) && CellAt(cells, d, x, y, z) == cells[k]
  {
    IndexOfCoords(d, k);
  }

  /** Two arrays of a volume that agree on every cell are equal. */
  lemma CellsEqual(a: seq<int>, b: seq<int>, d: Dims)
    requires |a| == Volume(d) && |b| == Volume(d)
    requires forall x, y, z :: InBounds(d, x, y, z) ==> CellAt(a, d, x, y, z) == CellAt(b, d, x, y, z)
    ensures a == b
  {
    forall k | 0 <= k < |a| ensures a[k] == b[k] {
      CellOfIndex(a, d, k);
      CellOfIndex(b, d, k);
    }
  }

  /**
   * The migrated content at new offset k: the old cell at the new
   * coordinates minus the offset, 0 where that is off the old grid.
   */
  function MigratedAt(cells: seq<int>, d: Dims, nd: Dims, ox: int, oy: int, oz: int, k: int): int
    requires |cells| == Volume(d) && 0 <= k < Volume(nd)
  {
    VolumePositive(nd);
    var (x, y, z) := Coords(nd, k);
    CellAt(cells, d, x - ox, y - oy, z - oz)
  }

  /** The arrays setDimensions builds for the new size nd and offset (ox, oy, oz). */
  function Migrated(cells: seq<int>, d: Dims, nd: Dims, ox: int, oy: int, oz: int): (r: seq<int>)
    requires |cells| == Volume(d)
    ensures |r| == Volume(nd)
  {
    seq(Volume(nd), k requires 0 <= k < Volume(nd) => MigratedAt(cells, d, nd, ox, oy, oz, k))
  }

  /**
   * After a resize, the new cell at (x, y, z) holds the old cell at
   * (x, y, z) minus the offset when that lies in the old bounds, and 0 otherwise.
   */
  lemma MigratedCell(cells: seq<int>, d: Dims, nd: Dims, ox: int, oy: int, oz: int, x: int, y: int, z: int)
    requires |cells| == Volume(d) && InBounds(nd, x, y, z)
    ensures CellAt(Migrated(cells, d, nd, ox, oy, oz), nd, x, y, z)
         == if InBounds(d, x - ox, y - oy, z - oz) then CellAt(cells, d, x - ox, y - oy, z - oz) else 0
  {
    IndexRange(nd, x, y, z);
    CoordsOfIndex(nd, x, y, z);
  }

  /** Resizing to the same size with no offset leaves the content as it was. */
  lemma MigratedSame(cells: seq<int>, d: Dims)
    requires |cells| == Volume(d)
    ensures Migrated(cells, d, d, 0, 0, 0) == cells
  {
    var m := Migrated(cells, d, d, 0, 0, 0);
    forall x, y, z | InBounds(d, x, y, z) ensures CellAt(m, d, x, y, z) == CellAt(cells, d, x, y, z) {
      MigratedCell(cells, d, d, 0, 0, 0, x, y, z);
    }
    CellsEqual(m, cells, d);
  }

  /**
   * Resizing is undone by resizing back with the opposite offset, as long as
   * the first resize keeps the whole old volume on the new grid.
   */
  lemma ResizeRoundTrip(cells: seq<int>, d: Dims, nd: Dims, ox: int, oy: int, oz: int)
    requires |cells| == Volume(d)
    requires 0 <= ox && ox + d.w <= nd.w && 0 <= oy && oy + d.h <= nd.h && 0 <= oz && oz + d.l <= nd.l
    ensures Migrated(Migrated(cells, d, nd, ox, oy, oz), nd, d, -ox, -oy, -oz) == cells
  {
    var there := Migrated(cells, d, nd, ox, oy, oz);
    var back := Migrated(there, nd, d, -ox, -oy, -oz);
    forall x, y, z | InBounds(d, x, y, z) ensures CellAt(back, d, x, y, z) == CellAt(cells, d, x, y, z) {
      MigratedCell(there, nd, d, -ox, -oy, -oz, x, y, z);
      MigratedCell(cells, d, nd, ox, oy, oz, x + ox, y + oy, z + oz);
    }
    CellsEqual(back, cells, d);
  }

  /** The rotation amounts rotateSelection accepts: clockwise quarter turns, in degrees. */
  predicate IsTurn(amount: int) {
    amount == 90 || amount == 180 || amount == 270
  }

  /** The size after a turn: a quarter turn swaps Width and Length. */
  function Turned(amount: int, d: Dims): (r: Dims)
    ensures Volume(r) == Volume(d)
  {
    if amount == 180 then d
    else
      assert Volume(Dims(d.l, d.h, d.w)) == Volume(d) by {
        assert d.l * d.h * d.w == d.w * d.h * d.l;
      }
      Dims(d.l, d.h, d.w)
  }

  /** The old (x, z) column the turned cell at (x, z) is read from, for the old size d. */
  function TurnSource(amount: int, d: Dims, x: int, z: int): (int, int)
    requires IsTurn(amount)
  {
    if amount == 90 then (z, Turned(amount, d).w - x - 1)
    else if amount == 180 then (d.w - x - 1, d.l - z - 1)
    else (d.w - z - 1, x)
  }

  /** Where a record at old (x, z) is moved by the turn, for the old size d. */
  function TurnTarget(amount: int, d: Dims, x: int, z: int): (int, int)
    requires IsTurn(amount)
  {
    if amount == 90 then (d.l - z - 1, x)
    else if amount == 180 then (d.w - x - 1, d.l - z - 1)
    else (z, d.w - x - 1)
  }

  /** The turned content at new offset k. */
  function RotatedAt(cells: seq<int>, amount: int, d: Dims, k: int): int
    requires |cells| == Volume(d) && IsTurn(amount) && 0 <= k < Volume(d)
  {
    var nd := Turned(amount, d);
    VolumePositive(nd);
    var (x, y, z) := Coords(nd, k);
    var (sx, sz) := TurnSource(amount, d, x, z);
    CellAt(cells, d, sx, y, sz)
  }

  /** The arrays rotateSelection builds for a turn of the whole volume. */
  function Rotated(cells: seq<int>, amount: int, d: Dims): (r: seq<int>)
    requires |cells| == Volume(d) && IsTurn(amount)
    ensures |r| == Volume(Turned(amount, d))
  {
    seq(Volume(d), k requires 0 <= k < Volume(d) => RotatedAt(cells, amount, d, k))
  }

  /**
   * The turned cell at (x, y, z) is the old cell at the turn's source
   * column, at the same height, and that column lies in the old bounds.
   */
  lemma RotatedCell(cells: seq<int>, amount: int, d: Dims, x: int, y: int, z: int)
    requires |cells| == Volume(d) && IsTurn(amount) && InBounds(Turned(amount, d), x, y, z)
    ensures var (sx, sz) := TurnSource(amount, d, x, z);
      InBounds(d, sx, y, sz) && CellAt(Rotated(cells, amount, d), Turned(amount, d), x, y, z) == CellAt(cells, d, sx, y, sz)
  {
    var nd := Turned(amount, d);
    IndexRange(nd, x, y, z);
    CoordsOfIndex(nd, x, y, z);
  }

  /** A half turn reads each cell from the opposite corner of its layer. */
  lemma HalfTurnTwice(cells: seq<int>, d: Dims)
    requires |cells| == Volume(d)
    ensures Rotated(Rotated(cells, 180, d), 180, d) == cells
  {
    var twice := Rotated(Rotated(cells, 180, d), 180, d);
    forall x, y, z | InBounds(d, x, y, z) ensures CellAt(twice, d, x, y, z) == CellAt(cells, d, x, y, z) {
      RotatedCell(Rotated(cells, 180, d), 180, d, x, y, z);
      RotatedCell(cells, 180, d, d.w - x - 1, y, d.l - z - 1);
    }
    CellsEqual(twice, cells, d);
  }

  /** A quarter turn followed by a three-quarter turn, in either order, restores size and content. */
  lemma QuarterTurnsUndo(cells: seq<int>, d: Dims)
    requires |cells| == Volume(d)
    ensures Turned(270, Turned(90, d)) == d && Turned(90, Turned(270, d)) == d
    ensures Rotated(Rotated(cells, 90, d), 270, Turned(90, d)) == cells
    ensures Rotated(Rotated(cells, 270, d), 90, Turned(270, d)) == cells
  {
    var d1 := Turned(90, d);
    var t1 := Rotated(Rotated(cells, 90, d), 270, d1);
    forall x, y, z | InBounds(d, x, y, z) ensures CellAt(t1, d, x, y, z) == CellAt(cells, d, x, y, z) {
      RotatedCell(Rotated(cells, 90, d), 270, d1, x, y, z);
      var (sx, sz) := TurnSource(270, d1, x, z);
      RotatedCell(cells, 90, d, sx, y, sz);
    }
    CellsEqual(t1, cells, d);
    var t2 := Rotated(Rotated(cells, 270, d), 90, d1);
    forall x, y, z | InBounds(d, x, y, z) ensures CellAt(t2, d, x, y, z) == CellAt(cells, d, x, y, z) {
      RotatedCell(Rotated(cells, 270, d), 90, d1, x, y, z);
      var (sx, sz) := TurnSource(90, d1, x, z);
      RotatedCell(cells, 270, d, sx, y, sz);
    }
    CellsEqual(t2, cells, d);
  }

  /** Two quarter turns are a half turn, so four quarter turns restore size and content. */
  lemma FourQuarterTurns(cells: seq<int>, d: Dims)
    requires |cells| == Volume(d)
    ensures Rotated(Rotated(cells, 90, d), 90, Turned(90, d)) == Rotated(cells, 180, d)
    ensures var half := Rotated(cells, 180, d);
      Rotated(Rotated(half, 90, d), 90, Turned(90, d)) == cells
  {
    var d1 := Turned(90, d);
    var t := Rotated(Rotated(cells, 90, d), 90, d1);
    var half := Rotated(cells, 180, d);
    forall x, y, z | InBounds(d, x, y, z) ensures CellAt(t, d, x, y, z) == CellAt(half, d, x, y, z) {
      RotatedCell(Rotated(cells, 90, d), 90, d1, x, y, z);
      var (sx, sz) := TurnSource(90, d1, x, z);
      RotatedCell(cells, 90, d, sx, y, sz);
      RotatedCell(cells, 180, d, x, y, z);
    }
    CellsEqual(t, half, d);
    var t' := Rotated(Rotated(half, 90, d), 90, d1);
    forall x, y, z | InBounds(d, x, y, z) ensures CellAt(t', d, x, y, z) == CellAt(Rotated(half, 180, d), d, x, y, z) {
      RotatedCell(Rotated(half, 90, d), 90, d1, x, y, z);
      var (sx, sz) := TurnSource(90, d1, x, z);
      RotatedCell(half, 90, d, sx, y, sz);
      RotatedCell(half, 180, d, x, y, z);
    }
    CellsEqual(t', Rotated(half, 180, d), d);
    HalfTurnTwice(cells, d);
  }
}
