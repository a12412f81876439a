/**
 * The TileEntities, TileTicks and Entities lists of a schematic: compound
 * records whose block coordinates the region updates (the x, y and z tags,
 * or an entity's Pos list) and whose other tags it carries along unread.
 */
module Records {
  import opened Tags
  import opened Grid
  import opened Cells

  datatype Record = Record(x: int, y: int, z: int, other: seq<Entry>)

  /** A record moved by an offset. */
  function Shift(r: Record, ox: int, oy: int, oz: int): Record {
    r.(x := r.x + ox, y := r.y + oy, z := r.z + oz)
  }

  /** Every record moved by the same offset, in order. */
  function ShiftAll(rs: seq<Record>, ox: int, oy: int, oz: int): (r: seq<Record>)
    ensures |r| == |rs|
  {
    seq(|rs|, i requires 0 <= i < |rs| => Shift(rs[i], ox, oy, oz))
  }

  /** The Later setDimensions keeps a record below the new size on every axis; negative coordinates pass. */
  predicate Below(r: Record, nd: Dims) {
    r.x < nd.w && r.y < nd.h && r.z < nd.l
  }

  /** The records below the new size, in their order. */
  function Pruned(rs: seq<Record>, nd: Dims): seq<Record> {
    if rs == [] then []
    else Pruned(rs[..|rs| - 1], nd) + (if Below(rs[|rs| - 1], nd) then [rs[|rs| - 1]] else [])
  }

  /** A record survives pruning exactly when it was there and is below the new size. */
  lemma {:induction false} PrunedMembers(rs: seq<Record>, nd: Dims, r: Record)
    ensures r in Pruned(rs, nd) <==> r in rs && Below(r, nd)
  {
    if rs != [] {
      var front := rs[..|rs| - 1];
      PrunedMembers(front, nd, r);
      assert rs == front + [rs[|rs| - 1]];
    }
  }

  /** Pruning keeps the order: the pruned concatenation is the concatenation of the pruned parts. */
  lemma {:induction false} PrunedAppend(a: seq<Record>, b: seq<Record>, nd: Dims)
    ensures Pruned(a + b, nd) == Pruned(a, nd) + Pruned(b, nd)
    decreases |b|
  {
    if b == [] {
      assert a + b == a;
    } else {
      var front := b[..|b| - 1];
      assert (a + b)[..|a + b| - 1] == a + front;
      PrunedAppend(a, front, nd);
    }
  }

  /** Pruning drops nothing when every record is below the new size. */
  lemma {:induction false} PrunedNone(rs: seq<Record>, nd: Dims)
    requires forall i :: 0 <= i < |rs| ==> Below(rs[i], nd)
    ensures Pruned(rs, nd) == rs
  {
    if rs != [] {
      PrunedNone(rs[..|rs| - 1], nd);
    }
  }

  /** A record moved by a turn of the volume d: x and z change, y stays. */
  function Turn(r: Record, amount: int, d: Dims): Record
    requires IsTurn(amount)
  {
    var (nx, nz) := TurnTarget(amount, d, r.x, r.z);
    r.(x := nx, z := nz)
  }

  /** Every record moved by the same turn, in order. */
  function TurnAll(rs: seq<Record>, amount: int, d: Dims): (r: seq<Record>)
    requires IsTurn(amount)
    ensures |r| == |rs|
  {
    seq(|rs|, i requires 0 <= i < |rs| => Turn(rs[i], amount, d))
  }

  /**
   * A turned record inside the volume stays inside the turned volume and
   * stands on the block it stood on: the turned cell under its new column is
   * the old cell under its old one.
   */
  lemma TurnKeepsBlock(r: Record, cells: seq<int>, amount: int, d: Dims)
    requires |cells| == Volume(d) && IsTurn(amount) && InBounds(d, r.x, r.y, r.z)
    ensures var t := Turn(r, amount, d);
      InBounds(Turned(amount, d), t.x, t.y, t.z)
      && CellAt(Rotated(cells, amount, d), Turned(amount, d), t.x, t.y, t.z) == CellAt(cells, d, r.x, r.y, r.z)
  {
    var t := Turn(r, amount, d);
    assert TurnSource(amount, d, t.x, t.z) == (r.x, r.z);
    RotatedCell(cells, amount, d, t.x, t.y, t.z);
  }

  /** Turning records back: a quarter turn and a three-quarter turn, or two half turns, restore every record. */
  lemma TurnsUndo(r: Record, d: Dims)
    ensures Turn(Turn(r, 90, d), 270, Turned(90, d)) == r
    ensures Turn(Turn(r, 270, d), 90, Turned(270, d)) == r
    ensures Turn(Turn(r, 180, d), 180, d) == r
    ensures Turn(Turn(Turn(Turn(r, 90, d), 90, Turned(90, d)), 90, d), 90, Turned(90, d)) == r
  {
  }
}
