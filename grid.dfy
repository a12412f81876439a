/**
 * The index arithmetic of a schematic: a Width x Height x Length volume
 * stored in flat arrays with x varying fastest, then z, then y.
 */
module Grid {
  import opened Wrappers

  /** The size of a volume: Width along x, Height along y, Length along z. */
  datatype Dims = Dims(w: nat, h: nat, l: nat)

  /** The number of cells, the length of the Blocks and Data arrays. */
  function Volume(d: Dims): nat {
    d.w * d.h * d.l
  }

  predicate InBounds(d: Dims, x: int, y: int, z: int) {
    0 <= x < d.w && 0 <= y < d.h && 0 <= z < d.l
  }

  /** The axis getPosition reports as out of bounds. */
  datatype Axis = AxisX | AxisY | AxisZ

  /** The flat offset of a cell. */
  function Index(d: Dims, x: int, y: int, z: int): int {
    x + z * d.w + y * d.w * d.l
  }

  /**
   * getPosition, for the given sizes (the schematic's own or the override
   * sizes): the axes are checked in the order x, y, z.
   */
  function Position(d: Dims, x: int, y: int, z: int): Result<int, Axis> {
    if x >= d.w || x < 0 then Err(AxisX)
    else if y >= d.h || y < 0 then Err(AxisY)
    else if z >= d.l || z < 0 then Err(AxisZ)
    else Ok(Index(d, x, y, z))
  }

  /** The coordinates (x, y, z) of a flat offset. */
  function Coords(d: Dims, i: int): (int, int, int)
    requires d.w > 0 && d.l > 0
  {
    (i % d.w, i / d.w / d.l, i / d.w % d.l)
  }

  /** Floor division by 16: the chunk a block coordinate lies in. */
  function Chunk(c: int): (r: int)
    ensures 16 * r <= c < 16 * r + 16
  {
    c / 16
  }

  /** getBlockChunkPosition: the chunk coordinates of a block. */
  function ChunkPosition(x: int, y: int, z: int): (r: (int, int, int))
    ensures 16 * r.0 <= x < 16 * r.0 + 16
    ensures 16 * r.1 <= y < 16 * r.1 + 16
    ensures 16 * r.2 <= z < 16 * r.2 + 16
  {
    (Chunk(x), Chunk(y), Chunk(z))
  }

  /** Multiplying both sides of a <= b by a natural number. */
  lemma MulLe(a: int, b: int, c: nat)
    requires a <= b
    ensures c * a <= c * b
  {
    assert c * b - c * a == c * (b - a);
  }

  /** A nonzero multiple of a positive w is at least w in size. */
  lemma MulAtLeast(k: int, w: int)
    requires 0 < w
    ensures k >= 0 ==> k * w >= 0
    ensures k >= 1 ==> k * w >= w
    ensures k <= -1 ==> k * w <= -w
  {
    assert k * w - w == (k - 1) * w;
    assert k * w + w == (k + 1) * w;
  }

  /** n divided by a positive w, when n is written as q * w + r with 0 <= r < w. */
  lemma DivModUnique(n: int, w: int, q: int, r: int)
    requires 0 < w && 0 <= r < w && n == q * w + r
    ensures n / w == q && n % w == r
  {
    var q', r' := n / w, n % w;
    assert (q' - q) * w == r - r' by {
      assert (q' - q) * w == q' * w - q * w;
    }
    MulAtLeast(q' - q, w);
  }

  /** The offset, with the factor w taken out. */
  lemma IndexFactor(d: Dims, x: int, y: int, z: int)
    ensures Index(d, x, y, z) == x + d.w * (z + d.l * y)
  {
    assert y * d.w * d.l == d.w * (d.l * y);
    assert z * d.w + d.w * (d.l * y) == d.w * (z + d.l * y);
  }

  /** An in-bounds offset lies in [0, Volume). */
  lemma IndexRange(d: Dims, x: int, y: int, z: int)
    requires InBounds(d, x, y, z)
    ensures 0 <= Index(d, x, y, z) < Volume(d)
  {
    IndexFactor(d, x, y, z);
    var q := z + d.l * y;
    MulLe(0, y, d.l);
    MulLe(y, d.h - 1, d.l);
    assert d.l * (d.h - 1) == d.l * d.h - d.l;
    assert 0 <= q <= d.l * d.h - 1;
    MulLe(0, q, d.w);
    MulLe(q, d.l * d.h - 1, d.w);
    assert d.w * (d.l * d.h - 1) == d.w * (d.l * d.h) - d.w;
    assert Volume(d) == d.w * (d.l * d.h);
  }

  /**
   * getPosition fails exactly off the grid, and on the grid gives an offset
   * into the arrays.
   */
  lemma PositionRange(d: Dims, x: int, y: int, z: int)
    ensures Position(d, x, y, z).Ok? <==> InBounds(d, x, y, z)
    ensures Position(d, x, y, z).Ok? ==> 0 <= Position(d, x, y, z).value < Volume(d)
  {
    if InBounds(d, x, y, z) {
      IndexRange(d, x, y, z);
    }
  }

  /** The coordinates of the offset of an in-bounds cell are that cell's. */
  lemma CoordsOfIndex(d: Dims, x: int, y: int, z: int)
    requires InBounds(d, x, y, z)
    ensures Coords(d, Index(d, x, y, z)) == (x, y, z)
  {
    var i := Index(d, x, y, z);
    var q := z + d.l * y;
    IndexFactor(d, x, y, z);
    assert i == q * d.w + x;
    DivModUnique(i, d.w, q, x);
    assert q == y * d.l + z;
    DivModUnique(q, d.l, y, z);
  }

  /** Distinct in-bounds cells have distinct offsets. */
  lemma PositionInjective(d: Dims, x: int, y: int, z: int, x': int, y': int, z': int)
    requires InBounds(d, x, y, z) && InBounds(d, x', y', z')
    requires Position(d, x, y, z) == Position(d, x', y', z')
    ensures x == x' && y == y' && z == z'
  {
    CoordsOfIndex(d, x, y, z);
    CoordsOfIndex(d, x', y', z');
  }

  /** A volume with a cell has no empty side. */
  lemma VolumePositive(d: Dims)
    requires Volume(d) > 0
    ensures d.w > 0 && d.h > 0 && d.l > 0
  {
    assert Volume(d) == d.w * (d.h * d.l) == d.h * (d.w * d.l);
  }

  /** The quotient of n in [0, m * w) by a positive w lies in [0, m). */
  lemma DivBelow(n: int, w: int, m: int)
    requires 0 < w && 0 <= n < m * w
    ensures 0 <= n / w < m
  {
    var q := n / w;
    assert (q - m) * w == q * w - m * w;
    MulAtLeast(q - m, w);
    MulAtLeast(q, w);
  }

  /** Every offset in [0, Volume) is the position of the in-bounds cell at its coordinates. */
  lemma IndexOfCoords(d: Dims, i: int)
    requires 0 <= i < Volume(d)
    ensures d.w > 0 && d.l > 0
    ensures var (x, y, z) := Coords(d, i); InBounds(d, x, y, z) && Position(d, x, y, z) == Ok(i)
  {
    VolumePositive(d);
    var (x, y, z) := Coords(d, i);
    var q := i / d.w;
    assert Volume(d) == (d.h * d.l) * d.w;
    DivBelow(i, d.w, d.h * d.l);
    DivBelow(q, d.l, d.h);
    assert i == d.w * q + x;
    assert q == d.l * y + z;
    IndexFactor(d, x, y, z);
  }
}
