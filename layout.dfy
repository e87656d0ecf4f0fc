/**
 * The flat layout of the voxel buffer: Z outermost, then Y, then X, four bytes
 * (R, G, B, A) per cell.
 */
module VoxelLayout {
  import opened Arith

  /** Grid coordinates of one cell. */
  datatype Coord = Coord(x: nat, y: nat, z: nat)

  /** The cell lies inside a `width` x `height` x `depth` grid. */
  predicate InGrid(c: Coord, width: nat, height: nat, depth: nat) {
    c.x < width && c.y < height && c.z < depth
  }

  /** Number of channels per cell (RGBA). */
  const Channels: nat := 4

  /** Position of a cell in visiting order, `z * width * height + y * width + x`. */
  function CellIndex(x: nat, y: nat, z: nat, width: nat, height: nat): nat {
    z * width * height + y * width + x
  }

  /** Byte offset of a cell's R channel, `(z * width * height + y * width + x) * 4`. */
  function Idx(x: nat, y: nat, z: nat, width: nat, height: nat): nat {
    CellIndex(x, y, z, width, height) * Channels
  }

  /** The cell at a given position in visiting order (the inverse of CellIndex). */
  function CellOf(n: nat, width: nat, height: nat): (c: Coord)
    requires width > 0 && height > 0
    ensures c.x < width && c.y < height
  {
    Coord(n % width, (n / width) % height, (n / width) / height)
  }

  /** Every cell of the grid has its four bytes inside a buffer of `width*height*depth*4` bytes. */
  lemma IdxInBounds(x: nat, y: nat, z: nat, width: nat, height: nat, depth: nat)
    requires x < width && y < height && z < depth
    ensures CellIndex(x, y, z, width, height) < width * height * depth
    ensures Idx(x, y, z, width, height) + 3 < width * height * depth * Channels
  {
    assert y * width <= (height - 1) * width;
    assert CellIndex(x, y, z, width, height) <= (z + 1) * (width * height) - 1;
    assert (z + 1) * (width * height) <= depth * (width * height);
  }

  /** The end of a row is the start of the next row. */
  lemma RowEnd(y: nat, z: nat, width: nat, height: nat)
    ensures CellIndex(width, y, z, width, height) == CellIndex(0, y + 1, z, width, height)
  {
    assert (y + 1) * width == y * width + width;
  }

  /** The end of a slice is the start of the next slice. */
  lemma SliceEnd(z: nat, width: nat, height: nat)
    ensures CellIndex(0, height, z, width, height) == CellIndex(0, 0, z + 1, width, height)
  {
    assert (z + 1) * width * height == z * width * height + height * width;
  }

  /** The end of the last slice is the number of cells. */
  lemma GridEnd(width: nat, height: nat, depth: nat)
    ensures CellIndex(0, 0, depth, width, height) == width * height * depth
  {
    assert depth * width * height == width * height * depth;
  }

  /** The far corner cell is the last one visited, so its slot ends exactly at the end of the buffer. */
  lemma LastCellIdx(width: nat, height: nat, depth: nat)
    requires width > 0 && height > 0 && depth > 0
    ensures CellIndex(width - 1, height - 1, depth - 1, width, height) + 1 == width * height * depth
    ensures Idx(width - 1, height - 1, depth - 1, width, height) + Channels
         == width * height * depth * Channels
  {
    RowEnd(height - 1, depth - 1, width, height);
    SliceEnd(depth - 1, width, height);
    GridEnd(width, height, depth);
  }

  /** Decoding the visiting position of an in-grid cell gives back that cell. */
  lemma CellOfCellIndex(x: nat, y: nat, z: nat, width: nat, height: nat)
    requires x < width && y < height
    ensures CellOf(CellIndex(x, y, z, width, height), width, height) == Coord(x, y, z)
  {
    var n := CellIndex(x, y, z, width, height);
    assert n == (z * height + y) * width + x;
    DivModUnique(n, width, z * height + y, x);
    DivModUnique(z * height + y, height, z, y);
  }

  /** Every position below `width*height*depth` decodes to an in-grid cell whose position it is. */
  lemma CellIndexOfCellOf(n: nat, width: nat, height: nat, depth: nat)
    requires n < width * height * depth
    ensures width > 0 && height > 0
    ensures InGrid(CellOf(n, width, height), width, height, depth)
    ensures var c := CellOf(n, width, height); CellIndex(c.x, c.y, c.z, width, height) == n
  {
    assert width > 0 && height > 0;
    var c := CellOf(n, width, height);
    var q := n / width;
    assert n == q * width + c.x;
    assert q == c.z * height + c.y;
    assert n == c.z * width * height + c.y * width + c.x;
    DivBelow(n, width, height * depth);
    DivBelow(q, height, depth);
  }

  /** Distinct in-grid cells own disjoint four-byte slots: no cell overwrites another's bytes. */
  lemma SlotsDisjoint(c1: Coord, c2: Coord, width: nat, height: nat, depth: nat)
    requires InGrid(c1, width, height, depth) && InGrid(c2, width, height, depth)
    requires c1 != c2
    ensures Idx(c1.x, c1.y, c1.z, width, height) + Channels <= Idx(c2.x, c2.y, c2.z, width, height)
         || Idx(c2.x, c2.y, c2.z, width, height) + Channels <= Idx(c1.x, c1.y, c1.z, width, height)
  {
    CellOfCellIndex(c1.x, c1.y, c1.z, width, height);
    CellOfCellIndex(c2.x, c2.y, c2.z, width, height);
  }

  /** Every byte of a `width*height*depth*4` buffer belongs to the slot of some in-grid cell. */
  lemma EveryByteInSomeSlot(i: nat, width: nat, height: nat, depth: nat)
    requires i < width * height * depth * Channels
    ensures exists c: Coord ::
      && InGrid(c, width, height, depth)
      && Idx(c.x, c.y, c.z, width, height) <= i < Idx(c.x, c.y, c.z, width, height) + Channels
  {
    CellIndexOfCellOf(i / Channels, width, height, depth);
    var c := CellOf(i / Channels, width, height);
    assert Idx(c.x, c.y, c.z, width, height) <= i < Idx(c.x, c.y, c.z, width, height) + Channels;
  }
}
