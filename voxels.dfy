/**
 * The procedural voxel buffer: a zero-filled RGBA byte buffer of
 * `width * height * depth * 4` bytes, filled cell by cell in Z, Y, X order
 * with coordinate-derived colours.
 */
module VoxelData {
  import opened Uint8
  import opened VoxelLayout
  import opened Arith

  /** The colour value the program computes for a coordinate, `c / dim * 255`, in exact arithmetic. */
  function Scale(c: nat, dim: nat): real
    requires dim > 0
  {
    c as real / dim as real * 255.0
  }

  /** The computed colour value times the dimension is `c * 255`. */
  lemma ScaleTimesDim(c: nat, dim: nat)
    requires dim > 0
    ensures Scale(c, dim) * dim as real == (c * 255) as real
  {
    var m := dim as real;
    assert (c as real / m) * m == c as real;
  }

  /** floor(c * 255 / dim) lies below 255 and within one unit below the computed colour value. */
  lemma ScaleFloor(c: nat, dim: nat)
    requires c < dim
    ensures c * 255 / dim <= 254
    ensures (c * 255 / dim) as real <= Scale(c, dim) < (c * 255 / dim) as real + 1.0
  {
    var a, q, r := c * 255, c * 255 / dim, c * 255 % dim;
    DivModUnique(a, dim, q, r);
    assert q * dim <= a < (q + 1) * dim;
    MulMonotone(c + 1, dim, 255);
    DivBelow(a, dim, 255);
    ScaleTimesDim(c, dim);
    RealSandwich(Scale(c, dim), q, dim, a);
  }

  /**
   * The byte a channel holds: floor(c * 255 / dim). It is the floor of the
   * computed colour value and never exceeds 254, so the byte store cannot wrap.
   */
  function Channel(c: nat, dim: nat): (r: byte)
    requires c < dim
    ensures r <= 254
    ensures r as real <= Scale(c, dim) < r as real + 1.0
  {
    ScaleFloor(c, dim);
    (c * 255 / dim) as byte
  }

  /** Storing the computed colour value into a `Uint8Array` yields exactly the channel byte. */
  lemma StoredIsChannel(c: nat, dim: nat)
    requires c < dim
    ensures ToUint8(Scale(c, dim)) == Channel(c, dim)
  {
    var r := Channel(c, dim);
    var b := ToUint8(Scale(c, dim));
    assert 0.0 <= Scale(c, dim) < 256.0;
    assert b as real <= Scale(c, dim) < b as real + 1.0;
  }

  /** The byte the finished buffer holds at offset `i`: decode the cell and the channel. */
  function VoxelByte(i: nat, width: nat, height: nat, depth: nat): byte
    requires i < width * height * depth * Channels
  {
    CellIndexOfCellOf(i / Channels, width, height, depth);
    var c := CellOf(i / Channels, width, height);
    match i % Channels
    case 0 => Channel(c.x, width)
    case 1 => Channel(c.y, height)
    case 2 => Channel(c.z, depth)
    case _ => 255
  }

  /** The whole finished buffer. */
  function Voxels(width: nat, height: nat, depth: nat): (s: seq<byte>)
    ensures |s| == width * height * depth * Channels
  {
    seq(width * height * depth * Channels, i requires 0 <= i < width * height * depth * Channels =>
      VoxelByte(i, width, height, depth))
  }

  /** The four bytes of cell (x, y, z) lie in `s` and hold (R, G, B, A) = (x, y, z scaled to a byte, 255). */
  predicate CellHolds(s: seq<byte>, x: nat, y: nat, z: nat, width: nat, height: nat, depth: nat)
    requires x < width && y < height && z < depth
  {
    var k := Idx(x, y, z, width, height);
    && k + 3 < |s|
    && s[k] == Channel(x, width)
    && s[k + 1] == Channel(y, height)
    && s[k + 2] == Channel(z, depth)
    && s[k + 3] == 255
  }

  /** In the finished buffer every in-grid cell holds its colour. */
  lemma VoxelsAtCell(x: nat, y: nat, z: nat, width: nat, height: nat, depth: nat)
    requires x < width && y < height && z < depth
    ensures CellHolds(Voxels(width, height, depth), x, y, z, width, height, depth)
  {
    var n := CellIndex(x, y, z, width, height);
    var k := Idx(x, y, z, width, height);
    IdxInBounds(x, y, z, width, height, depth);
    CellOfCellIndex(x, y, z, width, height);
    DivModUnique(k, Channels, n, 0);
    DivModUnique(k + 1, Channels, n, 1);
    DivModUnique(k + 2, Channels, n, 2);
    DivModUnique(k + 3, Channels, n, 3);
  }

  /**
   * A buffer of the right length in which every in-grid cell holds its colour
   * is the finished buffer: every byte belongs to some cell, so none is left over.
   */
  lemma CellsDetermineBuffer(s: seq<byte>, width: nat, height: nat, depth: nat)
    requires |s| == width * height * depth * Channels
    requires forall x: nat, y: nat, z: nat | x < width && y < height && z < depth ::
      CellHolds(s, x, y, z, width, height, depth)
    ensures s == Voxels(width, height, depth)
  {
    var v := Voxels(width, height, depth);
    forall i | 0 <= i < |s|
      ensures s[i] == v[i]
    {
      CellIndexOfCellOf(i / Channels, width, height, depth);
      var c := CellOf(i / Channels, width, height);
      assert CellHolds(s, c.x, c.y, c.z, width, height, depth);
      assert i == Idx(c.x, c.y, c.z, width, height) + i % Channels;
    }
  }

  /**
   * The state of the buffer while the loops run: every cell visited so far
   * (position below `visited` in Z, Y, X order) holds its colour, and every
   * byte after the visited cells still holds the 0 it was allocated with.
   */
  ghost predicate Visited(s: seq<byte>, visited: nat, width: nat, height: nat, depth: nat) {
    && (forall x: nat, y: nat, z: nat {:trigger CellHolds(s, x, y, z, width, height, depth)}
          | x < width && y < height && z < depth ::
          CellIndex(x, y, z, width, height) < visited ==> CellHolds(s, x, y, z, width, height, depth))
    && (forall i | Channels * visited <= i < |s| :: s[i] == 0)
  }

  /** Writing one cell's four bytes, in visiting order, extends the visited prefix by that cell. */
  lemma FillCell(s: seq<byte>, x: nat, y: nat, z: nat, width: nat, height: nat, depth: nat)
    requires x < width && y < height && z < depth
    requires |s| == width * height * depth * Channels
    requires Visited(s, CellIndex(x, y, z, width, height), width, height, depth)
    ensures var k := Idx(x, y, z, width, height);
      && k + 3 < |s|
      && Visited(s[k := Channel(x, width)][k + 1 := Channel(y, height)]
                  [k + 2 := Channel(z, depth)][k + 3 := 255],
                 CellIndex(x, y, z, width, height) + 1, width, height, depth)
  {
    var f := CellIndex(x, y, z, width, height);
    var k := Idx(x, y, z, width, height);
    IdxInBounds(x, y, z, width, height, depth);
    var t := s[k := Channel(x, width)][k + 1 := Channel(y, height)][k + 2 := Channel(z, depth)][k + 3 := 255];
    forall x': nat, y': nat, z': nat | x' < width && y' < height && z' < depth
        && CellIndex(x', y', z', width, height) < f + 1
      ensures CellHolds(t, x', y', z', width, height, depth)
    {
      if CellIndex(x', y', z', width, height) < f {
        assert CellHolds(s, x', y', z', width, height, depth);
      } else {
        CellOfCellIndex(x, y, z, width, height);
        CellOfCellIndex(x', y', z', width, height);
      }
    }
  }

  /**
   * The body of the innermost loop: compute the cell's byte offset and store
   * its R, G, B and A bytes there.
   */
  method StoreCell(data: array<byte>, x: nat, y: nat, z: nat, width: nat, height: nat, depth: nat)
    requires x < width && y < height && z < depth
    requires data.Length == width * height * depth * Channels
    requires Visited(data[..], CellIndex(x, y, z, width, height), width, height, depth)
    modifies data
    ensures Visited(data[..], CellIndex(x, y, z, width, height) + 1, width, height, depth)
  {
    var index := Idx(x, y, z, width, height);
    FillCell(data[..], x, y, z, width, height, depth);
    StoredIsChannel(x, width);
    StoredIsChannel(y, height);
    StoredIsChannel(z, depth);
    data[index] := ToUint8(Scale(x, width));
    data[index + 1] := ToUint8(Scale(y, height));
    data[index + 2] := ToUint8(Scale(z, depth));
    data[index + 3] := 255;
  }

  /** Once every cell has been visited, the buffer is the finished buffer. */
  lemma FinishFill(s: seq<byte>, width: nat, height: nat, depth: nat)
    requires |s| == width * height * depth * Channels
    requires Visited(s, CellIndex(0, 0, depth, width, height), width, height, depth)
    ensures s == Voxels(width, height, depth)
  {
    GridEnd(width, height, depth);
    forall x: nat, y: nat, z: nat | x < width && y < height && z < depth
      ensures CellHolds(s, x, y, z, width, height, depth)
    {
      IdxInBounds(x, y, z, width, height, depth);
    }
    CellsDetermineBuffer(s, width, height, depth);
  }

  /** A freshly allocated, all-zero buffer is in the loop state with no cell visited. */
  lemma StartFill(s: seq<byte>, width: nat, height: nat, depth: nat)
    requires |s| == width * height * depth * Channels
    requires forall i | 0 <= i < |s| :: s[i] == 0
    ensures Visited(s, CellIndex(0, 0, 0, width, height), width, height, depth)
  {
  }

  /**
   * Allocate a zero-filled buffer and fill it: for each z, each y, each x,
   * write R, G, B and A at `(z * width * height + y * width + x) * 4`.
   */
  method BuildVoxels(width: nat, height: nat, depth: nat) returns (data: array<byte>)
    ensures data.Length == width * height * depth * Channels
    ensures data[..] == Voxels(width, height, depth)
  {
    data := new byte[width * height * depth * Channels](_ => 0);
    StartFill(data[..], width, height, depth);
    var z: nat := 0;
    while z < depth
      invariant z <= depth
      invariant Visited(data[..], CellIndex(0, 0, z, width, height), width, height, depth)
    {
      var y: nat := 0;
      while y < height
        invariant y <= height
        invariant Visited(data[..], CellIndex(0, y, z, width, height), width, height, depth)
      {
        var x: nat := 0;
        while x < width
          invariant x <= width
          invariant Visited(data[..], CellIndex(x, y, z, width, height), width, height, depth)
        {
          StoreCell(data, x, y, z, width, height, depth);
          x := x + 1;
        }
        RowEnd(y, z, width, height);
        y := y + 1;
      }
      SliceEnd(z, width, height);
      z := z + 1;
    }
    FinishFill(data[..], width, height, depth);
  }

  /** The slot of a cell that holds its colour reads (R, G, B, A). */
  lemma CellSlot(s: seq<byte>, x: nat, y: nat, z: nat, width: nat, height: nat, depth: nat)
    requires x < width && y < height && z < depth
    requires CellHolds(s, x, y, z, width, height, depth)
    ensures var k := Idx(x, y, z, width, height);
      s[k..k + 4] == [Channel(x, width), Channel(y, height), Channel(z, depth), 255]
  {
    var k := Idx(x, y, z, width, height);
    assert s[k..k + 4] == [s[k], s[k + 1], s[k + 2], s[k + 3]];
  }

  /** In any non-empty grid the first four bytes are (0, 0, 0, 255). */
  lemma FirstCellBytes(width: nat, height: nat, depth: nat)
    requires width > 0 && height > 0 && depth > 0
    ensures |Voxels(width, height, depth)| >= 4
    ensures Voxels(width, height, depth)[0..4] == [0, 0, 0, 255]
  {
    VoxelsAtCell(0, 0, 0, width, height, depth);
    CellSlot(Voxels(width, height, depth), 0, 0, 0, width, height, depth);
  }

  /**
   * In any non-empty grid the last four bytes belong to the far corner
   * (width - 1, height - 1, depth - 1).
   */
  lemma LastCellBytes(width: nat, height: nat, depth: nat)
    requires width > 0 && height > 0 && depth > 0
    ensures var n := |Voxels(width, height, depth)|;
      && n >= 4
      && Voxels(width, height, depth)[n - 4..n]
         == [Channel(width - 1, width), Channel(height - 1, height), Channel(depth - 1, depth), 255]
  {
    var s := Voxels(width, height, depth);
    var k := Idx(width - 1, height - 1, depth - 1, width, height);
    assert k + 4 == |s| by {
      LastCellIdx(width, height, depth);
    }
    assert s[k..k + 4]
        == [Channel(width - 1, width), Channel(height - 1, height), Channel(depth - 1, depth), 255] by {
      VoxelsAtCell(width - 1, height - 1, depth - 1, width, height, depth);
      CellSlot(s, width - 1, height - 1, depth - 1, width, height, depth);
    }
  }

  /** A 2 x 2 x 2 grid: the far corner cell (1, 1, 1) sits at offset 28 and holds (127, 127, 127, 255). */
  lemma TwoCubeFarCorner()
    ensures |Voxels(2, 2, 2)| == 32
    ensures Voxels(2, 2, 2)[28..32] == [127, 127, 127, 255]
  {
    VoxelsAtCell(1, 1, 1, 2, 2, 2);
    assert Idx(1, 1, 1, 2, 2) == 28;
    assert Channel(1, 2) == 127;
  }
}
