/** The program's own configuration: a 32 x 32 x 32 grid, generated once at start-up. */
module VoxelProgram {
  import opened Uint8
  import opened VoxelLayout
  import opened VoxelData

  /** The grid dimensions the program uses. */
  const Width: nat := 32
  const Height: nat := 32
  const Depth: nat := 32

  /** The program's buffer is 32 * 32 * 32 * 4 bytes long. */
  lemma ProgramBufferLength()
    ensures |Voxels(Width, Height, Depth)| == 131072
  {
  }

  /** Along each 32-wide axis, coordinate 0 gives byte 0 and coordinate 31 gives byte 247, not 255. */
  lemma ProgramChannelRange()
    ensures Channel(0, Width) == 0 && Channel(Width - 1, Width) == 247
  {
  }

  /** The program's buffer starts with (0, 0, 0, 255) and ends with (247, 247, 247, 255). */
  lemma ProgramCorners()
    ensures |Voxels(Width, Height, Depth)| == 131072
    ensures Voxels(Width, Height, Depth)[0..4] == [0, 0, 0, 255]
    ensures Voxels(Width, Height, Depth)[131068..131072] == [247, 247, 247, 255]
  {
    ProgramBufferLength();
    ProgramChannelRange();
    FirstCellBytes(Width, Height, Depth);
    LastCellBytes(Width, Height, Depth);
  }

  /** The program's buffer: the 32 x 32 x 32 grid, filled. */
  method GenerateVoxelData() returns (voxelData: array<byte>)
    ensures voxelData.Length == 131072
    ensures voxelData[0..4] == [0, 0, 0, 255]
    ensures voxelData[131068..131072] == [247, 247, 247, 255]
    ensures voxelData[..] == Voxels(Width, Height, Depth)
  {
    voxelData := BuildVoxels(Width, Height, Depth);
    ProgramCorners();
    assert voxelData[0..4] == voxelData[..][0..4];
    assert voxelData[131068..131072] == voxelData[..][131068..131072];
  }
}
