# Procedural RGBA voxel buffer

The program is a small three.js demo. At start-up it builds a 32 x 32 x 32 grid of
voxels as one flat `Uint8Array` in RGBA order. Each cell gets a colour derived from
its coordinates: red follows `x`, green follows `y`, blue follows `z`, and alpha is
always 255. Cell `(x, y, z)` sits at byte offset `(z * width * height + y * width + x) * 4`.
The program then wraps the buffer in a `THREE.DataTexture(voxelData, width, height, depth)`.
That is three.js's 2-D data texture, whose fourth parameter is the pixel format, so `depth`
lands there. The texture is passed as an extra third argument to `THREE.Mesh`, which
takes only a geometry and a material. So the buffer reaches no 3-D texture and no
renderer. This project models the generation of that buffer and proves what it contains.

Modules:

- `Uint8` (`uint8.dfy`): a `byte` type. It also holds `ToUint8`, the conversion
  a `Uint8Array` element store applies to a number. That conversion truncates toward
  zero and reduces modulo 256, as section 7.1.11 of ECMA-262 defines.
- `VoxelLayout` (`layout.dfy`): the flat cell index and byte offset, and their decoding
  inverse `CellOf`. Lemmas cover bounds, injectivity, disjoint 4-byte slots and coverage
  of every byte.
- `VoxelData` (`voxels.dfy`): the colour of a coordinate (`Scale` / `Channel`) and the
  reference buffer `Voxels(width, height, depth)`, which defines each byte directly from
  its offset. The triple loop is `BuildVoxels`, an imperative method over an
  `array<byte>`. Its innermost body is `StoreCell`. It is proved to produce exactly
  `Voxels`.
- `VoxelProgram` (`program.dfy`): the program's own 32 x 32 x 32 instance.
- `Arith` (`arith.dfy`): helper lemmas on division and multiplication.

The grid dimensions are general `nat`s, and the program's constants are one instance.
The source does not guard the dimensions. With a zero dimension the innermost loop body
never runs: with a zero width, for instance, the `z` and `y` loops still run, but no `x`
is ever visited. So nothing is divided by zero, and the buffer is simply empty. The model
has no error for a zero dimension.

The colour expression `x / width * 255` is modelled on exact reals (`Scale`). The stored
byte is `ToUint8` of that value. `StoredIsChannel` proves it equals `floor(x * 255 / width)`,
which is at most 254. For the program's 32-wide axes, coordinate 31 therefore stores
`floor(7905 / 32) = 247` (`VoxelProgram.ProgramChannelRange`).

## Model

| member | source | states |
|---|---|---|
| Uint8.Truncate | main.js:42-44 | Truncation toward zero: for a non-negative value the result is the largest integer not above it; for a negative value, the smallest integer not below it |
| Uint8.ToUint8 | main.js:42-44 | Storing a number into a `Uint8Array` element: a value in [0, 256) becomes its floor, a value in (-1, 0) becomes 0, and every result is the truncated value reduced modulo 256 |
| VoxelData.Channel | main.js:42-44 | The channel byte of coordinate `c` along an axis of size `dim` is at most 254 and is the floor of `c / dim * 255` |
| VoxelData.ScaleFloor | main.js:42-44 | `floor(c * 255 / dim)` is at most 254 and lies within one unit below the computed colour value |
| VoxelData.StoredIsChannel | main.js:42-44 | Storing the computed colour value into the buffer yields exactly the channel byte, so the store never wraps modulo 256 |
| VoxelData.Scale | main.js:42-44 | The colour expression `c / dim * 255` on exact reals. It is a definition without a contract of its own; `ScaleFloor` and `StoredIsChannel` prove its properties |
| VoxelLayout.CellIndex | main.js:41 | The cell part of the offset formula, `z * width * height + y * width + x`. It is a definition without a contract of its own; `IdxInBounds`, `CellOfCellIndex`, `CellIndexOfCellOf` and `SlotsDisjoint` prove its properties |
| VoxelLayout.Idx | main.js:41 | The byte offset of a cell, `CellIndex * 4`. It is a definition without a contract of its own; `IdxInBounds` and `SlotsDisjoint` prove its properties |
| VoxelLayout.IdxInBounds | main.js:35-41 | For every in-grid cell the cell index is below `width * height * depth`, and the cell's 4 bytes lie inside the buffer of `width * height * depth * 4` bytes |
| VoxelLayout.CellOfCellIndex | main.js:41 | Decoding a cell's flat index gives back its coordinates, so the index formula is injective on the grid |
| VoxelLayout.CellIndexOfCellOf | main.js:38-41 | Every flat index below `width * height * depth` decodes to an in-grid cell whose index is that flat index, so the index formula is onto |
| VoxelLayout.SlotsDisjoint | main.js:41-45 | Two distinct in-grid cells write disjoint 4-byte slots |
| VoxelLayout.EveryByteInSomeSlot | main.js:35-45 | Every byte offset of the buffer lies in the 4-byte slot of some in-grid cell |
| VoxelLayout.LastCellIdx | main.js:38-41 | The far corner cell has the last index, and its slot ends exactly at the buffer's end |
| VoxelLayout.RowEnd | main.js:40-41 | Finishing a row of `x` reaches the index where the next row starts |
| VoxelLayout.SliceEnd | main.js:39-41 | Finishing a slice of `y` reaches the index where the next slice starts |
| VoxelLayout.GridEnd | main.js:35-38 | The index after the last slice equals the cell count `width * height * depth` |
| VoxelData.VoxelsAtCell | main.js:41-45 | In the reference buffer, every in-grid cell's slot holds (R, G, B, A) = (x, y, z scaled to a byte, 255) |
| VoxelData.CellsDetermineBuffer | main.js:35-45 | A buffer of the right length in which every cell holds its colour equals the reference buffer, so no byte is left unwritten |
| VoxelData.FillCell | main.js:41-45 | Writing one cell's four bytes extends the loop invariant (visited cells hold their colours, later bytes are still 0) by that cell |
| VoxelData.StoreCell | main.js:41-45 | The innermost loop body keeps the loop invariant and advances it by one cell |
| VoxelData.StartFill | main.js:35 | The freshly zero-filled buffer satisfies the loop invariant with no cell visited |
| VoxelData.FinishFill | main.js:38-48 | When every cell has been visited, the buffer equals the reference buffer |
| VoxelData.BuildVoxels | main.js:35-48 | The triple loop returns a buffer of `width * height * depth * 4` bytes equal to the reference buffer |
| VoxelData.CellSlot | main.js:41-45 | The 4-byte slot of a filled cell reads (R, G, B, 255) |
| VoxelData.FirstCellBytes | main.js:38-45 | In any non-empty grid the buffer starts with (0, 0, 0, 255) |
| VoxelData.LastCellBytes | main.js:38-45 | In any non-empty grid the last four bytes are the far corner's (R, G, B, 255) |
| VoxelData.TwoCubeFarCorner | main.js:41-45 | In a 2 x 2 x 2 grid the far corner sits at offset 28 and holds (127, 127, 127, 255) |
| VoxelProgram.ProgramBufferLength | main.js:32-35 | The program's reference buffer of `32 * 32 * 32 * 4` bytes is 131072 bytes long |
| VoxelProgram.ProgramChannelRange | main.js:32-34 | On a 32-wide axis, coordinate 0 stores 0 and coordinate 31 stores 247 |
| VoxelProgram.ProgramCorners | main.js:32-45 | The program's buffer starts with (0, 0, 0, 255) and ends with (247, 247, 247, 255) |
| VoxelProgram.GenerateVoxelData | main.js:32-48 | The program's buffer is 131072 bytes, has those corner bytes, and equals the reference buffer |

## Left out

- The source computes `x / width * 255` in IEEE-754 double precision. The model uses exact reals. The two agree whenever the dimension is a power of two, as the program's 32 is.
- `ToUint8` does not model NaN or the infinities, which map to 0 in ECMA-262. The colour expression never produces them.
- Negative or fractional dimensions are not modelled; the dimensions are `nat`. In the source, a negative length would make `new Uint8Array` throw a `RangeError`.
- Byte counts above the 2^53 and typed-array length limits of JavaScript are not modelled; integers here are unbounded.
- The three.js scene is not part of this model: renderer, camera, sphere geometry, `DataTexture` construction, the shader source strings, the commented-out shader material, the resize handler, the render loop and the gsap animation. None of it reads or changes the buffer's contents.
