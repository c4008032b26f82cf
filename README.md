# Voxel-to-schematic core, modelled in Dafny

This project models the deterministic integer middle and back end of an image → voxel →
Minecraft block → schematic pipeline, and proves properties of that model.

- **The voxel container** (`core_voxelizer.py`):
  - `VoxelMesh` is a sparse dictionary from `"x,y,z"` keys to RGBA colours.
  - It tracks the minimum and maximum corners incrementally, starting from ±infinity.
  - An empty mesh reports (0,0,0)-(0,0,0) bounds.
  - `to_numpy_array` turns the dictionary into a dense, bounds-sized colour grid.
  - The tail of the texture sampler clamps the texture coordinates and converts a pixel into an RGBA colour.
- **Face exposure and block matching** (`block_mapper.py`):
  - The six-bit face-visibility mask of every solid cell.
  - The face filter of the atlas loader.
  - The contextual average colour of an atlas block over its visible faces.
  - The voxel-to-block mapper: a bounds check, a memoised argmin of squared RGB distance with the first block winning ties, and `minecraft:stone` when the atlas is empty.
  - The `BlockMesh` that collects the blocks.
- **The schematic exporter** (`exporter.py`):
  - Dimensions are the bounds' extents, floored at one.
  - Palette ids follow first-seen order, and `minecraft:air` is always present.
  - A Y-Z-X id grid starts as air and is filled in place, the last block on a cell winning.
  - The grid is flattened in C order.
  - Each id is encoded as an unsigned base-128 VarInt. This is the `BlockData` encoding of the Sponge Schematic Specification version 2, which is unsigned LEB128 as in section 7.6 of DWARF version 4.
  - The bytes are reinterpreted as signed NBT bytes.

Modules, one per file:

| module | file | contents |
|---|---|---|
| `Wrappers` | `wrappers.dfy` | `Option` |
| `VoxelKeys` | `voxel_keys.dfy` | the `"x,y,z"` key: decimal formatting, `split(',')`, `int()` parsing, the round trip |
| `CoreVoxelizer` | `core_voxelizer.dfy` | `RGBA`, `Vector3`, the `VoxelMesh` class, the dense grid, the pixel conversion and the clamp |
| `FaceVisibility` | `face_visibility.dfy` | the face bits, the exposure mask and `calculate_face_visibility` |
| `OrderedDicts` | `ordered_dicts.dfy` | a Python `dict` with its insertion order |
| `Atlas` | `atlas.dfy` | the structural part of `load_atlas_data` and `get_contextual_face_average` |
| `BlockMapper` | `block_mapper.dfy` | `Block`, the `BlockMesh` class and `map_voxels_to_blocks` |
| `VarInt` | `varint.dfy` | `encode_as_varint`, `to_signed_byte_list`, and a decoder used to state the round trip |
| `Exporter` | `exporter.dfy` | the `Exporter` class: palette, id grid, flattening and the schematic record |

Modelling choices:
- Coordinates are integers; the pipeline only ever stores whole voxel coordinates.
- The ±infinity starting bounds are an explicit extended integer.
- A Python `dict` whose iteration order matters is a map plus its insertion order:
  - the voxel dictionary (`voxels` and `order` of `VoxelMesh`);
  - the atlas (`OrderedDicts.Dict`).
- Methods that mutate objects or arrays in the source are methods here:
  - `add_voxel`, `add_block`, `_build_palette` and the constructors;
  - the grid-filling loops of `to_numpy_array`, `calculate_face_visibility` and `export_to_schem_v2`;
  - the loops of `get_contextual_face_average`, `map_voxels_to_blocks` and `encode_as_varint`.
  
  Each of these methods is proved against a specification function:
  - `Painted`/`Shade`, `Visibility`, `CellId`/`Flat`;
  - `ContextualColour`, `ChosenName`/`Mapped`, `EncodeAll`.
  
  The lemmas are stated about those functions.
- `get_contextual_face_average` divides with `int(a / count)`. This truncates toward zero, and `Atlas.TruncDiv` models it that way. For the non-negative channel sums of real colours, truncation equals the floor.
- Python's `str < str` compares code points, a proper prefix first. `BlockMapper.StrLt` models it and proves it a strict total order.

## Model

| member | source | states |
|---|---|---|
| VoxelKeys.IntToDecimal | core_voxelizer.py:46 | `str(i)` is non-empty, starts with `-` exactly when i is negative, and is digits after its first character |
| VoxelKeys.ParseInt | core_voxelizer.py:67 | `int(s)` fails on the empty string and on any text with a comma, gives a negative value only after a leading `-`, and reads a digit string as its decimal value |
| VoxelKeys.Split | block_mapper.py:158 | `key.split(',')` always yields at least one part |
| VoxelKeys.SplitAtComma | block_mapper.py:158 | splitting `a + "," + b` with no comma in `a` gives `a` followed by the parts of `b` |
| VoxelKeys.ParseAll | core_voxelizer.py:67 | `[int(c) for c in parts]` succeeds exactly when every part parses, with one integer per part, each the value of its part |
| VoxelKeys.FormatKey | core_voxelizer.py:46 | the key `f"{x},{y},{z}"` splits at its commas into exactly `str(x)`, `str(y)`, `str(z)` |
| VoxelKeys.ParseKey | block_mapper.py:158 | a parsed key has at least one integer; a key without a comma parses exactly when `int` accepts it, to that single integer |
| VoxelKeys.IntToDecimalParses | core_voxelizer.py:46 | `int(str(i)) == i` for every integer, negative ones included |
| VoxelKeys.KeyRoundTrip | core_voxelizer.py:46 | parsing the key `f"{x},{y},{z}"` with `split(',')` and `int` gives back `[x, y, z]` |
| VoxelKeys.FormatKeyInjective | core_voxelizer.py:46 | distinct coordinates get distinct dictionary keys |
| CoreVoxelizer.Vector3.Sub | core_voxelizer.py:28 | subtraction is undone by adding the subtrahend back, on either side |
| CoreVoxelizer.MinExt | core_voxelizer.py:38-40 | `min` against +infinity is the new value; otherwise the result is at most both arguments and equal to one of them |
| CoreVoxelizer.MaxExt | core_voxelizer.py:41-43 | `max` against -infinity is the new value; otherwise the result is at least both arguments and equal to one of them |
| CoreVoxelizer.KeyOf | core_voxelizer.py:46 | the key a voxel is stored under parses back to its three coordinates |
| CoreVoxelizer.CoordOfKey | core_voxelizer.py:46 | decoding a coordinate's key gives the coordinate, so keys are equal exactly when coordinates are |
| CoreVoxelizer.VoxelMesh.constructor | core_voxelizer.py:32-35 | a new mesh is empty and satisfies the mesh invariant |
| CoreVoxelizer.VoxelMesh.UpdateBounds | core_voxelizer.py:37-43 | each bound becomes the min (max) of the old bound and the new coordinate |
| CoreVoxelizer.VoxelMesh.AddVoxel | core_voxelizer.py:45-48 | after the add, the coordinate holds the new colour and every other coordinate keeps its colour; a new key is appended to the order; the mesh invariant is kept |
| CoreVoxelizer.MeshInvAdd | core_voxelizer.py:45-48 | storing a voxel and widening the bounds preserves the invariant: every key decodes, the order lists each key once, and the bounds are attained and contain every voxel |
| CoreVoxelizer.AddChangesOneCell | core_voxelizer.py:47 | overwriting a key changes the colour of that coordinate only |
| CoreVoxelizer.VoxelMesh.GetVoxelCount | core_voxelizer.py:50-51 | the count is the number of distinct keys, and it is zero exactly when no coordinate has a colour |
| CoreVoxelizer.EmptyIffColourless | core_voxelizer.py:50-51 | a voxel dictionary is empty exactly when no coordinate has a colour |
| CoreVoxelizer.VoxelMesh.GetBounds | core_voxelizer.py:53-56 | an empty mesh gives (0,0,0),(0,0,0); otherwise every voxel lies within the bounds, each of the six bounds is attained by some voxel, and min <= max |
| CoreVoxelizer.OrderPaintable | core_voxelizer.py:62-70 | in a non-empty mesh every key parses to its coordinate, and that coordinate lies within the bounds, so every write of the densifying loop is in the grid |
| CoreVoxelizer.PaintVoxels | core_voxelizer.py:66-71 | the densifying loop leaves each cell with the colour of the last voxel written there, black otherwise |
| CoreVoxelizer.PaintedFrom | core_voxelizer.py:66-71 | for any keys, a painted cell is black or holds the colour of a key naming that cell, and a cell no key names stays black |
| CoreVoxelizer.PaintedIsStored | core_voxelizer.py:66-71 | with distinct keys, the last voxel written at a cell is the one stored at that coordinate |
| CoreVoxelizer.PaintedIsShade | core_voxelizer.py:66-71 | over a valid mesh, the painted grid is the stored colour of each coordinate, or black |
| CoreVoxelizer.Rasterise | core_voxelizer.py:63-71 | a fresh grid of dimensions max - min + 1 per axis, painted from the voxels |
| CoreVoxelizer.VoxelMesh.ToNumpyArray | core_voxelizer.py:58-73 | an empty mesh gives one black cell; otherwise the grid is bounds-sized and cell (i, j, k) holds the rgb of the voxel at min + (i, j, k), black where there is none |
| CoreVoxelizer.PixelToRGBA | core_voxelizer.py:122-129 | an int pixel p becomes (p, p, p, 255); a 3-tuple gets alpha 255; a 4-tuple is copied, all four channels; any other shape becomes magenta |
| CoreVoxelizer.PixelRoundTrip | core_voxelizer.py:125-128 | converting a colour's own 4-tuple, or the 3-tuple of an opaque colour, gives the colour back |
| CoreVoxelizer.Clip | core_voxelizer.py:119-120 | `np.clip` lands in [lo, hi], keeps values already inside, and sends values below or above to lo or hi |
| CoreVoxelizer.ClipIsNearest | core_voxelizer.py:119-120 | the clamped value is the point of [lo, hi] nearest to v |
| CoreVoxelizer.SampleTexture | core_voxelizer.py:119-122 | the sample is the conversion of the pixel at the clamped coordinates: the pixel at (tx, ty) when inside, the first or last column when tx is left or right of the image, the first or last row when ty is above or below it |
| FaceVisibility.Bit | block_mapper.py:38-45 | each face flag is a single non-zero bit within the six-bit mask |
| FaceVisibility.Offset | block_mapper.py:135-140 | each face looks at a neighbour one step along one axis |
| FaceVisibility.ExposureMask | block_mapper.py:133-140 | the exposure mask uses only the six face bits |
| FaceVisibility.Visibility | block_mapper.py:126-141 | a cell's stored mask uses only the six face bits, and is non-zero only for a solid cell |
| FaceVisibility.CellMask | block_mapper.py:133-140 | the six padded-neighbour tests of one cell build its exposure mask |
| FaceVisibility.CalculateFaceVisibility | block_mapper.py:120-143 | a fresh grid of the solid grid's shape whose cells are the exposure mask of solid cells and NONE elsewhere |
| FaceVisibility.MaskOverBit | block_mapper.py:134-140 | OR-ing the bits of exposed faces in any order sets a face's bit exactly when that face is listed and exposed |
| FaceVisibility.FaceBitIff | block_mapper.py:135-140 | a face's bit is set in a cell's mask exactly when the neighbour on that side is outside the grid or not solid |
| FaceVisibility.IsolatedShowsAll | block_mapper.py:126-141 | a solid cell with no solid neighbour gets all six bits |
| FaceVisibility.SurroundedShowsNone | block_mapper.py:126-141 | a cell with a solid neighbour on every side gets no bit |
| OrderedDicts.Put | block_mapper.py:84 | `d[k] = v` maps k to v, leaves other keys alone, and appends a new key at the end of the order |
| OrderedDicts.Values | block_mapper.py:152 | `list(d.values())` lists the values in key order |
| OrderedDicts.SizeIsKeyCount | block_mapper.py:152 | a dictionary has as many entries as keys in its order |
| Atlas.Get | block_mapper.py:100-105 | `faces.get(name)` is present exactly when the name is a key, and then it is that key's value |
| Atlas.KeptFaces | block_mapper.py:74-83 | every kept face holds the data of an existing texture |
| Atlas.KeptFacesExist | block_mapper.py:76-83 | a face is kept exactly when one of its entries names an existing texture; the last such entry gives its data |
| Atlas.FilterFaces | block_mapper.py:74-83 | the face-filter loop builds exactly the kept faces |
| Atlas.LoadAtlas | block_mapper.py:64-84 | the loading loop builds the atlas one entry at a time, in entry order |
| Atlas.LoadedValid | block_mapper.py:64-84 | the loaded atlas is a well-formed ordered dictionary |
| Atlas.LoadedByName | block_mapper.py:69-84 | each block is stored under its own name, and there are no more names than entries |
| Atlas.LoadedNames | block_mapper.py:69-84 | a name is in the atlas exactly when some entry has it |
| Atlas.LoadedLastWins | block_mapper.py:84 | the last entry with a name decides that name's block |
| Atlas.TruncDiv | block_mapper.py:118 | `int(a / n)` is the quotient truncated toward zero |
| Atlas.ContextualColour | block_mapper.py:114-118 | the result is opaque whenever some visible face has data; otherwise it is the block's own colour |
| Atlas.GatherVisible | block_mapper.py:99-105 | the six visibility tests gather `faces.get` of the visible faces in the order up, down, north, south, east, west |
| Atlas.GatheredFrom | block_mapper.py:99-105 | every gathered item belongs to a visible face |
| Atlas.SumPresent | block_mapper.py:107-112 | the accumulation loop sums each channel over the present face data and counts them |
| Atlas.PresentFrom | block_mapper.py:107-108 | every counted face datum comes from the gathered list |
| Atlas.ContextualFaceAverage | block_mapper.py:91-118 | the method computes the contextual colour: the block colour without data, the truncated per-channel mean otherwise |
| Atlas.VisibleDataFrom | block_mapper.py:99-112 | every averaged face datum is the data of some visible face |
| Atlas.Shown | block_mapper.py:99-108 | a face is listed exactly when the mask shows it and the block has data for it |
| Atlas.PresentGatheredIsShown | block_mapper.py:99-112 | dropping the missing lookups leaves exactly the data of the listed faces, in order |
| Atlas.ShownOnce | block_mapper.py:100-105 | each face is tested once, so it is listed at most once |
| Atlas.VisibleDataIsShown | block_mapper.py:99-112 | the averaged data are exactly those of the faces the mask shows and the block has data for, each face once: their number is the number of such faces |
| Atlas.VisibleFaceAveraged | block_mapper.py:99-112 | every face the mask shows that has data is averaged |
| Atlas.NoVisibleDataFallsBack | block_mapper.py:115-116 | when no visible face has data, including the NONE mask, the result is the block's own colour exactly |
| Atlas.SumBetween | block_mapper.py:107-112 | a channel sum of faces within [lo, hi] lies within [count*lo, count*hi] |
| Atlas.TruncDivBetween | block_mapper.py:118 | a quotient of a sum within [n*lo, n*hi] lies within [lo, hi] |
| Atlas.ChannelWithinFaces | block_mapper.py:107-118 | each averaged channel lies between the least and greatest channel of the faces averaged |
| BlockMapper.StrLtIrreflexive | block_mapper.py:32 | no string sorts before itself |
| BlockMapper.StrLtTransitive | block_mapper.py:32 | string order is transitive |
| BlockMapper.StrLtTotal | block_mapper.py:32 | two distinct strings are ordered one way, and never both ways |
| BlockMapper.SortedNames | block_mapper.py:32 | `sorted(list(s))` has the elements of s, each once, strictly increasing |
| BlockMapper.BlockMesh.constructor | block_mapper.py:19-22 | a new block mesh has no blocks and an empty palette, and keeps its voxel mesh |
| BlockMapper.BlockMesh.AddBlock | block_mapper.py:24-26 | the block is appended, its name joins the palette, and the palette stays the set of block names |
| BlockMapper.BlockMesh.GetBlocks | block_mapper.py:28-29 | the blocks in insertion order |
| BlockMapper.BlockMesh.GetBlockPalette | block_mapper.py:31-32 | exactly the names of the added blocks, strictly sorted, so without duplicates |
| BlockMapper.BlockMesh.GetBounds | block_mapper.py:34-35 | the voxel mesh's bounds |
| BlockMapper.SqDist | block_mapper.py:182-184 | the squared RGB distance is non-negative, and zero exactly when the r, g, b channels agree |
| BlockMapper.Errors | block_mapper.py:177-184 | one error per atlas block, the distance to its contextual colour |
| BlockMapper.FirstMin | block_mapper.py:186-188 | the position of a least error, before which every error is strictly greater |
| BlockMapper.FirstMinStep | block_mapper.py:186-188 | a later block replaces the choice exactly when its error is strictly smaller |
| BlockMapper.ChosenName | block_mapper.py:174-191 | `minecraft:stone` for an empty atlas; otherwise the name of the first block of least error |
| BlockMapper.ChosenByChannels | block_mapper.py:169-172 | the choice depends on (r, g, b, mask) only, so caching on that key is sound |
| BlockMapper.BestMatch | block_mapper.py:174-191 | the argmin loop with strict `<` computes the chosen name |
| BlockMapper.ChooseCached | block_mapper.py:169-192 | the name is the one a fresh search chooses whether the cache hits or misses; a miss stores it under (r, g, b, visibility), a hit leaves the cache alone, and the cache stays sound |
| BlockMapper.MapEntry | block_mapper.py:157-199 | one voxel appends its block, or nothing when it is skipped; every cache entry stays equal to a fresh search |
| BlockMapper.MapEntries | block_mapper.py:156-203 | the loop appends the blocks of the entries in dictionary order |
| BlockMapper.MapVoxelsToBlocks | block_mapper.py:145-206 | a fresh block mesh over the voxel mesh, holding the mapped blocks of its voxels in iteration order |
| BlockMapper.MappedStep | block_mapper.py:156-199 | one more entry appends exactly what that entry yields |
| BlockMapper.MappedBound | block_mapper.py:156-199 | the entries yield at most one block each |
| BlockMapper.MappedPrefixUpTo | block_mapper.py:156-199 | the blocks of a shorter prefix of the entries are a prefix of those of a longer one |
| BlockMapper.MappedPrefix | block_mapper.py:156-199 | the blocks of a prefix of the entries are a prefix of the blocks |
| BlockMapper.MappedPosition | block_mapper.py:194-199 | an entry that yields a block yields exactly one, right after those of the earlier entries |
| BlockMapper.BlockForInShape | block_mapper.py:158-199 | a block any key yields lies in the visibility grid at the first three parsed integers, keeps the voxel's colour and carries the name chosen for its cell's mask |
| BlockMapper.BlockForVoxel | block_mapper.py:158-199 | a key that parses to a coordinate yields a block exactly when the coordinate is inside the visibility grid; the block has that position, the voxel's colour and the chosen name |
| BlockMapper.MeshVoxelYields | block_mapper.py:156-199 | every voxel of a valid mesh yields a block exactly when it is in range, at its own coordinates with its own colour |
| VarInt.Encode | exporter.py:19-26 | at least one byte, all in 0..255, the high bit set on all but the last, clear on the last |
| VarInt.EncodeAll | exporter.py:16-27 | the stream is bytes, at least one per value |
| VarInt.AppendVarint | exporter.py:18-26 | the shifting loop appends exactly the encoding of one value |
| VarInt.EncodeAsVarint | exporter.py:11-27 | the stream is the encodings of the values, one after another |
| VarInt.DecodeEncode | exporter.py:20-24 | decoding the front of an encoding gives the value back and consumes exactly its bytes |
| VarInt.EncodeAllRoundTrip | exporter.py:11-27 | decoding the stream gives the list of values back |
| VarInt.SmallIsOneByte | exporter.py:20-25 | a value below 128 is its own single byte |
| VarInt.ThreeHundred | exporter.py:20-24 | 300 encodes to [0xAC, 0x02] |
| VarInt.ToSignedByteList | exporter.py:29-33 | length is preserved, bytes land in -128..127, and values below 128 are unchanged |
| VarInt.SignedRoundTrip | exporter.py:29-33 | adding 256 to the negative entries recovers the bytes |
| Exporter.FirstSeen | exporter.py:62-66 | the distinct names, each once, and every name is among them |
| Exporter.PaletteOrder | exporter.py:59-72 | the first-seen names, then air appended only if absent; air is always present |
| Exporter.IndexOf | exporter.py:64-66 | each palette name is mapped to its position |
| Exporter.PaletteIds | exporter.py:59-72 | the ids are exactly 0..n-1, distinct names get distinct ids, and there are as many ids as names |
| Exporter.PaletteOf | exporter.py:54-72 | the palette loop numbers the names in first-seen order and appends air when absent |
| Exporter.Extent | exporter.py:47-49 | an axis extent is max - min + 1, floored at one |
| Exporter.Names | exporter.py:62 | the names of the blocks, one per block, in order |
| Exporter.PaletteId | exporter.py:97 | `palette_map.get(name, air)` is air's id or one of the palette's ids |
| Exporter.CellId | exporter.py:86-97 | a cell's id is air's id or one of the palette's ids |
| Exporter.Exporter.constructor | exporter.py:40-52 | the dimensions are the floored extents of the mesh bounds, the minimum corner is kept, and the palette is built |
| Exporter.MeshExtents | exporter.py:45-49 | over a mesh's bounds each extent is max - min + 1, and an empty mesh gives 1x1x1 |
| Exporter.PlaceBlocks | exporter.py:92-97 | the placing loop leaves each cell with the id of the last block landing on it, air otherwise |
| Exporter.LastPlacedWins | exporter.py:92-97 | the last block at a position decides that cell's id, its palette id or air's for an unknown name |
| Exporter.UntouchedIsAir | exporter.py:86-97 | a cell no block lands on holds the air id |
| Exporter.CellIdBelow | exporter.py:86-97 | every cell id is a palette id |
| Exporter.FlatIndex | exporter.py:100 | cell (a, b, c) of a grid flattened in C order sits at index (a * n1 + b) * n2 + c |
| Exporter.Flat | exporter.py:100 | the C-order flattening of an na x n1 x n2 grid has na * n1 * n2 entries |
| Exporter.FlattenedIsFlat | exporter.py:100 | flattening the filled array equals flattening its specification grid |
| Exporter.GridLayout | exporter.py:86-100 | the flattened ids number width * height * length, cell (x, y, z) at (y * length + z) * width + x |
| Exporter.BlockDataDecodes | exporter.py:100-104 | decoding `BlockData` gives back the flattened id grid |
| Exporter.BlockData | exporter.py:100-104 | the block data are signed bytes, at least one per cell of the grid |
| Exporter.GridIdsInPalette | exporter.py:86-113 | every flattened id is below `PaletteMax` |
| Exporter.Exporter.ExportToSchemV2 | exporter.py:74-119 | version 2, the data version (3953 by default), the dimensions, `PaletteMax` = the palette size, the palette, the offset [0, 0, 0], and `BlockData` = the signed VarInt stream of the flattened grid |

## Left out

- `BasicGridVoxeliser._voxelise`: it relies on trimesh voxelisation and filling, scipy erosion, nearest-point queries and a KD-tree. These are foreign calls over float geometry.
- Barycentric/UV sampling in `_get_voxel_colour`: float areas, vector norms, NaN checks and the image library's `getpixel`. Only the clamp and the pixel conversion are modelled, and the image is a `Texture` value.
- CoreVoxelizer.SampleTexture: zero-size textures are excluded (`Texture.Valid` requires width and height of at least one). In the source, clamping to index 0 of such an image makes `getpixel` raise.
- `Voxeliser.run`: logging only.
- Reading and decoding the atlas JSON, and the float conversion `int(x * 255)`. The atlas is modelled as already parsed, with integer colours, and the dictionaries in their iteration order.
- The `std` field of `FaceData` is kept as a `real` and never used in a computation.
- The per-voxel `try`/`except` and the logging in `map_voxels_to_blocks`. A key that does not parse to at least three integers is skipped, which is what the handler does.
- `int()` parsing is modelled as an optional `+` or `-` sign followed by ASCII digits. Surrounding whitespace and `_` separators, which Python also accepts, are not modelled; `add_voxel`'s own keys never contain them.
- Atlas.TruncDiv: the source divides floats (`int(a / count)`). The model divides integers, truncating toward zero. These agree for the small channel sums involved.
- The padded copy of the solid grid is not built. `FaceVisibility.Padded` reads a cell outside the grid as not solid, which is what the padding gives.
- NBT document assembly, gzip compression and saving the file.
- The `Entities` and `BlockEntities` lists of the document, which are always empty.
- The `Short` and `Int` tag widths: the dimensions, ids and version are unbounded integers.
- The `uint8`/`int32` numpy dtypes of the grids: colours and ids are stored unbounded.
- `encode_as_varint` on a negative value would never finish shifting to zero. Ids are natural numbers, as palette ids always are.
- The web service, the reconstruction runner, the command-line wrapper and the browser front end: I/O, machine learning and user interface.
