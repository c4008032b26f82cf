/**
  The schematic exporter of exporter.py: the dimensions, the palette, the dense block-id
  grid in Y-Z-X order, its flattening and its `BlockData` encoding.
*/
module Exporter {
  import opened Wrappers
  import opened CoreVoxelizer
  import opened BlockMapper
  import opened VarInt

  const Air := "minecraft:air"

  // ---------------------------------------------------------------------------
  // Palette

  function Names(blocks: seq<Block>): (names: seq<string>)
    ensures |names| == |blocks|
    ensures forall i :: 0 <= i < |blocks| ==> names[i] == blocks[i].name
  {
    seq(|blocks|, i requires 0 <= i < |blocks| => blocks[i].name)
  }

  predicate Distinct(u: seq<string>)
  {
    forall i, j :: 0 <= i < j < |u| ==> u[i] != u[j]
  }

  /** The distinct names of `names`, in the order of their first occurrence. */
  function FirstSeen(names: seq<string>): (u: seq<string>)
    ensures Distinct(u)
    ensures forall x :: x in u <==> x in names
  {
    if |names| == 0 then []
    else
      var u := FirstSeen(names[..|names| - 1]);
      var x := names[|names| - 1];
      assert forall y :: y in names <==> y in names[..|names| - 1] || y == x;
      if x in u then u else u + [x]
  }

  /** Looking at one more name adds it to the first-seen list unless it is already there. */
  lemma FirstSeenStep(names: seq<string>, i: int)
    requires 0 <= i < |names|
    ensures FirstSeen(names[..i + 1])
      == if names[i] in FirstSeen(names[..i]) then FirstSeen(names[..i]) else FirstSeen(names[..i]) + [names[i]]
  {
    assert names[..i + 1][..i] == names[..i];
  }

  /** The palette order: the first-seen names, then air unless it was already among them. */
  function PaletteOrder(names: seq<string>): (u: seq<string>)
    ensures Distinct(u) && Air in u
    ensures forall x :: x in u <==> x in names || x == Air
    ensures Air !in names ==> u == FirstSeen(names) + [Air]
    ensures Air in names ==> u == FirstSeen(names)
  {
    var seen := FirstSeen(names);
    if Air in seen then seen else seen + [Air]
  }

  /** Each name of a duplicate-free list mapped to its position. */
  function IndexOf(u: seq<string>): (m: map<string, nat>)
    requires Distinct(u)
    ensures forall x :: x in m <==> x in u
    ensures forall i :: 0 <= i < |u| ==> m[u[i]] == i
  {
    map i | 0 <= i < |u| :: u[i] := i
  }

  /** Appending a new name gives it the next id and leaves the others alone. */
  lemma IndexOfSnoc(u: seq<string>, x: string)
    requires Distinct(u) && x !in u
    ensures Distinct(u + [x])
    ensures IndexOf(u + [x]) == IndexOf(u)[x := |u|]
  {
    var v := u + [x];
    assert forall i :: 0 <= i < |u| ==> v[i] == u[i];
  }

  /** The ids of a palette are exactly 0 .. n-1, one per name. */
  lemma PaletteIds(u: seq<string>)
    requires Distinct(u)
    ensures |IndexOf(u)| == |u|
    ensures forall x :: x in IndexOf(u) ==> IndexOf(u)[x] < |u|
    ensures forall x, y :: x in IndexOf(u) && y in IndexOf(u) && x != y ==> IndexOf(u)[x] != IndexOf(u)[y]
  {
    var m := IndexOf(u);
    forall x | x in m ensures m[x] < |u| && u[m[x]] == x {
      var i :| 0 <= i < |u| && u[i] == x;
    }
    assert m.Keys == set x | x in u;
    DistinctCard(u);
  }

  /** A duplicate-free list has as many distinct elements as entries. */
  lemma {:induction false} DistinctCard(u: seq<string>)
    requires Distinct(u)
    ensures |set x | x in u| == |u|
  {
    if |u| > 0 {
      var init := u[..|u| - 1];
      DistinctCard(init);
      assert (set x | x in u) == (set x | x in init) + {u[|u| - 1]};
      assert u[|u| - 1] !in init;
    } else {
      assert (set x | x in u) == {};
    }
  }

  /** The extent of one axis, floored at one. */
  function Extent(lo: int, hi: int): (e: int)
    ensures e >= 1
    ensures lo <= hi ==> e == hi - lo + 1
    ensures lo > hi ==> e == 1
  {
    if hi - lo + 1 > 1 then hi - lo + 1 else 1
  }

  // ---------------------------------------------------------------------------
  // The block-id grid

  /** The id a block name gets: its palette id, or air's for a name the palette lacks. */
  function PaletteId(palette: map<string, nat>, air: nat, name: string): (id: nat)
    ensures id == air || id in palette.Values
  {
    if name in palette then palette[name] else air
  }

  /**
    The id in cell (x, y, z) after the blocks are placed in order: that of the last
    block whose position minus `lo` is the cell, or air's when there is none.
  */
  function CellId(blocks: seq<Block>, palette: map<string, nat>, air: nat, lo: Vector3, x: int, y: int, z: int): (id: nat)
    ensures id == air || id in palette.Values
  {
    if |blocks| == 0 then air
    else
      var b := blocks[|blocks| - 1];
      if b.position.Sub(lo) == Vector3(x, y, z) then PaletteId(palette, air, b.name)
      else CellId(blocks[..|blocks| - 1], palette, air, lo, x, y, z)
  }

  /** The placing loop of `export_to_schem_v2` over a grid indexed [y, z, x], already filled with air. */
  method PlaceBlocks(ids: array3<nat>, blocks: seq<Block>, palette: map<string, nat>, air: nat, lo: Vector3)
    requires forall y, z, x :: 0 <= y < ids.Length0 && 0 <= z < ids.Length1 && 0 <= x < ids.Length2 ==>
      ids[y, z, x] == air
    modifies ids
    ensures forall y, z, x :: 0 <= y < ids.Length0 && 0 <= z < ids.Length1 && 0 <= x < ids.Length2 ==>
      ids[y, z, x] == CellId(blocks, palette, air, lo, x, y, z)
  {
    var i := 0;
    while i < |blocks|
      invariant 0 <= i <= |blocks|
      invariant forall y, z, x :: 0 <= y < ids.Length0 && 0 <= z < ids.Length1 && 0 <= x < ids.Length2 ==>
        ids[y, z, x] == CellId(blocks[..i], palette, air, lo, x, y, z)
    {
      var block := blocks[i];
      var x := block.position.x - lo.x;
      var y := block.position.y - lo.y;
      var z := block.position.z - lo.z;
      assert blocks[..i + 1][..i] == blocks[..i];
      if 0 <= x < ids.Length2 && 0 <= y < ids.Length0 && 0 <= z < ids.Length1 {
        ids[y, z, x] := PaletteId(palette, air, block.name);
      }
      i := i + 1;
    }
    assert blocks[..i] == blocks;
  }

  /** The last block landing on a cell decides its id. */
  lemma {:induction false} LastPlacedWins(blocks: seq<Block>, palette: map<string, nat>, air: nat, lo: Vector3, k: int)
    requires 0 <= k < |blocks|
    requires forall j :: k < j < |blocks| ==> blocks[j].position != blocks[k].position
    ensures var c := blocks[k].position.Sub(lo);
      CellId(blocks, palette, air, lo, c.x, c.y, c.z) == PaletteId(palette, air, blocks[k].name)
  {
    var c := blocks[k].position.Sub(lo);
    if k < |blocks| - 1 {
      var b := blocks[|blocks| - 1];
      assert b.position != blocks[k].position;
      LastPlacedWins(blocks[..|blocks| - 1], palette, air, lo, k);
    }
  }

  /** A cell no block lands on holds air. */
  lemma {:induction false} UntouchedIsAir(blocks: seq<Block>, palette: map<string, nat>, air: nat, lo: Vector3,
                                          x: int, y: int, z: int)
    requires forall j :: 0 <= j < |blocks| ==> blocks[j].position.Sub(lo) != Vector3(x, y, z)
    ensures CellId(blocks, palette, air, lo, x, y, z) == air
  {
    if |blocks| > 0 {
      UntouchedIsAir(blocks[..|blocks| - 1], palette, air, lo, x, y, z);
    }
  }

  /** Every id in the grid is a palette id, given that air's is one. */
  lemma {:induction false} CellIdBelow(blocks: seq<Block>, palette: map<string, nat>, air: nat, lo: Vector3,
                                       x: int, y: int, z: int, bound: nat)
    requires air < bound && forall n :: n in palette ==> palette[n] < bound
    ensures CellId(blocks, palette, air, lo, x, y, z) < bound
  {
    if |blocks| > 0 {
      CellIdBelow(blocks[..|blocks| - 1], palette, air, lo, x, y, z, bound);
    }
  }

  // ---------------------------------------------------------------------------
  // Flattening in C order

  /** The cells (a, b, 0) .. (a, b, n2 - 1) of a grid given by a cell function. */
  function Row(cell: (int, int, int) -> nat, a: int, b: int, n2: nat): (r: seq<nat>)
    ensures |r| == n2
    ensures forall c :: 0 <= c < n2 ==> r[c] == cell(a, b, c)
  {
    seq(n2, c requires 0 <= c < n2 => cell(a, b, c))
  }

  /** Rows 0 .. nb - 1 of layer a, one after another. */
  function Rows(cell: (int, int, int) -> nat, a: int, nb: nat, n2: nat): (r: seq<nat>)
    ensures |r| == nb * n2
  {
    if nb == 0 then [] else Rows(cell, a, nb - 1, n2) + Row(cell, a, nb - 1, n2)
  }

  /** `flatten()` in C order: layers 0 .. na - 1, each of n1 rows of n2 cells. */
  function Flat(cell: (int, int, int) -> nat, na: nat, n1: nat, n2: nat): (r: seq<nat>)
    ensures |r| == na * (n1 * n2)
  {
    if na == 0 then [] else Flat(cell, na - 1, n1, n2) + Rows(cell, na - 1, n1, n2)
  }

  lemma MulMono(x: int, y: int, n: nat)
    requires x <= y
    ensures x * n <= y * n
  {
  }

  /** Slot j of block a, blocks of m slots each, lies in the first na blocks, and before the last one if a does. */
  lemma SlotBounds(a: int, na: int, m: int, j: int)
    requires 0 <= a < na && 0 <= j < m
    ensures 0 <= a * m + j < na * m
    ensures a < na - 1 ==> a * m + j < (na - 1) * m
  {
    assert a * m + m == (a + 1) * m;
    MulMono(0, a, m);
    MulMono(a + 1, na, m);
    if a < na - 1 {
      MulMono(a + 1, na - 1, m);
    }
  }

  lemma {:induction false} RowsIndex(cell: (int, int, int) -> nat, a: int, nb: nat, n2: nat, b: int, c: int)
    requires 0 <= b < nb && 0 <= c < n2
    ensures b * n2 + c < nb * n2
    ensures Rows(cell, a, nb, n2)[b * n2 + c] == cell(a, b, c)
  {
    SlotBounds(b, nb, n2, c);
    if b < nb - 1 {
      RowsIndex(cell, a, nb - 1, n2, b, c);
    }
  }

  /** Entry j of layer a sits at index a * (n1 * n2) + j of the flattened grid. */
  lemma {:induction false} LayerIndex(cell: (int, int, int) -> nat, na: nat, n1: nat, n2: nat, a: int, j: int)
    requires 0 <= a < na && 0 <= j < n1 * n2
    ensures 0 <= a * (n1 * n2) + j < |Flat(cell, na, n1, n2)|
    ensures Flat(cell, na, n1, n2)[a * (n1 * n2) + j] == Rows(cell, a, n1, n2)[j]
  {
    SlotBounds(a, na, n1 * n2, j);
    if a < na - 1 {
      LayerIndex(cell, na - 1, n1, n2, a, j);
    }
  }

  lemma IndexSplit(a: int, b: int, c: int, n1: int, n2: int)
    ensures (a * n1 + b) * n2 + c == a * (n1 * n2) + (b * n2 + c)
  {
  }

  /** Cell (a, b, c) sits at index (a * n1 + b) * n2 + c of the flattened grid. */
  lemma FlatIndex(cell: (int, int, int) -> nat, na: nat, n1: nat, n2: nat, a: int, b: int, c: int)
    requires 0 <= a < na && 0 <= b < n1 && 0 <= c < n2
    ensures 0 <= (a * n1 + b) * n2 + c < |Flat(cell, na, n1, n2)|
    ensures Flat(cell, na, n1, n2)[(a * n1 + b) * n2 + c] == cell(a, b, c)
  {
    RowsIndex(cell, a, n1, n2, b, c);
    IndexSplit(a, b, c, n1, n2);
    LayerIndex(cell, na, n1, n2, a, b * n2 + c);
  }

  /** Every entry of the flattened grid is one of its cells. */
  lemma {:induction false} FlatBelow(cell: (int, int, int) -> nat, na: nat, n1: nat, n2: nat, bound: nat)
    requires forall a, b, c :: cell(a, b, c) < bound
    ensures forall i :: 0 <= i < |Flat(cell, na, n1, n2)| ==> Flat(cell, na, n1, n2)[i] < bound
  {
    if na > 0 {
      FlatBelow(cell, na - 1, n1, n2, bound);
      RowsBelow(cell, na - 1, n1, n2, bound);
    }
  }

  lemma {:induction false} RowsBelow(cell: (int, int, int) -> nat, a: int, nb: nat, n2: nat, bound: nat)
    requires forall a, b, c :: cell(a, b, c) < bound
    ensures forall i :: 0 <= i < |Rows(cell, a, nb, n2)| ==> Rows(cell, a, nb, n2)[i] < bound
  {
    if nb > 0 {
      RowsBelow(cell, a, nb - 1, n2, bound);
    }
  }

  /** The rows of an array grid, as `Row` reads them from a cell function. */
  function GridRows(ids: array3<nat>, a: int, nb: nat): (r: seq<nat>)
    requires 0 <= a < ids.Length0 && nb <= ids.Length1
    reads ids
  {
    if nb == 0 then []
    else GridRows(ids, a, nb - 1) + seq(ids.Length2, c requires 0 <= c < ids.Length2 reads ids => ids[a, nb - 1, c])
  }

  /** `block_ids.flatten()` of an array grid. */
  function Flattened(ids: array3<nat>, na: nat): (r: seq<nat>)
    requires na <= ids.Length0
    reads ids
  {
    if na == 0 then [] else Flattened(ids, na - 1) + GridRows(ids, na - 1, ids.Length1)
  }

  /** An array grid whose cells agree with a cell function flattens like it. */
  lemma {:induction false} FlattenedIsFlat(ids: array3<nat>, cell: (int, int, int) -> nat, na: nat)
    requires na <= ids.Length0
    requires forall a, b, c :: 0 <= a < ids.Length0 && 0 <= b < ids.Length1 && 0 <= c < ids.Length2 ==>
      ids[a, b, c] == cell(a, b, c)
    ensures Flattened(ids, na) == Flat(cell, na, ids.Length1, ids.Length2)
  {
    if na > 0 {
      FlattenedIsFlat(ids, cell, na - 1);
      GridRowsAreRows(ids, cell, na - 1, ids.Length1);
    }
  }

  lemma {:induction false} GridRowsAreRows(ids: array3<nat>, cell: (int, int, int) -> nat, a: int, nb: nat)
    requires 0 <= a < ids.Length0 && nb <= ids.Length1
    requires forall a, b, c :: 0 <= a < ids.Length0 && 0 <= b < ids.Length1 && 0 <= c < ids.Length2 ==>
      ids[a, b, c] == cell(a, b, c)
    ensures GridRows(ids, a, nb) == Rows(cell, a, nb, ids.Length2)
  {
    if nb > 0 {
      GridRowsAreRows(ids, cell, a, nb - 1);
      var row := seq(ids.Length2, c requires 0 <= c < ids.Length2 reads ids => ids[a, nb - 1, c]);
      assert row == Row(cell, a, nb - 1, ids.Length2);
    }
  }

  // ---------------------------------------------------------------------------
  // The schematic

  /** The fields of the version 2 schematic document that the exporter computes. */
  datatype Schematic = Schematic(
    version: int, dataVersion: int,
    width: int, height: int, length: int,
    paletteMax: nat, palette: map<string, nat>,
    blockData: seq<int>, offset: seq<int>)

  /** The default `data_version` (Minecraft 1.20.1). */
  const DefaultDataVersion := 3953

  /** The id grid of the blocks as a cell function over [y, z, x]. */
  function GridCell(blocks: seq<Block>, palette: map<string, nat>, air: nat, lo: Vector3): (int, int, int) -> nat
  {
    (y, z, x) => CellId(blocks, palette, air, lo, x, y, z)
  }

  /** The `BlockData` of the blocks: the flattened id grid, VarInt-encoded, as signed bytes. */
  function BlockData(blocks: seq<Block>, palette: map<string, nat>, air: nat, lo: Vector3,
                     width: nat, height: nat, length: nat): (data: seq<int>)
    ensures forall i :: 0 <= i < |data| ==> -128 <= data[i] < 128
    ensures |data| >= height * (length * width)
  {
    ToSignedByteList(EncodeAll(Flat(GridCell(blocks, palette, air, lo), height, length, width)))
  }

  /** Decoding the `BlockData` gives back the flattened id grid. */
  lemma BlockDataDecodes(blocks: seq<Block>, palette: map<string, nat>, air: nat, lo: Vector3,
                         width: nat, height: nat, length: nat)
    ensures DecodeAll(ToUnsignedByteList(BlockData(blocks, palette, air, lo, width, height, length)))
      == Some(Flat(GridCell(blocks, palette, air, lo), height, length, width))
  {
    var ids := Flat(GridCell(blocks, palette, air, lo), height, length, width);
    SignedRoundTrip(EncodeAll(ids));
    EncodeAllRoundTrip(ids);
  }

  lemma VolumeOrder(w: int, h: int, l: int)
    ensures h * (l * w) == w * h * l
  {
  }

  /**
    The flattened grid holds width * height * length ids, the id of cell (x, y, z) at
    index (y * length + z) * width + x.
  */
  lemma GridLayout(blocks: seq<Block>, palette: map<string, nat>, air: nat, lo: Vector3,
                   width: nat, height: nat, length: nat, x: int, y: int, z: int)
    requires 0 <= x < width && 0 <= y < height && 0 <= z < length
    ensures 0 <= (y * length + z) * width + x < |Flat(GridCell(blocks, palette, air, lo), height, length, width)|
    ensures |Flat(GridCell(blocks, palette, air, lo), height, length, width)| == width * height * length
    ensures Flat(GridCell(blocks, palette, air, lo), height, length, width)[(y * length + z) * width + x]
      == CellId(blocks, palette, air, lo, x, y, z)
  {
    VolumeOrder(width, height, length);
    FlatIndex(GridCell(blocks, palette, air, lo), height, length, width, y, z, x);
  }

  /** With a palette numbered by position and holding air, every id in the grid is below `PaletteMax`. */
  lemma GridIdsInPalette(blocks: seq<Block>, u: seq<string>, lo: Vector3, width: nat, height: nat, length: nat)
    requires Distinct(u) && Air in u
    ensures var palette := IndexOf(u);
      var ids := Flat(GridCell(blocks, palette, palette[Air], lo), height, length, width);
      forall i :: 0 <= i < |ids| ==> ids[i] < |palette|
  {
    var palette := IndexOf(u);
    var air := palette[Air];
    var cell := GridCell(blocks, palette, air, lo);
    PaletteIds(u);
    forall a, b, c ensures cell(a, b, c) < |palette| {
      CellIdBelow(blocks, palette, air, lo, c, a, b, |palette|);
    }
    FlatBelow(cell, height, length, width, |palette|);
  }

  /**
    `_build_palette`: each block name gets the next id when first seen, and air is
    added at the end if no block is air.
  */
  method PaletteOf(blocks: seq<Block>) returns (unique: seq<string>, ids: map<string, nat>)
    ensures unique == PaletteOrder(Names(blocks))
    ensures Distinct(unique) && ids == IndexOf(unique)
  {
    var names := Names(blocks);
    unique := [];
    ids := map[];
    var i := 0;
    while i < |blocks|
      invariant 0 <= i <= |blocks|
      invariant unique == FirstSeen(names[..i])
      invariant ids == IndexOf(unique)
    {
      var name := blocks[i].name;
      FirstSeenStep(names, i);
      if name !in ids {
        var idx := |unique|;
        IndexOfSnoc(unique, name);
        unique := unique + [name];
        ids := ids[name := idx];
      }
      i := i + 1;
    }
    assert names[..i] == names;
    if Air !in ids {
      var airId := |unique|;
      IndexOfSnoc(unique, Air);
      unique := unique + [Air];
      ids := ids[Air := airId];
    }
  }

  /** The exporter: the block mesh, its extents and minimum corner, and the palette. */
  class Exporter {
    const blockMesh: BlockMesh
    var width: int
    var height: int
    var length: int
    var minBounds: Vector3
    var uniqueBlocks: seq<string>
    var paletteMap: map<string, nat>

    /** The palette is duplicate-free, holds air, and numbers its names by position. */
    ghost predicate Valid()
      reads this
    {
      Distinct(uniqueBlocks) && Air in uniqueBlocks && paletteMap == IndexOf(uniqueBlocks)
      && width >= 1 && height >= 1 && length >= 1
    }

    /** `__init__`: the extents of the mesh's bounds, each at least one, and the palette of its blocks. */
    constructor(mesh: BlockMesh)
      requires mesh.voxelMesh.Valid()
      ensures Valid() && blockMesh == mesh
      ensures var (lo, hi) := old(mesh.GetBounds());
        width == Extent(lo.x, hi.x) && height == Extent(lo.y, hi.y) && length == Extent(lo.z, hi.z)
        && minBounds == lo
      ensures uniqueBlocks == PaletteOrder(Names(mesh.blocks))
    {
      blockMesh := mesh;
      var (lo, hi) := mesh.GetBounds();
      width := Extent(lo.x, hi.x);
      height := Extent(lo.y, hi.y);
      length := Extent(lo.z, hi.z);
      minBounds := lo;
      var unique, ids := PaletteOf(mesh.blocks);
      uniqueBlocks, paletteMap := unique, ids;
    }

    /**
      The computing part of `export_to_schem_v2`: a [height, length, width] grid of air's
      id, each block's id placed at its position minus the minimum, then flattened and
      encoded. Writing the document to a file is not modelled.
    */
    method ExportToSchemV2(dataVersion: int := DefaultDataVersion) returns (schem: Schematic)
      requires Valid()
      ensures schem.version == 2 && schem.dataVersion == dataVersion && schem.offset == [0, 0, 0]
      ensures schem.width == width && schem.height == height && schem.length == length
      ensures schem.palette == paletteMap && schem.paletteMax == |paletteMap| == |uniqueBlocks|
      ensures schem.blockData == BlockData(blockMesh.blocks, paletteMap, paletteMap[Air], minBounds, width, height, length)
    {
      var air := paletteMap[Air];
      var ids := new nat[height, length, width]((y, z, x) => air);
      var blocks := blockMesh.blocks;
      PlaceBlocks(ids, blocks, paletteMap, air, minBounds);
      FlattenedIsFlat(ids, GridCell(blocks, paletteMap, air, minBounds), height);
      var flat := Flattened(ids, height);
      var encoded := EncodeAsVarint(flat);
      var signed := ToSignedByteList(encoded);
      PaletteIds(uniqueBlocks);
      schem := Schematic(2, dataVersion, width, height, length, |paletteMap|, paletteMap, signed, [0, 0, 0]);
    }
  }

  /**
    The extents of an exporter over a voxel mesh: one per axis for an empty mesh, and the
    bounds' extent max - min + 1 otherwise (never floored, since min <= max).
  */
  lemma MeshExtents(mesh: VoxelMesh)
    requires mesh.Valid()
    ensures |mesh.voxels| == 0 ==> var (lo, hi) := mesh.GetBounds();
      Extent(lo.x, hi.x) == 1 && Extent(lo.y, hi.y) == 1 && Extent(lo.z, hi.z) == 1
    ensures var (lo, hi) := mesh.GetBounds();
      Extent(lo.x, hi.x) == hi.x - lo.x + 1 && Extent(lo.y, hi.y) == hi.y - lo.y + 1
      && Extent(lo.z, hi.z) == hi.z - lo.z + 1
  {
  }
}
