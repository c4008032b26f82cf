/**
  Which faces of each solid voxel are exposed: `FaceVisibility` and
  `calculate_face_visibility` of block_mapper.py.
*/
module FaceVisibility {

  /** A `FaceVisibility` flag value: six bits, one per face. */
  type Mask = bv8

  /** The six faces in the order the flag enumeration declares them. */
  datatype Face = Up | Down | North | East | South | West

  const NoFaces: Mask := 0
  const AllFaces: Mask := 63

  /** The flag bit of each face, as `auto()` numbers them: 1, 2, 4, 8, 16, 32. */
  function Bit(f: Face): (b: Mask)
    ensures b != 0 && b & AllFaces == b
  {
    match f
    case Up => 1
    case Down => 2
    case North => 4
    case East => 8
    case South => 16
    case West => 32
  }

  /** +Y is up, -Z is north, +X is east. */
  function Offset(f: Face): (d: (int, int, int))
    ensures d.0 * d.0 + d.1 * d.1 + d.2 * d.2 == 1
  {
    match f
    case Up => (0, 1, 0)
    case Down => (0, -1, 0)
    case North => (0, 0, -1)
    case East => (1, 0, 0)
    case South => (0, 0, 1)
    case West => (-1, 0, 0)
  }

  predicate InGrid(solid: array3<bool>, x: int, y: int, z: int)
  {
    0 <= x < solid.Length0 && 0 <= y < solid.Length1 && 0 <= z < solid.Length2
  }

  /** A cell that lies outside the grid counts as empty. */
  predicate SolidAt(solid: array3<bool>, x: int, y: int, z: int)
    reads solid
  {
    InGrid(solid, x, y, z) && solid[x, y, z]
  }

  /** Face `f` of cell (x, y, z) is exposed when its neighbour on that side is not solid. */
  predicate Exposed(solid: array3<bool>, x: int, y: int, z: int, f: Face)
    reads solid
  {
    var d := Offset(f);
    !SolidAt(solid, x + d.0, y + d.1, z + d.2)
  }

  /** The union of the bits of the exposed faces among `faces`. */
  function MaskOver(solid: array3<bool>, x: int, y: int, z: int, faces: seq<Face>): (m: Mask)
    reads solid
    ensures m & AllFaces == m
  {
    if |faces| == 0 then NoFaces
    else
      var rest := MaskOver(solid, x, y, z, faces[..|faces| - 1]);
      var f := faces[|faces| - 1];
      if Exposed(solid, x, y, z, f) then rest | Bit(f) else rest
  }

  const FaceOrder: seq<Face> := [Up, Down, North, East, South, West]

  /** The exposure mask of cell (x, y, z): every face whose neighbour is not solid. */
  function ExposureMask(solid: array3<bool>, x: int, y: int, z: int): (m: Mask)
    reads solid
    ensures m & AllFaces == m
  {
    MaskOver(solid, x, y, z, FaceOrder)
  }

  /** What `calculate_face_visibility` stores in a cell: the mask for solid cells, NONE otherwise. */
  function Visibility(solid: array3<bool>, x: int, y: int, z: int): (m: Mask)
    requires InGrid(solid, x, y, z)
    reads solid
    ensures m & AllFaces == m
    ensures m != NoFaces ==> solid[x, y, z]
  {
    if solid[x, y, z] then ExposureMask(solid, x, y, z) else NoFaces
  }

  /**
    The padded grid `np.pad(solid_grid, 1, constant_values=False)`, read at padded
    coordinates: cell (px, py, pz) is cell (px-1, py-1, pz-1) of the grid, and the
    one-cell border is empty.
  */
  predicate Padded(solid: array3<bool>, px: int, py: int, pz: int)
    reads solid
  {
    1 <= px <= solid.Length0 && 1 <= py <= solid.Length1 && 1 <= pz <= solid.Length2
    && solid[px - 1, py - 1, pz - 1]
  }

  /** Cells (i, j, k) visited before (x, y, z) in the row-major order of `np.argwhere`. */
  predicate Before(i: int, j: int, k: int, x: int, y: int, z: int)
  {
    i < x || (i == x && (j < y || (j == y && k < z)))
  }

  /** The visited cells hold their visibility, and the others are still NONE. */
  ghost predicate FilledBefore(vis: array3<Mask>, solid: array3<bool>, x: int, y: int, z: int)
    requires vis.Length0 == solid.Length0 && vis.Length1 == solid.Length1 && vis.Length2 == solid.Length2
    reads vis, solid
  {
    forall i, j, k :: 0 <= i < vis.Length0 && 0 <= j < vis.Length1 && 0 <= k < vis.Length2 ==>
      vis[i, j, k] == if Before(i, j, k, x, y, z) then Visibility(solid, i, j, k) else NoFaces
  }

  /** The fold over the six faces written out, one face at a time. */
  lemma ExposureMaskUnfolded(solid: array3<bool>, x: int, y: int, z: int)
    ensures ExposureMask(solid, x, y, z) ==
      (if Exposed(solid, x, y, z, Up) then Bit(Up) else 0)
      | (if Exposed(solid, x, y, z, Down) then Bit(Down) else 0)
      | (if Exposed(solid, x, y, z, North) then Bit(North) else 0)
      | (if Exposed(solid, x, y, z, East) then Bit(East) else 0)
      | (if Exposed(solid, x, y, z, South) then Bit(South) else 0)
      | (if Exposed(solid, x, y, z, West) then Bit(West) else 0)
  {
    var fs := FaceOrder;
    var m1 := MaskOver(solid, x, y, z, fs[..1]);
    assert fs[..1][..0] == [] && fs[0] == Up;
    assert MaskOver(solid, x, y, z, []) == 0;
    assert m1 == if Exposed(solid, x, y, z, Up) then Bit(Up) else 0;
    var m2 := MaskOver(solid, x, y, z, fs[..2]);
    assert fs[..2][..1] == fs[..1];
    assert m2 == m1 | if Exposed(solid, x, y, z, Down) then Bit(Down) else 0;
    var m3 := MaskOver(solid, x, y, z, fs[..3]);
    assert fs[..3][..2] == fs[..2];
    assert m3 == m2 | if Exposed(solid, x, y, z, North) then Bit(North) else 0;
    var m4 := MaskOver(solid, x, y, z, fs[..4]);
    assert fs[..4][..3] == fs[..3];
    assert m4 == m3 | if Exposed(solid, x, y, z, East) then Bit(East) else 0;
    var m5 := MaskOver(solid, x, y, z, fs[..5]);
    assert fs[..5][..4] == fs[..4];
    assert m5 == m4 | if Exposed(solid, x, y, z, South) then Bit(South) else 0;
    assert fs[..6] == fs && fs[..6][..5] == fs[..5];
    assert ExposureMask(solid, x, y, z) == m5 | if Exposed(solid, x, y, z, West) then Bit(West) else 0;
  }

  /** The six neighbour tests of one solid cell, read from the padded grid. */
  method CellMask(solid: array3<bool>, x: int, y: int, z: int) returns (visibility: Mask)
    requires InGrid(solid, x, y, z)
    ensures visibility == ExposureMask(solid, x, y, z)
  {
    var px, py, pz := x + 1, y + 1, z + 1;
    visibility := NoFaces;
    if !Padded(solid, px, py + 1, pz) { visibility := visibility | Bit(Up); }
    if !Padded(solid, px, py - 1, pz) { visibility := visibility | Bit(Down); }
    if !Padded(solid, px, py, pz - 1) { visibility := visibility | Bit(North); }
    if !Padded(solid, px + 1, py, pz) { visibility := visibility | Bit(East); }
    if !Padded(solid, px, py, pz + 1) { visibility := visibility | Bit(South); }
    if !Padded(solid, px - 1, py, pz) { visibility := visibility | Bit(West); }
    ExposureMaskUnfolded(solid, x, y, z);
  }

  /** One row of the scan: cells (x, y, 0) to (x, y, Length2 - 1). */
  method FillRow(vis: array3<Mask>, solid: array3<bool>, x: int, y: int)
    requires vis.Length0 == solid.Length0 && vis.Length1 == solid.Length1 && vis.Length2 == solid.Length2
    requires vis as object != solid as object
    requires 0 <= x < solid.Length0 && 0 <= y < solid.Length1
    requires FilledBefore(vis, solid, x, y, 0)
    modifies vis
    ensures FilledBefore(vis, solid, x, y + 1, 0)
  {
    var z := 0;
    while z < solid.Length2
      invariant 0 <= z <= solid.Length2
      invariant FilledBefore(vis, solid, x, y, z)
    {
      if solid[x, y, z] {
        var visibility := CellMask(solid, x, y, z);
        vis[x, y, z] := visibility;
      }
      z := z + 1;
    }
  }

  /** One slice of the scan: rows (x, 0) to (x, Length1 - 1). */
  method FillSlice(vis: array3<Mask>, solid: array3<bool>, x: int)
    requires vis.Length0 == solid.Length0 && vis.Length1 == solid.Length1 && vis.Length2 == solid.Length2
    requires vis as object != solid as object
    requires 0 <= x < solid.Length0
    requires FilledBefore(vis, solid, x, 0, 0)
    modifies vis
    ensures FilledBefore(vis, solid, x + 1, 0, 0)
  {
    var y := 0;
    while y < solid.Length1
      invariant 0 <= y <= solid.Length1
      invariant FilledBefore(vis, solid, x, y, 0)
    {
      FillRow(vis, solid, x, y);
      y := y + 1;
    }
  }

  /**
    `calculate_face_visibility`: a grid of the same shape, NONE everywhere, then every
    solid cell (in row-major order) gets the mask of its exposed faces.
  */
  method CalculateFaceVisibility(solid: array3<bool>) returns (vis: array3<Mask>)
    ensures fresh(vis)
    ensures vis.Length0 == solid.Length0 && vis.Length1 == solid.Length1 && vis.Length2 == solid.Length2
    ensures forall x, y, z :: 0 <= x < vis.Length0 && 0 <= y < vis.Length1 && 0 <= z < vis.Length2 ==>
      vis[x, y, z] == Visibility(solid, x, y, z)
  {
    vis := new Mask[solid.Length0, solid.Length1, solid.Length2]((i, j, k) => NoFaces);
    var x := 0;
    while x < solid.Length0
      invariant 0 <= x <= solid.Length0
      invariant FilledBefore(vis, solid, x, 0, 0)
    {
      FillSlice(vis, solid, x);
      x := x + 1;
    }
  }

  /** Distinct faces have disjoint bits. */
  lemma BitsDisjoint(f: Face, g: Face)
    ensures Bit(f) & Bit(g) != 0 <==> f == g
  {
  }

  lemma OrTest(a: Mask, b: Mask, c: Mask)
    ensures (a | b) & c != 0 <==> a & c != 0 || b & c != 0
    ensures a & AllFaces == a && b & AllFaces == b ==> (a | b) & AllFaces == a | b
  {
  }

  /** A face's bit is in the mask over `faces` exactly when that face is listed and exposed. */
  lemma {:induction false} MaskOverBit(solid: array3<bool>, x: int, y: int, z: int, faces: seq<Face>, f: Face)
    ensures MaskOver(solid, x, y, z, faces) & AllFaces == MaskOver(solid, x, y, z, faces)
    ensures MaskOver(solid, x, y, z, faces) & Bit(f) != 0 <==> f in faces && Exposed(solid, x, y, z, f)
  {
    if |faces| > 0 {
      var init, g := faces[..|faces| - 1], faces[|faces| - 1];
      MaskOverBit(solid, x, y, z, init, f);
      assert faces == init + [g];
      OrTest(MaskOver(solid, x, y, z, init), Bit(g), Bit(f));
      BitsDisjoint(f, g);
    }
  }

  /** The mask names a face exactly when the neighbour on that side is outside the grid or empty. */
  lemma FaceBitIff(solid: array3<bool>, x: int, y: int, z: int, f: Face)
    ensures ExposureMask(solid, x, y, z) & AllFaces == ExposureMask(solid, x, y, z)
    ensures ExposureMask(solid, x, y, z) & Bit(f) != 0 <==> Exposed(solid, x, y, z, f)
  {
    MaskOverBit(solid, x, y, z, FaceOrder, f);
  }

  /** A solid voxel with no solid neighbour shows all six faces. */
  lemma IsolatedShowsAll(solid: array3<bool>, x: int, y: int, z: int)
    requires InGrid(solid, x, y, z) && solid[x, y, z]
    requires forall f: Face :: Exposed(solid, x, y, z, f)
    ensures Visibility(solid, x, y, z) == AllFaces
  {
    assert Exposed(solid, x, y, z, Up) && Exposed(solid, x, y, z, Down) && Exposed(solid, x, y, z, North);
    assert Exposed(solid, x, y, z, East) && Exposed(solid, x, y, z, South) && Exposed(solid, x, y, z, West);
    ExposureMaskUnfolded(solid, x, y, z);
  }

  /** A voxel whose six neighbours are all solid shows no face. */
  lemma SurroundedShowsNone(solid: array3<bool>, x: int, y: int, z: int)
    requires InGrid(solid, x, y, z)
    requires forall f: Face :: !Exposed(solid, x, y, z, f)
    ensures Visibility(solid, x, y, z) == NoFaces
  {
    assert !Exposed(solid, x, y, z, Up) && !Exposed(solid, x, y, z, Down) && !Exposed(solid, x, y, z, North);
    assert !Exposed(solid, x, y, z, East) && !Exposed(solid, x, y, z, South) && !Exposed(solid, x, y, z, West);
    ExposureMaskUnfolded(solid, x, y, z);
  }
}
