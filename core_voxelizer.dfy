/**
  The voxel containers of the voxeliser: colours, integer vectors, the sparse voxel
  mesh with its incrementally tracked bounds, its densification into a grid, and
  the tail of texture sampling (clamping and pixel-to-colour conversion).
*/
module CoreVoxelizer {
  import opened Wrappers
  import opened VoxelKeys

  /** A colour with an alpha channel that defaults to opaque. */
  datatype RGBA = RGBA(r: int, g: int, b: int, a: int) {
    /** `to_list`: the three colour channels, alpha dropped. */
    function ToList(): Rgb { Rgb(r, g, b) }
  }

  /** One cell of a dense colour grid (the trailing axis of length 3). */
  datatype Rgb = Rgb(r: int, g: int, b: int)

  const Opaque := 255
  /** The sentinel colour for a pixel that cannot be read. */
  const Magenta := RGBA(255, 0, 255, Opaque)
  const BlackRgb := Rgb(0, 0, 0)

  /** A vector with integer components (all vectors of the core hold voxel coordinates). */
  datatype Vector3 = Vector3(x: int, y: int, z: int) {
    function Add(other: Vector3): Vector3 {
      Vector3(x + other.x, y + other.y, z + other.z)
    }

    function Sub(other: Vector3): (d: Vector3)
      ensures d.Add(other) == this
      ensures other.Add(d) == this
    {
      Vector3(x - other.x, y - other.y, z - other.z)
    }
  }

  const Origin := Vector3(0, 0, 0)

  /** A float bound that may still be infinite: the bounds start at +inf / -inf. */
  datatype ExtInt = NegInf | Fin(v: int) | PosInf

  /** Python's `min(bound, v)` on a possibly infinite bound. */
  function MinExt(bound: ExtInt, v: int): (r: ExtInt)
    ensures bound.PosInf? ==> r == Fin(v)
    ensures bound.Fin? ==> r.Fin? && r.v <= bound.v && r.v <= v && (r.v == v || r.v == bound.v)
  {
    match bound
    case PosInf => Fin(v)
    case NegInf => NegInf
    case Fin(u) => Fin(if v < u then v else u)
  }

  /** Python's `max(bound, v)` on a possibly infinite bound. */
  function MaxExt(bound: ExtInt, v: int): (r: ExtInt)
    ensures bound.NegInf? ==> r == Fin(v)
    ensures bound.Fin? ==> r.Fin? && r.v >= bound.v && r.v >= v && (r.v == v || r.v == bound.v)
  {
    match bound
    case NegInf => Fin(v)
    case PosInf => PosInf
    case Fin(u) => Fin(if v > u then v else u)
  }

  datatype ExtVector3 = ExtVector3(x: ExtInt, y: ExtInt, z: ExtInt) {
    predicate IsFinite() { x.Fin? && y.Fin? && z.Fin? }

    function Value(): Vector3
      requires IsFinite()
    {
      Vector3(x.v, y.v, z.v)
    }
  }

  const AllPosInf := ExtVector3(PosInf, PosInf, PosInf)
  const AllNegInf := ExtVector3(NegInf, NegInf, NegInf)

  /** The key a voxel is stored under. */
  function KeyOf(c: Vector3): (key: string)
    ensures ParseKey(key) == Some([c.x, c.y, c.z])
  {
    KeyRoundTrip(c.x, c.y, c.z);
    FormatKey(c.x, c.y, c.z)
  }

  function MinExtVector(b: ExtVector3, c: Vector3): ExtVector3
  {
    ExtVector3(MinExt(b.x, c.x), MinExt(b.y, c.y), MinExt(b.z, c.z))
  }

  function MaxExtVector(b: ExtVector3, c: Vector3): ExtVector3
  {
    ExtVector3(MaxExt(b.x, c.x), MaxExt(b.y, c.y), MaxExt(b.z, c.z))
  }

  /** The coordinate triple of a coordinate, as parsing its key should yield it. */
  function Coords(c: Vector3): (p: seq<int>)
    ensures |p| == 3 && p[0] == c.x && p[1] == c.y && p[2] == c.z
  {
    [c.x, c.y, c.z]
  }

  /** `decode` reads every key `keyOf` writes back into its coordinate triple. */
  ghost predicate Decodes<K(!new)>(keyOf: Vector3 -> K, decode: K -> Option<seq<int>>)
  {
    forall c {:trigger decode(keyOf(c))} :: decode(keyOf(c)) == Some(Coords(c))
  }

  lemma KeyOfDecodes()
    ensures Decodes(KeyOf, ParseKey)
  {
    forall c ensures ParseKey(KeyOf(c)) == Some(Coords(c)) {
      KeyRoundTrip(c.x, c.y, c.z);
    }
  }

  /** The coordinate a key names, read through `decode` (the origin for a key that is not one). */
  function CoordOf<K>(decode: K -> Option<seq<int>>, key: K): Vector3
  {
    match decode(key)
    case Some(p) => if |p| == 3 then Vector3(p[0], p[1], p[2]) else Origin
    case None => Origin
  }

  /** A decodable key function has `CoordOf` as left inverse, so distinct coordinates get distinct keys. */
  lemma {:induction false} CoordOfKey<K(!new)>(keyOf: Vector3 -> K, decode: K -> Option<seq<int>>, c: Vector3, d: Vector3)
    requires Decodes(keyOf, decode)
    ensures CoordOf(decode, keyOf(c)) == c
    ensures keyOf(c) == keyOf(d) <==> c == d
  {
    assert decode(keyOf(c)) == Some(Coords(c));
    assert decode(keyOf(d)) == Some(Coords(d));
  }

  /** `lo <= c <= hi` on every axis. */
  predicate Within(lo: Vector3, c: Vector3, hi: Vector3)
  {
    lo.x <= c.x <= hi.x && lo.y <= c.y <= hi.y && lo.z <= c.z <= hi.z
  }

  /**
    Six stored coordinates attaining the bounds, one per axis and direction. They are
    ghost bookkeeping: they let the invariant say the bounds are exact without an
    existential quantifier.
  */
  datatype Extremes = Extremes(lowX: Vector3, lowY: Vector3, lowZ: Vector3,
                               highX: Vector3, highY: Vector3, highZ: Vector3)

  /**
    The running bounds of the stored coordinates: infinite while nothing is stored, the
    exact component-wise extremes after (each attained by the coordinate `at` names).
  */
  ghost predicate TracksBounds<K(!new)>(keyOf: Vector3 -> K, decode: K -> Option<seq<int>>, voxels: map<K, RGBA>,
                                      lo: ExtVector3, hi: ExtVector3, at: Extremes)
  {
    && (|voxels| == 0 ==> lo == AllPosInf && hi == AllNegInf)
    && (|voxels| > 0 ==>
          && lo.IsFinite() && hi.IsFinite()
          && (forall key :: key in voxels ==> Within(lo.Value(), CoordOf(decode, key), hi.Value()))
          && keyOf(at.lowX) in voxels && at.lowX.x == lo.x.v
          && keyOf(at.lowY) in voxels && at.lowY.y == lo.y.v
          && keyOf(at.lowZ) in voxels && at.lowZ.z == lo.z.v
          && keyOf(at.highX) in voxels && at.highX.x == hi.x.v
          && keyOf(at.highY) in voxels && at.highY.y == hi.y.v
          && keyOf(at.highZ) in voxels && at.highZ.z == hi.z.v)
  }

  /** Which coordinate attains each bound after folding `c` in (it wins only when strictly beyond). */
  ghost function ExtendExtremes(at: Extremes, lo: ExtVector3, hi: ExtVector3, c: Vector3): Extremes
  {
    Extremes(if lo.x.PosInf? || (lo.x.Fin? && c.x < lo.x.v) then c else at.lowX,
             if lo.y.PosInf? || (lo.y.Fin? && c.y < lo.y.v) then c else at.lowY,
             if lo.z.PosInf? || (lo.z.Fin? && c.z < lo.z.v) then c else at.lowZ,
             if hi.x.NegInf? || (hi.x.Fin? && c.x > hi.x.v) then c else at.highX,
             if hi.y.NegInf? || (hi.y.Fin? && c.y > hi.y.v) then c else at.highY,
             if hi.z.NegInf? || (hi.z.Fin? && c.z > hi.z.v) then c else at.highZ)
  }

  /**
    The invariant of the voxel container: keys decode back to their coordinates, every
    stored key is the key of the coordinate it names, `order` lists exactly the stored
    keys, and the bounds are tracked exactly.
  */
  ghost predicate MeshInv<K(!new)>(keyOf: Vector3 -> K, decode: K -> Option<seq<int>>, voxels: map<K, RGBA>,
                                 order: seq<K>, lo: ExtVector3, hi: ExtVector3, at: Extremes)
  {
    && Decodes(keyOf, decode)
    && (forall key :: key in voxels ==> keyOf(CoordOf(decode, key)) == key)
    && |order| == |voxels|
    && (forall key :: key in order <==> key in voxels)
    && TracksBounds(keyOf, decode, voxels, lo, hi, at)
  }

  /** `add_voxel` keeps the invariant: the key is written, appended to the order if new, and the bounds widened. */
  lemma MeshInvAdd<K(!new)>(keyOf: Vector3 -> K, decode: K -> Option<seq<int>>, voxels: map<K, RGBA>,
                            order: seq<K>, lo: ExtVector3, hi: ExtVector3, at: Extremes,
                            c: Vector3, colour: RGBA,
                            voxels': map<K, RGBA>, order': seq<K>, lo': ExtVector3, hi': ExtVector3, at': Extremes)
    requires MeshInv(keyOf, decode, voxels, order, lo, hi, at)
    requires voxels' == voxels[keyOf(c) := colour]
    requires order' == if keyOf(c) in voxels then order else order + [keyOf(c)]
    requires lo' == MinExtVector(lo, c) && hi' == MaxExtVector(hi, c) && at' == ExtendExtremes(at, lo, hi, c)
    ensures MeshInv(keyOf, decode, voxels', order', lo', hi', at')
  {
    CoordOfKey(keyOf, decode, c, c);
    if |voxels| > 0 {
      forall key | key in voxels' ensures Within(lo'.Value(), CoordOf(decode, key), hi'.Value()) {
        if key != keyOf(c) {
          assert Within(lo.Value(), CoordOf(decode, key), hi.Value());
        }
      }
    }
  }

  /**
    The colour the store holds at a coordinate: what `_voxels.get` returns for its key.
    Adding a voxel changes it at that coordinate only.
  */
  ghost function ColourAt<K>(keyOf: Vector3 -> K, voxels: map<K, RGBA>, c: Vector3): Option<RGBA>
  {
    if keyOf(c) in voxels then Some(voxels[keyOf(c)]) else None
  }

  lemma {:induction false} AddChangesOneCell<K(!new)>(keyOf: Vector3 -> K, decode: K -> Option<seq<int>>,
                                                    voxels: map<K, RGBA>, c: Vector3, colour: RGBA, d: Vector3)
    requires Decodes(keyOf, decode)
    ensures ColourAt(keyOf, voxels[keyOf(c) := colour], d) == if d == c then Some(colour) else ColourAt(keyOf, voxels, d)
  {
    CoordOfKey(keyOf, decode, c, d);
  }

  /** A store of well-formed keys is empty exactly when no coordinate has a colour. */
  lemma EmptyIffColourless<K(!new)>(keyOf: Vector3 -> K, decode: K -> Option<seq<int>>, voxels: map<K, RGBA>)
    requires forall key :: key in voxels ==> keyOf(CoordOf(decode, key)) == key
    ensures |voxels| == 0 <==> forall d :: ColourAt(keyOf, voxels, d) == None
  {
    if |voxels| > 0 {
      var key :| key in voxels;
      assert ColourAt(keyOf, voxels, CoordOf(decode, key)) != None;
    }
  }

  /**
    The colour a dense grid shows at coordinate `d` after writing the voxels of `keys`
    in turn, each at the coordinate its key names: the last write to `d` wins, and a
    coordinate nobody wrote stays black.
  */
  ghost function Painted<K>(keys: seq<K>, voxels: map<K, RGBA>, decode: K -> Option<seq<int>>, d: Vector3): Rgb
    requires forall t :: 0 <= t < |keys| ==> keys[t] in voxels
  {
    if |keys| == 0 then BlackRgb
    else
      var key := keys[|keys| - 1];
      if CoordOf(decode, key) == d then voxels[key].ToList() else Painted(keys[..|keys| - 1], voxels, decode, d)
  }

  /**
    Whatever the keys, a painted cell is black or holds the colour of a key naming it,
    and a cell no key names stays black.
  */
  lemma {:induction false} PaintedFrom<K>(keys: seq<K>, voxels: map<K, RGBA>, decode: K -> Option<seq<int>>, d: Vector3)
    requires forall t :: 0 <= t < |keys| ==> keys[t] in voxels
    ensures (forall t :: 0 <= t < |keys| ==> CoordOf(decode, keys[t]) != d) ==> Painted(keys, voxels, decode, d) == BlackRgb
    ensures || Painted(keys, voxels, decode, d) == BlackRgb
            || exists t :: 0 <= t < |keys| && CoordOf(decode, keys[t]) == d
                           && Painted(keys, voxels, decode, d) == voxels[keys[t]].ToList()
  {
    if |keys| > 0 {
      var init := keys[..|keys| - 1];
      PaintedFrom(init, voxels, decode, d);
      if CoordOf(decode, keys[|keys| - 1]) != d && Painted(init, voxels, decode, d) != BlackRgb {
        var t :| 0 <= t < |init| && CoordOf(decode, init[t]) == d && Painted(init, voxels, decode, d) == voxels[init[t]].ToList();
        assert keys[t] == init[t];
      }
    }
  }

  /**
    Over well-formed keys the last-writer-wins picture is the stored colour: each
    coordinate is named by exactly one key, so at most one write lands on it.
  */
  lemma {:induction false} PaintedIsStored<K(!new)>(keyOf: Vector3 -> K, decode: K -> Option<seq<int>>,
                                                  keys: seq<K>, voxels: map<K, RGBA>, d: Vector3)
    requires Decodes(keyOf, decode)
    requires forall t :: 0 <= t < |keys| ==> keys[t] in voxels && keyOf(CoordOf(decode, keys[t])) == keys[t]
    ensures Painted(keys, voxels, decode, d) == if keyOf(d) in keys then voxels[keyOf(d)].ToList() else BlackRgb
  {
    if |keys| > 0 {
      var key, init := keys[|keys| - 1], keys[..|keys| - 1];
      assert keys == init + [key];
      PaintedIsStored(keyOf, decode, init, voxels, d);
      CoordOfKey(keyOf, decode, d, CoordOf(decode, key));
    }
  }

  /**
    The loop of `to_numpy_array`: for each key in turn, parse it into coordinates and
    write its colour at those coordinates minus the minimum bound.
  */
  method PaintVoxels(grid: array3<Rgb>, keys: seq<string>, voxels: map<string, RGBA>,
                     parseKey: string -> Option<seq<int>>, lo: Vector3)
    requires forall i, j, k :: 0 <= i < grid.Length0 && 0 <= j < grid.Length1 && 0 <= k < grid.Length2 ==>
      grid[i, j, k] == BlackRgb
    requires forall t :: 0 <= t < |keys| ==>
      && keys[t] in voxels
      && parseKey(keys[t]) == Some(Coords(CoordOf(parseKey, keys[t])))
      && var local := CoordOf(parseKey, keys[t]).Sub(lo);
         0 <= local.x < grid.Length0 && 0 <= local.y < grid.Length1 && 0 <= local.z < grid.Length2
    modifies grid
    ensures forall i, j, k :: 0 <= i < grid.Length0 && 0 <= j < grid.Length1 && 0 <= k < grid.Length2 ==>
      grid[i, j, k] == Painted(keys, voxels, parseKey, lo.Add(Vector3(i, j, k)))
  {
    var n := 0;
    while n < |keys|
      invariant 0 <= n <= |keys|
      invariant forall i, j, k :: 0 <= i < grid.Length0 && 0 <= j < grid.Length1 && 0 <= k < grid.Length2 ==>
        grid[i, j, k] == Painted(keys[..n], voxels, parseKey, lo.Add(Vector3(i, j, k)))
    {
      var key := keys[n];
      var coords := parseKey(key).value;
      var lx, ly, lz := coords[0] - lo.x, coords[1] - lo.y, coords[2] - lo.z;
      grid[lx, ly, lz] := voxels[key].ToList();
      assert keys[..n + 1][..n] == keys[..n];
      n := n + 1;
    }
    assert keys[..n] == keys;
  }

  /** The colour `to_numpy_array` should show at coordinate `d`: the stored colour, or black. */
  ghost function Shade<K>(keyOf: Vector3 -> K, voxels: map<K, RGBA>, d: Vector3): Rgb
  {
    match ColourAt(keyOf, voxels, d)
    case Some(colour) => colour.ToList()
    case None => BlackRgb
  }

  /**
    Under the invariant every key of the order is stored, well-formed, parses, and lies
    within the bounds; so painting the order shows every stored colour.
  */
  lemma OrderPaintable<K(!new)>(keyOf: Vector3 -> K, decode: K -> Option<seq<int>>, voxels: map<K, RGBA>,
                                order: seq<K>, lo: ExtVector3, hi: ExtVector3, at: Extremes)
    requires MeshInv(keyOf, decode, voxels, order, lo, hi, at) && |voxels| > 0
    ensures forall t :: 0 <= t < |order| ==>
      && order[t] in voxels
      && keyOf(CoordOf(decode, order[t])) == order[t]
      && decode(order[t]) == Some(Coords(CoordOf(decode, order[t])))
      && Within(lo.Value(), CoordOf(decode, order[t]), hi.Value())
  {
    forall t | 0 <= t < |order|
      ensures decode(order[t]) == Some(Coords(CoordOf(decode, order[t])))
    {
      var c := CoordOf(decode, order[t]);
      assert order[t] in voxels;
      assert decode(keyOf(c)) == Some(Coords(c));
    }
  }

  /** Painting the whole insertion order shows exactly the stored colours. */
  lemma PaintedIsShade<K(!new)>(keyOf: Vector3 -> K, decode: K -> Option<seq<int>>, voxels: map<K, RGBA>,
                                order: seq<K>, lo: ExtVector3, hi: ExtVector3, at: Extremes)
    requires MeshInv(keyOf, decode, voxels, order, lo, hi, at)
    ensures forall d :: Painted(order, voxels, decode, d) == Shade(keyOf, voxels, d)
  {
    forall d ensures Painted(order, voxels, decode, d) == Shade(keyOf, voxels, d) {
      PaintedIsStored(keyOf, decode, order, voxels, d);
    }
  }

  /**
    The allocation and loop of `to_numpy_array`: a black grid spanning `lo` to `hi`,
    then every key painted in turn.
  */
  method Rasterise(keys: seq<string>, voxels: map<string, RGBA>, parseKey: string -> Option<seq<int>>,
                   lo: Vector3, hi: Vector3) returns (grid: array3<Rgb>)
    requires forall t :: 0 <= t < |keys| ==>
      && keys[t] in voxels
      && parseKey(keys[t]) == Some(Coords(CoordOf(parseKey, keys[t])))
      && Within(lo, CoordOf(parseKey, keys[t]), hi)
    requires lo.x <= hi.x && lo.y <= hi.y && lo.z <= hi.z
    ensures fresh(grid)
    ensures grid.Length0 == hi.x - lo.x + 1 && grid.Length1 == hi.y - lo.y + 1 && grid.Length2 == hi.z - lo.z + 1
    ensures forall i, j, k :: 0 <= i < grid.Length0 && 0 <= j < grid.Length1 && 0 <= k < grid.Length2 ==>
      grid[i, j, k] == Painted(keys, voxels, parseKey, lo.Add(Vector3(i, j, k)))
  {
    grid := new Rgb[hi.x - lo.x + 1, hi.y - lo.y + 1, hi.z - lo.z + 1]((i, j, k) => BlackRgb);
    PaintVoxels(grid, keys, voxels, parseKey, lo);
  }

  /**
    The sparse voxel container. The source's `_voxels` dictionary is the map `voxels`
    together with `order`, the insertion order in which Python iterates it.
  */
  class VoxelMesh {
    var voxels: map<string, RGBA>
    var order: seq<string>
    var minBounds: ExtVector3
    var maxBounds: ExtVector3
    ghost var extremes: Extremes
    /** How a coordinate becomes its dictionary key, and how a key is read back; fixed at construction. */
    const keyOf: Vector3 -> string
    const parseKey: string -> Option<seq<int>>

    ghost predicate Valid()
      reads this
    {
      MeshInv(keyOf, parseKey, voxels, order, minBounds, maxBounds, extremes)
    }

    constructor ()
      ensures Valid() && voxels == map[] && order == []
      ensures keyOf == KeyOf && parseKey == ParseKey
    {
      keyOf := KeyOf;
      parseKey := ParseKey;
      KeyOfDecodes();
      voxels := map[];
      order := [];
      minBounds := AllPosInf;
      maxBounds := AllNegInf;
      extremes := Extremes(Origin, Origin, Origin, Origin, Origin, Origin);
    }

    /** `_update_bounds`: fold one coordinate into the running min and max. */
    method UpdateBounds(x: int, y: int, z: int)
      modifies this`minBounds, this`maxBounds
      ensures minBounds == MinExtVector(old(minBounds), Vector3(x, y, z))
      ensures maxBounds == MaxExtVector(old(maxBounds), Vector3(x, y, z))
    {
      minBounds := ExtVector3(MinExt(minBounds.x, x), MinExt(minBounds.y, y), MinExt(minBounds.z, z));
      maxBounds := ExtVector3(MaxExt(maxBounds.x, x), MaxExt(maxBounds.y, y), MaxExt(maxBounds.z, z));
    }

    /**
      `add_voxel`: store the colour under the coordinate's key, overwriting an earlier
      colour there (its place in the iteration order is kept), and widen the bounds.
    */
    method AddVoxel(x: int, y: int, z: int, colour: RGBA)
      requires Valid()
      modifies this
      ensures Valid()
      ensures voxels == old(voxels)[keyOf(Vector3(x, y, z)) := colour]
      ensures forall d :: ColourAt(keyOf, voxels, d) == if d == Vector3(x, y, z) then Some(colour) else old(ColourAt(keyOf, voxels, d))
      ensures order == if keyOf(Vector3(x, y, z)) in old(voxels) then old(order) else old(order) + [keyOf(Vector3(x, y, z))]
    {
      var c := Vector3(x, y, z);
      var key := keyOf(c);
      ghost var voxels0, order0, lo0, hi0, at0 := voxels, order, minBounds, maxBounds, extremes;
      if key !in voxels {
        order := order + [key];
      }
      voxels := voxels[key := colour];
      UpdateBounds(x, y, z);
      extremes := ExtendExtremes(extremes, lo0, hi0, c);
      MeshInvAdd(keyOf, parseKey, voxels0, order0, lo0, hi0, at0, c, colour,
                 voxels, order, minBounds, maxBounds, extremes);
      forall d ensures ColourAt(keyOf, voxels, d) == if d == c then Some(colour) else ColourAt(keyOf, voxels0, d) {
        AddChangesOneCell(keyOf, parseKey, voxels0, c, colour, d);
      }
    }

    /** `get_voxel_count`: the number of stored keys, one per distinct coordinate added. */
    function GetVoxelCount(): (n: nat)
      reads this
      requires Valid()
      ensures n == |order|
      ensures n == 0 <==> forall d :: ColourAt(keyOf, voxels, d) == None
    {
      EmptyIffColourless(keyOf, parseKey, voxels);
      |voxels|
    }

    /**
      `get_bounds`: the component-wise minimum and maximum of the stored coordinates,
      or the degenerate box at the origin when nothing was added.
    */
    function GetBounds(): (b: (Vector3, Vector3))
      reads this
      requires Valid()
      ensures |voxels| == 0 ==> b == (Origin, Origin)
      ensures |voxels| > 0 ==> forall d :: keyOf(d) in voxels ==> Within(b.0, d, b.1)
      ensures |voxels| > 0 ==>
        && (exists d :: keyOf(d) in voxels && d.x == b.0.x)
        && (exists d :: keyOf(d) in voxels && d.y == b.0.y)
        && (exists d :: keyOf(d) in voxels && d.z == b.0.z)
        && (exists d :: keyOf(d) in voxels && d.x == b.1.x)
        && (exists d :: keyOf(d) in voxels && d.y == b.1.y)
        && (exists d :: keyOf(d) in voxels && d.z == b.1.z)
      ensures b.0.x <= b.1.x && b.0.y <= b.1.y && b.0.z <= b.1.z
    {
      if |voxels| == 0 then (Origin, Origin)
      else
        assert forall d :: keyOf(d) in voxels ==> Within(minBounds.Value(), d, maxBounds.Value()) by {
          forall d | keyOf(d) in voxels ensures Within(minBounds.Value(), d, maxBounds.Value()) {
            CoordOfKey(keyOf, parseKey, d, d);
          }
        }
        (minBounds.Value(), maxBounds.Value())
    }

    /**
      `to_numpy_array`: a dense grid spanning the bounds, each stored voxel's colour
      at its coordinate minus the minimum bound and black elsewhere; a 1x1x1 black
      grid for an empty mesh.
    */
    method ToNumpyArray() returns (grid: array3<Rgb>)
      requires Valid()
      ensures fresh(grid)
      ensures |voxels| == 0 ==>
        grid.Length0 == 1 && grid.Length1 == 1 && grid.Length2 == 1 && grid[0, 0, 0] == BlackRgb
      ensures |voxels| > 0 ==>
        var lo, hi := minBounds.Value(), maxBounds.Value();
        && grid.Length0 == hi.x - lo.x + 1
        && grid.Length1 == hi.y - lo.y + 1
        && grid.Length2 == hi.z - lo.z + 1
        && forall i, j, k :: 0 <= i < grid.Length0 && 0 <= j < grid.Length1 && 0 <= k < grid.Length2 ==>
             grid[i, j, k] == Shade(keyOf, voxels, lo.Add(Vector3(i, j, k)))
    {
      if GetVoxelCount() == 0 {
        grid := new Rgb[1, 1, 1]((i, j, k) => BlackRgb);
        return;
      }
      var (lo, hi) := GetBounds();
      OrderPaintable(keyOf, parseKey, voxels, order, minBounds, maxBounds, extremes);
      PaintedIsShade(keyOf, parseKey, voxels, order, minBounds, maxBounds, extremes);
      grid := Rasterise(order, voxels, parseKey, lo, hi);
    }
  }

  /** A pixel as the image library returns it: a single integer or a tuple of channels. */
  datatype Pixel = IntPixel(v: int) | TuplePixel(channels: seq<int>)

  /**
    The last step of `_get_voxel_colour`: a grey pixel is replicated over r, g, b, a
    3-tuple gets an opaque alpha, a 4-tuple is copied, and any other shape is magenta.
  */
  function PixelToRGBA(p: Pixel): (c: RGBA)
    ensures c.a == Opaque || (p.TuplePixel? && |p.channels| == 4 && c.a == p.channels[3])
    ensures p.IntPixel? ==> c.r == c.g == c.b == p.v && c.a == Opaque
    ensures p.TuplePixel? && 3 <= |p.channels| <= 4 ==> [c.r, c.g, c.b] == p.channels[..3]
    ensures p.TuplePixel? && |p.channels| == 3 ==> c.a == Opaque
    ensures p.TuplePixel? && |p.channels| == 4 ==> c == RGBA(p.channels[0], p.channels[1], p.channels[2], p.channels[3])
    ensures p.TuplePixel? && |p.channels| != 3 && |p.channels| != 4 ==> c == Magenta
  {
    match p
    case IntPixel(v) => RGBA(v, v, v, Opaque)
    case TuplePixel(ch) =>
      if |ch| == 3 then RGBA(ch[0], ch[1], ch[2], Opaque)
      else if |ch| == 4 then RGBA(ch[0], ch[1], ch[2], ch[3])
      else Magenta
  }

  /** A colour survives being read back from its own 4-tuple, and an opaque one from its 3-tuple. */
  lemma PixelRoundTrip(c: RGBA)
    ensures PixelToRGBA(TuplePixel([c.r, c.g, c.b, c.a])) == c
    ensures c.a == Opaque ==> PixelToRGBA(TuplePixel([c.r, c.g, c.b])) == c
  {
  }

  /** `np.clip(v, lo, hi)`, which is `min(max(v, lo), hi)`. */
  function Clip(v: int, lo: int, hi: int): (r: int)
    ensures lo <= hi ==> lo <= r <= hi
    ensures lo <= v <= hi ==> r == v
    ensures v < lo <= hi ==> r == lo
    ensures lo <= hi < v ==> r == hi
  {
    var raised := if v < lo then lo else v;
    if raised > hi then hi else raised
  }

  /** Clamping picks the point of [lo, hi] nearest to `v`. */
  lemma ClipIsNearest(v: int, lo: int, hi: int, u: int)
    requires lo <= u <= hi
    ensures Distance(Clip(v, lo, hi), v) <= Distance(u, v)
  {
  }

  function Distance(a: int, b: int): nat
  {
    if a < b then b - a else a - b
  }

  /** A decoded image: `pixels[y][x]` for `0 <= x < width`, `0 <= y < height`. */
  datatype Texture = Texture(width: int, height: int, pixels: seq<seq<Pixel>>)
  {
    predicate Valid()
    {
      width >= 1 && height >= 1 && |pixels| == height
      && forall y :: 0 <= y < height ==> |pixels[y]| == width
    }
  }

  /**
    Sampling at texture coordinates (tx, ty): clamp both into the image, read that
    pixel, convert it; a coordinate already inside the image samples its own pixel.
  */
  function SampleTexture(texture: Texture, tx: int, ty: int): (c: RGBA)
    requires texture.Valid()
    ensures exists x, y :: 0 <= x < texture.width && 0 <= y < texture.height
                           && c == PixelToRGBA(texture.pixels[y][x])
    ensures c == PixelToRGBA(texture.pixels[Clip(ty, 0, texture.height - 1)][Clip(tx, 0, texture.width - 1)])
    ensures 0 <= tx < texture.width && 0 <= ty < texture.height ==> c == PixelToRGBA(texture.pixels[ty][tx])
    ensures tx < 0 ==> c == PixelToRGBA(texture.pixels[Clip(ty, 0, texture.height - 1)][0])
    ensures tx >= texture.width ==> c == PixelToRGBA(texture.pixels[Clip(ty, 0, texture.height - 1)][texture.width - 1])
    ensures ty < 0 ==> c == PixelToRGBA(texture.pixels[0][Clip(tx, 0, texture.width - 1)])
    ensures ty >= texture.height ==> c == PixelToRGBA(texture.pixels[texture.height - 1][Clip(tx, 0, texture.width - 1)])
  {
    var x := Clip(tx, 0, texture.width - 1);
    var y := Clip(ty, 0, texture.height - 1);
    PixelToRGBA(texture.pixels[y][x])
  }
}
