/**
  Matching voxels to atlas blocks: `Block`, `BlockMesh` and `map_voxels_to_blocks` of
  block_mapper.py.
*/
module BlockMapper {
  import opened Wrappers
  import opened CoreVoxelizer
  import opened FaceVisibility
  import opened OrderedDicts
  import opened Atlas

  /** One placed block: where it goes, the atlas block chosen for it, and the voxel's colour. */
  datatype Block = Block(position: Vector3, name: string, colour: RGBA)

  // ---------------------------------------------------------------------------
  // The order `sorted` puts strings in

  /** Python's string order: lexicographic by code point, a proper prefix first. */
  predicate StrLt(a: string, b: string)
    decreases |a|
  {
    if |a| == 0 then |b| > 0
    else if |b| == 0 then false
    else if a[0] != b[0] then a[0] < b[0]
    else StrLt(a[1..], b[1..])
  }

  lemma {:induction false} StrLtIrreflexive(a: string)
    ensures !StrLt(a, a)
    decreases |a|
  {
    if |a| > 0 {
      StrLtIrreflexive(a[1..]);
    }
  }

  lemma {:induction false} StrLtTransitive(a: string, b: string, c: string)
    requires StrLt(a, b) && StrLt(b, c)
    ensures StrLt(a, c)
    decreases |a|
  {
    if |a| > 0 && a[0] == b[0] && b[0] == c[0] {
      StrLtTransitive(a[1..], b[1..], c[1..]);
    }
  }

  /** Two different strings are ordered one way or the other, and never both ways. */
  lemma {:induction false} StrLtTotal(a: string, b: string)
    ensures a != b ==> StrLt(a, b) || StrLt(b, a)
    ensures !(StrLt(a, b) && StrLt(b, a))
    decreases |a|
  {
    if |a| > 0 && |b| > 0 && a[0] == b[0] {
      StrLtTotal(a[1..], b[1..]);
      if a != b {
        assert a == [a[0]] + a[1..] && b == [b[0]] + b[1..];
      }
    }
  }

  /** `m` is the least string of `s`. */
  predicate IsLeast(m: string, s: set<string>)
  {
    m in s && forall x :: x in s && x != m ==> StrLt(m, x)
  }

  /** A non-empty set of strings has a least element. */
  lemma {:induction false} LeastExists(s: set<string>)
    requires s != {}
    ensures exists m :: IsLeast(m, s)
    decreases |s|
  {
    var y :| y in s;
    if s != {y} {
      LeastExists(s - {y});
      var m :| IsLeast(m, s - {y});
      StrLtTotal(y, m);
      if StrLt(y, m) {
        forall x | x in s && x != y ensures StrLt(y, x) {
          if x != m {
            StrLtTransitive(y, m, x);
          }
        }
        assert IsLeast(y, s);
      } else {
        assert IsLeast(m, s);
      }
    } else {
      assert IsLeast(y, s);
    }
  }

  /** The least element is unique. */
  lemma LeastUnique(s: set<string>)
    ensures forall a, b :: IsLeast(a, s) && IsLeast(b, s) ==> a == b
  {
    forall a, b | IsLeast(a, s) && IsLeast(b, s) ensures a == b {
      StrLtTotal(a, b);
    }
  }

  /** `sorted(list(s))`: the strings of `s`, each once, in increasing order. */
  function SortedNames(s: set<string>): (r: seq<string>)
    ensures |r| == |s|
    ensures forall x :: x in r <==> x in s
    ensures forall i, j :: 0 <= i < j < |r| ==> StrLt(r[i], r[j])
    decreases |s|
  {
    if s == {} then []
    else
      LeastExists(s);
      LeastUnique(s);
      var m :| IsLeast(m, s);
      var rest := SortedNames(s - {m});
      assert forall j :: 0 <= j < |rest| ==> rest[j] in s - {m};
      [m] + rest
  }

  // ---------------------------------------------------------------------------
  // The block mesh

  /** The mapping result: the blocks in the order they were added and the set of their names. */
  class BlockMesh {
    var blocks: seq<Block>
    var palette: set<string>
    const voxelMesh: VoxelMesh

    /** The palette is exactly the names of the added blocks. */
    ghost predicate Valid()
      reads this
    {
      forall n :: n in palette <==> exists i :: 0 <= i < |blocks| && blocks[i].name == n
    }

    constructor(mesh: VoxelMesh)
      ensures Valid()
      ensures blocks == [] && palette == {} && voxelMesh == mesh
    {
      blocks := [];
      palette := {};
      voxelMesh := mesh;
    }

    /** `add_block`: append the block and record its name. */
    method AddBlock(block: Block)
      requires Valid()
      modifies this`blocks, this`palette
      ensures Valid()
      ensures blocks == old(blocks) + [block]
      ensures palette == old(palette) + {block.name}
    {
      blocks := blocks + [block];
      palette := palette + {block.name};
      assert blocks[|blocks| - 1].name == block.name;
      forall n | n in palette ensures exists i :: 0 <= i < |blocks| && blocks[i].name == n {
        if n != block.name {
          var i :| 0 <= i < |old(blocks)| && old(blocks)[i].name == n;
          assert blocks[i].name == n;
        }
      }
    }

    /** `get_blocks`: the blocks in the order they were added. */
    function GetBlocks(): (bs: seq<Block>)
      reads this
      ensures bs == blocks
    {
      blocks
    }

    /** `get_block_palette`: the names of the added blocks, each once, sorted. */
    function GetBlockPalette(): (names: seq<string>)
      reads this
      requires Valid()
      ensures forall n :: n in names <==> exists i :: 0 <= i < |blocks| && blocks[i].name == n
      ensures forall i, j :: 0 <= i < j < |names| ==> StrLt(names[i], names[j])
    {
      SortedNames(palette)
    }

    /** `get_bounds`: the bounds of the voxel mesh the blocks were mapped from. */
    function GetBounds(): (b: (Vector3, Vector3))
      reads this, voxelMesh
      requires voxelMesh.Valid()
      ensures b == voxelMesh.GetBounds()
    {
      voxelMesh.GetBounds()
    }
  }

  // ---------------------------------------------------------------------------
  // Choosing a block

  lemma SquaresSum(a: int, b: int, c: int)
    ensures a * a + b * b + c * c >= 0
    ensures a * a + b * b + c * c == 0 <==> a == 0 && b == 0 && c == 0
  {
    assert a * a >= 0 && b * b >= 0 && c * c >= 0;
    assert a != 0 ==> a * a > 0;
    assert b != 0 ==> b * b > 0;
    assert c != 0 ==> c * c > 0;
  }

  /** The squared Euclidean distance of two colours in RGB space (alpha ignored). */
  function SqDist(c: RGBA, d: RGBA): (e: int)
    ensures e >= 0
    ensures e == 0 <==> c.r == d.r && c.g == d.g && c.b == d.b
  {
    SquaresSum(c.r - d.r, c.g - d.g, c.b - d.b);
    (c.r - d.r) * (c.r - d.r) + (c.g - d.g) * (c.g - d.g) + (c.b - d.b) * (c.b - d.b)
  }

  /** The error of each available block for a voxel colour under a visibility mask. */
  function Errors(colour: RGBA, mask: Mask, available: seq<AtlasBlock>): (errs: seq<int>)
    ensures |errs| == |available|
    ensures forall i :: 0 <= i < |errs| ==> errs[i] == SqDist(colour, ContextualColour(available[i], mask))
  {
    seq(|available|, i requires 0 <= i < |available| => SqDist(colour, ContextualColour(available[i], mask)))
  }

  /** The first position of the least value: every value is at least it, every earlier one is greater. */
  function FirstMin(errs: seq<int>): (k: nat)
    requires |errs| > 0
    ensures k < |errs|
    ensures forall j :: 0 <= j < |errs| ==> errs[k] <= errs[j]
    ensures forall j :: 0 <= j < k ==> errs[j] > errs[k]
  {
    if |errs| == 1 then 0
    else
      var k := FirstMin(errs[..|errs| - 1]);
      if errs[|errs| - 1] < errs[k] then |errs| - 1 else k
  }

  /** One more value moves the first minimum to it exactly when it is strictly smaller. */
  lemma FirstMinStep(errs: seq<int>, i: int)
    requires 0 < i < |errs|
    ensures FirstMin(errs[..i + 1]) == if errs[i] < errs[FirstMin(errs[..i])] then i else FirstMin(errs[..i])
  {
    assert errs[..i + 1][..i] == errs[..i];
  }

  /** The name used when the atlas has no block at all. */
  const Fallback := "minecraft:stone"

  /**
    The name `map_voxels_to_blocks` picks for a colour and mask: the first available
    block of least error, or the fallback when there is none.
  */
  function ChosenName(colour: RGBA, mask: Mask, available: seq<AtlasBlock>): (name: string)
    ensures |available| == 0 ==> name == Fallback
    ensures |available| > 0 ==> exists k ::
      && 0 <= k < |available| && name == available[k].name
      && (forall j :: 0 <= j < |available| ==>
            SqDist(colour, ContextualColour(available[k], mask)) <= SqDist(colour, ContextualColour(available[j], mask)))
      && (forall j :: 0 <= j < k ==>
            SqDist(colour, ContextualColour(available[j], mask)) > SqDist(colour, ContextualColour(available[k], mask)))
  {
    if |available| == 0 then Fallback
    else available[FirstMin(Errors(colour, mask, available))].name
  }

  /** The choice depends on the colour's r, g, b and the mask only, so it can be cached on them. */
  lemma ChosenByChannels(c: RGBA, d: RGBA, mask: Mask, available: seq<AtlasBlock>)
    requires c.r == d.r && c.g == d.g && c.b == d.b
    ensures ChosenName(c, mask, available) == ChosenName(d, mask, available)
  {
    var ec, ed := Errors(c, mask, available), Errors(d, mask, available);
    forall i | 0 <= i < |available| ensures ec[i] == ed[i] {
      SqDistChannels(c, d, ContextualColour(available[i], mask));
    }
    assert ec == ed;
  }

  lemma SqDistChannels(c: RGBA, d: RGBA, e: RGBA)
    requires c.r == d.r && c.g == d.g && c.b == d.b
    ensures SqDist(c, e) == SqDist(d, e)
  {
  }

  /**
    The search loop of `map_voxels_to_blocks`: keep the block whose error is strictly
    below the least so far (the least starts at infinity).
  */
  method BestMatch(colour: RGBA, visibility: Mask, available: seq<AtlasBlock>) returns (name: string)
    ensures name == ChosenName(colour, visibility, available)
  {
    ghost var errs := Errors(colour, visibility, available);
    var minError: Option<int> := None;
    var chosen: Option<AtlasBlock> := None;
    var i := 0;
    while i < |available|
      invariant 0 <= i <= |available|
      invariant i == 0 <==> chosen.None?
      invariant i == 0 <==> minError.None?
      invariant i > 0 ==> chosen == Some(available[FirstMin(errs[..i])]) && minError == Some(errs[FirstMin(errs[..i])])
    {
      var contextual := ContextualFaceAverage(available[i], visibility);
      var error := SqDist(colour, contextual);
      if i > 0 {
        FirstMinStep(errs, i);
      }
      if minError.None? || error < minError.value {
        minError := Some(error);
        chosen := Some(available[i]);
      }
      i := i + 1;
    }
    if i > 0 {
      assert errs[..i] == errs;
    }
    name := if chosen.Some? then chosen.value.name else Fallback;
  }

  // ---------------------------------------------------------------------------
  // Mapping the voxels

  predicate InShape(vis: array3<Mask>, x: int, y: int, z: int)
  {
    0 <= x < vis.Length0 && 0 <= y < vis.Length1 && 0 <= z < vis.Length2
  }

  /**
    The block one dictionary entry yields: none when the key does not parse to at least
    three integers (the source's exception handler skips it) or names a cell outside
    the visibility grid; otherwise a block at those coordinates with the voxel's colour.
  */
  function BlockFor(key: string, colour: RGBA, parseKey: string -> Option<seq<int>>,
                    vis: array3<Mask>, available: seq<AtlasBlock>): Option<Block>
    reads vis
  {
    match parseKey(key)
    case None => None
    case Some(coords) =>
      if |coords| < 3 || !InShape(vis, coords[0], coords[1], coords[2]) then None
      else
        var mask := vis[coords[0], coords[1], coords[2]];
        Some(Block(Vector3(coords[0], coords[1], coords[2]), ChosenName(colour, mask, available), colour))
  }

  /** The blocks the entries `keys` of `voxels` yield, in order. */
  function Mapped(keys: seq<string>, voxels: map<string, RGBA>, parseKey: string -> Option<seq<int>>,
                  vis: array3<Mask>, available: seq<AtlasBlock>): (blocks: seq<Block>)
    requires forall t :: 0 <= t < |keys| ==> keys[t] in voxels
    reads vis
  {
    if |keys| == 0 then []
    else
      var key := keys[|keys| - 1];
      Mapped(keys[..|keys| - 1], voxels, parseKey, vis, available) + Yield(key, voxels[key], parseKey, vis, available)
  }

  /** A cache entry holds what a fresh search would choose for its key. */
  ghost predicate CacheSound(cache: map<(int, int, int, Mask), string>, available: seq<AtlasBlock>)
  {
    forall ck :: ck in cache ==> cache[ck] == ChosenName(RGBA(ck.0, ck.1, ck.2, Opaque), ck.3, available)
  }

  /** The block `BlockFor` yields, as a list of at most one. */
  function Yield(key: string, colour: RGBA, parseKey: string -> Option<seq<int>>,
                 vis: array3<Mask>, available: seq<AtlasBlock>): seq<Block>
    reads vis
  {
    match BlockFor(key, colour, parseKey, vis, available) case Some(b) => [b] case None => []
  }

  /** The cache lookup of `map_voxels_to_blocks`: reuse the name cached under (r, g, b, visibility), or search and cache it. */
  method ChooseCached(colour: RGBA, visibility: Mask, available: seq<AtlasBlock>,
                      cache: map<(int, int, int, Mask), string>)
    returns (name: string, cache': map<(int, int, int, Mask), string>)
    requires CacheSound(cache, available)
    ensures name == ChosenName(colour, visibility, available)
    ensures CacheSound(cache', available)
    ensures var cacheKey := (colour.r, colour.g, colour.b, visibility);
      cache' == if cacheKey in cache then cache else cache[cacheKey := name]
  {
    var cacheKey := (colour.r, colour.g, colour.b, visibility);
    ChosenByChannels(colour, RGBA(colour.r, colour.g, colour.b, Opaque), visibility, available);
    if cacheKey in cache {
      name, cache' := cache[cacheKey], cache;
    } else {
      name := BestMatch(colour, visibility, available);
      cache' := cache[cacheKey := name];
    }
  }

  /** One iteration of `map_voxels_to_blocks`: parse, bounds-check, look up or search, append. */
  method MapEntry(result: BlockMesh, key: string, colour: RGBA, parseKey: string -> Option<seq<int>>,
                  vis: array3<Mask>, available: seq<AtlasBlock>, cache: map<(int, int, int, Mask), string>)
    returns (cache': map<(int, int, int, Mask), string>)
    requires result.Valid() && CacheSound(cache, available)
    modifies result`blocks, result`palette
    ensures result.Valid() && CacheSound(cache', available)
    ensures result.blocks == old(result.blocks) + Yield(key, colour, parseKey, vis, available)
  {
    cache' := cache;
    var parsed := parseKey(key);
    if parsed.Some? && |parsed.value| >= 3 {
      var coords := parsed.value;
      if InShape(vis, coords[0], coords[1], coords[2]) {
        var visibility := vis[coords[0], coords[1], coords[2]];
        var chosenName;
        chosenName, cache' := ChooseCached(colour, visibility, available, cache);
        result.AddBlock(Block(Vector3(coords[0], coords[1], coords[2]), chosenName, colour));
      }
    }
  }

  /** The loop of `map_voxels_to_blocks` over the voxel dictionary's entries, with its cache. */
  method MapEntries(result: BlockMesh, keys: seq<string>, voxels: map<string, RGBA>,
                    parseKey: string -> Option<seq<int>>, vis: array3<Mask>, available: seq<AtlasBlock>)
    requires forall t :: 0 <= t < |keys| ==> keys[t] in voxels
    requires result.Valid()
    modifies result`blocks, result`palette
    ensures result.Valid()
    ensures result.blocks == old(result.blocks) + Mapped(keys, voxels, parseKey, vis, available)
  {
    var cache: map<(int, int, int, Mask), string> := map[];
    var i := 0;
    while i < |keys|
      invariant 0 <= i <= |keys|
      invariant result.Valid()
      invariant CacheSound(cache, available)
      invariant result.blocks == old(result.blocks) + Mapped(keys[..i], voxels, parseKey, vis, available)
    {
      var key := keys[i];
      assert keys[..i + 1][..i] == keys[..i];
      cache := MapEntry(result, key, voxels[key], parseKey, vis, available, cache);
      i := i + 1;
    }
    assert keys[..i] == keys;
  }

  /** `map_voxels_to_blocks`: a block mesh over the voxel mesh holding the blocks its entries yield. */
  method MapVoxelsToBlocks(mesh: VoxelMesh, vis: array3<Mask>, atlas: Dict<string, AtlasBlock>)
    returns (result: BlockMesh)
    requires mesh.Valid() && Valid(atlas)
    ensures fresh(result) && result.Valid() && result.voxelMesh == mesh
    ensures result.blocks == Mapped(mesh.order, mesh.voxels, mesh.parseKey, vis, Values(atlas))
  {
    result := new BlockMesh(mesh);
    var available := Values(atlas);
    MapEntries(result, mesh.order, mesh.voxels, mesh.parseKey, vis, available);
  }

  // ---------------------------------------------------------------------------
  // What the mapping yields

  /** Mapping one more entry appends what that entry yields. */
  lemma MappedStep(keys: seq<string>, voxels: map<string, RGBA>, parseKey: string -> Option<seq<int>>,
                   vis: array3<Mask>, available: seq<AtlasBlock>, j: int)
    requires forall t :: 0 <= t < |keys| ==> keys[t] in voxels
    requires 0 <= j < |keys|
    ensures Mapped(keys[..j + 1], voxels, parseKey, vis, available)
      == Mapped(keys[..j], voxels, parseKey, vis, available) + Yield(keys[j], voxels[keys[j]], parseKey, vis, available)
  {
    assert keys[..j + 1][..j] == keys[..j];
  }

  lemma PrefixOfSnoc(pre: seq<Block>, init: seq<Block>, y: seq<Block>)
    requires |pre| <= |init| && init[..|pre|] == pre
    ensures |pre| <= |init + y| && (init + y)[..|pre|] == pre
  {
    assert (init + y)[..|pre|] == init[..|pre|];
  }

  /** An entry yields at most one block. */
  lemma {:induction false} MappedBound(keys: seq<string>, voxels: map<string, RGBA>, parseKey: string -> Option<seq<int>>,
                                       vis: array3<Mask>, available: seq<AtlasBlock>)
    requires forall t :: 0 <= t < |keys| ==> keys[t] in voxels
    ensures |Mapped(keys, voxels, parseKey, vis, available)| <= |keys|
  {
    if |keys| > 0 {
      MappedBound(keys[..|keys| - 1], voxels, parseKey, vis, available);
    }
  }

  /** The blocks of `keys[..m]` are a prefix of those of every longer prefix `keys[..j]`. */
  lemma {:induction false} MappedPrefixUpTo(keys: seq<string>, voxels: map<string, RGBA>, parseKey: string -> Option<seq<int>>,
                                            vis: array3<Mask>, available: seq<AtlasBlock>, m: int, j: int)
    requires forall t :: 0 <= t < |keys| ==> keys[t] in voxels
    requires 0 <= m <= j <= |keys|
    ensures |Mapped(keys[..m], voxels, parseKey, vis, available)| <= |Mapped(keys[..j], voxels, parseKey, vis, available)|
    ensures Mapped(keys[..j], voxels, parseKey, vis, available)[..|Mapped(keys[..m], voxels, parseKey, vis, available)|]
      == Mapped(keys[..m], voxels, parseKey, vis, available)
    decreases j
  {
    if m < j {
      MappedPrefixUpTo(keys, voxels, parseKey, vis, available, m, j - 1);
      MappedStep(keys, voxels, parseKey, vis, available, j - 1);
      PrefixOfSnoc(Mapped(keys[..m], voxels, parseKey, vis, available),
                   Mapped(keys[..j - 1], voxels, parseKey, vis, available),
                   Yield(keys[j - 1], voxels[keys[j - 1]], parseKey, vis, available));
    }
  }

  /** Mapping a prefix of the entries yields a prefix of the blocks. */
  lemma MappedPrefix(keys: seq<string>, voxels: map<string, RGBA>, parseKey: string -> Option<seq<int>>,
                     vis: array3<Mask>, available: seq<AtlasBlock>, m: int)
    requires forall t :: 0 <= t < |keys| ==> keys[t] in voxels
    requires 0 <= m <= |keys|
    ensures |Mapped(keys[..m], voxels, parseKey, vis, available)| <= |Mapped(keys, voxels, parseKey, vis, available)|
    ensures Mapped(keys, voxels, parseKey, vis, available)[..|Mapped(keys[..m], voxels, parseKey, vis, available)|]
      == Mapped(keys[..m], voxels, parseKey, vis, available)
  {
    MappedPrefixUpTo(keys, voxels, parseKey, vis, available, m, |keys|);
    assert keys[..|keys|] == keys;
  }

  /**
    Each entry that yields a block yields exactly one, in entry order: it sits right
    after the blocks of the entries before it.
  */
  lemma MappedPosition(keys: seq<string>, voxels: map<string, RGBA>, parseKey: string -> Option<seq<int>>,
                       vis: array3<Mask>, available: seq<AtlasBlock>, t: int)
    requires forall s :: 0 <= s < |keys| ==> keys[s] in voxels
    requires 0 <= t < |keys| && BlockFor(keys[t], voxels[keys[t]], parseKey, vis, available).Some?
    ensures |Mapped(keys[..t], voxels, parseKey, vis, available)| < |Mapped(keys, voxels, parseKey, vis, available)|
    ensures Mapped(keys, voxels, parseKey, vis, available)[|Mapped(keys[..t], voxels, parseKey, vis, available)|]
      == BlockFor(keys[t], voxels[keys[t]], parseKey, vis, available).value
  {
    assert keys[..t + 1][..t] == keys[..t];
    MappedPrefix(keys, voxels, parseKey, vis, available, t + 1);
  }

  /**
    Whatever key yields a block, that block lies in the visibility grid, keeps the voxel's
    colour and carries the name chosen for the mask of its cell.
  */
  lemma BlockForInShape(key: string, colour: RGBA, parseKey: string -> Option<seq<int>>,
                        vis: array3<Mask>, available: seq<AtlasBlock>)
    ensures var r := BlockFor(key, colour, parseKey, vis, available);
      r.Some? ==> && var p := r.value.position;
                  && InShape(vis, p.x, p.y, p.z)
                  && parseKey(key).Some? && |parseKey(key).value| >= 3 && parseKey(key).value[..3] == [p.x, p.y, p.z]
                  && r.value == Block(p, ChosenName(colour, vis[p.x, p.y, p.z], available), colour)
  {
  }

  /**
    For a key that reads back as the coordinate `c` (every key of a voxel mesh does),
    the entry yields a block exactly when `c` lies in the visibility grid, and that
    block sits at `c`, keeps the voxel's colour and carries the chosen name.
  */
  lemma BlockForVoxel(key: string, colour: RGBA, parseKey: string -> Option<seq<int>>,
                      vis: array3<Mask>, available: seq<AtlasBlock>, c: Vector3)
    requires parseKey(key) == Some(Coords(c))
    ensures BlockFor(key, colour, parseKey, vis, available).Some? <==> InShape(vis, c.x, c.y, c.z)
    ensures InShape(vis, c.x, c.y, c.z) ==>
      BlockFor(key, colour, parseKey, vis, available).value
        == Block(c, ChosenName(colour, vis[c.x, c.y, c.z], available), colour)
  {
  }

  /**
    Over a voxel mesh's entries: the t-th voxel, at the coordinate `c` its key names,
    yields a block exactly when `c` lies in the visibility grid, and that block sits at
    `c` with the voxel's own colour.
  */
  lemma MeshVoxelYields(keyOf: Vector3 -> string, parseKey: string -> Option<seq<int>>, voxels: map<string, RGBA>,
                        order: seq<string>, lo: ExtVector3, hi: ExtVector3, at: Extremes,
                        vis: array3<Mask>, available: seq<AtlasBlock>, t: int)
    requires MeshInv(keyOf, parseKey, voxels, order, lo, hi, at) && 0 <= t < |order|
    ensures order[t] in voxels
    ensures var c := CoordOf(parseKey, order[t]);
      && keyOf(c) == order[t]
      && (BlockFor(order[t], voxels[order[t]], parseKey, vis, available).Some? <==> InShape(vis, c.x, c.y, c.z))
      && (InShape(vis, c.x, c.y, c.z) ==>
            BlockFor(order[t], voxels[order[t]], parseKey, vis, available).value.position == c
            && BlockFor(order[t], voxels[order[t]], parseKey, vis, available).value.colour == voxels[order[t]])
  {
    assert order[t] in voxels;
    OrderPaintable(keyOf, parseKey, voxels, order, lo, hi, at);
    BlockForVoxel(order[t], voxels[order[t]], parseKey, vis, available, CoordOf(parseKey, order[t]));
  }
}
