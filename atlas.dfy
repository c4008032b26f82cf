/**
  The block atlas of block_mapper.py: the structural part of `load_atlas_data` (which
  faces a block keeps) and `get_contextual_face_average`, the colour a block shows
  when only some of its faces are visible.
*/
module Atlas {
  import opened Wrappers
  import opened CoreVoxelizer
  import opened FaceVisibility
  import opened OrderedDicts

  /** The texture statistics of one face; `std` is carried along but never read. */
  datatype FaceData = FaceData(colour: RGBA, std: real)

  datatype AtlasBlock = AtlasBlock(name: string, colour: RGBA, faces: map<string, FaceData>)

  /**
    One entry of the atlas file's `blocks` list once read: its name, its average colour
    (already scaled to integers) and its `faces` object as (face name, texture key)
    pairs in file order.
  */
  datatype BlockEntry = BlockEntry(name: string, colour: RGBA, faces: seq<(string, string)>)

  /** `dict.get`: the value stored under `k`, if any. */
  function Get<V>(m: map<string, V>, k: string): (r: Option<V>)
    ensures r.Some? <==> k in m
    ensures r.Some? ==> r.value == m[k]
  {
    if k in m then Some(m[k]) else None
  }

  // ---------------------------------------------------------------------------
  // Loading

  /** The faces dictionary after the pairs of `faces` are visited in order. */
  function KeptFaces(faces: seq<(string, string)>, textures: map<string, FaceData>): (kept: map<string, FaceData>)
    ensures forall f :: f in kept ==> kept[f] in textures.Values
  {
    if |faces| == 0 then map[]
    else
      var rest := KeptFaces(faces[..|faces| - 1], textures);
      var (face, key) := faces[|faces| - 1];
      if key in textures then rest[face := textures[key]] else rest
  }

  /**
    A face is kept exactly when some pair names it with a texture key that exists, and
    it carries the texture of the last such pair.
  */
  lemma {:induction false} KeptFacesExist(faces: seq<(string, string)>, textures: map<string, FaceData>, f: string)
    ensures f in KeptFaces(faces, textures) <==>
      exists i :: 0 <= i < |faces| && faces[i].0 == f && faces[i].1 in textures
    ensures forall i :: (0 <= i < |faces| && faces[i].0 == f && faces[i].1 in textures &&
      (forall j :: i < j < |faces| ==> faces[j].0 != f || faces[j].1 !in textures)) ==>
        f in KeptFaces(faces, textures) && KeptFaces(faces, textures)[f] == textures[faces[i].1]
  {
    if |faces| > 0 {
      var init := faces[..|faces| - 1];
      var n := |faces| - 1;
      KeptFacesExist(init, textures, f);
      assert forall i :: 0 <= i < n ==> init[i] == faces[i];
      if faces[n].0 == f && faces[n].1 in textures {
      } else {
        forall i | 0 <= i < |faces| && faces[i].0 == f && faces[i].1 in textures
          ensures i < n
        {
        }
      }
    }
  }

  /** The inner loop of `load_atlas_data`: keep each face whose texture key exists. */
  method FilterFaces(faces: seq<(string, string)>, textures: map<string, FaceData>) returns (kept: map<string, FaceData>)
    ensures kept == KeptFaces(faces, textures)
  {
    kept := map[];
    var i := 0;
    while i < |faces|
      invariant 0 <= i <= |faces|
      invariant kept == KeptFaces(faces[..i], textures)
    {
      var (face, key) := faces[i];
      assert faces[..i + 1][..i] == faces[..i];
      if key in textures {
        kept := kept[face := textures[key]];
      }
      i := i + 1;
    }
    assert faces[..i] == faces;
  }

  function Built(e: BlockEntry, textures: map<string, FaceData>): AtlasBlock
  {
    AtlasBlock(e.name, e.colour, KeptFaces(e.faces, textures))
  }

  /** The atlas dictionary after the entries are visited in order: a repeated name replaces the value in place. */
  function Loaded(entries: seq<BlockEntry>, textures: map<string, FaceData>): Dict<string, AtlasBlock>
  {
    if |entries| == 0 then Empty()
    else
      var e := entries[|entries| - 1];
      Put(Loaded(entries[..|entries| - 1], textures), e.name, Built(e, textures))
  }

  /** The structural part of `load_atlas_data`: one atlas block per entry, keyed by its name. */
  method LoadAtlas(entries: seq<BlockEntry>, textures: map<string, FaceData>) returns (atlas: Dict<string, AtlasBlock>)
    ensures atlas == Loaded(entries, textures)
  {
    atlas := Empty();
    var i := 0;
    while i < |entries|
      invariant 0 <= i <= |entries|
      invariant atlas == Loaded(entries[..i], textures)
    {
      var e := entries[i];
      var faces := FilterFaces(e.faces, textures);
      assert entries[..i + 1][..i] == entries[..i];
      atlas := Put(atlas, e.name, AtlasBlock(e.name, e.colour, faces));
      i := i + 1;
    }
    assert entries[..i] == entries;
  }

  /** The loaded atlas is a well-formed dictionary: each name listed once, in first-seen order. */
  lemma {:induction false} LoadedValid(entries: seq<BlockEntry>, textures: map<string, FaceData>)
    ensures Valid(Loaded(entries, textures))
  {
    if |entries| > 0 {
      LoadedValid(entries[..|entries| - 1], textures);
    }
  }

  /** Each block is stored under its own name, and there are no more names than entries. */
  lemma {:induction false} LoadedByName(entries: seq<BlockEntry>, textures: map<string, FaceData>)
    ensures forall name :: name in Loaded(entries, textures).entries ==> Loaded(entries, textures).entries[name].name == name
    ensures |Loaded(entries, textures).keys| <= |entries|
  {
    if |entries| > 0 {
      LoadedByName(entries[..|entries| - 1], textures);
    }
  }

  /** A name is in the loaded atlas exactly when some entry carries it. */
  lemma {:induction false} LoadedNames(entries: seq<BlockEntry>, textures: map<string, FaceData>, name: string)
    ensures name in Loaded(entries, textures).entries <==> exists i :: 0 <= i < |entries| && entries[i].name == name
  {
    if |entries| > 0 {
      var n := |entries| - 1;
      LoadedNames(entries[..n], textures, name);
      if name != entries[n].name && exists i :: 0 <= i < |entries| && entries[i].name == name {
        var i :| 0 <= i < |entries| && entries[i].name == name;
        assert entries[..n][i] == entries[i];
      }
    }
  }

  /** A name maps to the block built from the last entry carrying it; a later duplicate replaces an earlier one. */
  lemma {:induction false} LoadedLastWins(entries: seq<BlockEntry>, textures: map<string, FaceData>, i: int)
    requires 0 <= i < |entries|
    requires forall j :: i < j < |entries| ==> entries[j].name != entries[i].name
    ensures entries[i].name in Loaded(entries, textures).entries
    ensures Loaded(entries, textures).entries[entries[i].name] == Built(entries[i], textures)
  {
    var n := |entries| - 1;
    if i < n {
      LoadedLastWins(entries[..n], textures, i);
    }
  }

  // ---------------------------------------------------------------------------
  // Contextual colour

  /** The face names of the atlas file. */
  function FaceName(f: Face): string
  {
    match f
    case Up => "up"
    case Down => "down"
    case North => "north"
    case East => "east"
    case South => "south"
    case West => "west"
  }

  /** The order in which `get_contextual_face_average` looks at the faces (south before east). */
  const ContextOrder: seq<Face> := [Up, Down, North, South, East, West]

  /** For each face of `fs` whose bit is in `mask`, in order, the block's data for it if any. */
  function Gathered(block: AtlasBlock, mask: Mask, fs: seq<Face>): seq<Option<FaceData>>
  {
    if |fs| == 0 then []
    else
      var f := fs[|fs| - 1];
      Gathered(block, mask, fs[..|fs| - 1]) + if mask & Bit(f) != 0 then [Get(block.faces, FaceName(f))] else []
  }

  /** The entries that hold data, in order. */
  function Present(xs: seq<Option<FaceData>>): seq<FaceData>
  {
    if |xs| == 0 then []
    else Present(xs[..|xs| - 1]) + match xs[|xs| - 1] case Some(fd) => [fd] case None => []
  }

  datatype Channel = Red | Green | Blue

  function Of(c: RGBA, ch: Channel): int
  {
    match ch
    case Red => c.r
    case Green => c.g
    case Blue => c.b
  }

  function Sum(faces: seq<FaceData>, ch: Channel): int
  {
    if |faces| == 0 then 0 else Sum(faces[..|faces| - 1], ch) + Of(faces[|faces| - 1].colour, ch)
  }

  /** Python's `int(a / n)` on exact values: division truncated toward zero. */
  function TruncDiv(a: int, n: int): (q: int)
    requires n > 0
    ensures a >= 0 ==> q * n <= a < (q + 1) * n
    ensures a < 0 ==> (q - 1) * n < a <= q * n
  {
    if a >= 0 then a / n else -((-a) / n)
  }

  /** The faces that count for a visibility mask: visible and with face data. */
  function VisibleData(block: AtlasBlock, mask: Mask): seq<FaceData>
  {
    Present(Gathered(block, mask, ContextOrder))
  }

  /**
    What `get_contextual_face_average` returns: the block's own colour when no visible
    face has data, otherwise the per-channel mean over those faces, truncated, opaque.
  */
  function ContextualColour(block: AtlasBlock, mask: Mask): (c: RGBA)
    ensures |VisibleData(block, mask)| > 0 ==> c.a == Opaque
    ensures c.a == Opaque || c == block.colour
  {
    var faces := VisibleData(block, mask);
    if |faces| == 0 then block.colour
    else RGBA(TruncDiv(Sum(faces, Red), |faces|), TruncDiv(Sum(faces, Green), |faces|),
              TruncDiv(Sum(faces, Blue), |faces|), Opaque)
  }

  /**
    The first half of `get_contextual_face_average`: for each face in its order (the
    source spells the six tests out), look up the face when its bit is visible.
  */
  method GatherVisible(block: AtlasBlock, visibility: Mask) returns (visible: seq<Option<FaceData>>)
    ensures visible == Gathered(block, visibility, ContextOrder)
  {
    visible := [];
    var i := 0;
    while i < |ContextOrder|
      invariant 0 <= i <= |ContextOrder|
      invariant visible == Gathered(block, visibility, ContextOrder[..i])
    {
      var f := ContextOrder[i];
      assert ContextOrder[..i + 1][..i] == ContextOrder[..i];
      if visibility & Bit(f) != 0 {
        visible := visible + [Get(block.faces, FaceName(f))];
      }
      i := i + 1;
    }
    assert ContextOrder[..i] == ContextOrder;
  }

  lemma SumSnoc(faces: seq<FaceData>, fd: FaceData, ch: Channel)
    ensures Sum(faces + [fd], ch) == Sum(faces, ch) + Of(fd.colour, ch)
  {
    assert (faces + [fd])[..|faces|] == faces;
  }

  /** The accumulation loop: per-channel sums and the count of the entries that hold data. */
  method SumPresent(visible: seq<Option<FaceData>>) returns (avgR: int, avgG: int, avgB: int, count: nat)
    ensures count == |Present(visible)|
    ensures avgR == Sum(Present(visible), Red) && avgG == Sum(Present(visible), Green)
    ensures avgB == Sum(Present(visible), Blue)
  {
    avgR, avgG, avgB, count := 0, 0, 0, 0;
    var i := 0;
    while i < |visible|
      invariant 0 <= i <= |visible|
      invariant count == |Present(visible[..i])|
      invariant avgR == Sum(Present(visible[..i]), Red)
      invariant avgG == Sum(Present(visible[..i]), Green)
      invariant avgB == Sum(Present(visible[..i]), Blue)
    {
      assert visible[..i + 1][..i] == visible[..i];
      if visible[i].Some? {
        var fd := visible[i].value;
        var prior := Present(visible[..i]);
        assert Present(visible[..i + 1]) == prior + [fd];
        SumSnoc(prior, fd, Red);
        SumSnoc(prior, fd, Green);
        SumSnoc(prior, fd, Blue);
        avgR, avgG, avgB, count := avgR + fd.colour.r, avgG + fd.colour.g, avgB + fd.colour.b, count + 1;
      } else {
        assert Present(visible[..i + 1]) == Present(visible[..i]);
      }
      i := i + 1;
    }
    assert visible[..i] == visible;
  }

  /** `get_contextual_face_average`: gather the visible faces' data, then sum, count and divide. */
  method ContextualFaceAverage(block: AtlasBlock, visibility: Mask) returns (colour: RGBA)
    ensures colour == ContextualColour(block, visibility)
  {
    var visible := GatherVisible(block, visibility);
    var avgR, avgG, avgB, count := SumPresent(visible);
    if count == 0 {
      return block.colour;
    }
    return RGBA(TruncDiv(avgR, count), TruncDiv(avgG, count), TruncDiv(avgB, count), Opaque);
  }

  /** Only the faces whose bit is set are looked up, each in the block's face dictionary. */
  lemma {:induction false} GatheredFrom(block: AtlasBlock, mask: Mask, fs: seq<Face>, i: int)
    requires 0 <= i < |Gathered(block, mask, fs)|
    ensures exists f :: f in fs && mask & Bit(f) != 0 && Gathered(block, mask, fs)[i] == Get(block.faces, FaceName(f))
  {
    var init, f := fs[..|fs| - 1], fs[|fs| - 1];
    if i < |Gathered(block, mask, init)| {
      GatheredFrom(block, mask, init, i);
      var g :| g in init && mask & Bit(g) != 0 && Gathered(block, mask, init)[i] == Get(block.faces, FaceName(g));
      assert g in fs;
    } else {
      assert f in fs;
    }
  }

  /** Every face datum kept by `Present` is an entry of the gathered list. */
  lemma {:induction false} PresentFrom(xs: seq<Option<FaceData>>, k: int)
    requires 0 <= k < |Present(xs)|
    ensures exists i :: 0 <= i < |xs| && xs[i] == Some(Present(xs)[k])
  {
    var init := xs[..|xs| - 1];
    if k < |Present(init)| {
      PresentFrom(init, k);
      var i :| 0 <= i < |init| && init[i] == Some(Present(init)[k]);
      assert xs[i] == init[i];
    } else {
      assert xs[|xs| - 1] == Some(Present(xs)[k]);
    }
  }

  /** Each datum that counts for the mask is the data of some face whose bit the mask holds. */
  lemma VisibleDataFrom(block: AtlasBlock, mask: Mask, k: int)
    requires 0 <= k < |VisibleData(block, mask)|
    ensures exists f: Face ::
      mask & Bit(f) != 0 && FaceName(f) in block.faces && block.faces[FaceName(f)] == VisibleData(block, mask)[k]
  {
    var xs := Gathered(block, mask, ContextOrder);
    PresentFrom(xs, k);
    var i :| 0 <= i < |xs| && xs[i] == Some(Present(xs)[k]);
    GatheredFrom(block, mask, ContextOrder, i);
  }

  /** The faces of `fs`, in order, that the mask shows and the block has data for. */
  function Shown(block: AtlasBlock, mask: Mask, fs: seq<Face>): (shown: seq<Face>)
    ensures forall f :: f in shown <==> f in fs && mask & Bit(f) != 0 && FaceName(f) in block.faces
  {
    if |fs| == 0 then []
    else
      var f := fs[|fs| - 1];
      assert fs == fs[..|fs| - 1] + [f];
      Shown(block, mask, fs[..|fs| - 1]) + if mask & Bit(f) != 0 && FaceName(f) in block.faces then [f] else []
  }

  /** Dropping the missing lookups leaves exactly the data of the shown faces, in order. */
  lemma {:induction false} PresentGatheredIsShown(block: AtlasBlock, mask: Mask, fs: seq<Face>)
    ensures |Present(Gathered(block, mask, fs))| == |Shown(block, mask, fs)|
    ensures forall k :: 0 <= k < |Shown(block, mask, fs)| ==>
      Present(Gathered(block, mask, fs))[k] == block.faces[FaceName(Shown(block, mask, fs)[k])]
  {
    if |fs| > 0 {
      var init, f := fs[..|fs| - 1], fs[|fs| - 1];
      PresentGatheredIsShown(block, mask, init);
      var g, sh := Gathered(block, mask, init), Shown(block, mask, init);
      var p := Present(g);
      if mask & Bit(f) != 0 {
        var x := Get(block.faces, FaceName(f));
        assert Gathered(block, mask, fs) == g + [x];
        PresentSnoc(g, x);
        if FaceName(f) in block.faces {
          assert Shown(block, mask, fs) == sh + [f];
          assert Present(g + [x]) == p + [block.faces[FaceName(f)]];
        } else {
          assert Shown(block, mask, fs) == sh;
          assert Present(g + [x]) == p;
        }
      } else {
        assert Gathered(block, mask, fs) == g;
        assert Shown(block, mask, fs) == sh;
      }
    }
  }

  lemma PresentSnoc(xs: seq<Option<FaceData>>, x: Option<FaceData>)
    ensures Present(xs + [x]) == Present(xs) + match x case Some(fd) => [fd] case None => []
  {
    assert (xs + [x])[..|xs|] == xs;
  }

  /** A face listed once in `fs` is shown at most once. */
  lemma {:induction false} ShownOnce(block: AtlasBlock, mask: Mask, fs: seq<Face>)
    requires forall i, j :: 0 <= i < j < |fs| ==> fs[i] != fs[j]
    ensures forall i, j :: 0 <= i < j < |Shown(block, mask, fs)| ==> Shown(block, mask, fs)[i] != Shown(block, mask, fs)[j]
  {
    if |fs| > 0 {
      var init, f := fs[..|fs| - 1], fs[|fs| - 1];
      ShownOnce(block, mask, init);
      assert f !in init by {
        forall i | 0 <= i < |init| ensures init[i] != f {
          assert init[i] == fs[i];
        }
      }
    }
  }

  /**
    The converse of `VisibleDataFrom`: the data averaged are exactly those of the faces
    the mask shows and the block has data for, each face once, in context order.
  */
  lemma VisibleDataIsShown(block: AtlasBlock, mask: Mask)
    ensures forall f: Face :: f in Shown(block, mask, ContextOrder) <==> mask & Bit(f) != 0 && FaceName(f) in block.faces
    ensures forall i, j :: 0 <= i < j < |Shown(block, mask, ContextOrder)| ==>
      Shown(block, mask, ContextOrder)[i] != Shown(block, mask, ContextOrder)[j]
    ensures |VisibleData(block, mask)| == |Shown(block, mask, ContextOrder)|
    ensures forall k :: 0 <= k < |VisibleData(block, mask)| ==>
      VisibleData(block, mask)[k] == block.faces[FaceName(Shown(block, mask, ContextOrder)[k])]
  {
    forall f: Face ensures f in ContextOrder {
      match f
      case Up => assert ContextOrder[0] == f;
      case Down => assert ContextOrder[1] == f;
      case North => assert ContextOrder[2] == f;
      case South => assert ContextOrder[3] == f;
      case East => assert ContextOrder[4] == f;
      case West => assert ContextOrder[5] == f;
    }
    ShownOnce(block, mask, ContextOrder);
    PresentGatheredIsShown(block, mask, ContextOrder);
  }

  /** Every face the mask shows that has data is averaged. */
  lemma VisibleFaceAveraged(block: AtlasBlock, mask: Mask, f: Face)
    requires mask & Bit(f) != 0 && FaceName(f) in block.faces
    ensures block.faces[FaceName(f)] in VisibleData(block, mask)
  {
    VisibleDataIsShown(block, mask);
    var shown := Shown(block, mask, ContextOrder);
    var k :| 0 <= k < |shown| && shown[k] == f;
    assert VisibleData(block, mask)[k] == block.faces[FaceName(f)];
  }

  /**
    When none of the faces the mask shows has data (in particular for the NONE mask),
    the block's own average colour is returned unchanged.
  */
  lemma NoVisibleDataFallsBack(block: AtlasBlock, mask: Mask)
    requires forall f: Face :: mask & Bit(f) == 0 || FaceName(f) !in block.faces
    ensures ContextualColour(block, mask) == block.colour
  {
    if |VisibleData(block, mask)| > 0 {
      VisibleDataFrom(block, mask, 0);
      assert false;
    }
  }

  /** Every channel sum over n faces whose channel lies in [lo, hi] lies in [n * lo, n * hi]. */
  lemma {:induction false} SumBetween(faces: seq<FaceData>, ch: Channel, lo: int, hi: int)
    requires forall i :: 0 <= i < |faces| ==> lo <= Of(faces[i].colour, ch) <= hi
    ensures |faces| * lo <= Sum(faces, ch) <= |faces| * hi
  {
    if |faces| > 0 {
      var k, init := |faces| - 1, faces[..|faces| - 1];
      assert forall i :: 0 <= i < k ==> init[i] == faces[i];
      SumBetween(init, ch, lo, hi);
      var x := Of(faces[k].colour, ch);
      assert Sum(faces, ch) == Sum(init, ch) + x;
      assert lo <= x <= hi;
      MulSucc(k, lo);
      MulSucc(k, hi);
    }
  }

  lemma MulSucc(k: int, x: int)
    ensures (k + 1) * x == k * x + x
  {
  }

  /** Truncating a quotient that lies between two integers keeps it between them. */
  lemma TruncDivBetween(s: int, n: int, lo: int, hi: int)
    requires n > 0 && n * lo <= s <= n * hi
    ensures lo <= TruncDiv(s, n) <= hi
  {
    var q := TruncDiv(s, n);
    if s >= 0 {
      // q * n <= s < (q + 1) * n
      if q < lo {
        ScaleMono(q + 1, lo, n);
        assert false;
      }
      if q > hi {
        ScaleMono(hi + 1, q, n);
        assert false;
      }
    } else {
      // (q - 1) * n < s <= q * n
      if q < lo {
        ScaleMono(q, lo - 1, n);
        assert false;
      }
      if q > hi {
        ScaleMono(hi, q - 1, n);
        assert false;
      }
    }
  }

  lemma ScaleMono(a: int, b: int, n: int)
    requires a <= b && n > 0
    ensures a * n <= b * n
  {
  }

  /**
    When some visible face has data, each channel of the result is the truncated mean of
    that channel over those faces, so it lies between their least and greatest value.
  */
  lemma ChannelWithinFaces(block: AtlasBlock, mask: Mask, ch: Channel, lo: int, hi: int)
    requires |VisibleData(block, mask)| > 0
    requires forall f: Face :: mask & Bit(f) != 0 && FaceName(f) in block.faces ==>
      lo <= Of(block.faces[FaceName(f)].colour, ch) <= hi
    ensures lo <= Of(ContextualColour(block, mask), ch) <= hi
  {
    var faces := VisibleData(block, mask);
    forall k | 0 <= k < |faces| ensures lo <= Of(faces[k].colour, ch) <= hi {
      VisibleDataFrom(block, mask, k);
    }
    SumBetween(faces, ch, lo, hi);
    TruncDivBetween(Sum(faces, ch), |faces|, lo, hi);
  }
}
