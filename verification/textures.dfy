/**
 * TextureUtil: packs a directory of bitmaps into one square texture atlas,
 * one cell per bitmap, and remembers the region of each bitmap by its file
 * name. The cells are squares whose side is the largest width or height of
 * any bitmap; the atlas is the smallest power of two from 128 on whose cell
 * grid holds every bitmap.
 */
module Textures {
  import opened Wrappers
  import opened Grid

  /** The exceptions of loading and lookup. */
  datatype TextureError =
    | DivisionByZero            // no bitmap, or only empty ones: the cell side is 0
    | AtlasTooLarge(needed: nat) // the atlas would have to be larger than 8192
    | UnknownTexture(name: string)

  /** The pixel size of a loaded bitmap. */
  datatype BitmapSize = BitmapSize(width: nat, height: nat)

  /** Where a bitmap was drawn on the atlas: top-left corner and size, in pixels. */
  datatype Region = Region(x: int, y: int, width: nat, height: nat)

  function Max(a: nat, b: nat): nat {
    if a >= b then a else b
  }

  /** The largest width or height of the bitmaps, 0 when there is none. */
  function LargestSide(bitmaps: seq<BitmapSize>): nat {
    if bitmaps == [] then 0
    else
      var last := bitmaps[|bitmaps| - 1];
      Max(LargestSide(bitmaps[..|bitmaps| - 1]), Max(last.width, last.height))
  }

  /** LargestSide bounds every side, and is one of them unless it is 0. */
  lemma {:induction false} LargestSideIsMax(bitmaps: seq<BitmapSize>)
    ensures forall b :: b in bitmaps ==> b.width <= LargestSide(bitmaps) && b.height <= LargestSide(bitmaps)
    ensures LargestSide(bitmaps) == 0 || exists b :: b in bitmaps && LargestSide(bitmaps) in {b.width, b.height}
  {
    if bitmaps != [] {
      var front := bitmaps[..|bitmaps| - 1];
      LargestSideIsMax(front);
      assert bitmaps == front + [bitmaps[|bitmaps| - 1]];
    }
  }

  /** getLargestBitmapSize: the running maxima of the widths and of the heights, then the larger of the two. */
  method GetLargestBitmapSize(bitmaps: seq<BitmapSize>) returns (largest: nat)
    ensures largest == LargestSide(bitmaps)
  {
    var width, height := 0, 0;
    var i := 0;
    while i < |bitmaps|
      invariant 0 <= i <= |bitmaps|
      invariant Max(width, height) == LargestSide(bitmaps[..i])
    {
      assert bitmaps[..i + 1][..i] == bitmaps[..i];
      if bitmaps[i].width > width {
        width := bitmaps[i].width;
      }
      if bitmaps[i].height > height {
        height := bitmaps[i].height;
      }
      i := i + 1;
    }
    assert bitmaps[..i] == bitmaps;
    largest := if width > height then width else height;
  }

  /**
   * getTextureSize: doubles a size from 128 until its grid of cells of side
   * `largest` holds `amount` cells, then refuses a size above 8192.
   */
  method GetTextureSize(largest: nat, amount: nat) returns (r: Result<nat, TextureError>)
    ensures largest == 0 ==> r == Err(DivisionByZero)
    ensures largest >= 1 ==> (r.Ok? <==> SizeFor(largest, amount) <= MAX_TEXTURE_SIZE)
    ensures largest >= 1 && r.Ok? ==> r.value == SizeFor(largest, amount)
    ensures largest >= 1 && r.Err? ==> r.error == AtlasTooLarge(SizeFor(largest, amount))
  {
    if largest == 0 {
      return Err(DivisionByZero);
    }
    var size := MIN_TEXTURE_SIZE;
    ghost var k: nat := 0;
    while true
      invariant size == Candidate(k) && FirstFit(0, largest, amount) >= k
      decreases largest * amount - size
    {
      FirstFitStep(k, largest, amount);
      var cellsPerRowOrCol := size / largest;
      if cellsPerRowOrCol * cellsPerRowOrCol >= amount {
        break;
      }
      LargeFitsContra(size, largest, amount);
      size := size * 2;
      k := k + 1;
    }
    if size > MAX_TEXTURE_SIZE {
      return Err(AtlasTooLarge(size));
    }
    return Ok(size);
  }

  /**
   * The placement loop of load: bitmap i goes to the cursor, which then
   * moves right by one cell and wraps to the next row when the following
   * cell would cross the right edge of the atlas.
   */
  method PlaceBitmaps(largest: nat, size: nat, amount: nat) returns (xLeft: array<int>, yTop: array<int>)
    ensures fresh(xLeft) && fresh(yTop)
    ensures xLeft.Length == amount && yTop.Length == amount
    ensures forall i :: 0 <= i < amount ==>
      xLeft[i] == CellX(i, largest, size) && yTop[i] == CellY(i, largest, largest, size)
  {
    xLeft := new int[amount];
    yTop := new int[amount];
    var x, y := 0, 0;
    var i := 0;
    while i < amount
      invariant 0 <= i <= amount
      invariant x == CellX(i, largest, size) && y == CellY(i, largest, largest, size)
      invariant forall j :: 0 <= j < i ==>
        xLeft[j] == CellX(j, largest, size) && yTop[j] == CellY(j, largest, largest, size)
    {
      xLeft[i] := x;
      yTop[i] := y;
      AdvanceCell(i, largest, largest, size);
      x := x + largest;
      if x + largest > size {
        y := y + largest;
        x := 0;
      }
      i := i + 1;
    }
  }

  /**
   * In an atlas whose grid holds `amount` cells, the cells of the bitmaps lie
   * on multiples of the cell side, inside the atlas, and pairwise a whole
   * cell apart, so no two bitmaps overlap.
   */
  lemma PlacementFits(largest: nat, size: nat, amount: nat, i: nat, j: nat)
    requires largest >= 1 && Fits(size, largest, amount) && i < amount && j < amount
    ensures CellX(i, largest, size) % largest == 0 && CellY(i, largest, largest, size) % largest == 0
    ensures 0 <= CellX(i, largest, size) && CellX(i, largest, size) + largest <= size
    ensures 0 <= CellY(i, largest, largest, size) && CellY(i, largest, largest, size) + largest <= size
    ensures i != j ==>
      CellX(i, largest, size) - CellX(j, largest, size) >= largest || CellX(j, largest, size) - CellX(i, largest, size) >= largest ||
      CellY(i, largest, largest, size) - CellY(j, largest, largest, size) >= largest || CellY(j, largest, largest, size) - CellY(i, largest, largest, size) >= largest
  {
    var rows := size / largest;
    assert rows >= 1;
    DivModUnique(CellX(i, largest, size), largest, Col(i, largest, size), 0);
    DivModUnique(CellY(i, largest, largest, size), largest, Row(i, largest, size), 0);
    CellInside(i, largest, largest, size, rows);
    if i != j {
      CellsApart(i, j, largest, largest, size);
    }
  }

  /** The region of every bitmap: its cell's corner and its own size. */
  function AtlasRegions(bitmaps: seq<BitmapSize>, largest: nat, size: nat): (rs: seq<Region>)
    ensures |rs| == |bitmaps|
    ensures forall i :: 0 <= i < |bitmaps| ==>
      rs[i] == Region(CellX(i, largest, size), CellY(i, largest, largest, size), bitmaps[i].width, bitmaps[i].height)
  {
    seq(|bitmaps|, i requires 0 <= i < |bitmaps| =>
      Region(CellX(i, largest, size), CellY(i, largest, largest, size), bitmaps[i].width, bitmaps[i].height))
  }

  /** The map after putting names[i] to regions[i] in order: a later put replaces an earlier one. */
  function PutAll(m: map<string, Region>, names: seq<string>, regions: seq<Region>): map<string, Region>
    requires |names| == |regions|
  {
    if names == [] then m
    else
      var k := |names| - 1;
      PutAll(m, names[..k], regions[..k])[names[k] := regions[k]]
  }

  /** Putting keeps every earlier key, adds the names, and a name put once maps to its own region. */
  lemma {:induction false} PutAllLookup(m: map<string, Region>, names: seq<string>, regions: seq<Region>, key: string)
    requires |names| == |regions|
    ensures key in PutAll(m, names, regions) <==> key in m || key in names
    ensures forall i :: 0 <= i < |names| && names[i] == key && key !in names[i + 1..] ==>
      PutAll(m, names, regions)[key] == regions[i]
    ensures key !in names && key in m ==> PutAll(m, names, regions)[key] == m[key]
  {
    if names != [] {
      var k := |names| - 1;
      var prefix, rs := names[..k], regions[..k];
      var p := PutAll(m, prefix, rs);
      assert PutAll(m, names, regions) == p[names[k] := regions[k]];
      PutAllLookup(m, prefix, rs, key);
      assert key in names <==> key in prefix || key == names[k] by {
        assert names == prefix + [names[k]];
      }
      forall i | 0 <= i < |names| && names[i] == key && key !in names[i + 1..]
        ensures PutAll(m, names, regions)[key] == regions[i]
      {
        if i < k {
          assert names[k] in names[i + 1..];
          assert prefix[i + 1..] == names[i + 1..k];
          assert prefix[i] == key && rs[i] == regions[i];
        }
      }
    }
  }

  /** No file name occurs twice, as in a directory listing. */
  predicate DistinctNames(names: seq<string>) {
    forall i, j :: 0 <= i < j < |names| ==> names[i] != names[j]
  }

  class TextureUtil {
    /** The region of every texture loaded so far, by file name. */
    var textureRegions: map<string, Region>

    constructor ()
      ensures textureRegions == map[]
    {
      textureRegions := map[];
    }

    /**
     * load: sizes the atlas, places every bitmap and records its region
     * under its file name; returns the atlas size. On an exception nothing
     * has been recorded; regions of an earlier load stay.
     */
    method Load(names: seq<string>, bitmaps: seq<BitmapSize>) returns (r: Result<nat, TextureError>)
      requires |names| == |bitmaps|
      modifies this
      ensures LargestSide(bitmaps) == 0 ==> r == Err(DivisionByZero)
      ensures LargestSide(bitmaps) >= 1 ==>
        (r.Ok? <==> SizeFor(LargestSide(bitmaps), |bitmaps|) <= MAX_TEXTURE_SIZE)
      ensures r.Err? ==> textureRegions == old(textureRegions)
      ensures r.Ok? ==> LargestSide(bitmaps) >= 1 && r.value == SizeFor(LargestSide(bitmaps), |bitmaps|)
      ensures r.Ok? ==>
        textureRegions == PutAll(old(textureRegions), names, AtlasRegions(bitmaps, LargestSide(bitmaps), r.value))
      ensures r.Ok? && DistinctNames(names) ==> forall i :: 0 <= i < |names| ==>
        GetTextureRegion(names[i]) == Ok(AtlasRegions(bitmaps, LargestSide(bitmaps), r.value)[i])
    {
      var largest := GetLargestBitmapSize(bitmaps);
      r := GetTextureSize(largest, |bitmaps|);
      if r.Err? {
        return;
      }
      var size := r.value;
      var xLeft, yTop := PlaceBitmaps(largest, size, |bitmaps|);
      ghost var regions := AtlasRegions(bitmaps, largest, size);
      var i := 0;
      while i < |bitmaps|
        invariant 0 <= i <= |bitmaps|
        invariant textureRegions == PutAll(old(textureRegions), names[..i], regions[..i])
        invariant forall j :: 0 <= j < |bitmaps| ==>
          xLeft[j] == CellX(j, largest, size) && yTop[j] == CellY(j, largest, largest, size)
      {
        assert names[..i + 1][..i] == names[..i] && regions[..i + 1][..i] == regions[..i];
        textureRegions := textureRegions[names[i] := Region(xLeft[i], yTop[i], bitmaps[i].width, bitmaps[i].height)];
        i := i + 1;
      }
      assert names[..i] == names && regions[..i] == regions;
      if DistinctNames(names) {
        forall k | 0 <= k < |names| ensures GetTextureRegion(names[k]) == Ok(regions[k]) {
          PutAllLookup(old(textureRegions), names, regions, names[k]);
          assert names[k] !in names[k + 1..];
        }
      }
    }

    /** getTextureRegion: the region recorded under the name, or an exception for a name never loaded. */
    function GetTextureRegion(name: string): (r: Result<Region, TextureError>)
      reads this
      ensures r.Ok? <==> name in textureRegions
      ensures r.Err? ==> r.error == UnknownTexture(name)
    {
      if name in textureRegions then Ok(textureRegions[name]) else Err(UnknownTexture(name))
    }
  }
}
