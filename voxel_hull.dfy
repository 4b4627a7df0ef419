/**
 * The voxel rasterizer: every hull of a hull file is rasterised, slice by
 * slice, into one shared volume by an ellipse containment test, later
 * hulls overwriting earlier ones where they overlap.
 */
module Voxels {
  import opened Wrappers
  import opened Tween
  import opened Hulls

  /** The in-memory voxel volume: one palette index per cell. */
  class VoxelObject {
    const length: nat
    const width: nat
    const height: nat
    const voxels: array3<Byte>

    ghost predicate Valid() {
      voxels.Length0 == length && voxels.Length1 == width && voxels.Length2 == height
    }

    predicate Contains(x: int, y: int, z: int) {
      0 <= x < length && 0 <= y < width && 0 <= z < height
    }

    /** A volume of the given size with every cell 0. */
    constructor (length: nat, width: nat, height: nat)
      ensures Valid() && fresh(voxels)
      ensures this.length == length && this.width == width && this.height == height
      ensures forall x, y, z :: Contains(x, y, z) ==> voxels[x, y, z] == 0
    {
      this.length, this.width, this.height := length, width, height;
      voxels := new Byte[length, width, height]((x, y, z) => 0);
    }

    /** Overwrites one cell, which must lie inside the volume. */
    method Set(x: int, y: int, z: int, index: Byte)
      requires Valid() && Contains(x, y, z)
      modifies voxels
      ensures voxels[x, y, z] == index
      ensures forall x', y', z' :: Contains(x', y', z') && (x' != x || y' != y || z' != z) ==>
        voxels[x', y', z'] == old(voxels[x', y', z'])
    {
      voxels[x, y, z] := index;
    }
  }

  /**
   * The ellipse test x²/a² + y²/b² <= 1. A zero semi-axis makes the Go
   * test divide by zero, giving +Inf or NaN, neither of which is <= 1:
   * here that is an explicit branch that selects nothing.
   */
  predicate EllipseContains(a: real, x: real, b: real, y: real) {
    if a == 0.0 || b == 0.0 then false
    else (x * x) / (a * a) + (y * y) / (b * b) <= 1.0
  }

  /** Whether cell (j, k) of a width × height cross-section lies inside the slice's ellipse. */
  predicate Inside(dims: Dimensions, width: int, height: int, j: int, k: int) {
    EllipseContains(dims.width as real / 2.0, j as real - (width - 1) as real / 2.0,
                    dims.keel as real / 2.0, k as real / 2.0 - (height - 1) as real / 2.0)
  }

  /** Every slice of the hull has a defined bracket scan. */
  predicate Rasterizable(h: Hull, length: nat) {
    forall i :: 0 <= i < length ==> WellSpaced(h.sections, Fraction(i, length))
  }

  predicate AllRasterizable(hulls: seq<Hull>, length: nat) {
    forall n :: 0 <= n < |hulls| ==> Rasterizable(hulls[n], length)
  }

  /** Whether hull h fills output cell (p, j, k); slice i is written at p = length - 1 - i. */
  predicate Selects(hf: HullFile, h: Hull, p: int, j: int, k: int, sqrt: real -> real)
    requires 0 <= p < hf.length && Rasterizable(h, hf.length)
  {
    var i := hf.length - 1 - p;
    Inside(DimensionsAt(h.sections, i, hf.length, hf.width, hf.height, sqrt), hf.width, hf.height, j, k)
  }

  /** The value of cell (p, j, k) after the hulls are rasterised in order over the value `init`. */
  function CellAfter(hf: HullFile, hulls: seq<Hull>, p: int, j: int, k: int, init: Byte, sqrt: real -> real): (v: Byte)
    requires 0 <= p < hf.length && AllRasterizable(hulls, hf.length)
    ensures v == init || exists n :: 0 <= n < |hulls| && hulls[n].index == v
    decreases |hulls|
  {
    if |hulls| == 0 then init
    else
      var last := hulls[|hulls| - 1];
      if Selects(hf, last, p, j, k, sqrt) then last.index
      else CellAfter(hf, hulls[..|hulls| - 1], p, j, k, init, sqrt)
  }

  /** Fills the cells of the slice at output coordinate p that its ellipse contains. */
  method FillSlice(volume: VoxelObject, p: nat, dimensions: Dimensions, index: Byte)
    requires volume.Valid() && p < volume.length
    modifies volume.voxels
    ensures forall x, y, z :: volume.Contains(x, y, z) ==>
      volume.voxels[x, y, z] ==
        if x == p && Inside(dimensions, volume.width, volume.height, y, z) then index else old(volume.voxels[x, y, z])
  {
    for j := 0 to volume.width
      invariant forall x, y, z :: volume.Contains(x, y, z) ==>
        volume.voxels[x, y, z] ==
          if x == p && y < j && Inside(dimensions, volume.width, volume.height, y, z) then index
          else old(volume.voxels[x, y, z])
    {
      var a := dimensions.width as real / 2.0;
      var x := (j as real) - ((volume.width - 1) as real / 2.0);
      for k := 0 to volume.height
        invariant forall x, y, z :: volume.Contains(x, y, z) ==>
          volume.voxels[x, y, z] ==
            if x == p && (y < j || (y == j && z < k)) && Inside(dimensions, volume.width, volume.height, y, z) then index
            else old(volume.voxels[x, y, z])
      {
        var b := dimensions.keel as real / 2.0;
        var y := (k as real) / 2.0 - ((volume.height - 1) as real / 2.0);
        if EllipseContains(a, x, b, y) {
          volume.Set(p, j, k, index);
        }
      }
    }
  }

  /** Rasterises one hull: slice i is interpolated and filled at output coordinate length - 1 - i. */
  method RasterizeHull(hf: HullFile, h: Hull, volume: VoxelObject, sqrt: real -> real)
    requires volume.Valid() && volume.length == hf.length && volume.width == hf.width && volume.height == hf.height
    requires Rasterizable(h, hf.length)
    modifies volume.voxels
    ensures forall x, y, z :: volume.Contains(x, y, z) ==>
      volume.voxels[x, y, z] == if Selects(hf, h, x, y, z, sqrt) then h.index else old(volume.voxels[x, y, z])
  {
    for i := 0 to hf.length
      invariant forall x, y, z :: volume.Contains(x, y, z) ==>
        volume.voxels[x, y, z] ==
          if hf.length - i <= x && Selects(hf, h, x, y, z, sqrt) then h.index else old(volume.voxels[x, y, z])
    {
      var dimensions := GetDimensions(h.sections, i, hf.length, hf.width, hf.height, sqrt);
      FillSlice(volume, hf.length - (1 + i), dimensions, h.index);
    }
  }

  /** Rasterises every hull, in list order, into the shared volume. */
  method Rasterize(hf: HullFile, volume: VoxelObject, sqrt: real -> real)
    requires volume.Valid() && volume.length == hf.length && volume.width == hf.width && volume.height == hf.height
    requires AllRasterizable(hf.hulls, hf.length)
    modifies volume.voxels
    ensures forall x, y, z :: volume.Contains(x, y, z) ==>
      volume.voxels[x, y, z] == CellAfter(hf, hf.hulls, x, y, z, old(volume.voxels[x, y, z]), sqrt)
  {
    for n := 0 to |hf.hulls|
      invariant forall x, y, z :: volume.Contains(x, y, z) ==>
        volume.voxels[x, y, z] == CellAfter(hf, hf.hulls[..n], x, y, z, old(volume.voxels[x, y, z]), sqrt)
    {
      assert hf.hulls[..n + 1][..n] == hf.hulls[..n];
      RasterizeHull(hf, hf.hulls[n], volume, sqrt);
    }
    assert hf.hulls[..|hf.hulls|] == hf.hulls;
  }

  /**
   * Builds a zeroed volume of the hull file's size, rasterises every hull
   * into it and saves it; `saveToFile` stands for the external writer and
   * its error is returned unchanged.
   */
  method WriteHull(hf: HullFile, sqrt: real -> real, saveToFile: string -> Option<string>)
    returns (volume: VoxelObject, err: Option<string>)
    requires AllRasterizable(hf.hulls, hf.length)
    ensures fresh(volume) && volume.Valid()
    ensures volume.length == hf.length && volume.width == hf.width && volume.height == hf.height
    ensures forall x, y, z :: volume.Contains(x, y, z) ==>
      volume.voxels[x, y, z] == CellAfter(hf, hf.hulls, x, y, z, 0, sqrt)
    ensures err == saveToFile(hf.fileName)
  {
    volume := new VoxelObject(hf.length, hf.width, hf.height);
    Rasterize(hf, volume, sqrt);
    err := saveToFile(hf.fileName);
  }

  /** The ellipse test is mirror-symmetric across the width: column j and column width - 1 - j agree. */
  lemma InsideSymmetric(dims: Dimensions, width: int, height: int, j: int, k: int)
    ensures Inside(dims, width, height, j, k) <==> Inside(dims, width, height, width - 1 - j, k)
  {
    var a, c := dims.width as real / 2.0, dims.keel as real / 2.0;
    var y := k as real / 2.0 - (height - 1) as real / 2.0;
    var x := j as real - (width - 1) as real / 2.0;
    var x' := (width - 1 - j) as real - (width - 1) as real / 2.0;
    assert x' == -x;
    MirrorSquare(x, x');
    assert EllipseContains(a, x, c, y) == EllipseContains(a, x', c, y);
  }

  lemma MirrorSquare(x: real, x': real)
    requires x' == -x
    ensures x' * x' == x * x
  {
  }

  /** A slice of zero width or zero keel depth fills no cell. */
  lemma EmptySliceFillsNothing(dims: Dimensions, width: int, height: int, j: int, k: int)
    requires dims.width == 0 || dims.keel == 0
    ensures !Inside(dims, width, height, j, k)
  {
  }

  /** A cell that no hull selects keeps its initial value. */
  lemma {:induction false} CellAfterUnselected(hf: HullFile, hulls: seq<Hull>, p: int, j: int, k: int, init: Byte,
                                               sqrt: real -> real)
    requires 0 <= p < hf.length && AllRasterizable(hulls, hf.length)
    requires forall n :: 0 <= n < |hulls| ==> !Selects(hf, hulls[n], p, j, k, sqrt)
    ensures CellAfter(hf, hulls, p, j, k, init, sqrt) == init
    decreases |hulls|
  {
    if |hulls| > 0 {
      var prefix := hulls[..|hulls| - 1];
      assert forall n :: 0 <= n < |prefix| ==> prefix[n] == hulls[n];
      CellAfterUnselected(hf, prefix, p, j, k, init, sqrt);
    }
  }

  /** Where hulls overlap, the last hull in the list that selects a cell decides its value. */
  lemma {:induction false} CellAfterLastSelecting(hf: HullFile, hulls: seq<Hull>, n: nat, p: int, j: int, k: int,
                                                  init: Byte, sqrt: real -> real)
    requires 0 <= p < hf.length && AllRasterizable(hulls, hf.length) && n < |hulls|
    requires Selects(hf, hulls[n], p, j, k, sqrt)
    requires forall m :: n < m < |hulls| ==> !Selects(hf, hulls[m], p, j, k, sqrt)
    ensures CellAfter(hf, hulls, p, j, k, init, sqrt) == hulls[n].index
    decreases |hulls|
  {
    if n < |hulls| - 1 {
      var prefix := hulls[..|hulls| - 1];
      assert forall m :: 0 <= m < |prefix| ==> prefix[m] == hulls[m];
      CellAfterLastSelecting(hf, prefix, n, p, j, k, init, sqrt);
    }
  }

  /** A hull selects column j of a slice exactly when it selects column width - 1 - j. */
  lemma SelectsSymmetric(hf: HullFile, h: Hull, p: int, j: int, k: int, sqrt: real -> real)
    requires 0 <= p < hf.length && Rasterizable(h, hf.length)
    ensures Selects(hf, h, p, j, k, sqrt) <==> Selects(hf, h, p, hf.width - 1 - j, k, sqrt)
  {
    var dims := DimensionsAt(h.sections, hf.length - 1 - p, hf.length, hf.width, hf.height, sqrt);
    InsideSymmetric(dims, hf.width, hf.height, j, k);
  }

  /** The finished volume is symmetric across its width. */
  lemma {:induction false} CellAfterSymmetric(hf: HullFile, hulls: seq<Hull>, p: int, j: int, k: int, init: Byte,
                                              sqrt: real -> real)
    requires 0 <= p < hf.length && AllRasterizable(hulls, hf.length)
    ensures CellAfter(hf, hulls, p, j, k, init, sqrt) == CellAfter(hf, hulls, p, hf.width - 1 - j, k, init, sqrt)
    decreases |hulls|
  {
    if |hulls| > 0 {
      SelectsSymmetric(hf, hulls[|hulls| - 1], p, j, k, sqrt);
      CellAfterSymmetric(hf, hulls[..|hulls| - 1], p, j, k, init, sqrt);
    }
  }

  /**
   * In an 88 by 26 by 8 volume holding only the tapered hull, the centre
   * cell of the widest slice (slice 44, written at 43) receives the hull's index.
   */
  lemma ExampleCentreFilled(hf: HullFile, sqrt: real -> real)
    requires hf.length == 88 && hf.width == 26 && hf.height == 8 && hf.hulls == [Hull(1, TaperedProfile())]
    requires sqrt(0.0) == 0.0 && sqrt(1.0) == 1.0
    ensures AllRasterizable(hf.hulls, hf.length)
    ensures CellAfter(hf, hf.hulls, 43, 12, 7, 0, sqrt) == 1
  {
    TaperedSelectsCentre(hf, sqrt);
    assert hf.hulls[..0] == [];
  }

  lemma TaperedRasterizable()
    ensures Rasterizable(Hull(1, TaperedProfile()), 88)
  {
    forall i | 0 <= i < 88
      ensures WellSpaced(TaperedProfile(), Fraction(i, 88))
    {
      AscendingIsWellSpaced(TaperedProfile(), Fraction(i, 88));
    }
  }

  lemma TaperedSelectsCentre(hf: HullFile, sqrt: real -> real)
    requires hf.length == 88 && hf.width == 26 && hf.height == 8
    requires sqrt(0.0) == 0.0 && sqrt(1.0) == 1.0
    ensures Rasterizable(Hull(1, TaperedProfile()), 88)
    ensures Selects(hf, Hull(1, TaperedProfile()), 43, 12, 7, sqrt)
  {
    TaperedRasterizable();
    ExampleWidestSlice(sqrt);
    InsideWidestCentre();
  }

  lemma InsideWidestCentre()
    ensures Inside(Dimensions(26, 8), 26, 8, 12, 7)
  {
    assert EllipseContains(13.0, -0.5, 4.0, 0.0);
  }
}
