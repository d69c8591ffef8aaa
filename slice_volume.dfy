/**
 * The 2D-as-3D plumbing shared by PerturbImageLabelsMorphology2Das3D and
 * PerturbImageLabelsBSpline2Das3D: a 3D label volume with one axis of size 1
 * is detected, its slice at index 0 along that axis is extracted as a 2D
 * image, perturbed, and written back voxel by voxel.
 *
 * The volume is an `array3` indexed [x, y, z]; a slice is the pixel buffer
 * of a 2D image in ITK order, pixel (k, l) at k + s0 * l for slice size
 * (s0, s1).
 */
module SliceVolume {
  import opened Wrappers

  datatype Index3 = Index3(i: int, j: int, m: int)

  /** Size of the volume along axis 0, 1 or 2. */
  function AxisLength(vol: array3<int>, axis: nat): nat
  {
    if axis == 0 then vol.Length0 else if axis == 1 then vol.Length1 else vol.Length2
  }

  /**
   * The axis to slice along as the tools write it: the second and third
   * tests use `==` where an assignment was meant, so the axis stays 0.
   */
  function SliceAxisAsWritten(n0: nat, n1: nat, n2: nat): Option<nat>
  {
    if n0 == 1 then Some(0)
    else if n1 == 1 then Some(0)
    else if n2 == 1 then Some(0)
    else None
  }

  /** The axis to slice along: the first axis of size 1, none for a genuinely 3D volume. */
  function SliceAxis(n0: nat, n1: nat, n2: nat): (axis: Option<nat>)
    ensures axis.None? <==> n0 != 1 && n1 != 1 && n2 != 1
    ensures axis == Some(0) <==> n0 == 1
    ensures axis == Some(1) <==> n0 != 1 && n1 == 1
    ensures axis == Some(2) <==> n0 != 1 && n1 != 1 && n2 == 1
  {
    if n0 == 1 then Some(0)
    else if n1 == 1 then Some(1)
    else if n2 == 1 then Some(2)
    else None
  }

  /** The axis detected for a volume. */
  function VolumeSliceAxis(vol: array3<int>): (axis: Option<nat>)
    ensures axis.Some? ==> axis.value <= 2 && AxisLength(vol, axis.value) == 1
  {
    SliceAxis(vol.Length0, vol.Length1, vol.Length2)
  }

  /** The size of the slice: the two remaining axes, in order. */
  function SliceDims(vol: array3<int>, axis: nat): (nat, nat)
  {
    if axis == 0 then (vol.Length1, vol.Length2)
    else if axis == 1 then (vol.Length0, vol.Length2)
    else (vol.Length0, vol.Length1)
  }

  /** The voxel that slice pixel (k, l) comes from and is written back to. */
  function VoxelOf(axis: nat, k: int, l: int): Index3
  {
    if axis == 0 then Index3(0, k, l)
    else if axis == 1 then Index3(k, 0, l)
    else Index3(k, l, 0)
  }

  /** The write-back target as the tools write it: for the third axis both in-plane coordinates are k. */
  function VoxelOfAsWritten(axis: nat, k: int, l: int): Index3
  {
    if axis == 0 then Index3(0, k, l)
    else if axis == 1 then Index3(k, 0, l)
    else Index3(k, k, 0)
  }

  /** The coordinate of voxel x along the slicing axis. */
  function PlaneCoord(axis: nat, x: Index3): int
  {
    if axis == 0 then x.i else if axis == 1 then x.j else x.m
  }

  /** The slice pixel a voxel on the plane corresponds to. */
  function PixelOf(axis: nat, x: Index3): (int, int)
  {
    if axis == 0 then (x.j, x.m) else if axis == 1 then (x.i, x.m) else (x.i, x.j)
  }

  /** Pixel (k, l) of a slice of width s0 sits inside a buffer of s0 * s1 pixels. */
  lemma FlatIndexInRange(k: int, l: int, s0: nat, s1: nat)
    requires 0 <= k < s0 && 0 <= l < s1
    ensures 0 <= k + s0 * l < s0 * s1
  {
    var rest: nat := s1 - 1 - l;
    NaturalProduct(s0, rest);
    Distributes(s0, s1 - 1, l);
    assert s0 * (s1 - 1) - s0 * l == s0 * rest;
    Distributes(s0, s1, 1);
  }

  /** A product of naturals is a natural. */
  lemma NaturalProduct(a: nat, b: nat)
    ensures a * b >= 0
  {
  }

  /** Multiplication distributes over subtraction. */
  lemma Distributes(a: int, b: int, c: int)
    ensures a * (b - c) == a * b - a * c
  {
  }

  /** A buffer position of a slice of width s0 names pixel (idx % s0, idx / s0). */
  lemma UnflattenInRange(idx: int, s0: nat, s1: nat)
    requires 0 <= idx < s0 * s1
    ensures s0 > 0 && 0 <= idx % s0 < s0 && 0 <= idx / s0 < s1
    ensures idx == idx % s0 + s0 * (idx / s0)
  {
    assert s0 > 0;
    var q := idx / s0;
    assert s0 * q <= idx;
    assert s0 * (s1 - q) == s0 * s1 - s0 * q;
    PositiveFactor(s0, s1 - q);
  }

  /** A positive product with a positive factor has a positive co-factor. */
  lemma PositiveFactor(a: int, b: int)
    requires a > 0 && a * b > 0
    ensures b > 0
  {
  }

  /** The only multiple of a strictly between -a and a is 0. */
  lemma SmallMultiple(a: int, d: int)
    requires a > 0 && -a < a * d < a
    ensures d == 0
  {
  }

  /** Voxel value at x, 0 outside the volume. */
  function At(vol: array3<int>, x: Index3): int
    reads vol
  {
    if 0 <= x.i < vol.Length0 && 0 <= x.j < vol.Length1 && 0 <= x.m < vol.Length2 then vol[x.i, x.j, x.m] else 0
  }

  /** Extract2DSlice at slice 0: the pixel buffer of the plane of the volume at index 0 along axis. */
  function ExtractSlice(vol: array3<int>, axis: nat): (slice: seq<int>)
    requires axis <= 2
    reads vol
    ensures |slice| == SliceDims(vol, axis).0 * SliceDims(vol, axis).1
  {
    var (s0, s1) := SliceDims(vol, axis);
    seq(s0 * s1, idx reads vol requires 0 <= idx < s0 * s1 => At(vol, VoxelOf(axis, idx % s0, idx / s0)))
  }

  /** Pixel (k, l) of the extracted slice is the voxel VoxelOf(axis, k, l), which lies in the volume. */
  lemma ExtractSlicePixel(vol: array3<int>, axis: nat, k: int, l: int)
    requires axis <= 2 && AxisLength(vol, axis) >= 1
    requires 0 <= k < SliceDims(vol, axis).0 && 0 <= l < SliceDims(vol, axis).1
    ensures var (s0, s1) := SliceDims(vol, axis);
      0 <= k + s0 * l < |ExtractSlice(vol, axis)| &&
      ExtractSlice(vol, axis)[k + s0 * l] == At(vol, VoxelOf(axis, k, l))
    ensures var x := VoxelOf(axis, k, l);
      0 <= x.i < vol.Length0 && 0 <= x.j < vol.Length1 && 0 <= x.m < vol.Length2
  {
    var (s0, s1) := SliceDims(vol, axis);
    FlatIndexInRange(k, l, s0, s1);
    var idx := k + s0 * l;
    UnflattenInRange(idx, s0, s1);
    assert idx / s0 == l && idx % s0 == k by {
      DivModUnique(idx, s0, k, l);
    }
  }

  /** Euclidean division is unique: idx = k + s0 * l with 0 <= k < s0 fixes k and l. */
  lemma DivModUnique(idx: int, s0: nat, k: int, l: int)
    requires s0 > 0 && 0 <= k < s0 && idx == k + s0 * l
    ensures idx / s0 == l && idx % s0 == k
  {
    var q, r := idx / s0, idx % s0;
    assert s0 * (q - l) == k - r;
    SmallMultiple(s0, q - l);
  }

  /** Distinct slice pixels go to distinct voxels, and every voxel on the plane is some pixel's target. */
  lemma {:induction false} VoxelOfIsPlaneBijection(axis: nat, x: Index3)
    requires axis <= 2
    ensures PlaneCoord(axis, x) == 0 <==> VoxelOf(axis, PixelOf(axis, x).0, PixelOf(axis, x).1) == x
    ensures forall k, l :: PixelOf(axis, VoxelOf(axis, k, l)) == (k, l)
  {
  }

  /** With the third axis of size 1 the as-written write-back sends pixels (0, 0) and (0, 1) to the same voxel. */
  lemma VoxelOfAsWrittenCollides()
    ensures VoxelOfAsWritten(2, 0, 0) == VoxelOfAsWritten(2, 0, 1)
    ensures VoxelOf(2, 0, 0) != VoxelOf(2, 0, 1)
  {
  }

  /**
   * As written, a 3 x 1 x 4 volume is sliced along the first axis: the slice
   * has 1 x 4 pixels, a quarter of the image, where the second axis gives
   * all 3 x 4.
   */
  lemma SliceAxisAsWrittenMissesSecondAxis()
    ensures SliceAxisAsWritten(3, 1, 4) == Some(0)
    ensures SliceAxis(3, 1, 4) == Some(1)
  {
  }

  /** As written the detected axis is 0 whenever any axis has size 1. */
  lemma SliceAxisAsWrittenIsZero(n0: nat, n1: nat, n2: nat)
    ensures SliceAxisAsWritten(n0, n1, n2).Some? <==> SliceAxis(n0, n1, n2).Some?
    ensures SliceAxisAsWritten(n0, n1, n2).Some? ==> SliceAxisAsWritten(n0, n1, n2) == Some(0)
  {
  }

  /** With a detected axis of size 1, the slice holds exactly as many pixels as the volume has voxels. */
  lemma SliceCoversVolume(vol: array3<int>)
    requires VolumeSliceAxis(vol).Some?
    ensures var axis := VolumeSliceAxis(vol).value;
      |ExtractSlice(vol, axis)| == vol.Length0 * vol.Length1 * vol.Length2
  {
  }

  /**
   * The write-back loop: each slice pixel (k, l) is stored at VoxelOf(axis, k, l);
   * voxels off the plane keep their value.
   */
  method WriteBack(vol: array3<int>, axis: nat, slice: seq<int>)
    requires axis <= 2 && AxisLength(vol, axis) >= 1
    requires |slice| == SliceDims(vol, axis).0 * SliceDims(vol, axis).1
    modifies vol
    ensures forall i, j, m :: 0 <= i < vol.Length0 && 0 <= j < vol.Length1 && 0 <= m < vol.Length2 ==>
      vol[i, j, m] == (if PlaneCoord(axis, Index3(i, j, m)) == 0
        then SlicePixel(slice, SliceDims(vol, axis).0, PixelOf(axis, Index3(i, j, m)))
        else old(vol[i, j, m]))
  {
    var (s0, s1) := SliceDims(vol, axis);
    var k := 0;
    while k < s0
      invariant 0 <= k <= s0
      invariant forall i, j, m :: 0 <= i < vol.Length0 && 0 <= j < vol.Length1 && 0 <= m < vol.Length2 ==>
        vol[i, j, m] == (if PlaneCoord(axis, Index3(i, j, m)) == 0 && PixelOf(axis, Index3(i, j, m)).0 < k
          then SlicePixel(slice, s0, PixelOf(axis, Index3(i, j, m)))
          else old(vol[i, j, m]))
    {
      WriteRow(vol, axis, slice, k);
      k := k + 1;
    }
  }

  /** One pass of the inner loop: the slice pixels (k, l) for every l. */
  method WriteRow(vol: array3<int>, axis: nat, slice: seq<int>, k: nat)
    requires axis <= 2 && AxisLength(vol, axis) >= 1
    requires |slice| == SliceDims(vol, axis).0 * SliceDims(vol, axis).1 && k < SliceDims(vol, axis).0
    modifies vol
    ensures forall i, j, m :: 0 <= i < vol.Length0 && 0 <= j < vol.Length1 && 0 <= m < vol.Length2 ==>
      vol[i, j, m] == (if PlaneCoord(axis, Index3(i, j, m)) == 0 && PixelOf(axis, Index3(i, j, m)).0 == k
        then SlicePixel(slice, SliceDims(vol, axis).0, PixelOf(axis, Index3(i, j, m)))
        else old(vol[i, j, m]))
  {
    var (s0, s1) := SliceDims(vol, axis);
    var l := 0;
    while l < s1
      invariant 0 <= l <= s1
      invariant forall i, j, m :: 0 <= i < vol.Length0 && 0 <= j < vol.Length1 && 0 <= m < vol.Length2 ==>
        vol[i, j, m] == (if PlaneCoord(axis, Index3(i, j, m)) == 0 &&
            PixelOf(axis, Index3(i, j, m)).0 == k && PixelOf(axis, Index3(i, j, m)).1 < l
          then SlicePixel(slice, s0, PixelOf(axis, Index3(i, j, m)))
          else old(vol[i, j, m]))
    {
      FlatIndexInRange(k, l, s0, s1);
      var x := VoxelOf(axis, k, l);
      vol[x.i, x.j, x.m] := slice[k + s0 * l];
      l := l + 1;
    }
  }

  /** Pixel (k, l) of a slice buffer of width s0, 0 outside it. */
  function SlicePixel(slice: seq<int>, s0: nat, p: (int, int)): int
  {
    if 0 <= p.0 < s0 && 0 <= p.1 && 0 <= p.0 + s0 * p.1 < |slice| then slice[p.0 + s0 * p.1] else 0
  }
}
