/**
 * PerturbImageLabelsBSpline2Das3D: the slice of a volume with one axis of
 * size 1 is resampled through a cubic B-spline transform with normally
 * distributed parameters and nearest-neighbour interpolation, and written
 * back. The transform and the resampling are ITK's: the resampler is a
 * parameter, required to keep the size and to produce only background or
 * values it was given. The slicing axis and the write-back target are the
 * corrected ones (the as-written ones are SliceVolume.SliceAxisAsWritten and
 * SliceVolume.VoxelOfAsWritten).
 */
module PerturbBSplineSlice {
  import opened Wrappers
  import opened SliceVolume

  /** The order of the B-spline. */
  const SplineOrder: nat := 3

  /** The mesh size in each of the two dimensions: the grid nodes minus the spline order. */
  function MeshSize(gridNodes: int): int
  {
    gridNodes - SplineOrder
  }

  /** Parameters of a 2D B-spline transform: two coefficients per control point, (mesh + order)^2 points. */
  function NumberOfParameters(gridNodes: int): (n: int)
    requires gridNodes >= 4
    ensures n == 2 * gridNodes * gridNodes
  {
    2 * (MeshSize(gridNodes) + SplineOrder) * (MeshSize(gridNodes) + SplineOrder)
  }

  /** Nearest-neighbour resampling keeps the image size and produces only input values or the default 0. */
  ghost predicate NearestNeighbour(resample: (seq<int>, seq<real>) -> seq<int>)
  {
    forall s, p :: |resample(s, p)| == |s| &&
      forall v :: 0 <= v < |s| ==> resample(s, p)[v] == 0 || resample(s, p)[v] in s
  }

  /** The parameter buffer, each entry one normal draw. */
  method DrawParameters(numberOfParameters: nat, normals: seq<real>) returns (parameters: array<real>)
    requires |normals| >= numberOfParameters
    ensures fresh(parameters)
    ensures parameters[..] == normals[..numberOfParameters]
  {
    parameters := new real[numberOfParameters];
    var i := 0;
    while i < numberOfParameters
      invariant 0 <= i <= numberOfParameters
      invariant parameters[..i] == normals[..i]
    {
      parameters[i] := normals[i];
      i := i + 1;
    }
  }

  /**
   * perturbImageLabels of the tool: -1 for a volume with no axis of size 1;
   * otherwise the slice is resampled through a transform whose parameters
   * are the first NumberOfParameters(gridNodes) normal draws, and every
   * voxel (all on the plane, the slicing axis having size 1) receives the
   * resampled pixel for it; each then holds background or a value the
   * slice held before.
   */
  method PerturbSliceBSpline(vol: array3<int>, gridNodes: int, normals: seq<real>,
                             resample: (seq<int>, seq<real>) -> seq<int>)
    returns (status: int)
    requires gridNodes >= 4
    requires |normals| >= NumberOfParameters(gridNodes)
    requires NearestNeighbour(resample)
    modifies vol
    ensures VolumeSliceAxis(vol).None? ==> status == -1 && unchanged(vol)
    ensures VolumeSliceAxis(vol).Some? ==> status == 0
    ensures VolumeSliceAxis(vol).Some? ==>
      var axis := VolumeSliceAxis(vol).value;
      var resampled := resample(old(ExtractSlice(vol, axis)), normals[..NumberOfParameters(gridNodes)]);
      forall i, j, m :: 0 <= i < vol.Length0 && 0 <= j < vol.Length1 && 0 <= m < vol.Length2 ==>
        PlaneCoord(axis, Index3(i, j, m)) == 0 &&
        vol[i, j, m] == SlicePixel(resampled, SliceDims(vol, axis).0, PixelOf(axis, Index3(i, j, m)))
    ensures VolumeSliceAxis(vol).Some? ==>
      var before := old(ExtractSlice(vol, VolumeSliceAxis(vol).value));
      forall i, j, m :: 0 <= i < vol.Length0 && 0 <= j < vol.Length1 && 0 <= m < vol.Length2 ==>
        vol[i, j, m] == 0 || vol[i, j, m] in before
  {
    var axis := VolumeSliceAxis(vol);
    if axis.None? {
      return -1;
    }
    var plane := axis.value;
    var slice := ExtractSlice(vol, plane);
    var parameters := DrawParameters(NumberOfParameters(gridNodes), normals);
    var resampled := resample(slice, parameters[..]);
    WriteBack(vol, plane, resampled);
    return 0;
  }

  /**
   * main: -1 for a variance that is not positive or fewer than 4 grid
   * nodes, and -1 when the reader or the writer throws; otherwise 0
   * whatever the tool returned, so a genuinely 3D volume is reported as
   * success without any output.
   */
  method PerturbBSplineMain(normalVariance: real, gridNodes: int, vol: array3<int>, normals: seq<real>,
                            resample: (seq<int>, seq<real>) -> seq<int>, inputReads: bool, outputWrites: bool)
    returns (exitCode: int)
    requires gridNodes >= 4 ==> |normals| >= NumberOfParameters(gridNodes)
    requires NearestNeighbour(resample)
    modifies vol
    ensures normalVariance <= 0.0 || gridNodes < 4 || !inputReads ==> exitCode == -1 && unchanged(vol)
    ensures normalVariance > 0.0 && gridNodes >= 4 && inputReads ==>
      exitCode == (if VolumeSliceAxis(vol).Some? && !outputWrites then -1 else 0)
    ensures normalVariance > 0.0 && gridNodes >= 4 && inputReads && VolumeSliceAxis(vol).None? ==> unchanged(vol)
    ensures normalVariance > 0.0 && gridNodes >= 4 && inputReads && VolumeSliceAxis(vol).Some? ==>
      var axis := VolumeSliceAxis(vol).value;
      var resampled := resample(old(ExtractSlice(vol, axis)), normals[..NumberOfParameters(gridNodes)]);
      forall i, j, m :: 0 <= i < vol.Length0 && 0 <= j < vol.Length1 && 0 <= m < vol.Length2 ==>
        vol[i, j, m] == SlicePixel(resampled, SliceDims(vol, axis).0, PixelOf(axis, Index3(i, j, m)))
  {
    if normalVariance <= 0.0 {
      return -1;
    }
    if gridNodes < 4 {
      return -1;
    }
    if !inputReads {
      return -1;
    }
    var status := PerturbSliceBSpline(vol, gridNodes, normals, resample);
    if status == 0 && !outputWrites {
      return -1;
    }
    return 0;
  }
}
