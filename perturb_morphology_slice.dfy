/**
 * PerturbImageLabelsMorphology2Das3D: the morphology engine run on the 2D
 * slice of a volume that has one axis of size 1, the result written back
 * into the volume. The slicing axis and the write-back target are the
 * corrected ones (the as-written ones are SliceVolume.SliceAxisAsWritten and
 * SliceVolume.VoxelOfAsWritten).
 */
module PerturbMorphologySlice {
  import opened Wrappers
  import opened SliceVolume
  import PerturbMorphology

  /** Every voxel of the unsigned label volume is non-negative. */
  predicate NonNegative(vol: array3<int>)
    reads vol
  {
    forall i, j, m :: 0 <= i < vol.Length0 && 0 <= j < vol.Length1 && 0 <= m < vol.Length2 ==> vol[i, j, m] >= 0
  }

  /**
   * perturbImageLabels of the 2D-as-3D tool: -1 for a volume with no axis
   * of size 1; otherwise the slice is run through the engine and, unless its
   * maximum label is 0, every voxel of the plane receives the engine's
   * result for its pixel. writerReached says whether the volume writer runs.
   */
  method PerturbSliceLabels(vol: array3<int>, numIterations: int, ball: seq<bool>,
                            draws: seq<PerturbMorphology.IterationDraws>, filters: PerturbMorphology.Filters)
    returns (status: int, writerReached: bool)
    requires PerturbMorphology.SizePreserving(filters)
    requires NonNegative(vol)
    requires VolumeSliceAxis(vol).Some? ==>
      PerturbMorphology.DrawsFit(draws, ball, PerturbMorphology.MaxValue(ExtractSlice(vol, VolumeSliceAxis(vol).value)))
    requires |draws| >= numIterations
    modifies vol
    ensures VolumeSliceAxis(vol).None? ==> status == -1 && !writerReached && unchanged(vol)
    ensures VolumeSliceAxis(vol).Some? ==> status == 0
    ensures VolumeSliceAxis(vol).Some? ==>
      var axis := VolumeSliceAxis(vol).value;
      var e := PerturbMorphology.EngineResult(old(ExtractSlice(vol, axis)), numIterations, ball, draws, filters);
      (writerReached <==> e.1 == PerturbMorphology.Written) &&
      (e.1 == PerturbMorphology.NothingToPerturb ==> unchanged(vol)) &&
      (e.1 != PerturbMorphology.NothingToPerturb ==>
        forall i, j, m :: 0 <= i < vol.Length0 && 0 <= j < vol.Length1 && 0 <= m < vol.Length2 ==>
          PlaneCoord(axis, Index3(i, j, m)) == 0 &&
          vol[i, j, m] == SlicePixel(e.0, SliceDims(vol, axis).0, PixelOf(axis, Index3(i, j, m))))
    ensures VolumeSliceAxis(vol).Some? ==>
      var maxLabel := PerturbMorphology.MaxValue(old(ExtractSlice(vol, VolumeSliceAxis(vol).value)));
      forall i, j, m :: 0 <= i < vol.Length0 && 0 <= j < vol.Length1 && 0 <= m < vol.Length2 ==>
        0 <= vol[i, j, m] <= maxLabel
  {
    var axis := VolumeSliceAxis(vol);
    if axis.None? {
      return -1, false;
    }
    var plane := axis.value;
    var slice := ExtractSlice(vol, plane);
    var buf := new int[|slice|](idx requires 0 <= idx < |slice| => slice[idx]);
    assert buf[..] == slice;
    var outcome := PerturbMorphology.PerturbImageLabels(buf, numIterations, ball, draws, filters);
    if outcome == PerturbMorphology.NothingToPerturb {
      SliceWithinMax(vol, plane);
      return 0, false;
    }
    WriteBack(vol, plane, buf[..]);
    return 0, outcome == PerturbMorphology.Written;
  }

  /** With the slicing axis of size 1, every voxel is a pixel of the slice, so none exceeds the slice's maximum. */
  lemma SliceWithinMax(vol: array3<int>, axis: nat)
    requires VolumeSliceAxis(vol) == Some(axis) && NonNegative(vol)
    ensures forall i, j, m :: 0 <= i < vol.Length0 && 0 <= j < vol.Length1 && 0 <= m < vol.Length2 ==>
      0 <= vol[i, j, m] <= PerturbMorphology.MaxValue(ExtractSlice(vol, axis))
  {
    var slice := ExtractSlice(vol, axis);
    PerturbMorphology.MaxValueBounds(slice);
    forall i, j, m | 0 <= i < vol.Length0 && 0 <= j < vol.Length1 && 0 <= m < vol.Length2
      ensures vol[i, j, m] <= PerturbMorphology.MaxValue(slice)
    {
      var x := Index3(i, j, m);
      var (k, l) := PixelOf(axis, x);
      VoxelOfIsPlaneBijection(axis, x);
      ExtractSlicePixel(vol, axis, k, l);
    }
  }

  /**
   * main: -1 when iterations or radius is below 1, and -1 when the reader or
   * the writer throws; otherwise 0 whatever the tool returned, so a
   * genuinely 3D volume is reported as success without any output.
   */
  method PerturbSliceMain(iterations: int, radius: int, vol: array3<int>, ball: seq<bool>,
                          draws: seq<PerturbMorphology.IterationDraws>, filters: PerturbMorphology.Filters,
                          inputReads: bool, outputWrites: bool)
    returns (exitCode: int)
    requires PerturbMorphology.SizePreserving(filters)
    requires NonNegative(vol)
    requires VolumeSliceAxis(vol).Some? ==>
      PerturbMorphology.DrawsFit(draws, ball, PerturbMorphology.MaxValue(ExtractSlice(vol, VolumeSliceAxis(vol).value)))
    requires |draws| >= iterations
    modifies vol
    ensures iterations < 1 || radius < 1 || !inputReads ==> exitCode == -1 && unchanged(vol)
    ensures iterations >= 1 && radius >= 1 && inputReads && VolumeSliceAxis(vol).None? ==> exitCode == 0 && unchanged(vol)
    ensures iterations >= 1 && radius >= 1 && inputReads && VolumeSliceAxis(vol).Some? ==>
      var axis := VolumeSliceAxis(vol).value;
      var e := PerturbMorphology.EngineResult(old(ExtractSlice(vol, axis)), iterations, ball, draws, filters);
      exitCode == (if e.1 == PerturbMorphology.Written && !outputWrites then -1 else 0) &&
      (e.1 == PerturbMorphology.NothingToPerturb ==> unchanged(vol)) &&
      (e.1 != PerturbMorphology.NothingToPerturb ==>
        forall i, j, m :: 0 <= i < vol.Length0 && 0 <= j < vol.Length1 && 0 <= m < vol.Length2 ==>
          vol[i, j, m] == SlicePixel(e.0, SliceDims(vol, axis).0, PixelOf(axis, Index3(i, j, m))))
  {
    if iterations < 1 {
      return -1;
    }
    if radius < 1 {
      return -1;
    }
    if !inputReads {
      return -1;
    }
    var _, writerReached := PerturbSliceLabels(vol, iterations, ball, draws, filters);
    if writerReached && !outputWrites {
      return -1;
    }
    return 0;
  }
}
