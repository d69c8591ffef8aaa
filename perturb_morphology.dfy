/**
 * The label perturbation engine of PerturbImageLabelsMorphology: on a label
 * volume updated in place, each iteration counts the labels, draws a present
 * label by rejection sampling, randomly thins a ball structuring element and
 * then either dilates the label (overwriting every voxel of the dilated mask)
 * or erodes it (refilling every removed voxel with the nearest other label).
 *
 * The volume is its pixel buffer in the order of an ITK region iterator.
 * The ITK filters (binary dilate and erode, signed Maurer distance map) are
 * given as functions, the ball as its flattened activity pattern, and the
 * Mersenne Twister draws as sequences.
 */
module PerturbMorphology {
  import opened Wrappers

  /** The distance the erosion fill starts from before any label is scanned (1e+20). */
  const InitialClosestDistance: real := 100000000000000000000.0

  /** The foreign image filters the engine calls. */
  datatype Filters = Filters(
    dilate: (seq<bool>, seq<bool>) -> seq<bool>,   // BinaryDilateImageFilter(mask, kernel)
    erode: (seq<bool>, seq<bool>) -> seq<bool>,    // BinaryErodeImageFilter(mask, kernel)
    distanceMap: seq<bool> -> seq<real>)          // SignedMaurerDistanceMapImageFilter(mask)

  /** Every filter returns an image of the size of its input mask. */
  ghost predicate SizePreserving(f: Filters)
  {
    (forall m, k :: |f.dilate(m, k)| == |m|) &&
    (forall m, k :: |f.erode(m, k)| == |m|) &&
    (forall m :: |f.distanceMap(m)| == |m|)
  }

  /** The generator draws one iteration consumes. */
  datatype IterationDraws = IterationDraws(
    labelDraws: seq<int>,    // successive GetIntegerVariate(maxLabel) results
    kernelCoins: seq<real>,  // one GetUniformVariate(0, 1) per structuring-element cell
    opCoin: real)            // the dilate-or-erode coin

  /** How a run of the engine ends. */
  datatype Outcome =
    | NothingToPerturb   // maximum label 0: returns 0 without writing the output
    | Written            // the iterations ran (or stopped early) and the volume was written
    | NoLabelDrawn       // the draws given never hit a present label (the source keeps drawing)

  // ---------------------------------------------------------------------------
  // Specification functions over a label buffer

  /** Number of voxels of s holding k. */
  function Occurrences(s: seq<int>, k: int): nat
  {
    if s == [] then 0 else Occurrences(s[..|s| - 1], k) + (if s[|s| - 1] == k then 1 else 0)
  }

  /** Number of non-background voxels of s. */
  function NonZeroCount(s: seq<int>): nat
  {
    if s == [] then 0 else NonZeroCount(s[..|s| - 1]) + (if s[|s| - 1] != 0 then 1 else 0)
  }

  /** The largest voxel value of s, starting from 0. */
  function MaxValue(s: seq<int>): int
  {
    if s == [] then 0 else
      var m := MaxValue(s[..|s| - 1]);
      if s[|s| - 1] > m then s[|s| - 1] else m
  }

  predicate InLabelRange(s: seq<int>, maxLabel: int)
  {
    forall v :: 0 <= v < |s| ==> 0 <= s[v] <= maxLabel
  }

  /** BinaryThresholdImageFilter with both thresholds at label: inside 1, outside 0. */
  function Threshold(s: seq<int>, target: int): (mask: seq<bool>)
    ensures |mask| == |s| && forall v :: 0 <= v < |s| ==> (mask[v] <==> s[v] == target)
  {
    seq(|s|, v requires 0 <= v < |s| => s[v] == target)
  }

  /** The first drawn label whose count is non-zero, if any draw hits one. */
  function FirstPresent(labelCounts: seq<nat>, draws: seq<int>): Option<int>
    requires forall j :: 0 <= j < |draws| ==> 0 <= draws[j] < |labelCounts|
  {
    if draws == [] then None
    else if labelCounts[draws[0]] != 0 then Some(draws[0])
    else FirstPresent(labelCounts, draws[1..])
  }

  /** The structuring element after thinning: a cell stays on only if it was on and its coin was at most 0.5. */
  function Thinned(ball: seq<bool>, coins: seq<real>): (kernel: seq<bool>)
    requires |coins| == |ball|
    ensures |kernel| == |ball|
  {
    seq(|ball|, i requires 0 <= i < |ball| => ball[i] && !(coins[i] > 0.5))
  }

  /** The volume after the dilate branch. */
  function Overwritten(s: seq<int>, dilated: seq<bool>, picked: int): (r: seq<int>)
    requires |dilated| == |s|
    ensures |r| == |s|
  {
    seq(|s|, v requires 0 <= v < |s| => if dilated[v] then picked else s[v])
  }

  /** |d| for a distance-map value (fabsf). */
  function Abs(d: real): real { if d < 0.0 then -d else d }

  /**
   * The scan of the erosion fill over labels 0 .. n-1 skipping the picked
   * one: the current closest label and its distance, replaced only by a
   * strictly smaller distance.
   */
  function ClosestAmong(ds: seq<real>, picked: int, n: nat): (best: (int, real))
    requires n <= |ds|
  {
    if n == 0 then (picked, InitialClosestDistance)
    else
      var prev := ClosestAmong(ds, picked, n - 1);
      if n - 1 != picked && Abs(ds[n - 1]) < prev.1 then (n - 1, Abs(ds[n - 1])) else prev
  }

  /** The label a removed voxel receives, given each label's distance-map value there. */
  function NearestOtherLabel(ds: seq<real>, picked: int): int
  {
    ClosestAmong(ds, picked, |ds|).0
  }

  /** The distance-map values of every label at voxel v. */
  function DistancesAt(maps: seq<seq<real>>, v: nat): (ds: seq<real>)
    requires forall i :: 0 <= i < |maps| ==> v < |maps[i]|
    ensures |ds| == |maps|
  {
    seq(|maps|, i requires 0 <= i < |maps| => maps[i][v])
  }

  /** The volume after the erode branch. */
  function Refilled(s: seq<int>, mask: seq<bool>, eroded: seq<bool>, maps: seq<seq<real>>, picked: int): (r: seq<int>)
    requires |mask| == |s| && |eroded| == |s|
    requires forall i :: 0 <= i < |maps| ==> |maps[i]| == |s|
    ensures |r| == |s|
  {
    seq(|s|, v requires 0 <= v < |s| =>
      if mask[v] == eroded[v] then s[v] else NearestOtherLabel(DistancesAt(maps, v), picked))
  }

  // ---------------------------------------------------------------------------
  // Properties of the specification functions

  /** The maximum bounds every voxel, is never negative, and is 0 or some voxel's value. */
  lemma {:induction false} MaxValueBounds(s: seq<int>)
    ensures MaxValue(s) >= 0
    ensures forall v :: 0 <= v < |s| ==> s[v] <= MaxValue(s)
    ensures MaxValue(s) == 0 || exists v :: 0 <= v < |s| && s[v] == MaxValue(s)
  {
    if s != [] {
      var t := s[..|s| - 1];
      MaxValueBounds(t);
      assert forall v :: 0 <= v < |t| ==> s[v] == t[v];
      if MaxValue(s) != 0 && MaxValue(s) == MaxValue(t) {
        var w :| 0 <= w < |t| && t[w] == MaxValue(t);
        assert s[w] == MaxValue(s);
      }
    }
  }

  /** The non-background count is zero exactly when every voxel is background. */
  lemma {:induction false} NoForegroundIffAllBackground(s: seq<int>)
    ensures NonZeroCount(s) == 0 <==> forall v :: 0 <= v < |s| ==> s[v] == 0
  {
    if s != [] {
      var t := s[..|s| - 1];
      NoForegroundIffAllBackground(t);
      assert forall v :: 0 <= v < |t| ==> s[v] == t[v];
    }
  }

  /** totalCount and labelCounts[0] together cover the whole volume. */
  lemma {:induction false} TotalIsNonBackground(s: seq<int>)
    ensures NonZeroCount(s) + Occurrences(s, 0) == |s|
  {
    if s != [] {
      TotalIsNonBackground(s[..|s| - 1]);
    }
  }

  /**
   * For an unsigned volume the maximum is 0 exactly when every voxel is
   * background: the early return leaves only all-background volumes alone.
   */
  lemma MaxZeroIsAllBackground(s: seq<int>)
    requires Unsigned(s)
    ensures MaxValue(s) == 0 <==> forall v :: 0 <= v < |s| ==> s[v] == 0
  {
    MaxValueBounds(s);
  }

  /** The label drawn is present in the volume and is the first present one among the draws. */
  lemma {:induction false} FirstPresentIsPresent(labelCounts: seq<nat>, draws: seq<int>)
    requires forall j :: 0 <= j < |draws| ==> 0 <= draws[j] < |labelCounts|
    ensures FirstPresent(labelCounts, draws).Some? <==> exists j :: 0 <= j < |draws| && labelCounts[draws[j]] != 0
    ensures FirstPresent(labelCounts, draws).Some? ==>
      var l := FirstPresent(labelCounts, draws).value;
      0 <= l < |labelCounts| && labelCounts[l] != 0 &&
      exists j :: 0 <= j < |draws| && draws[j] == l && forall i :: 0 <= i < j ==> labelCounts[draws[i]] == 0
  {
    if draws != [] && labelCounts[draws[0]] == 0 {
      FirstPresentIsPresent(labelCounts, draws[1..]);
      if FirstPresent(labelCounts, draws).Some? {
        var l := FirstPresent(labelCounts, draws).value;
        var j :| 0 <= j < |draws[1..]| && draws[1..][j] == l && forall i :: 0 <= i < j ==> labelCounts[draws[1..][i]] == 0;
        assert draws[j + 1] == l;
        assert forall i :: 0 <= i < j + 1 ==> labelCounts[draws[i]] == 0 by {
          forall i | 0 <= i < j + 1 ensures labelCounts[draws[i]] == 0 {
            if i > 0 { assert draws[i] == draws[1..][i - 1]; }
          }
        }
      }
      if exists j :: 0 <= j < |draws| && labelCounts[draws[j]] != 0 {
        var j :| 0 <= j < |draws| && labelCounts[draws[j]] != 0;
        assert j > 0 && draws[1..][j - 1] == draws[j];
      }
    }
  }

  /**
   * The draws are GetIntegerVariate(maxLabel), which ranges over [0, maxLabel]:
   * the background label 0 is drawn whenever it is present and drawn first.
   */
  lemma BackgroundCanBePicked(labelCounts: seq<nat>, draws: seq<int>)
    requires |labelCounts| >= 1 && labelCounts[0] != 0
    requires |draws| >= 1 && draws[0] == 0
    requires forall j :: 0 <= j < |draws| ==> 0 <= draws[j] < |labelCounts|
    ensures FirstPresent(labelCounts, draws) == Some(0)
  {
  }

  /** Thinning only switches cells off: the thinned kernel is a subset of the ball. */
  lemma ThinnedWithinBall(ball: seq<bool>, coins: seq<real>)
    requires |coins| == |ball|
    ensures forall i :: 0 <= i < |ball| && Thinned(ball, coins)[i] ==> ball[i]
  {
  }

  /** The erosion scan: the closest label, lowest index first on ties, or the picked label when no distance is below the start value. */
  lemma {:induction false} ClosestAmongSpec(ds: seq<real>, picked: int, n: nat)
    requires n <= |ds|
    ensures var (r, dr) := ClosestAmong(ds, picked, n);
      (r == picked && dr == InitialClosestDistance &&
        forall i :: 0 <= i < n && i != picked ==> Abs(ds[i]) >= InitialClosestDistance) ||
      (0 <= r < n && r != picked && dr == Abs(ds[r]) && dr < InitialClosestDistance &&
        (forall i :: 0 <= i < n && i != picked ==> dr <= Abs(ds[i])) &&
        (forall i :: 0 <= i < r && i != picked ==> dr < Abs(ds[i])))
  {
    if n > 0 {
      ClosestAmongSpec(ds, picked, n - 1);
    }
  }

  /**
   * A removed voxel gets a label other than the picked one with the smallest
   * |distance|, the lowest such label winning ties; only when no label has a
   * distance below 1e+20 does it keep the picked label.
   */
  lemma NearestOtherLabelSpec(ds: seq<real>, picked: int)
    ensures var r := NearestOtherLabel(ds, picked);
      (r == picked && forall i :: 0 <= i < |ds| && i != picked ==> Abs(ds[i]) >= InitialClosestDistance) ||
      (0 <= r < |ds| && r != picked && Abs(ds[r]) < InitialClosestDistance &&
        (forall i :: 0 <= i < |ds| && i != picked ==> Abs(ds[r]) <= Abs(ds[i])) &&
        (forall i :: 0 <= i < r && i != picked ==> Abs(ds[r]) < Abs(ds[i])))
  {
    ClosestAmongSpec(ds, picked, |ds|);
  }

  /** The dilate branch keeps every voxel in [0, maxLabel] when the picked label is. */
  lemma OverwrittenInRange(s: seq<int>, dilated: seq<bool>, picked: int, maxLabel: int)
    requires |dilated| == |s| && InLabelRange(s, maxLabel) && 0 <= picked <= maxLabel
    ensures InLabelRange(Overwritten(s, dilated, picked), maxLabel)
  {
  }

  /** The erode branch keeps every voxel in [0, maxLabel]: the fill is a label 0..maxLabel or the picked one. */
  lemma RefilledInRange(s: seq<int>, mask: seq<bool>, eroded: seq<bool>, maps: seq<seq<real>>, picked: int, maxLabel: int)
    requires |mask| == |s| && |eroded| == |s|
    requires |maps| == maxLabel + 1 && forall i :: 0 <= i < |maps| ==> |maps[i]| == |s|
    requires InLabelRange(s, maxLabel) && 0 <= picked <= maxLabel
    ensures InLabelRange(Refilled(s, mask, eroded, maps, picked), maxLabel)
  {
    forall v | 0 <= v < |s| && mask[v] != eroded[v]
      ensures 0 <= NearestOtherLabel(DistancesAt(maps, v), picked) <= maxLabel
    {
      NearestOtherLabelSpec(DistancesAt(maps, v), picked);
    }
  }

  // ---------------------------------------------------------------------------
  // The engine, step by step

  /** The maximum label: the largest voxel value, starting from 0. */
  method MaxLabel(img: array<int>) returns (maxLabel: int)
    ensures maxLabel == MaxValue(img[..])
  {
    maxLabel := 0;
    var i := 0;
    while i < img.Length
      invariant 0 <= i <= img.Length
      invariant maxLabel == MaxValue(img[..i])
    {
      assert img[..i + 1][..i] == img[..i];
      if img[i] > maxLabel {
        maxLabel := img[i];
      }
      i := i + 1;
    }
    assert img[..] == img[..img.Length];
  }

  /** The label counts of the current volume and its number of non-background voxels. */
  method CountLabels(img: array<int>, maxLabel: nat) returns (labelCounts: seq<nat>, totalCount: nat)
    requires InLabelRange(img[..], maxLabel)
    ensures |labelCounts| == maxLabel + 1
    ensures forall k :: 0 <= k <= maxLabel ==> labelCounts[k] == Occurrences(img[..], k)
    ensures totalCount == NonZeroCount(img[..])
  {
    labelCounts := seq(maxLabel + 1, _ => 0);
    totalCount := 0;
    var i := 0;
    while i < img.Length
      invariant 0 <= i <= img.Length
      invariant |labelCounts| == maxLabel + 1
      invariant forall k :: 0 <= k <= maxLabel ==> labelCounts[k] == Occurrences(img[..i], k)
      invariant totalCount == NonZeroCount(img[..i])
    {
      assert img[..i + 1][..i] == img[..i];
      var k := img[i];
      labelCounts := labelCounts[k := labelCounts[k] + 1];
      if k != 0 {
        totalCount := totalCount + 1;
      }
      i := i + 1;
    }
    assert img[..] == img[..img.Length];
  }

  /** The rejection loop: keep drawing until a label with a non-zero count comes up. */
  method PickLabel(labelCounts: seq<nat>, draws: seq<int>) returns (picked: Option<int>)
    requires forall j :: 0 <= j < |draws| ==> 0 <= draws[j] < |labelCounts|
    ensures picked == FirstPresent(labelCounts, draws)
  {
    var j := 0;
    while j < |draws|
      invariant 0 <= j <= |draws|
      invariant FirstPresent(labelCounts, draws) == FirstPresent(labelCounts, draws[j..])
    {
      assert draws[j..][1..] == draws[j + 1..];
      if labelCounts[draws[j]] != 0 {
        return Some(draws[j]);
      }
      j := j + 1;
    }
    return None;
  }

  /** Random thinning of the structuring element in place. */
  method ThinKernel(kernel: array<bool>, coins: seq<real>)
    requires |coins| == kernel.Length
    modifies kernel
    ensures kernel[..] == Thinned(old(kernel[..]), coins)
  {
    var i := 0;
    while i < kernel.Length
      invariant 0 <= i <= kernel.Length
      invariant forall j :: 0 <= j < i ==> kernel[j] == (old(kernel[j]) && !(coins[j] > 0.5))
      invariant forall j :: i <= j < kernel.Length ==> kernel[j] == old(kernel[j])
    {
      var c := coins[i];
      if kernel[i] && c > 0.5 {
        kernel[i] := false;
      }
      i := i + 1;
    }
  }

  /** The dilate branch: every voxel of the dilated mask becomes the picked label. */
  method OverwriteMasked(img: array<int>, dilated: seq<bool>, picked: int)
    requires |dilated| == img.Length
    modifies img
    ensures img[..] == Overwritten(old(img[..]), dilated, picked)
  {
    var v := 0;
    while v < img.Length
      invariant 0 <= v <= img.Length
      invariant forall u :: 0 <= u < v ==> img[u] == (if dilated[u] then picked else old(img[u]))
      invariant forall u :: v <= u < img.Length ==> img[u] == old(img[u])
    {
      if dilated[v] {
        img[v] := picked;
      }
      v := v + 1;
    }
  }

  /** The inner scan of the erosion fill at one voxel. */
  method ClosestLabel(ds: seq<real>, picked: int) returns (closestLabel: int)
    ensures closestLabel == NearestOtherLabel(ds, picked)
  {
    closestLabel := picked;
    var closestDistance := InitialClosestDistance;
    var i := 0;
    while i < |ds|
      invariant 0 <= i <= |ds|
      invariant (closestLabel, closestDistance) == ClosestAmong(ds, picked, i)
    {
      if i != picked {
        var d := Abs(ds[i]);
        if d < closestDistance {
          closestDistance := d;
          closestLabel := i;
        }
      }
      i := i + 1;
    }
  }

  /** The erode branch: voxels where the mask and the eroded mask differ get the nearest other label. */
  method FillEroded(img: array<int>, mask: seq<bool>, eroded: seq<bool>, maps: seq<seq<real>>, picked: int)
    requires |mask| == img.Length && |eroded| == img.Length
    requires forall i :: 0 <= i < |maps| ==> |maps[i]| == img.Length
    modifies img
    ensures img[..] == Refilled(old(img[..]), mask, eroded, maps, picked)
  {
    var v := 0;
    while v < img.Length
      invariant 0 <= v <= img.Length
      invariant forall u :: 0 <= u < v ==>
        img[u] == (if mask[u] == eroded[u] then old(img[u]) else NearestOtherLabel(DistancesAt(maps, u), picked))
      invariant forall u :: v <= u < img.Length ==> img[u] == old(img[u])
    {
      if mask[v] != eroded[v] {
        var closestLabel := ClosestLabel(DistancesAt(maps, v), picked);
        img[v] := closestLabel;
      }
      v := v + 1;
    }
  }

  /** One distance map per label 0..maxLabel, computed against the current volume. */
  method LabelDistanceMaps(img: array<int>, maxLabel: nat, filters: Filters) returns (maps: seq<seq<real>>)
    requires SizePreserving(filters)
    ensures |maps| == maxLabel + 1
    ensures forall i :: 0 <= i <= maxLabel ==> maps[i] == filters.distanceMap(Threshold(img[..], i))
    ensures forall i :: 0 <= i <= maxLabel ==> |maps[i]| == img.Length
  {
    maps := [];
    var i := 0;
    while i <= maxLabel
      invariant 0 <= i <= maxLabel + 1
      invariant |maps| == i
      invariant forall j :: 0 <= j < i ==> maps[j] == filters.distanceMap(Threshold(img[..], j))
      invariant forall j :: 0 <= j < i ==> |maps[j]| == img.Length
    {
      maps := maps + [filters.distanceMap(Threshold(img[..], i))];
      i := i + 1;
    }
  }

  /** The volume after one iteration, as a function of the volume before it (None: stop iterating). */
  function IterationResult(s: seq<int>, maxLabel: nat, ball: seq<bool>, d: IterationDraws, filters: Filters): Option<seq<int>>
    requires InLabelRange(s, maxLabel) && SizePreserving(filters)
    requires |d.kernelCoins| == |ball|
    requires forall j :: 0 <= j < |d.labelDraws| ==> 0 <= d.labelDraws[j] <= maxLabel
  {
    var counts := seq(maxLabel + 1, k requires 0 <= k <= maxLabel => Occurrences(s, k));
    if NonZeroCount(s) == 0 then None
    else match FirstPresent(counts, d.labelDraws)
      case None => None
      case Some(picked) =>
        var kernel := Thinned(ball, d.kernelCoins);
        var mask := Threshold(s, picked);
        if d.opCoin < 0.5 then Some(Overwritten(s, filters.dilate(mask, kernel), picked))
        else
          var maps := seq(maxLabel + 1, i requires 0 <= i <= maxLabel => filters.distanceMap(Threshold(s, i)));
          Some(Refilled(s, mask, filters.erode(mask, kernel), maps, picked))
  }

  /** Every iteration keeps each voxel in [0, maxLabel]: no label value is introduced. */
  lemma IterationKeepsRange(s: seq<int>, maxLabel: nat, ball: seq<bool>, d: IterationDraws, filters: Filters)
    requires InLabelRange(s, maxLabel) && SizePreserving(filters)
    requires |d.kernelCoins| == |ball|
    requires forall j :: 0 <= j < |d.labelDraws| ==> 0 <= d.labelDraws[j] <= maxLabel
    ensures match IterationResult(s, maxLabel, ball, d, filters)
      case None => true
      case Some(t) => |t| == |s| && InLabelRange(t, maxLabel)
  {
    var counts := seq(maxLabel + 1, k requires 0 <= k <= maxLabel => Occurrences(s, k));
    if NonZeroCount(s) != 0 && FirstPresent(counts, d.labelDraws).Some? {
      var picked := FirstPresent(counts, d.labelDraws).value;
      FirstPresentIsPresent(counts, d.labelDraws);
      var kernel := Thinned(ball, d.kernelCoins);
      var mask := Threshold(s, picked);
      if d.opCoin < 0.5 {
        OverwrittenInRange(s, filters.dilate(mask, kernel), picked, maxLabel);
      } else {
        var maps := seq(maxLabel + 1, i requires 0 <= i <= maxLabel => filters.distanceMap(Threshold(s, i)));
        forall i | 0 <= i < |maps|
          ensures |maps[i]| == |s|
        {
          assert maps[i] == filters.distanceMap(Threshold(s, i));
        }
        RefilledInRange(s, mask, filters.erode(mask, kernel), maps, picked, maxLabel);
      }
    }
  }

  /** One iteration of the engine on the volume in place; stop is set when the loop breaks. */
  method PerturbIteration(img: array<int>, maxLabel: nat, ball: seq<bool>, d: IterationDraws, filters: Filters)
    returns (stop: bool, drawn: bool)
    requires InLabelRange(img[..], maxLabel) && SizePreserving(filters)
    requires |d.kernelCoins| == |ball|
    requires forall j :: 0 <= j < |d.labelDraws| ==> 0 <= d.labelDraws[j] <= maxLabel
    modifies img
    ensures var r := IterationResult(old(img[..]), maxLabel, ball, d, filters);
      (stop <==> r.None?) && (r.Some? ==> img[..] == r.value) && (r.None? ==> img[..] == old(img[..]))
    ensures drawn <==> NonZeroCount(old(img[..])) == 0 || !stop
    ensures InLabelRange(img[..], maxLabel)
  {
    ghost var s := img[..];
    IterationKeepsRange(s, maxLabel, ball, d, filters);
    var labelCounts, totalCount := CountLabels(img, maxLabel);
    assert labelCounts == seq(maxLabel + 1, k requires 0 <= k <= maxLabel => Occurrences(s, k));
    if totalCount == 0 {
      return true, true;
    }
    var picked := PickLabel(labelCounts, d.labelDraws);
    if picked.None? {
      return true, false;
    }
    var pickedLabel := picked.value;
    var kernel := new bool[|ball|](i requires 0 <= i < |ball| => ball[i]);
    assert kernel[..] == ball;
    ThinKernel(kernel, d.kernelCoins);
    assert kernel[..] == Thinned(ball, d.kernelCoins);
    var mask := Threshold(img[..], pickedLabel);
    if d.opCoin < 0.5 {
      OverwriteMasked(img, filters.dilate(mask, kernel[..]), pickedLabel);
    } else {
      var maps := LabelDistanceMaps(img, maxLabel, filters);
      assert maps == seq(maxLabel + 1, i requires 0 <= i <= maxLabel => filters.distanceMap(Threshold(s, i)));
      var eroded := filters.erode(mask, kernel[..]);
      FillEroded(img, mask, eroded, maps, pickedLabel);
    }
    return false, true;
  }

  /** The draws of every iteration are labels in [0, maxLabel] and match the ball. */
  predicate DrawsFit(draws: seq<IterationDraws>, ball: seq<bool>, maxLabel: int)
  {
    (forall t :: 0 <= t < |draws| ==> |draws[t].kernelCoins| == |ball|) &&
    (forall t :: 0 <= t < |draws| ==> forall j :: 0 <= j < |draws[t].labelDraws| ==>
      0 <= draws[t].labelDraws[j] <= maxLabel)
  }

  /** Every voxel of an unsigned label buffer is non-negative. */
  predicate Unsigned(s: seq<int>)
  {
    forall v :: 0 <= v < |s| ==> s[v] >= 0
  }

  /**
   * The volume and outcome after the first n passes of the iteration loop:
   * the loop breaks at the first pass that finds no foreground (the volume
   * is kept, Written), and the engine gives up at the first pass whose label
   * draws never hit a present label (the volume is kept, NoLabelDrawn).
   */
  function Iterate(s: seq<int>, maxLabel: nat, ball: seq<bool>, draws: seq<IterationDraws>, n: nat, filters: Filters)
    : (r: (seq<int>, Outcome))
    requires InLabelRange(s, maxLabel) && SizePreserving(filters)
    requires DrawsFit(draws, ball, maxLabel) && n <= |draws|
    ensures |r.0| == |s| && InLabelRange(r.0, maxLabel)
    ensures r.1 == Written || r.1 == NoLabelDrawn
    decreases n
  {
    if n == 0 then (s, Written)
    else
      var prev := Iterate(s, maxLabel, ball, draws, n - 1, filters);
      if prev.1 == NoLabelDrawn || NonZeroCount(prev.0) == 0 then prev
      else
        IterationKeepsRange(prev.0, maxLabel, ball, draws[n - 1], filters);
        match IterationResult(prev.0, maxLabel, ball, draws[n - 1], filters)
        case Some(t) => (t, Written)
        case None => (prev.0, NoLabelDrawn)
  }

  /** Once the loop has broken off or given up, further passes change neither the volume nor the outcome. */
  lemma {:induction false} Settled(s: seq<int>, maxLabel: nat, ball: seq<bool>, draws: seq<IterationDraws>,
                                   k: nat, n: nat, filters: Filters)
    requires InLabelRange(s, maxLabel) && SizePreserving(filters)
    requires DrawsFit(draws, ball, maxLabel) && k <= n <= |draws|
    requires var r := Iterate(s, maxLabel, ball, draws, k, filters); r.1 == NoLabelDrawn || NonZeroCount(r.0) == 0
    ensures Iterate(s, maxLabel, ball, draws, n, filters) == Iterate(s, maxLabel, ball, draws, k, filters)
    decreases n - k
  {
    if n > k {
      Settled(s, maxLabel, ball, draws, k, n - 1, filters);
    }
  }

  /** One more pass from a volume with foreground: the iteration's result, or giving up when no label is drawn. */
  lemma IterateStep(s: seq<int>, maxLabel: nat, ball: seq<bool>, draws: seq<IterationDraws>, k: nat, filters: Filters)
    requires InLabelRange(s, maxLabel) && SizePreserving(filters)
    requires DrawsFit(draws, ball, maxLabel) && k < |draws|
    requires var r := Iterate(s, maxLabel, ball, draws, k, filters); r.1 == Written && NonZeroCount(r.0) != 0
    ensures var prev := Iterate(s, maxLabel, ball, draws, k, filters).0;
      var next := Iterate(s, maxLabel, ball, draws, k + 1, filters);
      match IterationResult(prev, maxLabel, ball, draws[k], filters)
      case Some(t) => next.0 == t && next.1 == Written
      case None => next.0 == prev && next.1 == NoLabelDrawn
  {
  }

  /** What perturbImageLabels leaves in memory and how it ends, as a function of the volume read. */
  function EngineResult(s: seq<int>, numIterations: int, ball: seq<bool>, draws: seq<IterationDraws>, filters: Filters)
    : (r: (seq<int>, Outcome))
    requires SizePreserving(filters) && Unsigned(s)
    requires DrawsFit(draws, ball, MaxValue(s)) && |draws| >= numIterations
    ensures r.1 == NothingToPerturb <==> MaxValue(s) == 0
    ensures r.1 == NothingToPerturb ==> r.0 == s
    ensures |r.0| == |s| && InLabelRange(r.0, MaxValue(s))
  {
    MaxValueBounds(s);
    if MaxValue(s) == 0 then (s, NothingToPerturb)
    else Iterate(s, MaxValue(s), ball, draws, if numIterations < 0 then 0 else numIterations, filters)
  }

  /**
   * perturbImageLabels: the maximum label first (0: return without writing),
   * then up to numIterations iterations on the volume in place.
   */
  method PerturbImageLabels(img: array<int>, numIterations: int, ball: seq<bool>, draws: seq<IterationDraws>, filters: Filters)
    returns (outcome: Outcome)
    requires SizePreserving(filters) && Unsigned(img[..])
    requires DrawsFit(draws, ball, MaxValue(img[..])) && |draws| >= numIterations
    modifies img
    ensures img[..] == EngineResult(old(img[..]), numIterations, ball, draws, filters).0
    ensures outcome == EngineResult(old(img[..]), numIterations, ball, draws, filters).1
  {
    ghost var s := img[..];
    MaxValueBounds(s);
    var maxLabel := MaxLabel(img);
    if maxLabel == 0 {
      return NothingToPerturb;
    }
    ghost var n := if numIterations < 0 then 0 else numIterations;
    var iter := 0;
    while iter < numIterations
      invariant 0 <= iter <= n
      invariant Iterate(s, maxLabel, ball, draws, iter, filters).1 == Written
      invariant img[..] == Iterate(s, maxLabel, ball, draws, iter, filters).0
    {
      ghost var prev := img[..];
      var stop, drawn := PerturbIteration(img, maxLabel, ball, draws[iter], filters);
      if NonZeroCount(prev) != 0 {
        IterateStep(s, maxLabel, ball, draws, iter, filters);
      }
      if !drawn {
        Settled(s, maxLabel, ball, draws, iter + 1, n, filters);
        return NoLabelDrawn;
      }
      if stop {
        Settled(s, maxLabel, ball, draws, iter, n, filters);
        break;
      }
      iter := iter + 1;
    }
    return Written;
  }

  /**
   * main: the argument checks that run before any image is read, then the
   * engine. inputReads and outputWrites say whether the reader and the
   * writer succeed; when either throws, main catches it and returns -1.
   */
  method PerturbMain(iterations: int, radius: int, img: array<int>, ball: seq<bool>, draws: seq<IterationDraws>,
                     filters: Filters, inputReads: bool, outputWrites: bool)
    returns (exitCode: int, outcome: Option<Outcome>)
    requires SizePreserving(filters) && Unsigned(img[..])
    requires DrawsFit(draws, ball, MaxValue(img[..])) && |draws| >= iterations
    modifies img
    ensures iterations < 1 || radius < 1 || !inputReads ==> exitCode == -1 && outcome == None && img[..] == old(img[..])
    ensures iterations >= 1 && radius >= 1 && inputReads ==>
      var e := EngineResult(old(img[..]), iterations, ball, draws, filters);
      img[..] == e.0 && outcome == Some(e.1) &&
      exitCode == (if e.1 == Written && !outputWrites then -1 else 0)
  {
    if iterations < 1 {
      return -1, None;
    }
    if radius < 1 {
      return -1, None;
    }
    if !inputReads {
      return -1, None;
    }
    var o := PerturbImageLabels(img, iterations, ball, draws, filters);
    if o == Written && !outputWrites {
      return -1, Some(o);
    }
    return 0, Some(o);
  }
}
