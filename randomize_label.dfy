/**
 * randomizeLabel: builds a new label volume, initially background, by
 * randomly dilating each label 1..maxL of the input in turn and merging
 * the dilated masks: an uncovered background voxel takes the label, a voxel
 * some earlier label already took switches with a fair coin.
 *
 * Volumes are pixel buffers in ITK order. RandomDilateImageFilter (radius
 * 2) is a parameter taking the label and its threshold mask, since each
 * call draws its own randomness; rand() / RAND_MAX is the stream `coin`,
 * indexed by draw number.
 */
module RandomizeLabel {
  import opened Wrappers
  import PerturbMorphology

  /** The neighbourhood radius the dilation is run with. */
  const DilationRadius: nat := 2

  /** The random dilation keeps the volume size. */
  ghost predicate SizePreserving(randomDilate: (int, seq<bool>) -> seq<bool>)
  {
    forall l, m :: |randomDilate(l, m)| == |m|
  }

  /** The largest value of the input (MinimumMaximumImageCalculator); 0 for an empty volume. */
  function MaxOf(s: seq<int>): (m: int)
    ensures forall v :: 0 <= v < |s| ==> s[v] <= m
    ensures s != [] ==> exists v :: 0 <= v < |s| && s[v] == m
  {
    if s == [] then 0 else MaxOfFirst(s, |s|)
  }

  /** The largest of the first k values. */
  function MaxOfFirst(s: seq<int>, k: nat): (m: int)
    requires 0 < k <= |s|
    ensures forall v :: 0 <= v < k ==> s[v] <= m
    ensures exists v :: 0 <= v < k && s[v] == m
  {
    if k == 1 then s[0]
    else
      var rest := MaxOfFirst(s, k - 1);
      if s[k - 1] >= rest then s[k - 1] else rest
  }

  /** The dilated mask of one label. */
  function DilatedMask(input: seq<int>, randomDilate: (int, seq<bool>) -> seq<bool>, lbl: int): (d: seq<bool>)
    requires SizePreserving(randomDilate)
    ensures |d| == |input|
  {
    randomDilate(lbl, PerturbMorphology.Threshold(input, lbl))
  }

  /** Voxels before v of the dilated mask that already hold a label: each draws one coin. */
  function Conflicts(s: seq<int>, d: seq<bool>, v: nat): nat
    requires |d| == |s| && v <= |s|
  {
    if v == 0 then 0
    else Conflicts(s, d, v - 1) + (if d[v - 1] && s[v - 1] != 0 then 1 else 0)
  }

  /** One voxel of the merge: uncovered keeps its value, background takes the label, a labelled voxel takes it on a coin above 0.5. */
  function MergedVoxel(x: int, covered: bool, lbl: int, draw: real): (y: int)
    ensures y == x || (covered && y == lbl)
    ensures !covered ==> y == x
    ensures covered && x == 0 ==> y == lbl
  {
    if !covered then x
    else if x == 0 then lbl
    else if draw > 0.5 then lbl
    else x
  }

  /** Voxel v of the merge: its coin is number cursor + (the conflicts before v). */
  function MergedVoxelAt(s: seq<int>, d: seq<bool>, lbl: int, coin: nat -> real, cursor: nat, v: int): int
    requires |d| == |s| && 0 <= v < |s|
  {
    MergedVoxel(s[v], d[v], lbl, coin(cursor + Conflicts(s, d, v)))
  }

  /** The output after merging one dilated mask, the coins numbered from cursor in voxel order. */
  function Merged(s: seq<int>, d: seq<bool>, lbl: int, coin: nat -> real, cursor: nat): (r: seq<int>)
    requires |d| == |s|
    ensures |r| == |s|
  {
    seq(|s|, v requires 0 <= v < |s| => MergedVoxelAt(s, d, lbl, coin, cursor, v))
  }

  /** The dilated masks of labels 1..n, mask of label l at index l - 1. */
  function DilatedMasks(input: seq<int>, randomDilate: (int, seq<bool>) -> seq<bool>, n: nat): (ms: seq<seq<bool>>)
    requires SizePreserving(randomDilate)
    ensures |ms| == n && MasksFit(ms, |input|)
    ensures forall l :: 1 <= l <= n ==> ms[l - 1] == DilatedMask(input, randomDilate, l)
  {
    seq(n, i requires 0 <= i < n => DilatedMask(input, randomDilate, i + 1))
  }

  /** Every mask covers a volume of the given size. */
  ghost predicate MasksFit(masks: seq<seq<bool>>, size: nat)
  {
    forall i :: 0 <= i < |masks| ==> |masks[i]| == size
  }

  /**
   * The output after labels 1..n have been merged, mask of label l at
   * masks[l - 1], with the number of coins drawn so far.
   */
  function MergedUpTo(size: nat, masks: seq<seq<bool>>, coin: nat -> real, n: nat): (r: (seq<int>, nat))
    requires n <= |masks| && MasksFit(masks, size)
    ensures |r.0| == size
  {
    if n == 0 then (seq(size, _ => 0), 0)
    else
      var prev := MergedUpTo(size, masks, coin, n - 1);
      var d := masks[n - 1];
      (Merged(prev.0, d, n, coin, prev.1), prev.1 + Conflicts(prev.0, d, size))
  }

  /** The number of labels merged: the maximum input value, or none when it is negative. */
  function LabelCount(input: seq<int>): nat
  {
    var maxL := MaxOf(input);
    if maxL < 0 then 0 else maxL
  }

  /** The output of the whole merge: labels 1..maxL. */
  function Randomized(input: seq<int>, randomDilate: (int, seq<bool>) -> seq<bool>, coin: nat -> real): (r: seq<int>)
    requires SizePreserving(randomDilate)
    ensures |r| == |input|
  {
    var n := LabelCount(input);
    MergedUpTo(|input|, DilatedMasks(input, randomDilate, n), coin, n).0
  }

  /** Before any label is merged the output is all background and no coin has been drawn. */
  lemma MergedUpToNone(size: nat, masks: seq<seq<bool>>, coin: nat -> real, zeros: seq<int>)
    requires MasksFit(masks, size)
    requires |zeros| == size && forall u :: 0 <= u < |zeros| ==> zeros[u] == 0
    ensures MergedUpTo(size, masks, coin, 0).0 == zeros && MergedUpTo(size, masks, coin, 0).1 == 0
  {
    assert MergedUpTo(size, masks, coin, 0).0 == zeros;
  }

  /** Merging label n applies its mask to the output of labels 1..n-1 and draws a coin per conflict. */
  lemma MergedUpToNext(size: nat, masks: seq<seq<bool>>, coin: nat -> real, n: nat, s: seq<int>, cursor: nat, d: seq<bool>)
    requires 0 < n <= |masks| && MasksFit(masks, size) && d == masks[n - 1]
    requires s == MergedUpTo(size, masks, coin, n - 1).0 && cursor == MergedUpTo(size, masks, coin, n - 1).1
    ensures MergedUpTo(size, masks, coin, n).0 == Merged(s, d, n, coin, cursor)
    ensures MergedUpTo(size, masks, coin, n).1 == cursor + Conflicts(s, d, size)
  {
  }

  /** The whole merge is the merge of all LabelCount(input) dilated masks. */
  lemma RandomizedIsMergedUpTo(input: seq<int>, randomDilate: (int, seq<bool>) -> seq<bool>, coin: nat -> real, masks: seq<seq<bool>>)
    requires SizePreserving(randomDilate) && masks == DilatedMasks(input, randomDilate, LabelCount(input))
    ensures Randomized(input, randomDilate, coin) == MergedUpTo(|input|, masks, coin, LabelCount(input)).0
  {
  }

  /** How merging label n changes one voxel of the output of labels 1..n-1. */
  lemma MergedUpToStep(size: nat, masks: seq<seq<bool>>, coin: nat -> real, n: nat, v: int)
    requires 0 < n <= |masks| && MasksFit(masks, size) && 0 <= v < size
    ensures var x := MergedUpTo(size, masks, coin, n).0[v];
      var p := MergedUpTo(size, masks, coin, n - 1).0[v];
      var covered := masks[n - 1][v];
      (x == p || (covered && x == n)) && (!covered ==> x == p) && (covered && p == 0 ==> x == n)
  {
  }

  /** After labels 1..n a voxel holds a label of 0..n, and a label x != 0 only inside x's mask. */
  lemma {:induction false} MergedUpToInMask(size: nat, masks: seq<seq<bool>>, coin: nat -> real, n: nat, v: int)
    requires n <= |masks| && MasksFit(masks, size) && 0 <= v < size
    ensures var x := MergedUpTo(size, masks, coin, n).0[v];
      0 <= x <= n && (x != 0 ==> masks[x - 1][v])
  {
    if n > 0 {
      MergedUpToInMask(size, masks, coin, n - 1, v);
      MergedUpToStep(size, masks, coin, n, v);
    }
  }

  /** After labels 1..n a voxel is background exactly when none of the masks of 1..n covers it. */
  lemma {:induction false} MergedUpToBackground(size: nat, masks: seq<seq<bool>>, coin: nat -> real, n: nat, v: int)
    requires n <= |masks| && MasksFit(masks, size) && 0 <= v < size
    ensures MergedUpTo(size, masks, coin, n).0[v] == 0 <==> forall i :: 0 <= i < n ==> !masks[i][v]
  {
    if n > 0 {
      MergedUpToBackground(size, masks, coin, n - 1, v);
      MergedUpToInMask(size, masks, coin, n - 1, v);
      MergedUpToStep(size, masks, coin, n, v);
      ZeroAfterStep(MergedUpTo(size, masks, coin, n).0[v], MergedUpTo(size, masks, coin, n - 1).0[v], masks[n - 1][v], n);
      UncoveredSnoc(size, masks, n, v);
    }
  }

  /** One merge step leaves a voxel at 0 exactly when it was 0 and the new mask misses it. */
  lemma ZeroAfterStep(x: int, p: int, covered: bool, n: nat)
    requires n > 0 && p >= 0
    requires (x == p || (covered && x == n)) && (!covered ==> x == p) && (covered && p == 0 ==> x == n)
    ensures x == 0 <==> p == 0 && !covered
  {
  }

  /** No mask of 1..n covers v exactly when none of 1..n-1 does and mask n misses it. */
  lemma UncoveredSnoc(size: nat, masks: seq<seq<bool>>, n: nat, v: int)
    requires 0 < n <= |masks| && MasksFit(masks, size) && 0 <= v < size
    ensures (forall i :: 0 <= i < n ==> !masks[i][v]) <==> (forall i :: 0 <= i < n - 1 ==> !masks[i][v]) && !masks[n - 1][v]
  {
  }

  /** A voxel covered by exactly one mask ends with that label: coins only decide between overlapping labels. */
  lemma MergedUpToSoleCover(size: nat, masks: seq<seq<bool>>, coin: nat -> real, n: nat, v: int, lbl: int)
    requires n <= |masks| && MasksFit(masks, size)
    requires 0 <= v < size && 1 <= lbl <= n
    requires masks[lbl - 1][v]
    requires forall i :: 0 <= i < n && i != lbl - 1 ==> !masks[i][v]
    ensures MergedUpTo(size, masks, coin, n).0[v] == lbl
  {
    MergedUpToInMask(size, masks, coin, n, v);
    MergedUpToBackground(size, masks, coin, n, v);
  }

  /**
   * A voxel of the output is background exactly when no label's dilated
   * mask covers it, and a voxel covered by the dilated mask of one label
   * only ends with that label.
   */
  lemma RandomizedCover(input: seq<int>, randomDilate: (int, seq<bool>) -> seq<bool>, coin: nat -> real, v: int)
    requires SizePreserving(randomDilate) && 0 <= v < |input|
    ensures Randomized(input, randomDilate, coin)[v] == 0 <==>
      forall l :: 1 <= l <= LabelCount(input) ==> !DilatedMask(input, randomDilate, l)[v]
    ensures forall lbl ::
      (1 <= lbl <= LabelCount(input) && DilatedMask(input, randomDilate, lbl)[v] &&
       forall l :: 1 <= l <= LabelCount(input) && l != lbl ==> !DilatedMask(input, randomDilate, l)[v]) ==>
      Randomized(input, randomDilate, coin)[v] == lbl
  {
    var n := LabelCount(input);
    var masks := DilatedMasks(input, randomDilate, n);
    MergedUpToBackground(|input|, masks, coin, n, v);
    assert (forall i :: 0 <= i < n ==> !masks[i][v]) <==> (forall l :: 1 <= l <= n ==> !DilatedMask(input, randomDilate, l)[v]) by {
      if forall i :: 0 <= i < n ==> !masks[i][v] {
        forall l | 1 <= l <= n
          ensures !DilatedMask(input, randomDilate, l)[v]
        {
          assert masks[l - 1] == DilatedMask(input, randomDilate, l);
        }
      }
    }
    forall lbl | 1 <= lbl <= n && DilatedMask(input, randomDilate, lbl)[v] &&
      (forall l :: 1 <= l <= n && l != lbl ==> !DilatedMask(input, randomDilate, l)[v])
      ensures Randomized(input, randomDilate, coin)[v] == lbl
    {
      forall i | 0 <= i < n && i != lbl - 1
        ensures !masks[i][v]
      {
        assert masks[i] == DilatedMask(input, randomDilate, i + 1);
      }
      MergedUpToSoleCover(|input|, masks, coin, n, v, lbl);
    }
  }

  /** A foreground voxel of the input is labelled in the output when every dilation contains its mask. */
  lemma RandomizedKeepsForeground(input: seq<int>, randomDilate: (int, seq<bool>) -> seq<bool>, coin: nat -> real, v: int)
    requires SizePreserving(randomDilate)
    requires forall l, m: seq<bool>, u :: 0 <= u < |m| && m[u] ==> u < |randomDilate(l, m)| && randomDilate(l, m)[u]
    requires 0 <= v < |input| && input[v] >= 1
    ensures Randomized(input, randomDilate, coin)[v] != 0
  {
    RandomizedCover(input, randomDilate, coin, v);
    assert input[v] <= LabelCount(input);
    assert PerturbMorphology.Threshold(input, input[v])[v];
    assert DilatedMask(input, randomDilate, input[v])[v];
  }

  /** Voxel v of the merge draws coin number cursor + (conflicts before v), and counts as one more conflict when it draws. */
  lemma MergedStep(s: seq<int>, d: seq<bool>, lbl: int, coin: nat -> real, cursor: nat, v: int)
    requires |d| == |s| && 0 <= v < |s|
    ensures MergedVoxelAt(s, d, lbl, coin, cursor, v) == MergedVoxel(s[v], d[v], lbl, coin(cursor + Conflicts(s, d, v)))
    ensures Conflicts(s, d, v + 1) == Conflicts(s, d, v) + (if d[v] && s[v] != 0 then 1 else 0)
  {
  }

  /** A volume holding the merged value at every voxel is the merge. */
  lemma MergedFromVoxels(r: seq<int>, s: seq<int>, d: seq<bool>, lbl: int, coin: nat -> real, cursor: nat)
    requires |d| == |s| && |r| == |s|
    requires forall u :: 0 <= u < |r| ==> r[u] == MergedVoxelAt(s, d, lbl, coin, cursor, u)
    ensures r == Merged(s, d, lbl, coin, cursor)
  {
  }

  /** The body of the merge loop at one voxel: the merged value and the coin cursor after it. */
  method MergeVoxel(x: int, covered: bool, lbl: int, coin: nat -> real, cursor: nat) returns (y: int, next: nat)
    ensures y == MergedVoxel(x, covered, lbl, coin(cursor))
    ensures next == cursor + (if covered && x != 0 then 1 else 0)
  {
    y, next := x, cursor;
    if covered {
      if x == 0 {
        y := lbl;
      } else {
        var draw := coin(next);
        next := next + 1;
        if draw > 0.5 {
          y := lbl;
        }
      }
    }
  }

  /** The merge loop for one label over the output buffer; returns the advanced coin cursor. */
  method MergeLabel(out: array<int>, dilated: seq<bool>, lbl: int, coin: nat -> real, cursor: nat)
    returns (next: nat)
    requires |dilated| == out.Length
    modifies out
    ensures out[..] == Merged(old(out[..]), dilated, lbl, coin, cursor)
    ensures next == cursor + Conflicts(old(out[..]), dilated, out.Length)
  {
    ghost var s := out[..];
    next := cursor;
    var v := 0;
    while v < out.Length
      invariant 0 <= v <= out.Length
      invariant next == cursor + Conflicts(s, dilated, v)
      invariant forall u :: 0 <= u < v ==> out[u] == MergedVoxelAt(s, dilated, lbl, coin, cursor, u)
      invariant forall u :: v <= u < out.Length ==> out[u] == s[u]
    {
      MergedStep(s, dilated, lbl, coin, cursor, v);
      var merged;
      merged, next := MergeVoxel(out[v], dilated[v], lbl, coin, next);
      out[v] := merged;
      v := v + 1;
    }
    MergedFromVoxels(out[..], s, dilated, lbl, coin, cursor);
  }

  /** randomizeLabels after the argument check: the new output volume. */
  method RandomizeLabels(input: seq<int>, randomDilate: (int, seq<bool>) -> seq<bool>, coin: nat -> real)
    returns (out: array<int>)
    requires SizePreserving(randomDilate)
    ensures fresh(out)
    ensures out[..] == Randomized(input, randomDilate, coin)
  {
    out := new int[|input|](_ => 0);
    var maxL := MaxOf(input);
    ghost var masks := DilatedMasks(input, randomDilate, LabelCount(input));
    assert forall u :: 0 <= u < out.Length ==> out[u] == 0;
    MergedUpToNone(|input|, masks, coin, out[..]);
    MergeLabels(out, input, randomDilate, coin, masks, maxL);
    RandomizedIsMergedUpTo(input, randomDilate, coin, masks);
  }

  /** The label loop of randomizeLabels: labels 1..maxL, each dilated and merged in turn. */
  method MergeLabels(out: array<int>, input: seq<int>, randomDilate: (int, seq<bool>) -> seq<bool>, coin: nat -> real,
                     ghost masks: seq<seq<bool>>, maxL: int)
    requires SizePreserving(randomDilate) && |masks| == (if maxL < 0 then 0 else maxL)
    requires masks == DilatedMasks(input, randomDilate, |masks|)
    requires out.Length == |input| && out[..] == MergedUpTo(|input|, masks, coin, 0).0 && MergedUpTo(|input|, masks, coin, 0).1 == 0
    modifies out
    ensures out[..] == MergedUpTo(|input|, masks, coin, |masks|).0
  {
    var cursor: nat := 0;
    var done := 0;
    while done < maxL
      invariant 0 <= done <= |masks|
      invariant out[..] == MergedUpTo(|input|, masks, coin, done).0 && cursor == MergedUpTo(|input|, masks, coin, done).1
    {
      cursor := MergeNextLabel(out, input, randomDilate, coin, masks, done + 1, cursor);
      done := done + 1;
    }
  }

  /** One pass of the label loop: dilate label lbl and merge it into the output. */
  method MergeNextLabel(out: array<int>, input: seq<int>, randomDilate: (int, seq<bool>) -> seq<bool>, coin: nat -> real,
                        ghost masks: seq<seq<bool>>, lbl: nat, cursor: nat) returns (next: nat)
    requires SizePreserving(randomDilate) && 0 < lbl <= |masks| && masks == DilatedMasks(input, randomDilate, |masks|)
    requires out.Length == |input|
    requires out[..] == MergedUpTo(|input|, masks, coin, lbl - 1).0 && cursor == MergedUpTo(|input|, masks, coin, lbl - 1).1
    modifies out
    ensures out[..] == MergedUpTo(|input|, masks, coin, lbl).0 && next == MergedUpTo(|input|, masks, coin, lbl).1
  {
    var dilated := randomDilate(lbl, PerturbMorphology.Threshold(input, lbl));
    assert dilated == masks[lbl - 1];
    MergedUpToNext(|input|, masks, coin, lbl, out[..], cursor, dilated);
    next := MergeLabel(out, dilated, lbl, coin, cursor);
  }

  /**
   * main: randomizeLabels returns -1 unless there are exactly two arguments,
   * but main discards that status and exits 0; the output volume is written
   * only with two arguments. The volume read is None when the reader throws,
   * and outputWrites says whether the writer succeeds; main catches either
   * exception and exits -1 with nothing written.
   */
  method RandomizeMain(argc: int, input: Option<seq<int>>, randomDilate: (int, seq<bool>) -> seq<bool>, coin: nat -> real,
                       outputWrites: bool)
    returns (exitCode: int, written: Option<seq<int>>)
    requires SizePreserving(randomDilate)
    ensures argc != 3 ==> exitCode == 0 && written == None
    ensures argc == 3 && (input.None? || !outputWrites) ==> exitCode == -1 && written == None
    ensures argc == 3 && input.Some? && outputWrites ==>
      exitCode == 0 && written == Some(Randomized(input.value, randomDilate, coin))
  {
    if argc != 3 {
      return 0, None;
    }
    if input.None? {
      return -1, None;
    }
    var out := RandomizeLabels(input.value, randomDilate, coin);
    if !outputWrites {
      return -1, None;
    }
    return 0, Some(out[..]);
  }
}
