/**
 * The bookkeeping around rank aggregation: reading the metric values a
 * validation program wrote, pairing submission files with ground-truth files
 * by subject key, the per-entry metric names and ranking directions, and the
 * table of competition weights.
 *
 * Python's float() is a parameter (`toFloat`, None where it raises); its
 * results are the three kinds of float value the code tells apart. Which
 * entries are files and what the directories list are given as inputs.
 */
module RankWeights {
  import opened Wrappers
  import opened Text
  import ValidationReport

  /** A Python float as getMetricValues sees it. */
  datatype Value = Number(r: real) | Infinite(negative: bool) | NaN

  datatype PyError = ValueError | IndexError

  // ---------------------------------------------------------------------------
  // getMetricValues

  /** What one line of a metric file contributes: a value for all labels, or a value for one position. */
  datatype Entry = Whole(value: Value) | At(index: int, value: Value)

  /**
   * One line: `name, value = line.split('=')`, the item between "(" and the
   * first ",", the value with infinity replaced by NaN, and then either the
   * whole result (an item without "_") or position int(suffix) - 1.
   */
  function ParseLine(line: string, toFloat: string -> Option<Value>): (r: Result<Entry, PyError>)
    ensures r.Ok? ==> !r.value.value.Infinite?
  {
    var parts := Split(line, '=');
    if |parts| != 2 then Err(ValueError)
    else
      var halves := Split(parts[0], '(');
      if |halves| < 2 then Err(IndexError)
      else
        var item := Split(halves[1], ',')[0];
        match toFloat(parts[1])
        case None => Err(ValueError)
        case Some(x) =>
          var v := if x.Infinite? then NaN else x;
          var pieces := Split(item, '_');
          if |pieces| < 2 then Ok(Whole(v))
          else match ParseInt(pieces[1])
            case None => Err(ValueError)
            case Some(k) => Ok(At(k - 1, v))
  }

  /** Python accepts list indices from -n to n - 1. */
  predicate InRange(index: int, n: nat)
  {
    -(n as int) <= index < n
  }

  /** The element a Python index denotes: negative indices count from the end. */
  function Slot(index: int, n: nat): int
  {
    if index < 0 then index + n else index
  }

  /** `metrics[index] = v`: None where Python raises IndexError. */
  function Store(metrics: seq<Value>, index: int, v: Value): (r: Option<seq<Value>>)
    ensures r.Some? <==> InRange(index, |metrics|)
    ensures r.Some? ==>
      |r.value| == |metrics| && 0 <= Slot(index, |metrics|) < |metrics| &&
      r.value[Slot(index, |metrics|)] == v &&
      forall j :: 0 <= j < |metrics| && j != Slot(index, |metrics|) ==> r.value[j] == metrics[j]
  {
    if InRange(index, |metrics|) then Some(metrics[Slot(index, |metrics|) := v]) else None
  }

  /** The result of reading the lines into metrics, line by line. */
  function Fold(lines: seq<string>, metrics: seq<Value>, toFloat: string -> Option<Value>): Result<seq<Value>, PyError>
  {
    if lines == [] then Ok(metrics)
    else match ParseLine(lines[0], toFloat)
      case Err(e) => Err(e)
      case Ok(Whole(v)) => Ok([v])
      case Ok(At(index, v)) =>
        match Store(metrics, index, v)
        case None => Err(IndexError)
        case Some(m) => Fold(lines[1..], m, toFloat)
  }

  /** `[np.nan] * n` */
  function Nans(n: nat): seq<Value>
  {
    seq(n, _ => NaN)
  }

  /**
   * getMetricValues: start from numLabels NaNs and store each line's value at
   * its position; a line for all labels ends the reading with that value alone.
   */
  method GetMetricValues(lines: seq<string>, numLabels: nat, toFloat: string -> Option<Value>) returns (r: Result<seq<Value>, PyError>)
    ensures r == Fold(lines, Nans(numLabels), toFloat)
  {
    var metrics := Nans(numLabels);
    var i := 0;
    while i < |lines|
      invariant 0 <= i <= |lines|
      invariant Fold(lines, Nans(numLabels), toFloat) == Fold(lines[i..], metrics, toFloat)
    {
      FoldStep(lines, i, metrics, toFloat);
      var e := ParseLine(lines[i], toFloat);
      if e.Err? {
        return Err(e.error);
      }
      if e.value.Whole? {
        return Ok([e.value.value]);
      }
      if !InRange(e.value.index, |metrics|) {
        return Err(IndexError);
      }
      metrics := metrics[Slot(e.value.index, |metrics|) := e.value.value];
      i := i + 1;
    }
    assert lines[i..] == [];
    return Ok(metrics);
  }

  /** Reading from line i on: the outcome of line i, then the lines after it. */
  lemma FoldStep(lines: seq<string>, i: nat, metrics: seq<Value>, toFloat: string -> Option<Value>)
    requires i < |lines|
    ensures Fold(lines[i..], metrics, toFloat) ==
      match ParseLine(lines[i], toFloat)
      case Err(e) => Err(e)
      case Ok(Whole(v)) => Ok([v])
      case Ok(At(index, v)) =>
        if InRange(index, |metrics|) then Fold(lines[i + 1..], metrics[Slot(index, |metrics|) := v], toFloat)
        else Err(IndexError)
  {
    assert lines[i..][1..] == lines[i + 1..];
  }

  /** The line stores its value at position j of a list of length n. */
  predicate Writes(line: string, n: nat, j: int, toFloat: string -> Option<Value>)
  {
    var e := ParseLine(line, toFloat);
    e.Ok? && e.value.At? && InRange(e.value.index, n) && Slot(e.value.index, n) == j
  }

  /** Every line names a position that exists in a list of length n. */
  predicate AllIndexed(lines: seq<string>, n: nat, toFloat: string -> Option<Value>)
  {
    forall i :: 0 <= i < |lines| ==>
      ParseLine(lines[i], toFloat).Ok? && ParseLine(lines[i], toFloat).value.At? &&
      InRange(ParseLine(lines[i], toFloat).value.index, n)
  }

  /**
   * When every line names a position, the result keeps the length, a position
   * no line names keeps its starting value (NaN for getMetricValues), and a
   * named position holds the value of the last line naming it.
   */
  lemma {:induction false} IndexedLinesFill(lines: seq<string>, metrics: seq<Value>, toFloat: string -> Option<Value>)
    requires AllIndexed(lines, |metrics|, toFloat)
    ensures Fold(lines, metrics, toFloat).Ok?
    ensures |Fold(lines, metrics, toFloat).value| == |metrics|
    ensures forall j :: 0 <= j < |metrics| && (forall i :: 0 <= i < |lines| ==> !Writes(lines[i], |metrics|, j, toFloat)) ==>
      Fold(lines, metrics, toFloat).value[j] == metrics[j]
  {
    if lines != [] {
      var rest := lines[1..];
      var m := FoldFirst(lines, metrics, toFloat);
      IndexedLinesFill(rest, m, toFloat);
      var r := Fold(lines, metrics, toFloat).value;
      forall j | 0 <= j < |metrics| && (forall i :: 0 <= i < |lines| ==> !Writes(lines[i], |metrics|, j, toFloat))
        ensures r[j] == metrics[j]
      {
        assert !Writes(lines[0], |metrics|, j, toFloat);
        forall i | 0 <= i < |rest|
          ensures !Writes(rest[i], |m|, j, toFloat)
        {
          assert rest[i] == lines[i + 1];
        }
      }
    }
  }

  /** A position named by a line, and by no later line, holds that line's value. */
  lemma IndexedLinesLastWins(lines: seq<string>, metrics: seq<Value>, toFloat: string -> Option<Value>)
    requires AllIndexed(lines, |metrics|, toFloat)
    ensures Fold(lines, metrics, toFloat).Ok? && |Fold(lines, metrics, toFloat).value| == |metrics|
    ensures forall i, j ::
      (0 <= i < |lines| && 0 <= j < |metrics| && Writes(lines[i], |metrics|, j, toFloat) &&
       forall k :: i < k < |lines| ==> !Writes(lines[k], |metrics|, j, toFloat)) ==>
      Fold(lines, metrics, toFloat).value[j] == ParseLine(lines[i], toFloat).value.value
  {
    IndexedLinesFill(lines, metrics, toFloat);
    forall i, j | 0 <= i < |lines| && 0 <= j < |metrics| && Writes(lines[i], |metrics|, j, toFloat) &&
      (forall k :: i < k < |lines| ==> !Writes(lines[k], |metrics|, j, toFloat))
      ensures Fold(lines, metrics, toFloat).value[j] == ParseLine(lines[i], toFloat).value.value
    {
      LastWinsAt(lines, metrics, toFloat, i, j);
    }
  }

  /** The induction behind IndexedLinesLastWins, for one line i and one position j. */
  lemma {:induction false} LastWinsAt(lines: seq<string>, metrics: seq<Value>, toFloat: string -> Option<Value>, i: nat, j: nat)
    requires AllIndexed(lines, |metrics|, toFloat)
    requires i < |lines| && j < |metrics| && Writes(lines[i], |metrics|, j, toFloat)
    requires forall k :: i < k < |lines| ==> !Writes(lines[k], |metrics|, j, toFloat)
    ensures Fold(lines, metrics, toFloat).Ok? && |Fold(lines, metrics, toFloat).value| == |metrics|
    ensures Fold(lines, metrics, toFloat).value[j] == ParseLine(lines[i], toFloat).value.value
  {
    IndexedLinesFill(lines, metrics, toFloat);
    var rest := lines[1..];
    var m := FoldFirst(lines, metrics, toFloat);
    if i == 0 {
      forall k | 0 <= k < |rest|
        ensures !Writes(rest[k], |m|, j, toFloat)
      {
        assert rest[k] == lines[k + 1];
      }
      IndexedLinesFill(rest, m, toFloat);
    } else {
      assert lines[i] == rest[i - 1];
      forall k | i - 1 < k < |rest|
        ensures !Writes(rest[k], |m|, j, toFloat)
      {
        assert rest[k] == lines[k + 1];
      }
      LastWinsAt(rest, m, toFloat, i - 1, j);
    }
  }

  /** The first line stores its value; the remaining lines then name positions of the updated list. */
  lemma FoldFirst(lines: seq<string>, metrics: seq<Value>, toFloat: string -> Option<Value>) returns (m: seq<Value>)
    requires lines != [] && AllIndexed(lines, |metrics|, toFloat)
    ensures var e := ParseLine(lines[0], toFloat).value; Store(metrics, e.index, e.value) == Some(m)
    ensures |m| == |metrics| && AllIndexed(lines[1..], |m|, toFloat)
    ensures Fold(lines, metrics, toFloat) == Fold(lines[1..], m, toFloat)
  {
    var e := ParseLine(lines[0], toFloat).value;
    m := Store(metrics, e.index, e.value).value;
    var rest := lines[1..];
    forall i | 0 <= i < |rest|
      ensures ParseLine(rest[i], toFloat).Ok? && ParseLine(rest[i], toFloat).value.At? &&
        InRange(ParseLine(rest[i], toFloat).value.index, |m|)
    {
      assert rest[i] == lines[i + 1];
    }
  }

  /**
   * A line for all labels (an item without "_", such as Kappa's) makes the
   * result that value alone, whatever follows it.
   */
  lemma {:induction false} WholeLineEndsReading(lines: seq<string>, metrics: seq<Value>, toFloat: string -> Option<Value>, i: nat, v: Value)
    requires i < |lines| && ParseLine(lines[i], toFloat) == Ok(Whole(v))
    requires AllIndexed(lines[..i], |metrics|, toFloat)
    ensures Fold(lines, metrics, toFloat) == Ok([v])
    decreases i
  {
    if i > 0 {
      assert lines[..i][0] == lines[0];
      var e := ParseLine(lines[0], toFloat).value;
      var m := Store(metrics, e.index, e.value).value;
      var rest := lines[1..];
      assert rest[i - 1] == lines[i];
      var pre := rest[..i - 1];
      assert AllIndexed(pre, |m|, toFloat) by {
        forall k | 0 <= k < |pre|
          ensures ParseLine(pre[k], toFloat).Ok? && ParseLine(pre[k], toFloat).value.At? &&
            InRange(ParseLine(pre[k], toFloat).value.index, |m|)
        {
          assert pre[k] == lines[..i][k + 1];
        }
      }
      WholeLineEndsReading(rest, m, toFloat, i - 1, v);
    }
  }

  /** The value getMetricValues keeps for a float: infinity becomes NaN. */
  function Tagged(x: Value): Value
  {
    if x.Infinite? then NaN else x
  }

  /** ParseLine on a line whose pieces are known, for an item with a "_<number>" suffix. */
  lemma ParseIndexedLine(line: string, left: string, right: string, inner: string, item: string, k: int, x: Value, toFloat: string -> Option<Value>)
    requires Split(line, '=') == [left, right] && |Split(left, '(')| == 2 && Split(left, '(')[1] == inner
    requires Split(inner, ',')[0] == item && |Split(item, '_')| == 2 && ParseInt(Split(item, '_')[1]) == Some(k)
    requires toFloat(right) == Some(x)
    ensures ParseLine(line, toFloat) == Ok(At(k - 1, Tagged(x)))
  {
  }

  /** ParseLine on a line whose pieces are known, for an item without "_". */
  lemma ParseWholeLine(line: string, left: string, right: string, inner: string, item: string, x: Value, toFloat: string -> Option<Value>)
    requires Split(line, '=') == [left, right] && |Split(left, '(')| == 2 && Split(left, '(')[1] == inner
    requires Split(inner, ',')[0] == item && |Split(item, '_')| == 1
    requires toFloat(right) == Some(x)
    ensures ParseLine(line, toFloat) == Ok(Whole(Tagged(x)))
  {
  }

  /** The pieces of a printed result line, followed by its line break. */
  lemma ResultLineShape(name: string, k: nat, v: string)
    ensures var d := NatToString(k);
      ValidationReport.ResultLine(name, k, v) + "\n" ==
        (name + "(" + (("A" + "_" + d) + "," + (" B_" + d + ") "))) + "=" + (" " + v + "\n")
  {
  }

  /** Where the separators of a printed result line for label digits d fall. */
  lemma IndexedItemPieces(name: string, d: string, v: string)
    requires '=' !in name && '(' !in name && '=' !in v
    requires '=' !in d && '(' !in d && ',' !in d
    ensures var item := "A" + "_" + d;
      var rest := " B_" + d + ") ";
      var inner := item + "," + rest;
      '=' !in name + "(" + inner && '=' !in " " + v + "\n" && '(' !in inner && ',' !in item && ',' !in rest
  {
  }

  /**
   * A line `Name(A_k, B_k) = v`, as validateLabelImages prints it, stands for
   * position k - 1.
   */
  lemma ResultLineParses(name: string, k: nat, v: string, x: Value, toFloat: string -> Option<Value>)
    requires k >= 1
    requires '=' !in name && '(' !in name && '=' !in v
    requires toFloat(" " + v + "\n") == Some(x)
    ensures ParseLine(ValidationReport.ResultLine(name, k, v) + "\n", toFloat) == Ok(At(k - 1, Tagged(x)))
  {
    var d := NatToString(k);
    assert '=' !in d && '(' !in d && ',' !in d && '_' !in d;
    var item := "A" + "_" + d;
    var rest := " B_" + d + ") ";
    var inner := item + "," + rest;
    var left := name + "(" + inner;
    var right := " " + v + "\n";
    ResultLineShape(name, k, v);
    IndexedItemPieces(name, d, v);
    SplitTwo(left, right, '=');
    SplitTwo(name, inner, '(');
    SplitTwo(item, rest, ',');
    SplitTwo("A", d, '_');
    ParsePrinted(k);
    ParseIndexedLine(ValidationReport.ResultLine(name, k, v) + "\n", left, right, inner, item, k, x, toFloat);
  }

  /**
   * int() drops the blanks around an index: a line such as `Dice(A_1 , B_1) = v`,
   * whose index text is "1 ", stands for position 0.
   */
  lemma BlankIndexParses(name: string, a: string, w1: string, d: string, w3: string, rest: string, right: string, line: string, x: Value, toFloat: string -> Option<Value>)
    requires '=' !in name && '(' !in name
    requires '=' !in a && '(' !in a && ',' !in a && '_' !in a
    requires '=' !in rest && '(' !in rest && ',' !in rest && '=' !in right
    requires forall k :: 0 <= k < |w1| ==> IsSpace(w1[k])
    requires forall k :: 0 <= k < |w3| ==> IsSpace(w3[k])
    requires IsDigits(d)
    requires line == name + ['('] + (a + ['_'] + (w1 + d + w3) + [','] + rest) + ['='] + right
    requires toFloat(right) == Some(x)
    ensures ParseLine(line, toFloat) == Ok(At(DigitsValue(d) - 1, Tagged(x)))
  {
    var idx := w1 + d + w3;
    ParseIntPadded(w1, d, w3);
    assert forall i :: 0 <= i < |idx| ==> IsSpace(idx[i]) || IsDigit(idx[i]) by {
      forall i | 0 <= i < |idx|
        ensures IsSpace(idx[i]) || IsDigit(idx[i])
      {
        if i < |w1| {
          assert idx[i] == w1[i];
        } else if i < |w1| + |d| {
          assert idx[i] == d[i - |w1|];
        } else {
          assert idx[i] == w3[i - |w1| - |d|];
        }
      }
    }
    IndexedLineParses(name, a, idx, rest, right, line, DigitsValue(d), x, toFloat);
  }

  /** ParseLine on a line `name(a_idx,rest=right` whose pieces hold none of its separators. */
  lemma IndexedLineParses(name: string, a: string, idx: string, rest: string, right: string, line: string, k: int, x: Value, toFloat: string -> Option<Value>)
    requires '=' !in name && '(' !in name
    requires '=' !in a && '(' !in a && ',' !in a && '_' !in a
    requires '=' !in idx && '(' !in idx && ',' !in idx && '_' !in idx
    requires '=' !in rest && '(' !in rest && ',' !in rest && '=' !in right
    requires line == name + ['('] + (a + ['_'] + idx + [','] + rest) + ['='] + right
    requires ParseInt(idx) == Some(k) && toFloat(right) == Some(x)
    ensures ParseLine(line, toFloat) == Ok(At(k - 1, Tagged(x)))
  {
    var item := a + ['_'] + idx;
    var inner := item + [','] + rest;
    var left := name + ['('] + inner;
    IndexedLinePieces(name, a, idx, rest, right);
    ParseIndexedLine(line, left, right, inner, item, k, x, toFloat);
  }

  /** Where the separators of a line `name(a_idx,rest=right` fall, when its pieces hold none of them. */
  lemma IndexedLinePieces(name: string, a: string, idx: string, rest: string, right: string)
    requires '=' !in name && '(' !in name
    requires '=' !in a && '(' !in a && ',' !in a && '_' !in a
    requires '=' !in idx && '(' !in idx && ',' !in idx && '_' !in idx
    requires '=' !in rest && '(' !in rest && ',' !in rest && '=' !in right
    ensures var item := a + ['_'] + idx;
      var inner := item + [','] + rest;
      var left := name + ['('] + inner;
      Split(left + ['='] + right, '=') == [left, right] && Split(left, '(') == [name, inner] &&
      Split(inner, ',') == [item, rest] && Split(item, '_') == [a, idx]
  {
    var item := a + ['_'] + idx;
    var inner := item + [','] + rest;
    var left := name + ['('] + inner;
    SplitTwo(a, idx, '_');
    SplitTwo(item, rest, ',');
    SplitTwo(name, inner, '(');
    SplitTwo(left, right, '=');
  }

  /** The fixed part of a single-value line: item "A", which has no "_". */
  lemma SingleItemPieces()
    ensures '=' !in "A,B) " && '(' !in "A,B) "
    ensures Split("A,B) ", ',') == ["A", "B) "]
    ensures Split("A", '_') == ["A"]
  {
    assert "A,B) " == "A" + "," + "B) ";
    SplitTwo("A", "B) ", ',');
  }

  /**
   * A line `Name(A,B) = v`, the form of the kappa line of validateLabelImages
   * and of the single-value validation programs, stands for all labels at once.
   */
  lemma SingleValueLineParses(name: string, v: string, x: Value, toFloat: string -> Option<Value>)
    requires '=' !in name && '(' !in name && '=' !in v
    requires toFloat(" " + v + "\n") == Some(x)
    ensures ParseLine(name + "(A,B) = " + v + "\n", toFloat) == Ok(Whole(Tagged(x)))
  {
    var right := " " + v + "\n";
    var left := name + "(" + "A,B) ";
    assert name + "(A,B) = " + v + "\n" == left + "=" + right;
    SingleItemPieces();
    SplitTwo(left, right, '=');
    SplitTwo(name, "A,B) ", '(');
    ParseWholeLine(name + "(A,B) = " + v + "\n", left, right, "A,B) ", "A", x, toFloat);
  }

  /** Reading one printed result line for label k into n NaNs sets position k - 1 alone. */
  lemma ResultLineLandsAt(name: string, k: nat, v: string, x: Value, n: nat, toFloat: string -> Option<Value>)
    requires 1 <= k <= n
    requires '=' !in name && '(' !in name && '=' !in v
    requires toFloat(" " + v + "\n") == Some(x)
    ensures Fold([ValidationReport.ResultLine(name, k, v) + "\n"], Nans(n), toFloat) == Ok(Nans(n)[k - 1 := Tagged(x)])
  {
    ResultLineParses(name, k, v, x, toFloat);
  }

  // ---------------------------------------------------------------------------
  // getSubjectKey and the pairing of submissions with ground truth

  /** os.path.splitext(f)[0] for a name without "/": a leading run of dots starts no extension. */
  function StripExtension(f: string): (root: string)
    ensures root <= f
  {
    var d := LastIndex(f, '.');
    if d > 0 && exists j :: 0 <= j < d && f[j] != '.' then f[..d] else f
  }

  /** getSubjectKey: the file's basename without its extension, up to the first "_". */
  function SubjectKey(path: string): (key: string)
    ensures key <= Basename(path) && '_' !in key
  {
    UpTo(StripExtension(Basename(path)), '_')
  }

  /** The key of "<dir>/<subject>_<rest>" is the subject, whatever the directory and the extensions. */
  lemma SubjectKeyOf(dir: string, subject: string, rest: string)
    requires '/' !in subject && '/' !in rest && '_' !in subject && '.' !in subject
    ensures SubjectKey(PathJoin(dir, subject + "_" + rest)) == subject
  {
    var f := subject + "_" + rest;
    assert '/' !in f;
    BasenameOfJoin(dir, f);
    StripKeepsSubject(subject, rest);
    var root := StripExtension(f);
    assert root == subject + root[|subject|..];
    FirstIndexAfterFree(subject, root[|subject|..], '_');
  }

  /** The extension of "<subject>_<rest>" starts after the "_" when the subject has no dot. */
  lemma StripKeepsSubject(subject: string, rest: string)
    requires '.' !in subject
    ensures var root := StripExtension(subject + "_" + rest);
      |root| > |subject| && root[..|subject|] == subject && root[|subject|] == '_'
  {
    var f := subject + "_" + rest;
    var d := LastIndex(f, '.');
    if d > 0 && exists j :: 0 <= j < d && f[j] != '.' {
      assert f[d] == '.';
      assert d > |subject|;
    }
  }

  /** `os.path.basename(gt).find(getSubjectKey(f)) >= 0`: the key occurs anywhere in the ground truth's name. */
  predicate KeyFound(gt: string, f: string)
  {
    Contains(Basename(gt), SubjectKey(f))
  }

  function FoundIn(gt: string): string -> bool
  {
    f => KeyFound(gt, f)
  }

  /** The last of the files satisfying matches, if any. */
  function LastMatch(files: seq<string>, matches: string -> bool): Option<string>
  {
    if files == [] then None
    else if matches(files[|files| - 1]) then Some(files[|files| - 1])
    else LastMatch(files[..|files| - 1], matches)
  }

  /** Taking one more file: it wins when it matches. */
  lemma LastMatchSnoc(files: seq<string>, i: nat, matches: string -> bool)
    requires i < |files|
    ensures LastMatch(files[..i + 1], matches) == if matches(files[i]) then Some(files[i]) else LastMatch(files[..i], matches)
  {
    assert files[..i + 1][..i] == files[..i];
  }

  /** LastMatch finds a file exactly when one matches, and no later file matches. */
  lemma {:induction false} LastMatchSpec(files: seq<string>, matches: string -> bool)
    ensures LastMatch(files, matches).Some? <==> exists i :: 0 <= i < |files| && matches(files[i])
    ensures LastMatch(files, matches).Some? ==>
      exists i :: 0 <= i < |files| && files[i] == LastMatch(files, matches).value && matches(files[i]) &&
        forall j :: i < j < |files| ==> !matches(files[j])
  {
    if files != [] {
      var init := files[..|files| - 1];
      LastMatchSpec(init, matches);
      if !matches(files[|files| - 1]) {
        if exists i :: 0 <= i < |files| && matches(files[i]) {
          var i :| 0 <= i < |files| && matches(files[i]);
          assert init[i] == files[i];
        }
        if LastMatch(files, matches).Some? {
          var i :| 0 <= i < |init| && init[i] == LastMatch(init, matches).value && matches(init[i]) &&
            forall j :: i < j < |init| ==> !matches(init[j]);
          assert files[i] == init[i];
          forall j | i < j < |files|
            ensures !matches(files[j])
          {
            if j < |init| {
              assert files[j] == init[j];
            }
          }
        }
      }
    }
  }

  /**
   * The search in getMetricTable and getFinalRank as written: without a
   * break, so the last file whose key occurs in the ground truth's name wins.
   */
  method FindSubmissionAsWritten(gt: string, files: seq<string>) returns (subm: Option<string>)
    ensures subm == LastMatch(files, FoundIn(gt))
  {
    subm := None;
    var i := 0;
    while i < |files|
      invariant 0 <= i <= |files|
      invariant subm == LastMatch(files[..i], FoundIn(gt))
    {
      LastMatchSnoc(files, i, FoundIn(gt));
      if KeyFound(gt, files[i]) {
        subm := Some(files[i]);
      }
      i := i + 1;
    }
    assert files[..i] == files;
  }

  /** A ground truth's subject: its basename up to the first "." and then up to the first "_". */
  function GroundTruthKey(gt: string): (key: string)
    ensures '_' !in key && '.' !in key
  {
    UpTo(UpTo(Basename(gt), '.'), '_')
  }

  function KeyIs(gt: string): string -> bool
  {
    f => SubjectKey(f) == GroundTruthKey(gt)
  }

  /** The search with the key compared whole: the last file whose key is the ground truth's subject. */
  method FindSubmission(gt: string, files: seq<string>) returns (subm: Option<string>)
    ensures subm == LastMatch(files, KeyIs(gt))
    ensures subm.Some? ==> subm.value in files && SubjectKey(subm.value) == GroundTruthKey(gt)
    ensures subm.None? <==> forall f :: f in files ==> SubjectKey(f) != GroundTruthKey(gt)
  {
    subm := None;
    var i := 0;
    while i < |files|
      invariant 0 <= i <= |files|
      invariant subm == LastMatch(files[..i], KeyIs(gt))
    {
      LastMatchSnoc(files, i, KeyIs(gt));
      if SubjectKey(files[i]) == GroundTruthKey(gt) {
        subm := Some(files[i]);
      }
      i := i + 1;
    }
    assert files[..i] == files;
    LastMatchSpec(files, KeyIs(gt));
  }

  /** The ground-truth key of "<dir>/<subject>.<ext>" is the subject. */
  lemma GroundTruthKeyOf(dir: string, subject: string, ext: string)
    requires '/' !in subject && '/' !in ext && '_' !in subject && '.' !in subject
    ensures GroundTruthKey(PathJoin(dir, subject + "." + ext)) == subject
  {
    var name := subject + "." + ext;
    assert '/' !in name;
    BasenameOfJoin(dir, name);
    var r := UpTo(name, '.');
    assert name[|subject|] == '.';
    assert r == subject;
  }

  /** The search as written ends on the file of subject a, whose key occurs in "a0.<ext>". */
  lemma AsWrittenEndsOnPrefix(gt: string, a: string, files: seq<string>)
    requires |files| == 2 && Basename(gt) == a + "0" + "." + "nii.gz" && SubjectKey(files[1]) == a
    ensures LastMatch(files, FoundIn(gt)) == Some(files[1])
  {
    var name := Basename(gt);
    assert name[..|a|] == a;
    ContainsAt(name, a, 0);
  }

  /** The whole-key search passes over subject a and ends on subject a + "0". */
  lemma WholeKeyEndsOnSubject(gt: string, a: string, files: seq<string>)
    requires |files| == 2 && GroundTruthKey(gt) == a + "0"
    requires SubjectKey(files[0]) == a + "0" && SubjectKey(files[1]) == a
    ensures LastMatch(files, KeyIs(gt)) == Some(files[0])
  {
    assert |a| != |a + "0"|;
    assert files[..1] == [files[0]];
    assert files[..1][..0] == [];
  }

  /**
   * The substring test pairs a ground truth of subject a + "0" (case10) with
   * the submission of subject a (case1): a occurs in the ground truth's name,
   * and a + "_" sorts after a + "0_", so the search without a break ends on
   * subject a's file. The whole-key search picks subject a + "0"'s file.
   */
  lemma FindSubmissionAsWrittenPicksPrefixSubject(gtDir: string, subDir: string, a: string, rest: string)
    requires '/' !in a && '_' !in a && '.' !in a && '/' !in rest
    ensures var gt := PathJoin(gtDir, a + "0" + "." + "nii.gz");
      var files := [PathJoin(subDir, (a + "0") + "_" + rest), PathJoin(subDir, a + "_" + rest)];
      LastMatch(files, FoundIn(gt)) == Some(files[1]) &&
      SubjectKey(files[1]) != GroundTruthKey(gt) &&
      LastMatch(files, KeyIs(gt)) == Some(files[0])
  {
    var subject := a + "0";
    var name := subject + "." + "nii.gz";
    var gt := PathJoin(gtDir, name);
    var files := [PathJoin(subDir, subject + "_" + rest), PathJoin(subDir, a + "_" + rest)];
    assert '/' !in name && '/' !in subject && '_' !in subject && '.' !in subject;
    BasenameOfJoin(gtDir, name);
    GroundTruthKeyOf(gtDir, subject, "nii.gz");
    SubjectKeyOf(subDir, subject, rest);
    SubjectKeyOf(subDir, a, rest);
    AsWrittenEndsOnPrefix(gt, a, files);
    WholeKeyEndsOnSubject(gt, a, files);
    assert |a| != |subject|;
  }

  /** Selection in the main script: the files (not directories) whose key occurs in some complete ground truth's name. */
  function Selected(entries: seq<string>, gts: seq<string>, isFile: string -> bool): seq<string>
  {
    if entries == [] then []
    else
      var f := entries[|entries| - 1];
      Selected(entries[..|entries| - 1], gts, isFile) +
        (if isFile(f) && exists t :: t in gts && Contains(Basename(t), SubjectKey(f)) then [f] else [])
  }

  /** An entry is selected exactly when it is a file whose key occurs in a ground-truth name. */
  lemma {:induction false} SelectedSpec(entries: seq<string>, gts: seq<string>, isFile: string -> bool)
    ensures forall f :: f in Selected(entries, gts, isFile) <==>
      f in entries && isFile(f) && exists t :: t in gts && KeyFound(t, f)
  {
    if entries != [] {
      SelectedSpec(entries[..|entries| - 1], gts, isFile);
      assert entries == entries[..|entries| - 1] + [entries[|entries| - 1]];
    }
  }

  /** The inner loop: does any ground-truth basename contain the key? Stops at the first that does. */
  method KeyInGroundTruth(q: string, gts: seq<string>) returns (found: bool)
    ensures found <==> exists t :: t in gts && Contains(Basename(t), q)
  {
    found := false;
    var k := 0;
    while k < |gts|
      invariant 0 <= k <= |gts|
      invariant !exists t :: t in gts[..k] && Contains(Basename(t), q)
    {
      if Contains(Basename(gts[k]), q) {
        return true;
      }
      assert gts[..k + 1] == gts[..k] + [gts[k]];
      k := k + 1;
    }
    assert gts[..k] == gts;
  }

  /**
   * The per-rater selection loop: keep each file whose key occurs in a ground
   * truth's name (the inner search breaks at the first); none kept raises.
   */
  method SelectSubmissions(p: string, entries: seq<string>, gts: seq<string>, isFile: string -> bool) returns (r: Result<seq<string>, string>)
    ensures Selected(entries, gts, isFile) != [] ==> r == Ok(Selected(entries, gts, isFile))
    ensures Selected(entries, gts, isFile) == [] ==> r == Err("Zero submissions found in " + p)
  {
    var submissionFiles := [];
    var i := 0;
    while i < |entries|
      invariant 0 <= i <= |entries|
      invariant submissionFiles == Selected(entries[..i], gts, isFile)
    {
      var f := entries[i];
      assert entries[..i + 1][..i] == entries[..i];
      if isFile(f) {
        var found := KeyInGroundTruth(SubjectKey(f), gts);
        if found {
          submissionFiles := submissionFiles + [f];
        }
      }
      i := i + 1;
    }
    assert entries[..i] == entries;
    if submissionFiles == [] {
      return Err("Zero submissions found in " + p);
    }
    return Ok(submissionFiles);
  }

  // ---------------------------------------------------------------------------
  // The metric binaries, their ranking directions and entry names

  /** Python's s[n:]. */
  function Drop(s: string, n: nat): (r: string)
    ensures |r| == if n <= |s| then |s| - n else 0
  {
    if n <= |s| then s[n..] else ""
  }

  const BinaryPrefix: string := "ValidateImage"

  /** The metric a binary computes: its basename after "ValidateImage". */
  function MetricName(binary: string): string
  {
    Drop(Basename(binary), |BinaryPrefix|)
  }

  /** [x] * n */
  function Repeat(x: int, n: nat): (r: seq<int>)
    ensures |r| == n && forall i :: 0 <= i < n ==> r[i] == x
  {
    seq(n, _ => x)
  }

  /** The ranking directions the code as written gives one binary: it tests the whole path. */
  function OrderEntriesAsWritten(binary: string, numObjects: nat): seq<int>
  {
    if Contains(binary, "Kappa") then [1]
    else if Contains(binary, "Dist") then Repeat(-1, numObjects)
    else Repeat(1, numObjects)
  }

  function MetricOrderAsWritten(binaries: seq<string>, numObjects: nat): seq<int>
  {
    if binaries == [] then []
    else MetricOrderAsWritten(binaries[..|binaries| - 1], numObjects) + OrderEntriesAsWritten(binaries[|binaries| - 1], numObjects)
  }

  /**
   * The ranking directions of one binary, tested on the metric's name as the
   * entry names are: one +1 for kappa, -1 per object for a distance (smaller
   * is better), +1 per object otherwise.
   */
  function OrderEntries(binary: string, numObjects: nat): seq<int>
  {
    var m := MetricName(binary);
    if Contains(m, "Kappa") then [1]
    else if Contains(m, "Dist") then Repeat(-1, numObjects)
    else Repeat(1, numObjects)
  }

  function MetricOrder(binaries: seq<string>, numObjects: nat): seq<int>
  {
    if binaries == [] then []
    else MetricOrder(binaries[..|binaries| - 1], numObjects) + OrderEntries(binaries[|binaries| - 1], numObjects)
  }

  /** The entry names of one binary: "<m>_all" for kappa, otherwise "<m>_object<j+1>" per object. */
  function NameEntries(binary: string, numObjects: nat): seq<string>
  {
    var m := MetricName(binary);
    if Contains(m, "Kappa") then [m + "_all"] else ObjectNames(m, numObjects)
  }

  /** "<m>_object1" up to "<m>_object<n>". */
  function ObjectNames(m: string, n: nat): seq<string>
  {
    if n == 0 then [] else ObjectNames(m, n - 1) + [m + "_object" + NatToString(n)]
  }

  function MetricNames(binaries: seq<string>, numObjects: nat): seq<string>
  {
    if binaries == [] then []
    else MetricNames(binaries[..|binaries| - 1], numObjects) + NameEntries(binaries[|binaries| - 1], numObjects)
  }

  /**
   * The metricOrder loop, corrected: the directions test the metric's name
   * (the binary's basename) where the source tests the whole path; the
   * as-written loop is MetricOrderAsWritten.
   */
  method BuildMetricOrder(binaries: seq<string>, numObjects: nat) returns (order: seq<int>)
    ensures order == MetricOrder(binaries, numObjects)
  {
    order := [];
    var i := 0;
    while i < |binaries|
      invariant 0 <= i <= |binaries|
      invariant order == MetricOrder(binaries[..i], numObjects)
    {
      assert binaries[..i + 1][..i] == binaries[..i];
      var m := MetricName(binaries[i]);
      if Contains(m, "Kappa") {
        order := order + [1];
      } else if Contains(m, "Dist") {
        order := order + Repeat(-1, numObjects);
      } else {
        order := order + Repeat(1, numObjects);
      }
      i := i + 1;
    }
    assert binaries[..i] == binaries;
  }

  /** The metricNames loop. */
  method BuildMetricNames(binaries: seq<string>, numObjects: nat) returns (names: seq<string>)
    ensures names == MetricNames(binaries, numObjects)
  {
    names := [];
    var i := 0;
    while i < |binaries|
      invariant 0 <= i <= |binaries|
      invariant names == MetricNames(binaries[..i], numObjects)
    {
      MetricNamesSnoc(binaries, i, numObjects);
      var m := MetricName(binaries[i]);
      if Contains(m, "Kappa") {
        names := names + [m + "_all"];
      } else {
        names := AppendObjectNames(names, m, numObjects);
      }
      i := i + 1;
    }
    assert binaries[..i] == binaries;
  }

  /** The inner loop of metricNames: one name per object. */
  method AppendObjectNames(start: seq<string>, m: string, numObjects: nat) returns (names: seq<string>)
    ensures names == start + ObjectNames(m, numObjects)
  {
    names := start;
    var j := 0;
    while j < numObjects
      invariant 0 <= j <= numObjects
      invariant names == start + ObjectNames(m, j)
    {
      names := names + [m + "_object" + NatToString(j + 1)];
      j := j + 1;
    }
  }

  lemma MetricNamesSnoc(binaries: seq<string>, i: nat, numObjects: nat)
    requires i < |binaries|
    ensures MetricNames(binaries[..i + 1], numObjects) == MetricNames(binaries[..i], numObjects) + NameEntries(binaries[i], numObjects)
  {
    assert binaries[..i + 1][..i] == binaries[..i];
  }

  /** With the directions tested on the metric's name, there is one direction per entry name. */
  lemma {:induction false} OrderMatchesNames(binaries: seq<string>, numObjects: nat)
    ensures |MetricOrder(binaries, numObjects)| == |MetricNames(binaries, numObjects)|
  {
    if binaries != [] {
      OrderMatchesNames(binaries[..|binaries| - 1], numObjects);
      ObjectNamesAt(MetricName(binaries[|binaries| - 1]), numObjects);
    }
  }

  /**
   * The code as written tests "Kappa" and "Dist" on the whole path but the
   * names on the metric's name: with the binaries in a directory whose path
   * contains "Kappa" (say "/Kappa"), a Dice binary gets one direction for
   * its numObjects entry names.
   */
  lemma MetricOrderAsWrittenMisaligned(dir: string, m: string, numObjects: nat)
    requires Contains(dir, "Kappa") && '/' !in m && !Contains(m, "Kappa")
    ensures var binaries := [PathJoin(dir, BinaryPrefix + m)];
      |MetricOrderAsWritten(binaries, numObjects)| == 1 && |MetricNames(binaries, numObjects)| == numObjects
  {
    var b := PathJoin(dir, BinaryPrefix + m);
    MetricNameOfJoin(dir, m);
    ContainsJoined(dir, BinaryPrefix + m, "Kappa");
    ObjectNamesAt(m, numObjects);
    assert [b][..0] == [];
  }

  /** The metric of the binary "ValidateImage<m>" in any directory is m. */
  lemma MetricNameOfJoin(dir: string, m: string)
    requires '/' !in m
    ensures MetricName(PathJoin(dir, BinaryPrefix + m)) == m
    ensures var name := BinaryPrefix + m; |name| > 0 && name[0] != '/'
  {
    var name := BinaryPrefix + m;
    assert '/' !in name by {
      assert forall k :: 0 <= k < |BinaryPrefix| ==> name[k] == BinaryPrefix[k];
    }
    BasenameOfJoin(dir, name);
    assert name[|BinaryPrefix|..] == m;
  }

  /** Object j + 1 of a metric is named "<m>_object<j+1>". */
  lemma {:induction false} ObjectNamesAt(m: string, n: nat)
    ensures |ObjectNames(m, n)| == n
    ensures forall j :: 0 <= j < n ==> ObjectNames(m, n)[j] == m + "_object" + NatToString(j + 1)
  {
    if n > 0 {
      ObjectNamesAt(m, n - 1);
    }
  }

  // ---------------------------------------------------------------------------
  // Dropping Jaccard

  /** The position of the first x in s, where list.remove(x) removes it. */
  function IndexOf(s: seq<string>, x: string): (i: nat)
    requires x in s
    ensures i < |s| && s[i] == x && x !in s[..i]
  {
    if s[0] == x then 0
    else
      var i := 1 + IndexOf(s[1..], x);
      assert s[..i] == [s[0]] + s[1..][..i - 1];
      i
  }

  /** Jaccard is dropped when both Dice and Jaccard are present, since the two rank alike. */
  function DropJaccard(binaries: seq<string>, binaryPath: string): seq<string>
  {
    var dice := PathJoin(binaryPath, "ValidateImageDice");
    var jaccard := PathJoin(binaryPath, "ValidateImageJaccard");
    if dice in binaries && jaccard in binaries then
      var i := IndexOf(binaries, jaccard);
      binaries[..i] + binaries[i + 1..]
    else binaries
  }

  /**
   * With both present, exactly the first Jaccard entry goes, Dice stays and
   * the order is kept; otherwise the list is unchanged.
   */
  lemma DropJaccardSpec(binaries: seq<string>, binaryPath: string)
    ensures var dice := PathJoin(binaryPath, "ValidateImageDice");
      var jaccard := PathJoin(binaryPath, "ValidateImageJaccard");
      var r := DropJaccard(binaries, binaryPath);
      (dice in binaries && jaccard in binaries ==>
        multiset(r) == multiset(binaries) - multiset{jaccard} && dice in r &&
        exists i :: 0 <= i < |binaries| && binaries[i] == jaccard && jaccard !in binaries[..i] &&
          r == binaries[..i] + binaries[i + 1..]) &&
      (!(dice in binaries && jaccard in binaries) ==> r == binaries)
  {
    var dice := PathJoin(binaryPath, "ValidateImageDice");
    var jaccard := PathJoin(binaryPath, "ValidateImageJaccard");
    if dice in binaries && jaccard in binaries {
      var i := IndexOf(binaries, jaccard);
      var r := binaries[..i] + binaries[i + 1..];
      assert binaries == binaries[..i] + [jaccard] + binaries[i + 1..];
      assert multiset(r) == multiset(binaries) - multiset{jaccard} by {
        calc {
          multiset(binaries);
          multiset(binaries[..i]) + multiset{jaccard} + multiset(binaries[i + 1..]);
          multiset(r) + multiset{jaccard};
        }
      }
      DiceKept(binaryPath);
      assert multiset(r)[dice] == multiset(binaries)[dice];
    }
  }

  /** Dice and Jaccard are different entries of the same directory. */
  lemma DiceKept(binaryPath: string)
    ensures PathJoin(binaryPath, "ValidateImageDice") != PathJoin(binaryPath, "ValidateImageJaccard")
  {
    BasenameOfJoin(binaryPath, "ValidateImageDice");
    BasenameOfJoin(binaryPath, "ValidateImageJaccard");
    assert "ValidateImageDice"[13] != "ValidateImageJaccard"[13];
  }

  // ---------------------------------------------------------------------------
  // Competition weights

  /** The short metric IDs of the challenge. */
  const MetricIDs: map<string, string> := map[
    "ValidateImageAveDist" := "Adb",
    "ValidateImageDice" := "Dice",
    "ValidateImageHausdorffDist" := "Hdb",
    "ValidateImageJaccard" := "Jac",
    "ValidateImageKappa" := "Kap",
    "ValidateImagePPV" := "PPV",
    "ValidateImageSpecificity" := "Spec",
    "ValidateImageSensitivity" := "Sens"
  ]

  datatype Weight = Weight(title: string, weight: real)

  /**
   * The entry for one metric name: ID = short ID (or the name) + object
   * number, title "<name> (label <object>)" with "all" for kappa, weight =
   * average weight * direction.
   */
  function CompetitionEntry(metricName: string, average: real, order: int): Result<(string, Weight), PyError>
  {
    var nameObj := Split(metricName, '_');
    if |nameObj| < 2 then Err(IndexError)
    else
      var name := nameObj[0];
      var obj := Drop(nameObj[1], |"object"|);
      var binaryName := BinaryPrefix + name;
      var id := if binaryName in MetricIDs then MetricIDs[binaryName] + obj else name + obj;
      var shown := if obj == "" then "all" else obj;
      Ok((id, Weight(name + " (label " + shown + ")", average * order as real)))
  }

  /** The competition weights dictionary, entry by entry; a later entry with the same ID replaces an earlier one. */
  function CompetitionMap(names: seq<string>, weights: seq<real>, order: seq<int>): Result<map<string, Weight>, PyError>
    requires |weights| == |names|
  {
    if names == [] then Ok(map[])
    else
      var i := |names| - 1;
      match CompetitionMap(names[..i], weights[..i], order)
      case Err(e) => Err(e)
      case Ok(m) =>
        if i >= |order| then Err(IndexError)
        else match CompetitionEntry(names[i], weights[i], order[i])
          case Err(e) => Err(e)
          case Ok(entry) => Ok(m[entry.0 := entry.1])
  }

  /** The competitionWeights loop. */
  method CompetitionWeights(names: seq<string>, weights: seq<real>, order: seq<int>) returns (r: Result<map<string, Weight>, PyError>)
    requires |weights| == |names|
    ensures r == CompetitionMap(names, weights, order)
  {
    var table := map[];
    var i := 0;
    while i < |names|
      invariant 0 <= i <= |names|
      invariant CompetitionMap(names[..i], weights[..i], order) == Ok(table)
    {
      assert names[..i + 1][..i] == names[..i] && weights[..i + 1][..i] == weights[..i];
      if i >= |order| {
        CompetitionFailureSticks(names, weights, order, i + 1);
        return Err(IndexError);
      }
      var entry := CompetitionEntry(names[i], weights[i], order[i]);
      if entry.Err? {
        CompetitionFailureSticks(names, weights, order, i + 1);
        return Err(entry.error);
      }
      table := table[entry.value.0 := entry.value.1];
      i := i + 1;
    }
    assert names[..i] == names && weights[..i] == weights;
    return Ok(table);
  }

  lemma {:induction false} CompetitionFailureSticks(names: seq<string>, weights: seq<real>, order: seq<int>, n: nat)
    requires |weights| == |names| && n <= |names|
    requires CompetitionMap(names[..n], weights[..n], order).Err?
    ensures CompetitionMap(names, weights, order) == CompetitionMap(names[..n], weights[..n], order)
    decreases |names| - n
  {
    if n < |names| {
      assert names[..n + 1][..n] == names[..n] && weights[..n + 1][..n] == weights[..n];
      CompetitionFailureSticks(names, weights, order, n + 1);
    } else {
      assert names[..n] == names && weights[..n] == weights;
    }
  }

  /**
   * The entry for object j + 1 of a metric with a short ID is that ID
   * followed by the object number, titled with the label, and weighted by
   * the average weight times the direction (negated for distances).
   */
  lemma ObjectEntry(m: string, j: nat, average: real, order: int)
    requires '_' !in m && BinaryPrefix + m in MetricIDs
    ensures CompetitionEntry(m + "_object" + NatToString(j + 1), average, order) ==
      Ok((MetricIDs[BinaryPrefix + m] + NatToString(j + 1), Weight(m + " (label " + NatToString(j + 1) + ")", average * order as real)))
  {
    var d := NatToString(j + 1);
    assert '_' !in d;
    assert m + "_object" + d == m + "_" + ("object" + d);
    SplitTwo(m, "object" + d, '_');
    assert ("object" + d)[|"object"|..] == d;
  }

  /** The entry for a metric with one value for all objects ("<m>_all") has the short ID alone and label "all". */
  lemma AllObjectsEntry(m: string, average: real, order: int)
    requires '_' !in m && BinaryPrefix + m in MetricIDs
    ensures CompetitionEntry(m + "_all", average, order) ==
      Ok((MetricIDs[BinaryPrefix + m], Weight(m + " (label all)", average * order as real)))
  {
    assert m + "_all" == m + "_" + "all";
    SplitTwo(m, "all", '_');
    assert Drop("all", |"object"|) == "";
    assert MetricIDs[BinaryPrefix + m] + "" == MetricIDs[BinaryPrefix + m];
    assert m + " (label " + "all" + ")" == m + " (label all)";
  }

  /** Kappa's single entry has ID "Kap", label "all" and the average weight itself. */
  lemma KappaEntry(average: real)
    ensures CompetitionEntry("Kappa" + "_all", average, 1) == Ok(("Kap", Weight("Kappa" + " (label all)", average)))
  {
    KappaId();
    AllObjectsEntry("Kappa", average, 1);
  }

  /** The kappa binary's short ID is "Kap". */
  lemma KappaId()
    ensures BinaryPrefix + "Kappa" in MetricIDs && MetricIDs[BinaryPrefix + "Kappa"] == "Kap"
  {
    assert BinaryPrefix + "Kappa" == "ValidateImageKappa";
  }
}
