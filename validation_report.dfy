/**
 * The report validateLabelImages writes to standard output when it compares a
 * fixed and a moving label image.
 *
 * The ITK metric computations stay outside the model: for each of the seven
 * binary metrics the program receives the values its per-label calculator
 * produced, already printed as text, and for Cohen's kappa the one printed
 * value. The standard output is modelled as its sequence of lines, one per
 * `std::endl`; `StdoutText` glues them back into the byte stream.
 */
module ValidationReport {
  import opened Text
  import opened Wrappers

  /** The binary metrics, in the order their sections are printed. */
  const BinaryMetrics: seq<string> :=
    ["Dice", "Jaccard", "Specificity", "Sensitivity", "PPV", "AverageDistance", "HausdorffDistance"]

  /** `"\n===" << std::endl` starts every section: an empty line, then "===". */
  const SectionHeader: seq<string> := ["", "==="]

  /** The line for label k (counted from 1) of a binary metric with printed value v. */
  function ResultLine(name: string, k: nat, v: string): string
  {
    name + "(A_" + NatToString(k) + ", B_" + NatToString(k) + ") = " + v
  }

  /** The single line for Cohen's kappa over all labels. */
  function KappaLine(v: string): string
  {
    "Kappa(A,B) = " + v
  }

  /** The result lines of one binary metric, label by label. */
  function ResultLines(name: string, vs: seq<string>): seq<string>
  {
    seq(|vs|, i requires 0 <= i < |vs| => ResultLine(name, i + 1, vs[i]))
  }

  /** One binary section: the header, then one line per value. */
  function Section(name: string, vs: seq<string>): seq<string>
  {
    SectionHeader + ResultLines(name, vs)
  }

  /** The binary sections for the metrics names, in order. */
  function Sections(names: seq<string>, values: seq<seq<string>>): seq<string>
    requires |names| == |values|
  {
    if names == [] then []
    else Sections(names[..|names| - 1], values[..|values| - 1]) + Section(names[|names| - 1], values[|values| - 1])
  }

  /** The whole report: seven binary sections, then the kappa section. */
  function Report(values: seq<seq<string>>, kappa: string): seq<string>
    requires |values| == |BinaryMetrics|
  {
    Sections(BinaryMetrics, values) + SectionHeader + [KappaLine(kappa)]
  }

  /** Number of lines the binary sections for values take up. */
  function SectionsLength(values: seq<seq<string>>): nat
  {
    if values == [] then 0 else SectionsLength(values[..|values| - 1]) + 2 + |values[|values| - 1]|
  }

  /** The byte stream of a sequence of lines each ended by std::endl. */
  function StdoutText(lines: seq<string>): string
  {
    if lines == [] then "" else lines[0] + "\n" + StdoutText(lines[1..])
  }

  /**
   * validateLabelImages (after the two images are read): every binary section
   * prints its header and then one line per label, and the kappa section its
   * header and one line.
   */
  method ValidateLabelImages(values: seq<seq<string>>, kappa: string) returns (out: seq<string>)
    requires |values| == |BinaryMetrics|
    ensures out == Report(values, kappa)
  {
    out := [];
    var s := 0;
    while s < |BinaryMetrics|
      invariant 0 <= s <= |BinaryMetrics|
      invariant out == Sections(BinaryMetrics[..s], values[..s])
    {
      var name := BinaryMetrics[s];
      var vs := values[s];
      out := out + SectionHeader;
      var i := 0;
      while i < |vs|
        invariant 0 <= i <= |vs|
        invariant out == Sections(BinaryMetrics[..s], values[..s]) + Section(name, vs[..i])
      {
        out := out + [ResultLine(name, i + 1, vs[i])];
        i := i + 1;
        assert ResultLines(name, vs[..i]) == ResultLines(name, vs[..i - 1]) + [ResultLine(name, i, vs[i - 1])];
      }
      assert vs[..i] == vs;
      assert BinaryMetrics[..s + 1][..s] == BinaryMetrics[..s];
      assert values[..s + 1][..s] == values[..s];
      s := s + 1;
    }
    assert BinaryMetrics[..s] == BinaryMetrics && values[..s] == values;
    out := out + SectionHeader + [KappaLine(kappa)];
  }

  /** What evaluating the two image files yields: printed values, or an exception. */
  datatype Evaluation = Evaluation(binary: seq<seq<string>>, kappa: string)

  /**
   * main: a wrong argument count and any exception while reading the images
   * both give exit code -1 with nothing on standard output; otherwise the
   * report is printed and the exit code is 0.
   */
  method RunMain(argv: seq<string>, evaluation: Option<Evaluation>) returns (code: int, out: seq<string>)
    requires evaluation.Some? ==> |evaluation.value.binary| == |BinaryMetrics|
    ensures code == 0 || code == -1
    ensures code == 0 <==> |argv| == 3 && evaluation.Some?
    ensures code == 0 ==> out == Report(evaluation.value.binary, evaluation.value.kappa)
    ensures code != 0 ==> out == []
  {
    if |argv| != 3 {
      return -1, [];
    }
    if evaluation.None? {
      return -1, [];
    }
    out := ValidateLabelImages(evaluation.value.binary, evaluation.value.kappa);
    code := 0;
  }

  // ---------------------------------------------------------------------------
  // Where each value lands in the report

  lemma {:induction false} SectionsLengthIs(names: seq<string>, values: seq<seq<string>>)
    requires |names| == |values|
    ensures |Sections(names, values)| == SectionsLength(values)
  {
    if names != [] {
      SectionsLengthIs(names[..|names| - 1], values[..|values| - 1]);
    }
  }

  /** The sections of the first s metrics start the sections of all of them. */
  lemma {:induction false} SectionsPrefix(names: seq<string>, values: seq<seq<string>>, s: nat)
    requires |names| == |values| && s <= |names|
    ensures Sections(names[..s], values[..s]) <= Sections(names, values)
    decreases |names|
  {
    if s < |names| {
      var n := |names| - 1;
      assert names[..n][..s] == names[..s] && values[..n][..s] == values[..s];
      SectionsPrefix(names[..n], values[..n], s);
    } else {
      assert names[..s] == names && values[..s] == values;
    }
  }

  /** The report has 2 lines per section, one line per binary value and one kappa line, which comes last. */
  lemma ReportLength(values: seq<seq<string>>, kappa: string)
    requires |values| == |BinaryMetrics|
    ensures var r := Report(values, kappa);
      |r| == SectionsLength(values) + 3 &&
      r[|r| - 3] == "" && r[|r| - 2] == "===" && r[|r| - 1] == KappaLine(kappa)
  {
    SectionsLengthIs(BinaryMetrics, values);
  }

  /** The report opens with the header of the Dice section. */
  lemma ReportStartsWithHeader(values: seq<seq<string>>, kappa: string)
    requires |values| == |BinaryMetrics|
    ensures |Report(values, kappa)| >= 2 && Report(values, kappa)[0] == "" && Report(values, kappa)[1] == "==="
  {
    SectionsPrefix(BinaryMetrics, values, 1);
    assert BinaryMetrics[..1][..0] == [] && values[..1][..0] == [];
    assert Sections(BinaryMetrics[..1], values[..1]) == Section(BinaryMetrics[0], values[0]);
  }

  /**
   * Section s starts with "" and "===" at line SectionsLength(values[..s]),
   * and the value for label i + 1 of metric s is two lines further on, as
   * `Name(A_{i+1}, B_{i+1}) = v`.
   */
  lemma ReportLineAt(values: seq<seq<string>>, kappa: string, s: nat, i: nat)
    requires |values| == |BinaryMetrics|
    requires s < |BinaryMetrics| && i < |values[s]|
    ensures var at := SectionsLength(values[..s]);
      at + 2 + i < |Report(values, kappa)| &&
      Report(values, kappa)[at] == "" &&
      Report(values, kappa)[at + 1] == "===" &&
      Report(values, kappa)[at + 2 + i] == ResultLine(BinaryMetrics[s], i + 1, values[s][i])
  {
    SectionsLineAt(BinaryMetrics, values, s, i);
    var sections := Sections(BinaryMetrics, values);
    assert Report(values, kappa) == sections + (SectionHeader + [KappaLine(kappa)]);
  }

  /** The same position within the binary sections for any metric names. */
  lemma SectionsLineAt(names: seq<string>, values: seq<seq<string>>, s: nat, i: nat)
    requires |names| == |values| && s < |names| && i < |values[s]|
    ensures var at := SectionsLength(values[..s]);
      at + 2 + i < |Sections(names, values)| &&
      Sections(names, values)[at] == "" &&
      Sections(names, values)[at + 1] == "===" &&
      Sections(names, values)[at + 2 + i] == ResultLine(names[s], i + 1, values[s][i])
  {
    var upTo := Sections(names[..s + 1], values[..s + 1]);
    SectionsPrefix(names, values, s + 1);
    assert names[..s + 1][..s] == names[..s];
    assert values[..s + 1][..s] == values[..s];
    var before := Sections(names[..s], values[..s]);
    assert upTo == before + Section(names[s], values[s]);
    SectionsLengthIs(names[..s], values[..s]);
  }
}
