/**
 * The submission scorer: it pairs every ground-truth file with the
 * submitted file of the same prefix, runs validateLabelImages on the pair and
 * turns the lines that program prints into (name, value) pairs.
 *
 * Directory listings are given as sequences of entry names in listing order;
 * running the scoring program is a function from the two paths to the
 * program's exit status and standard output. Exceptions are `Err` values.
 */
module ScoreSubmission {
  import opened Wrappers
  import opened Text
  import opened ValidationReport

  /** The exceptions the scorer raises. */
  datatype ScoreError =
    | NoMatchingInput(prefix: string)  // 'No matching input file for prefix: ' + prefix
    | ScoringFailed(returncode: int)   // 'Scoring subprocess returned error code ...'
    | Unpack(parts: nat)               // `name, value = ...` on a list of another length

  datatype Metric = Metric(name: string, value: string)

  datatype Output = Output(returncode: int, stdout: string)

  datatype Score = Score(dataset: string, metrics: seq<Metric>)

  // ---------------------------------------------------------------------------
  // matchInputFile

  /** name.split('.')[0]: the name up to its first dot. */
  function Prefix(name: string): (p: string)
    ensures p <= name && '.' !in p
  {
    UpTo(name, '.')
  }

  /** Position of the first listed entry with the given prefix, or |listing| when there is none. */
  function FirstWithPrefix(prefix: string, listing: seq<string>): (k: nat)
    ensures k <= |listing|
    ensures k < |listing| ==> Prefix(listing[k]) == prefix
    ensures forall j :: 0 <= j < k ==> Prefix(listing[j]) != prefix
  {
    if listing == [] then 0
    else if Prefix(listing[0]) == prefix then 0
    else 1 + FirstWithPrefix(prefix, listing[1..])
  }

  /** The input matched to a ground-truth file: the first entry with its prefix, joined to the directory. */
  function MatchInput(gt: string, listing: seq<string>, subDir: string): Result<string, ScoreError>
  {
    var k := FirstWithPrefix(Prefix(gt), listing);
    if k < |listing| then Ok(PathJoin(subDir, listing[k])) else Err(NoMatchingInput(Prefix(gt)))
  }

  /**
   * matchInputFile: scans the listing and returns the first entry whose
   * prefix is the ground truth's; raises naming the prefix when none has it.
   */
  method MatchInputFile(gt: string, listing: seq<string>, subDir: string) returns (r: Result<string, ScoreError>)
    ensures r == MatchInput(gt, listing, subDir)
    ensures r.Ok? <==> exists k :: 0 <= k < |listing| && Prefix(listing[k]) == Prefix(gt)
    ensures r.Err? ==> r.error == NoMatchingInput(Prefix(gt))
  {
    var prefix := Prefix(gt);
    var i := 0;
    while i < |listing|
      invariant 0 <= i <= |listing|
      invariant forall j :: 0 <= j < i ==> Prefix(listing[j]) != prefix
    {
      if Prefix(listing[i]) == prefix {
        FirstIsAt(prefix, listing, i);
        return Ok(PathJoin(subDir, listing[i]));
      }
      i := i + 1;
    }
    FirstIsAt(prefix, listing, |listing|);
    return Err(NoMatchingInput(prefix));
  }

  /** The first entry with a prefix is the one before which no entry has it. */
  lemma FirstIsAt(prefix: string, listing: seq<string>, i: nat)
    requires i <= |listing|
    requires forall j :: 0 <= j < i ==> Prefix(listing[j]) != prefix
    requires i < |listing| ==> Prefix(listing[i]) == prefix
    ensures FirstWithPrefix(prefix, listing) == i
  {
    var k := FirstWithPrefix(prefix, listing);
  }

  /** A matched input sits in the submission directory and shares the ground truth's prefix. */
  lemma MatchedInputHasPrefix(gt: string, listing: seq<string>, subDir: string)
    requires MatchInput(gt, listing, subDir).Ok?
    requires forall j :: 0 <= j < |listing| ==> '/' !in listing[j]
    ensures var path := MatchInput(gt, listing, subDir).value;
      Basename(path) in listing && Prefix(Basename(path)) == Prefix(gt)
  {
    var k := FirstWithPrefix(Prefix(gt), listing);
    BasenameOfJoin(subDir, listing[k]);
  }

  // ---------------------------------------------------------------------------
  // runScoring: the stdout parse

  /** str.splitlines() on text whose only line break is "\n": no trailing empty line. */
  function SplitLines(text: string): seq<string>
    decreases |text|
  {
    if text == [] then []
    else
      var i := FirstIndex(text, '\n');
      if i == |text| then [text] else [text[..i]] + SplitLines(text[i + 1..])
  }

  /** `name, value = line.split('=')`: the pair when the line has exactly one "=". */
  function Pair(line: string): (m: Option<Metric>)
  {
    var parts := Split(line, '=');
    if |parts| == 2 then Some(Metric(parts[0], parts[1])) else None
  }

  /** A line unpacks exactly when it holds one "=", and the pair is the text on either side of it. */
  lemma PairSpec(line: string)
    ensures Pair(line).Some? <==> CountChar(line, '=') == 1
    ensures Pair(line).Some? ==>
      '=' !in Pair(line).value.name && '=' !in Pair(line).value.value &&
      Pair(line).value.name + "=" + Pair(line).value.value == line
  {
    SplitCount(line, '=');
    SplitPartsFree(line, '=');
    JoinSplit(line, '=');
    var parts := Split(line, '=');
    if |parts| == 2 {
      assert parts[1..] == [parts[1]];
    }
  }

  /** Splitting name + "=" + value gives the pair back when neither side holds "=". */
  lemma PairOfJoined(name: string, value: string)
    requires '=' !in name && '=' !in value
    ensures Pair(name + "=" + value) == Some(Metric(name, value))
  {
    SplitTwo(name, value, '=');
  }

  /** The parse as runScoring writes it: every line must unpack, or the first that does not raises. */
  function ParseAsWritten(lines: seq<string>): Result<seq<Metric>, ScoreError>
  {
    if lines == [] then Ok([])
    else if Pair(lines[0]).None? then Err(Unpack(|Split(lines[0], '=')|))
    else match ParseAsWritten(lines[1..])
      case Err(e) => Err(e)
      case Ok(ms) => Ok([Pair(lines[0]).value] + ms)
  }

  /**
   * The as-written parse succeeds exactly when every line has one "=", and
   * then keeps every line's pair in order; otherwise it reports the first
   * line that does not unpack.
   */
  lemma {:induction false} ParseAsWrittenSpec(lines: seq<string>)
    ensures ParseAsWritten(lines).Ok? <==> forall i :: 0 <= i < |lines| ==> Pair(lines[i]).Some?
    ensures ParseAsWritten(lines).Ok? ==>
      |ParseAsWritten(lines).value| == |lines| &&
      forall i :: 0 <= i < |lines| ==> ParseAsWritten(lines).value[i] == Pair(lines[i]).value
    ensures ParseAsWritten(lines).Err? ==>
      exists i :: 0 <= i < |lines| && Pair(lines[i]).None? &&
        ParseAsWritten(lines).error == Unpack(|Split(lines[i], '=')|) &&
        forall j :: 0 <= j < i ==> Pair(lines[j]).Some?
  {
    if lines != [] {
      ParseAsWrittenSpec(lines[1..]);
      var r := ParseAsWritten(lines);
      if r.Ok? {
        forall i | 0 <= i < |lines|
          ensures Pair(lines[i]).Some? && r.value[i] == Pair(lines[i]).value
        {
          if i > 0 {
            assert lines[i] == lines[1..][i - 1];
          }
        }
      } else if Pair(lines[0]).Some? {
        var i :| 0 <= i < |lines[1..]| && Pair(lines[1..][i]).None? &&
          r.error == Unpack(|Split(lines[1..][i], '=')|) &&
          forall j :: 0 <= j < i ==> Pair(lines[1..][j]).Some?;
        assert lines[i + 1] == lines[1..][i];
        forall j | 0 <= j < i + 1
          ensures Pair(lines[j]).Some?
        {
          if j > 0 {
            assert lines[j] == lines[1..][j - 1];
          }
        }
      }
    }
  }

  /**
   * runScoring as written: a non-zero exit status raises; otherwise every
   * line of standard output is unpacked into a (name, value) pair.
   */
  method RunScoringAsWritten(out: Output) returns (r: Result<seq<Metric>, ScoreError>)
    ensures out.returncode != 0 ==> r == Err(ScoringFailed(out.returncode))
    ensures out.returncode == 0 ==> r == ParseAsWritten(SplitLines(out.stdout))
  {
    if out.returncode != 0 {
      return Err(ScoringFailed(out.returncode));
    }
    var lines := SplitLines(out.stdout);
    var metrics := [];
    assert ParseAsWritten(lines) == Prepend(metrics, ParseAsWritten(lines[0..])) by {
      assert lines[0..] == lines;
      match ParseAsWritten(lines)
      case Ok(ms) => assert [] + ms == ms;
      case Err(_) =>
    }
    var i := 0;
    while i < |lines|
      invariant 0 <= i <= |lines|
      invariant ParseAsWritten(lines) == Prepend(metrics, ParseAsWritten(lines[i..]))
    {
      ParseStep(lines, i, metrics);
      var parts := Split(lines[i], '=');
      if |parts| != 2 {
        return Err(Unpack(|parts|));
      }
      var m := Metric(parts[0], parts[1]);
      metrics := metrics + [m];
      i := i + 1;
    }
    assert lines[i..] == [] && metrics + [] == metrics;
    return Ok(metrics);
  }

  /** Pairs parsed so far in front of the outcome of the rest. */
  function Prepend(ms: seq<Metric>, r: Result<seq<Metric>, ScoreError>): Result<seq<Metric>, ScoreError>
  {
    match r
    case Err(e) => Err(e)
    case Ok(rest) => Ok(ms + rest)
  }

  /** One step of the as-written parse: a line that unpacks moves its pair behind the ones parsed so far. */
  lemma ParseStep(lines: seq<string>, i: nat, metrics: seq<Metric>)
    requires i < |lines|
    ensures Pair(lines[i]).None? ==> Prepend(metrics, ParseAsWritten(lines[i..])) == Err(Unpack(|Split(lines[i], '=')|))
    ensures Pair(lines[i]).Some? ==>
      Prepend(metrics, ParseAsWritten(lines[i..])) == Prepend(metrics + [Pair(lines[i]).value], ParseAsWritten(lines[i + 1..]))
  {
    assert lines[i..][1..] == lines[i + 1..];
    if Pair(lines[i]).Some? {
      var m := Pair(lines[i]).value;
      match ParseAsWritten(lines[i + 1..]) {
        case Ok(ms) => assert metrics + ([m] + ms) == (metrics + [m]) + ms;
        case Err(_) =>
      }
    }
  }

  /** The parse that skips the lines without exactly one "=" (the blank and "===" separators). */
  function ParseReport(lines: seq<string>): seq<Metric>
  {
    if lines == [] then []
    else (if Pair(lines[0]).Some? then [Pair(lines[0]).value] else []) + ParseReport(lines[1..])
  }

  /** runScoring with the separator lines skipped. */
  method RunScoring(out: Output) returns (r: Result<seq<Metric>, ScoreError>)
    ensures out.returncode != 0 ==> r == Err(ScoringFailed(out.returncode))
    ensures out.returncode == 0 ==> r == Ok(ParseReport(SplitLines(out.stdout)))
  {
    if out.returncode != 0 {
      return Err(ScoringFailed(out.returncode));
    }
    var lines := SplitLines(out.stdout);
    var metrics := [];
    var i := 0;
    while i < |lines|
      invariant 0 <= i <= |lines|
      invariant ParseReport(lines) == metrics + ParseReport(lines[i..])
    {
      assert lines[i..][1..] == lines[i + 1..];
      var parts := Split(lines[i], '=');
      if |parts| == 2 {
        metrics := metrics + [Metric(parts[0], parts[1])];
      }
      i := i + 1;
    }
    assert lines[i..] == [] && metrics + [] == metrics;
    return Ok(metrics);
  }

  // ---------------------------------------------------------------------------
  // scoreAll

  /** Scoring one ground-truth file: match its input, run the program, parse its output. */
  function ScoreOne(gtDir: string, subDir: string, subListing: seq<string>, run: (string, string) -> Output, gt: string): Result<Score, ScoreError>
  {
    match MatchInput(gt, subListing, subDir)
    case Err(e) => Err(e)
    case Ok(sub) =>
      var out := run(PathJoin(gtDir, gt), sub);
      if out.returncode != 0 then Err(ScoringFailed(out.returncode))
      else Ok(Score(gt, ParseReport(SplitLines(out.stdout))))
  }

  /** Scores for every ground-truth file in listing order, stopping at the first exception. */
  function ScoresOf(gtDir: string, subDir: string, subListing: seq<string>, run: (string, string) -> Output, gts: seq<string>): Result<seq<Score>, ScoreError>
  {
    if gts == [] then Ok([])
    else match ScoresOf(gtDir, subDir, subListing, run, gts[..|gts| - 1])
      case Err(e) => Err(e)
      case Ok(scores) =>
        match ScoreOne(gtDir, subDir, subListing, run, gts[|gts| - 1])
        case Err(e) => Err(e)
        case Ok(s) => Ok(scores + [s])
  }

  /** Scoring one ground-truth file, as scoreAll's loop body does it. */
  method ScoreFile(gtDir: string, subDir: string, subListing: seq<string>, run: (string, string) -> Output, gt: string)
    returns (r: Result<Score, ScoreError>)
    ensures r == ScoreOne(gtDir, subDir, subListing, run, gt)
  {
    var sub := MatchInputFile(gt, subListing, subDir);
    if sub.Err? {
      return Err(sub.error);
    }
    var metrics := RunScoring(run(PathJoin(gtDir, gt), sub.value));
    if metrics.Err? {
      return Err(metrics.error);
    }
    return Ok(Score(gt, metrics.value));
  }

  /** scoreAll: one {dataset, metrics} entry per ground-truth file, in listing order. */
  method ScoreAll(gtDir: string, subDir: string, gtListing: seq<string>, subListing: seq<string>, run: (string, string) -> Output)
    returns (r: Result<seq<Score>, ScoreError>)
    ensures r == ScoresOf(gtDir, subDir, subListing, run, gtListing)
  {
    var scores := [];
    var i := 0;
    while i < |gtListing|
      invariant 0 <= i <= |gtListing|
      invariant ScoresOf(gtDir, subDir, subListing, run, gtListing[..i]) == Ok(scores)
    {
      var score := ScoreFile(gtDir, subDir, subListing, run, gtListing[i]);
      ScoresStep(gtDir, subDir, subListing, run, gtListing, i, scores);
      if score.Err? {
        PrefixFailureSticks(gtDir, subDir, subListing, run, gtListing, i + 1);
        return Err(score.error);
      }
      scores := scores + [score.value];
      i := i + 1;
    }
    assert gtListing[..i] == gtListing;
    return Ok(scores);
  }

  /** One more ground-truth file either extends the scores so far or ends them with its error. */
  lemma ScoresStep(gtDir: string, subDir: string, subListing: seq<string>, run: (string, string) -> Output, gts: seq<string>, i: nat, scores: seq<Score>)
    requires i < |gts|
    requires ScoresOf(gtDir, subDir, subListing, run, gts[..i]) == Ok(scores)
    ensures var one := ScoreOne(gtDir, subDir, subListing, run, gts[i]);
      (one.Err? ==> ScoresOf(gtDir, subDir, subListing, run, gts[..i + 1]) == Err(one.error)) &&
      (one.Ok? ==> ScoresOf(gtDir, subDir, subListing, run, gts[..i + 1]) == Ok(scores + [one.value]))
  {
    assert gts[..i + 1][..i] == gts[..i];
  }

  /** Once the scores of a prefix of the listing fail, the scores of the whole listing fail the same way. */
  lemma {:induction false} PrefixFailureSticks(gtDir: string, subDir: string, subListing: seq<string>, run: (string, string) -> Output, gts: seq<string>, n: nat)
    requires n <= |gts|
    requires ScoresOf(gtDir, subDir, subListing, run, gts[..n]).Err?
    ensures ScoresOf(gtDir, subDir, subListing, run, gts) == ScoresOf(gtDir, subDir, subListing, run, gts[..n])
    decreases |gts| - n
  {
    if n < |gts| {
      assert gts[..n + 1][..n] == gts[..n];
      PrefixFailureSticks(gtDir, subDir, subListing, run, gts, n + 1);
    } else {
      assert gts[..n] == gts;
    }
  }

  /** A successful run has one entry per ground-truth file, named after it, in listing order. */
  lemma {:induction false} ScoresFollowListing(gtDir: string, subDir: string, subListing: seq<string>, run: (string, string) -> Output, gts: seq<string>)
    requires ScoresOf(gtDir, subDir, subListing, run, gts).Ok?
    ensures var scores := ScoresOf(gtDir, subDir, subListing, run, gts).value;
      |scores| == |gts| &&
      forall i :: 0 <= i < |gts| ==>
        scores[i].dataset == gts[i] && MatchInput(gts[i], subListing, subDir).Ok?
  {
    if gts != [] {
      var init := gts[..|gts| - 1];
      ScoresFollowListing(gtDir, subDir, subListing, run, init);
      forall i | 0 <= i < |init|
        ensures gts[i] == init[i]
      {
      }
    }
  }

  /** Any missing input makes the whole scoring raise. */
  lemma {:induction false} MissingInputFails(gtDir: string, subDir: string, subListing: seq<string>, run: (string, string) -> Output, gts: seq<string>, i: nat)
    requires i < |gts| && MatchInput(gts[i], subListing, subDir).Err?
    ensures ScoresOf(gtDir, subDir, subListing, run, gts).Err?
  {
    if ScoresOf(gtDir, subDir, subListing, run, gts).Ok? {
      ScoresFollowListing(gtDir, subDir, subListing, run, gts);
    }
  }

  // ---------------------------------------------------------------------------
  // Parsing what validateLabelImages prints

  /** Lines without a line break come back from their printed text unchanged. */
  lemma {:induction false} SplitLinesOfStdout(lines: seq<string>)
    requires forall i :: 0 <= i < |lines| ==> '\n' !in lines[i]
    ensures SplitLines(StdoutText(lines)) == lines
  {
    if lines != [] {
      SplitLinesCons(lines[0], StdoutText(lines[1..]));
      SplitLinesOfStdout(lines[1..]);
      assert lines == [lines[0]] + lines[1..];
    }
  }

  /** A line without a break, printed before more text, is split off as the first line. */
  lemma SplitLinesCons(line: string, rest: string)
    requires '\n' !in line
    ensures SplitLines(line + "\n" + rest) == [line] + SplitLines(rest)
  {
    var text := line + "\n" + rest;
    assert text == line + ("\n" + rest);
    FirstIndexAfterFree(line, "\n" + rest, '\n');
    assert text[..|line|] == line;
    assert text[|line| + 1..] == rest;
  }

  /** The as-written parse raises on validateLabelImages's output: its first line is empty and does not unpack. */
  lemma RunScoringAsWrittenRejectsReport(values: seq<seq<string>>, kappa: string)
    requires |values| == |BinaryMetrics|
    ensures ParseAsWritten(SplitLines(StdoutText(Report(values, kappa)))) == Err(Unpack(1))
  {
    var r := Report(values, kappa);
    ReportLength(values, kappa);
    ReportStartsWithHeader(values, kappa);
    var text := StdoutText(r);
    assert text == "\n" + StdoutText(r[1..]);
    assert FirstIndex(text, '\n') == 0;
    assert SplitLines(text)[0] == "";
    assert Split("", '=') == [""];
  }

  /** The pair a result line unpacks into. */
  function ResultMetric(name: string, k: nat, v: string): Metric
  {
    Metric(name + "(A_" + NatToString(k) + ", B_" + NatToString(k) + ") ", " " + v)
  }

  /** The pairs one binary section contributes, label by label. */
  function SectionMetrics(name: string, vs: seq<string>): seq<Metric>
  {
    seq(|vs|, i requires 0 <= i < |vs| => ResultMetric(name, i + 1, vs[i]))
  }

  /** The pairs of the binary sections, in section order. */
  function SectionsMetrics(names: seq<string>, values: seq<seq<string>>): seq<Metric>
    requires |names| == |values|
  {
    if names == [] then []
    else SectionsMetrics(names[..|names| - 1], values[..|values| - 1]) + SectionMetrics(names[|names| - 1], values[|values| - 1])
  }

  /** A printed value: no "=" and no line break in it. */
  predicate PlainValue(v: string)
  {
    '=' !in v && '\n' !in v
  }

  /**
   * With the separators skipped, validateLabelImages's output parses into one
   * pair per printed value, section by section and label by label, then the
   * kappa pair; names keep their trailing and values their leading blank.
   */
  lemma ScoringReadsReport(values: seq<seq<string>>, kappa: string)
    requires |values| == |BinaryMetrics|
    requires forall s, i :: 0 <= s < |values| && 0 <= i < |values[s]| ==> PlainValue(values[s][i])
    requires PlainValue(kappa)
    ensures ParseReport(SplitLines(StdoutText(Report(values, kappa)))) ==
      SectionsMetrics(BinaryMetrics, values) + [Metric("Kappa(A,B) ", " " + kappa)]
  {
    BinaryMetricsPlain();
    ReportParsesBack(BinaryMetrics, values, kappa);
    assert Report(values, kappa) == Sections(BinaryMetrics, values) + (SectionHeader + [KappaLine(kappa)]);
  }

  /** The same for binary sections under any plain metric names. */
  lemma ReportParsesBack(names: seq<string>, values: seq<seq<string>>, kappa: string)
    requires |names| == |values|
    requires forall s :: 0 <= s < |names| ==> '=' !in names[s] && '\n' !in names[s]
    requires forall s, i :: 0 <= s < |values| && 0 <= i < |values[s]| ==> PlainValue(values[s][i])
    requires PlainValue(kappa)
    ensures ParseReport(SplitLines(StdoutText(Sections(names, values) + (SectionHeader + [KappaLine(kappa)])))) ==
      SectionsMetrics(names, values) + [Metric("Kappa(A,B) ", " " + kappa)]
  {
    var sections := Sections(names, values);
    var tail := SectionHeader + [KappaLine(kappa)];
    SectionsFacts(names, values);
    KappaTail(kappa);
    HeaderFacts();
    NoBreaksConcat(SectionHeader, [KappaLine(kappa)]);
    NoBreaksConcat(sections, tail);
    SplitLinesOfStdout(sections + tail);
    ParseReportConcat(sections, tail);
  }

  /** The metric names hold neither "=" nor a line break. */
  lemma BinaryMetricsPlain()
    ensures forall s :: 0 <= s < |BinaryMetrics| ==> '=' !in BinaryMetrics[s] && '\n' !in BinaryMetrics[s]
  {
  }

  /** The kappa section holds no line break and parses into the one kappa pair. */
  lemma KappaTail(kappa: string)
    requires PlainValue(kappa)
    ensures '\n' !in KappaLine(kappa)
    ensures ParseReport(SectionHeader + [KappaLine(kappa)]) == [Metric("Kappa(A,B) ", " " + kappa)]
  {
    var head := "Kappa(A,B) = ";
    assert forall j :: 0 <= j < |head| ==> head[j] != '\n';
    assert KappaLine(kappa) == "Kappa(A,B) " + "=" + (" " + kappa);
    PairOfJoined("Kappa(A,B) ", " " + kappa);
    ParseReportConcat(SectionHeader, [KappaLine(kappa)]);
    HeaderFacts();
    ParseReportSingle(KappaLine(kappa));
  }

  /** Neither separator line unpacks: "" splits into one part and "===" into four. */
  lemma SeparatorsSkipped()
    ensures |Split("", '=')| == 1 && Pair("").None?
    ensures |Split("===", '=')| == 4 && Pair("===").None?
  {
    assert Split("", '=') == [""];
    assert "="[1..] == "" && "=="[1..] == "=" && "==="[1..] == "==";
    assert Split("=", '=') == [""] + Split("", '=');
    assert Split("==", '=') == [""] + Split("=", '=');
    assert Split("===", '=') == [""] + Split("==", '=');
  }

  /** The binary sections hold no line break and parse into their pairs. */
  lemma {:induction false} SectionsFacts(names: seq<string>, values: seq<seq<string>>)
    requires |names| == |values|
    requires forall s :: 0 <= s < |names| ==> '=' !in names[s] && '\n' !in names[s]
    requires forall s, i :: 0 <= s < |values| && 0 <= i < |values[s]| ==> PlainValue(values[s][i])
    ensures forall i :: 0 <= i < |Sections(names, values)| ==> '\n' !in Sections(names, values)[i]
    ensures ParseReport(Sections(names, values)) == SectionsMetrics(names, values)
  {
    if names != [] {
      var n := |names| - 1;
      SectionsFacts(names[..n], values[..n]);
      SectionFacts(names[n], values[n]);
      ParseReportConcat(Sections(names[..n], values[..n]), Section(names[n], values[n]));
    }
  }

  /** One binary section holds no line break and parses into its pairs. */
  lemma SectionFacts(name: string, vs: seq<string>)
    requires '=' !in name && '\n' !in name
    requires forall i :: 0 <= i < |vs| ==> PlainValue(vs[i])
    ensures forall i :: 0 <= i < |Section(name, vs)| ==> '\n' !in Section(name, vs)[i]
    ensures ParseReport(Section(name, vs)) == SectionMetrics(name, vs)
  {
    ResultLinesFacts(name, vs);
    HeaderFacts();
    NoBreaksConcat(SectionHeader, ResultLines(name, vs));
    ParseReportConcat(SectionHeader, ResultLines(name, vs));
    ParseResultLines(name, vs);
  }

  /** Every result line of a section is a single line that unpacks into its pair. */
  lemma ResultLinesFacts(name: string, vs: seq<string>)
    requires '=' !in name && '\n' !in name
    requires forall i :: 0 <= i < |vs| ==> PlainValue(vs[i])
    ensures forall i :: 0 <= i < |vs| ==> '\n' !in ResultLines(name, vs)[i]
    ensures forall i :: 0 <= i < |vs| ==> Pair(ResultLine(name, i + 1, vs[i])) == Some(ResultMetric(name, i + 1, vs[i]))
  {
    forall i | 0 <= i < |vs|
      ensures '\n' !in ResultLines(name, vs)[i]
      ensures Pair(ResultLine(name, i + 1, vs[i])) == Some(ResultMetric(name, i + 1, vs[i]))
    {
      ResultLineSplits(name, i + 1, vs[i]);
    }
  }

  /** The section header holds no line break and contributes no pair. */
  lemma HeaderFacts()
    ensures forall i :: 0 <= i < |SectionHeader| ==> '\n' !in SectionHeader[i]
    ensures ParseReport(SectionHeader) == []
  {
    HeaderNoBreaks();
    SeparatorsSkipped();
    assert SectionHeader == [""] + ["==="];
    ParseReportConcat([""], ["==="]);
    ParseReportSingle("");
    ParseReportSingle("===");
  }

  lemma HeaderNoBreaks()
    ensures forall i :: 0 <= i < |SectionHeader| ==> '\n' !in SectionHeader[i]
  {
    var rule := "===";
    assert rule == ['='] + ['='] + ['='];
    assert SectionHeader == [[], rule];
  }

  /** Lines without breaks stay so when concatenated. */
  lemma NoBreaksConcat(a: seq<string>, b: seq<string>)
    requires forall i :: 0 <= i < |a| ==> '\n' !in a[i]
    requires forall i :: 0 <= i < |b| ==> '\n' !in b[i]
    ensures forall i :: 0 <= i < |a + b| ==> '\n' !in (a + b)[i]
  {
    forall i | 0 <= i < |a + b|
      ensures '\n' !in (a + b)[i]
    {
      if i >= |a| {
        assert (a + b)[i] == b[i - |a|];
      }
    }
  }

  lemma {:induction false} ParseResultLines(name: string, vs: seq<string>)
    requires forall i :: 0 <= i < |vs| ==> Pair(ResultLine(name, i + 1, vs[i])) == Some(ResultMetric(name, i + 1, vs[i]))
    ensures ParseReport(ResultLines(name, vs)) == SectionMetrics(name, vs)
  {
    if vs != [] {
      var n := |vs| - 1;
      ResultsSnoc(name, vs);
      ParseResultLines(name, vs[..n]);
      ParseReportConcat(ResultLines(name, vs[..n]), [ResultLine(name, n + 1, vs[n])]);
      ParseReportSingle(ResultLine(name, n + 1, vs[n]));
    }
  }

  /** The lines and the pairs of a section both grow by one entry per value. */
  lemma ResultsSnoc(name: string, vs: seq<string>)
    requires vs != []
    ensures ResultLines(name, vs) == ResultLines(name, vs[..|vs| - 1]) + [ResultLine(name, |vs|, vs[|vs| - 1])]
    ensures SectionMetrics(name, vs) == SectionMetrics(name, vs[..|vs| - 1]) + [ResultMetric(name, |vs|, vs[|vs| - 1])]
  {
  }

  /** A single line parses into its pair when it holds one, and into nothing otherwise. */
  lemma ParseReportSingle(line: string)
    ensures ParseReport([line]) == (if Pair(line).Some? then [Pair(line).value] else [])
  {
    assert [line][1..] == [];
  }

  /** A result line has no line break and unpacks into its name and its value. */
  lemma ResultLineSplits(name: string, k: nat, v: string)
    requires '=' !in name && '\n' !in name && PlainValue(v)
    ensures '\n' !in ResultLine(name, k, v)
    ensures Pair(ResultLine(name, k, v)) == Some(ResultMetric(name, k, v))
  {
    var digits := NatToString(k);
    assert '=' !in digits && '\n' !in digits;
    var left := name + "(A_" + digits + ", B_" + digits + ") ";
    assert ResultLine(name, k, v) == left + "=" + (" " + v);
    PairOfJoined(left, " " + v);
  }

  /** The skipping parse works line by line. */
  lemma {:induction false} ParseReportConcat(a: seq<string>, b: seq<string>)
    ensures ParseReport(a + b) == ParseReport(a) + ParseReport(b)
  {
    if a != [] {
      assert (a + b)[1..] == a[1..] + b;
      ParseReportConcat(a[1..], b);
    } else {
      assert a + b == b;
    }
  }
}
