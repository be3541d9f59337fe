/**
 * `QualityChecker` (rag_pdf_checker.py): runs the selected analyzers in the order asked,
 * keeps each one's findings and score under its kind, and folds the scores into an overall
 * score, a summary and a five-step assessment.
 */
module Quality {
  import opened Wrappers
  import opened Strings
  import opened Analysis
  import Chapters
  import opened SummaryLines

  /** The analyzer registry, in the order `check` runs it when no kinds are given. */
  const Registry: seq<string> := ["contradiction", "flow", "redundancy", "code", "theory", "terminology"]

  /**
   * The registered analyzers: `run(kind, chapters)` is what `analyze` of the analyzer
   * registered under `kind` returns; `Err` is an exception it lets escape.
   */
  type Analyzer = (string, seq<Chapters.Chapter>) -> Result<AnalysisResult, Failure>

  /** In test mode only the first three chapters are analysed. */
  function Scope(chapters: seq<Chapters.Chapter>, testMode: bool): (r: seq<Chapters.Chapter>)
    ensures testMode ==> |r| == Min(|chapters|, 3)
    ensures !testMode ==> r == chapters
    ensures |r| <= |chapters| && r == chapters[..|r|]
  {
    if testMode then Take(chapters, 3) else chapters
  }

  /** What the analyzer of `kind` is given: in test mode, redundancy sees only two chapters. */
  function InputFor(kind: string, chapters: seq<Chapters.Chapter>, testMode: bool): (r: seq<Chapters.Chapter>)
    ensures |r| <= |chapters| && r == chapters[..|r|]
    ensures kind == "redundancy" && testMode ==> |r| == Min(|chapters|, 2)
    ensures kind != "redundancy" || !testMode ==> r == chapters
  {
    if kind == "redundancy" && testMode then Take(chapters, 2) else chapters
  }

  /** The finding list kept for a result: terminology's is stored under its `inconsistencies` key. */
  function Findings(d: Details): seq<Dict>
  {
    match d
    case Items(xs) => xs
    case Inconsistencies(xs) => xs
  }

  /**
   * The `results` and `subscores` dictionaries; `order` is their key order (that of first
   * insertion, as in a Python dictionary).
   */
  datatype Collected = Collected(order: seq<string>, results: map<string, seq<Dict>>, scores: map<string, real>)

  ghost predicate Valid(c: Collected)
  {
    (forall i, j :: 0 <= i < j < |c.order| ==> c.order[i] != c.order[j])
    && (forall k :: k in c.results <==> k in c.order)
    && (forall k :: k in c.scores <==> k in c.order)
  }

  /** Storing one result under its kind; a kind met a second time keeps its place. */
  function Record(c: Collected, kind: string, res: AnalysisResult): Collected
  {
    Collected(
      if kind in c.order then c.order else c.order + [kind],
      c.results[kind := Findings(res.details)],
      c.scores[kind := res.confidenceScore])
  }

  /** One turn of the loop of `check`: an unregistered kind is skipped. */
  function Step(run: Analyzer, c: Collected, kind: string, chapters: seq<Chapters.Chapter>, testMode: bool)
    : Result<Collected, Failure>
  {
    if kind !in Registry then Ok(c)
    else
      match RunOne(run, kind, chapters, testMode)
      case Err(e) => Err(e)
      case Ok(res) => Ok(Record(c, kind, res))
  }

  /** The loop of `check` over the kinds so far. */
  function Collect(run: Analyzer, kinds: seq<string>, chapters: seq<Chapters.Chapter>, testMode: bool)
    : Result<Collected, Failure>
    decreases |kinds|
  {
    if |kinds| == 0 then Ok(Collected([], map[], map[]))
    else
      match Collect(run, kinds[..|kinds| - 1], chapters, testMode)
      case Err(e) => Err(e)
      case Ok(c) => Step(run, c, kinds[|kinds| - 1], chapters, testMode)
  }

  lemma CollectNext(run: Analyzer, kinds: seq<string>, chapters: seq<Chapters.Chapter>, testMode: bool, i: nat)
    requires i < |kinds| && Collect(run, kinds[..i], chapters, testMode).Ok?
    ensures Collect(run, kinds[..i + 1], chapters, testMode)
      == Step(run, Collect(run, kinds[..i], chapters, testMode).value, kinds[i], chapters, testMode)
  {
    assert kinds[..i + 1][..i] == kinds[..i];
  }

  /** What running one kind gives, on the chapters it is given. */
  function RunOne(run: Analyzer, kind: string, chapters: seq<Chapters.Chapter>, testMode: bool): Result<AnalysisResult, Failure>
  {
    run(kind, InputFor(kind, chapters, testMode))
  }

  /**
   * A successful loop holds each registered kind that was asked for exactly once, in the
   * order first asked, with the findings and the score its analyzer returned.
   */
  lemma {:induction false} CollectContents(run: Analyzer, kinds: seq<string>, chapters: seq<Chapters.Chapter>, testMode: bool)
    requires Collect(run, kinds, chapters, testMode).Ok?
    ensures var c := Collect(run, kinds, chapters, testMode).value;
      Valid(c)
      && (forall k :: k in c.order <==> k in kinds && k in Registry)
      && (forall k :: k in c.results ==>
           RunOne(run, k, chapters, testMode).Ok?
           && c.results[k] == Findings(RunOne(run, k, chapters, testMode).value.details)
           && c.scores[k] == RunOne(run, k, chapters, testMode).value.confidenceScore)
    decreases |kinds|
  {
    if |kinds| > 0 {
      var n := |kinds| - 1;
      CollectContents(run, kinds[..n], chapters, testMode);
      assert forall k :: k in kinds <==> k in kinds[..n] || k == kinds[n];
    }
  }

  /** The loop fails exactly when the analyzer of some registered kind asked for raises. */
  lemma {:induction false} CollectFails(run: Analyzer, kinds: seq<string>, chapters: seq<Chapters.Chapter>, testMode: bool)
    ensures Collect(run, kinds, chapters, testMode).Err? <==>
      exists j :: 0 <= j < |kinds| && kinds[j] in Registry && RunOne(run, kinds[j], chapters, testMode).Err?
    decreases |kinds|
  {
    if |kinds| > 0 {
      var n := |kinds| - 1;
      CollectFails(run, kinds[..n], chapters, testMode);
      assert forall j :: 0 <= j < n ==> kinds[..n][j] == kinds[j];
    }
  }

  /** Distinct registered kinds that all succeed are kept in exactly the order asked. */
  lemma {:induction false} CollectOrder(run: Analyzer, kinds: seq<string>, chapters: seq<Chapters.Chapter>, testMode: bool)
    requires forall i, j :: 0 <= i < j < |kinds| ==> kinds[i] != kinds[j]
    requires forall j :: 0 <= j < |kinds| ==> kinds[j] in Registry
    requires Collect(run, kinds, chapters, testMode).Ok?
    ensures Collect(run, kinds, chapters, testMode).value.order == kinds
    decreases |kinds|
  {
    if |kinds| > 0 {
      var n := |kinds| - 1;
      var prefix := kinds[..n];
      LastSplit(kinds);
      assert Collect(run, prefix, chapters, testMode).Ok?;
      assert forall j :: 0 <= j < n ==> prefix[j] == kinds[j];
      CollectOrder(run, prefix, chapters, testMode);
      CollectNext(run, kinds, chapters, testMode, n);
      var c := Collect(run, prefix, chapters, testMode).value;
      var res := RunOne(run, kinds[n], chapters, testMode);
      assert Collect(run, kinds, chapters, testMode) == Ok(Record(c, kinds[n], res.value));
      assert kinds[n] !in c.order;
    }
  }

  /** With no kinds given, all six analyzers run, in registry order. */
  lemma DefaultRunsAll(run: Analyzer, chapters: seq<Chapters.Chapter>, testMode: bool)
    requires Collect(run, Registry, chapters, testMode).Ok?
    ensures Collect(run, Registry, chapters, testMode).value.order == Registry
  {
    CollectOrder(run, Registry, chapters, testMode);
  }

  // ---------------------------------------------------------------------------
  // Scores, summary and report
  // ---------------------------------------------------------------------------

  /** `subscores.values()`, in key order. */
  function ScoreList(c: Collected): (r: seq<real>)
    ensures |r| == |c.order|
  {
    seq(|c.order|, i requires 0 <= i < |c.order| => if c.order[i] in c.scores then c.scores[c.order[i]] else 0.0)
  }

  /** `overall_score`: the mean of the subscores, 0.0 when no analyzer ran. */
  function Overall(c: Collected): real
  {
    Mean(ScoreList(c), 0.0)
  }

  /** Subscores in [0, 1] give an overall score in [0, 1]; none at all gives 0.0. */
  lemma OverallBounds(c: Collected)
    requires Valid(c) && forall k :: k in c.scores ==> 0.0 <= c.scores[k] <= 1.0
    ensures 0.0 <= Overall(c) <= 1.0
    ensures |c.order| == 0 ==> Overall(c) == 0.0
  {
    var xs := ScoreList(c);
    forall k | 0 <= k < |xs| ensures 0.0 <= xs[k] <= 1.0 {
      assert c.order[k] in c.scores;
    }
    MeanBounds(xs, 0.0, 0.0, 1.0);
  }

  /** The five assessment labels, best first. */
  const Labels: seq<string> := ["Excellent", "Good", "Fair", "Needs Improvement", "Poor"]

  /** `_get_quality_assessment` on the mean score. */
  function Assessment(avg: real): (r: string)
    ensures r in Labels
  {
    if avg >= 0.9 then "Excellent"
    else if avg >= 0.8 then "Good"
    else if avg >= 0.7 then "Fair"
    else if avg >= 0.6 then "Needs Improvement"
    else "Poor"
  }

  /** The position of a label, 0 the best. */
  function Rank(name: string): nat
  {
    if name == "Excellent" then 0
    else if name == "Good" then 1
    else if name == "Fair" then 2
    else if name == "Needs Improvement" then 3
    else 4
  }

  /** A higher score never earns a worse label, and each label covers a band of width 0.1 below 0.9. */
  lemma AssessmentMonotone(a: real, b: real)
    requires a <= b
    ensures Rank(Assessment(b)) <= Rank(Assessment(a))
    ensures Rank(Assessment(a)) == 0 <==> a >= 0.9
    ensures Rank(Assessment(a)) == 4 <==> a < 0.6
  {
  }

  /** `sum(len(issues) for issues in results.values())` */
  function TotalIssues(order: seq<string>, results: map<string, seq<Dict>>): nat
    decreases |order|
  {
    if |order| == 0 then 0
    else
      var k := order[|order| - 1];
      TotalIssues(order[..|order| - 1], results) + (if k in results then |results[k]| else 0)
  }

  /** Every kind's findings are counted in the total. */
  lemma {:induction false} TotalCountsEach(order: seq<string>, results: map<string, seq<Dict>>, i: nat)
    requires i < |order| && order[i] in results
    ensures |results[order[i]]| <= TotalIssues(order, results)
    decreases |order|
  {
    var n := |order| - 1;
    if i < n {
      assert order[..n][i] == order[i];
      TotalCountsEach(order[..n], results, i);
    }
  }

  /** No analyzer run, or none with findings, gives a total of zero. */
  lemma {:induction false} TotalZero(order: seq<string>, results: map<string, seq<Dict>>)
    requires forall i :: 0 <= i < |order| && order[i] in results ==> |results[order[i]]| == 0
    ensures TotalIssues(order, results) == 0
    decreases |order|
  {
    if |order| > 0 {
      var n := |order| - 1;
      assert forall i :: 0 <= i < n ==> order[..n][i] == order[i];
      TotalZero(order[..n], results);
    }
  }

  /** The number of findings whose `key` holds the string `value`. */
  function CountWhere(items: seq<Dict>, key: string, value: string): (r: nat)
    ensures r <= |items|
    decreases |items|
  {
    if |items| == 0 then 0
    else (CountWhere(items[..|items| - 1], key, value)
      + (if Get(items[|items| - 1], key, Null) == Str(value) then 1 else 0))
  }

  /** The findings of a kind, empty when it did not run. */
  function FindingsOf(c: Collected, kind: string): seq<Dict>
  {
    if kind in c.results then c.results[kind] else []
  }

  /** The high-severity flow issues. */
  function FlowHigh(c: Collected): nat { CountWhere(FindingsOf(c, "flow"), "severity", "high") }

  /** The syntax errors among the code findings. */
  function SyntaxErrors(c: Collected): nat { CountWhere(FindingsOf(c, "code"), "error_type", "syntax") }

  /** The critical theory deviations. */
  function CriticalDeviations(c: Collected): nat { CountWhere(FindingsOf(c, "theory"), "severity", "critical") }

  /** The high-severity terminology findings. */
  function TermsHigh(c: Collected): nat { CountWhere(FindingsOf(c, "terminology"), "severity", "high") }

  /** The text of an insight line, as the summary stores it. */
  function Text(i: Insight): string
  {
    match i
    case ContradictionsFound(n) => "Found " + NatToString(n) + " logical contradictions"
    case HighFlowIssues(n) => NatToString(n) + " high-severity flow issues detected"
    case SyntaxErrorsFound(n) => NatToString(n) + " syntax errors in code examples"
    case CriticalTheoryIssues(n) => NatToString(n) + " critical theoretical accuracy issues"
    case HighTermIssues(n) => NatToString(n) + " high-severity terminology inconsistencies"
    case TermVariations(n) => "Found " + NatToString(n) + " terminology variations"
  }

  /** Two texts whose endings differ k characters from the end differ, whatever precedes them. */
  lemma TailsDiffer(a: string, s1: string, b: string, s2: string, k: nat)
    requires k < |s1| && k < |s2| && s1[|s1| - 1 - k] != s2[|s2| - 1 - k]
    ensures a + s1 != b + s2
  {
    var x, y := a + s1, b + s2;
    assert x[|x| - 1 - k] == s1[|s1| - 1 - k];
    assert y[|y| - 1 - k] == s2[|s2| - 1 - k];
  }

  /** No two insight lines of different kinds have the same text, whatever their counts. */
  lemma {:induction false} LinesDistinct(m: nat, n: nat)
    ensures Text(ContradictionsFound(m)) != Text(HighFlowIssues(n))
      && Text(ContradictionsFound(m)) != Text(SyntaxErrorsFound(n))
      && Text(ContradictionsFound(m)) != Text(CriticalTheoryIssues(n))
      && Text(ContradictionsFound(m)) != Text(HighTermIssues(n))
      && Text(ContradictionsFound(m)) != Text(TermVariations(n))
    ensures Text(HighFlowIssues(m)) != Text(SyntaxErrorsFound(n))
      && Text(HighFlowIssues(m)) != Text(CriticalTheoryIssues(n))
      && Text(HighFlowIssues(m)) != Text(HighTermIssues(n))
      && Text(HighFlowIssues(m)) != Text(TermVariations(n))
    ensures Text(SyntaxErrorsFound(m)) != Text(CriticalTheoryIssues(n))
      && Text(SyntaxErrorsFound(m)) != Text(HighTermIssues(n))
      && Text(SyntaxErrorsFound(m)) != Text(TermVariations(n))
    ensures Text(CriticalTheoryIssues(m)) != Text(HighTermIssues(n))
      && Text(CriticalTheoryIssues(m)) != Text(TermVariations(n))
    ensures Text(HighTermIssues(m)) != Text(TermVariations(n))
  {
    var c, f, x := " logical contradictions", " high-severity flow issues detected", " syntax errors in code examples";
    var t, h, v := " critical theoretical accuracy issues", " high-severity terminology inconsistencies", " terminology variations";
    var cm, vn := "Found " + NatToString(m), "Found " + NatToString(n);
    var dm, dn := NatToString(m), NatToString(n);
    TailsDiffer(cm, c, dn, f, 0);
    TailsDiffer(cm, c, dn, x, 1);
    TailsDiffer(cm, c, dn, t, 1);
    TailsDiffer(cm, c, dn, h, 1);
    TailsDiffer(cm, c, vn, v, 5);
    TailsDiffer(dm, f, dn, x, 0);
    TailsDiffer(dm, f, dn, t, 0);
    TailsDiffer(dm, f, dn, h, 0);
    TailsDiffer(dm, f, vn, v, 0);
    TailsDiffer(dm, x, dn, t, 2);
    TailsDiffer(dm, x, dn, h, 2);
    TailsDiffer(dm, x, vn, v, 1);
    TailsDiffer(dm, t, dn, h, 2);
    TailsDiffer(dm, t, vn, v, 1);
    TailsDiffer(dm, h, vn, v, 1);
  }

  lemma CancelSuffix(a: string, b: string, s: string)
    requires a + s == b + s
    ensures a == b
  {
    assert a == (a + s)[..|a|];
    assert b == (b + s)[..|b|];
  }

  lemma CancelPrefix(p: string, a: string, b: string)
    requires p + a == p + b
    ensures a == b
  {
    assert a == (p + a)[|p|..];
    assert b == (p + b)[|p|..];
  }

  /** Different insights have different texts: a summary's lines say which kind and count they report. */
  lemma TextInjective(i: Insight, j: Insight)
    ensures Text(i) == Text(j) ==> i == j
  {
    if Text(i) == Text(j) {
      LinesDistinct(i.n, j.n);
      LinesDistinct(j.n, i.n);
      match i {
      case ContradictionsFound(m) =>
        if j.ContradictionsFound? { CancelSuffix("Found " + NatToString(m), "Found " + NatToString(j.n), " logical contradictions"); CancelPrefix("Found ", NatToString(m), NatToString(j.n)); }
      case HighFlowIssues(m) =>
        if j.HighFlowIssues? { CancelSuffix(NatToString(m), NatToString(j.n), " high-severity flow issues detected"); }
      case SyntaxErrorsFound(m) =>
        if j.SyntaxErrorsFound? { CancelSuffix(NatToString(m), NatToString(j.n), " syntax errors in code examples"); }
      case CriticalTheoryIssues(m) =>
        if j.CriticalTheoryIssues? { CancelSuffix(NatToString(m), NatToString(j.n), " critical theoretical accuracy issues"); }
      case HighTermIssues(m) =>
        if j.HighTermIssues? { CancelSuffix(NatToString(m), NatToString(j.n), " high-severity terminology inconsistencies"); }
      case TermVariations(m) =>
        if j.TermVariations? { CancelSuffix("Found " + NatToString(m), "Found " + NatToString(j.n), " terminology variations"); CancelPrefix("Found ", NatToString(m), NatToString(j.n)); }
      }
      NatToStringInjective(i.n, j.n);
    }
  }

  /**
   * `key_insights`: in a fixed order, one line for each kind with something noteworthy.
   * Each line appears exactly when its condition holds, and no other line appears.
   */
  function Insights(c: Collected): (r: seq<Insight>)
    ensures |r| <= 5
    ensures ContradictionsFound(|FindingsOf(c, "contradiction")|) in r <==> |FindingsOf(c, "contradiction")| > 0
    ensures HighFlowIssues(FlowHigh(c)) in r <==> FlowHigh(c) > 0
    ensures SyntaxErrorsFound(SyntaxErrors(c)) in r <==> SyntaxErrors(c) > 0
    ensures CriticalTheoryIssues(CriticalDeviations(c)) in r <==> CriticalDeviations(c) > 0
    ensures HighTermIssues(TermsHigh(c)) in r <==> TermsHigh(c) > 0
    ensures TermVariations(|FindingsOf(c, "terminology")|) in r <==> |FindingsOf(c, "terminology")| > 0 && TermsHigh(c) == 0
    ensures |FindingsOf(c, "terminology")| > 0 ==> |r| >= 1
    ensures forall i :: i in r ==> i in [ContradictionsFound(|FindingsOf(c, "contradiction")|),
      HighFlowIssues(FlowHigh(c)), SyntaxErrorsFound(SyntaxErrors(c)), CriticalTheoryIssues(CriticalDeviations(c)),
      HighTermIssues(TermsHigh(c)), TermVariations(|FindingsOf(c, "terminology")|)]
  {
    InsightLines(|FindingsOf(c, "contradiction")|, FlowHigh(c), SyntaxErrors(c), CriticalDeviations(c),
      |FindingsOf(c, "terminology")|, TermsHigh(c))
  }

  datatype Summary = Summary(
    totalIssues: nat,
    issuesByType: map<string, nat>,
    assessment: string,
    insights: seq<string>)

  /** `_create_summary` */
  function Summarize(c: Collected): (s: Summary)
    ensures s.issuesByType.Keys == c.results.Keys
    ensures forall k :: k in c.results ==> s.issuesByType[k] == |c.results[k]|
    ensures s.totalIssues == TotalIssues(c.order, c.results)
    ensures s.assessment == Assessment(Overall(c)) && s.assessment in Labels
    ensures |s.insights| == |Insights(c)|
    ensures forall k :: 0 <= k < |s.insights| ==> s.insights[k] == Text(Insights(c)[k])
  {
    Summary(TotalIssues(c.order, c.results), map k | k in c.results :: |c.results[k]|,
      Assessment(Overall(c)), seq(|Insights(c)|, k requires 0 <= k < |Insights(c)| => Text(Insights(c)[k])))
  }

  /** `ComprehensiveReport`; `sections` holds the finding lists of the kinds that ran. */
  datatype Report = Report(
    totalChapters: nat,
    checkTypes: seq<string>,
    sections: map<string, seq<Dict>>,
    overallScore: real,
    subscores: map<string, real>,
    summary: Summary)

  /** The report field of a kind (`contradictions`, `flow_issues`, ...): `None` when it did not run. */
  function Section(r: Report, kind: string): Option<seq<Dict>>
  {
    if kind in r.sections then Some(r.sections[kind]) else None
  }

  function ReportOf(totalChapters: nat, kinds: seq<string>, c: Collected): Report
  {
    Report(totalChapters, kinds, c.results, Overall(c), c.scores, Summarize(c))
  }

  /** Everything `check` returns, or the exception an analyzer raised. */
  function CheckResult(run: Analyzer, chapters: seq<Chapters.Chapter>, checkTypes: Option<seq<string>>, testMode: bool)
    : Result<Report, Failure>
  {
    var kinds := checkTypes.GetOr(Registry);
    var scoped := Scope(chapters, testMode);
    match Collect(run, kinds, scoped, testMode)
    case Err(e) => Err(e)
    case Ok(c) => Ok(ReportOf(|scoped|, kinds, c))
  }

  /**
   * A report lists the kinds asked for, however many of them are registered; it holds
   * a section and a subscore for exactly the registered ones, with the assessment of
   * its own overall score, and counts the chapters analysed.
   */
  lemma ReportShape(run: Analyzer, chapters: seq<Chapters.Chapter>, checkTypes: Option<seq<string>>, testMode: bool)
    requires CheckResult(run, chapters, checkTypes, testMode).Ok?
    ensures var r := CheckResult(run, chapters, checkTypes, testMode).value;
      var kinds := checkTypes.GetOr(Registry);
      r.checkTypes == kinds
      && r.totalChapters == (if testMode then Min(|chapters|, 3) else |chapters|)
      && (forall k :: Section(r, k).Some? <==> k in kinds && k in Registry)
      && (forall k :: k in r.subscores <==> k in kinds && k in Registry)
      && r.summary.assessment == Assessment(r.overallScore)
      && r.summary.issuesByType.Keys == r.sections.Keys
  {
    CollectContents(run, checkTypes.GetOr(Registry), Scope(chapters, testMode), testMode);
  }

  /** Kinds none of which is registered run nothing: the overall score is 0.0 and the assessment "Poor". */
  lemma UnknownKindsOnly(run: Analyzer, chapters: seq<Chapters.Chapter>, kinds: seq<string>, testMode: bool)
    requires forall j :: 0 <= j < |kinds| ==> kinds[j] !in Registry
    ensures CheckResult(run, chapters, Some(kinds), testMode).Ok?
    ensures var r := CheckResult(run, chapters, Some(kinds), testMode).value;
      r.checkTypes == kinds && r.sections == map[] && r.overallScore == 0.0 && r.summary.assessment == "Poor"
      && r.summary.totalIssues == 0
  {
    var scoped := Scope(chapters, testMode);
    CollectFails(run, kinds, scoped, testMode);
    CollectContents(run, kinds, scoped, testMode);
    var c := Collect(run, kinds, scoped, testMode).value;
    assert forall k :: k !in c.order;
    NoMembers(c.order);
    assert c.results == map[];
  }

  /** A sequence without members is empty. */
  lemma NoMembers<T>(s: seq<T>)
    ensures (forall x :: x !in s) ==> s == []
  {
    if |s| > 0 {
      assert s[0] in s;
    }
  }

  /** One pass of the loop of `check`: the analyzer of a registered kind runs, on two chapters for redundancy in test mode. */
  method RunKind(run: Analyzer, c: Collected, kind: string, chapters: seq<Chapters.Chapter>, testMode: bool)
    returns (r: Result<Collected, Failure>)
    ensures r == Step(run, c, kind, chapters, testMode)
  {
    if kind !in Registry {
      return Ok(c);
    }
    var input := if kind == "redundancy" && testMode then Take(chapters, 2) else chapters;
    var res := run(kind, input);
    if res.Err? {
      return Err(res.error);
    }
    r := Ok(Record(c, kind, res.value));
  }

  /** `check` */
  method Check(run: Analyzer, chapters: seq<Chapters.Chapter>, checkTypes: Option<seq<string>>, testMode: bool)
    returns (r: Result<Report, Failure>)
    ensures r == CheckResult(run, chapters, checkTypes, testMode)
  {
    var kinds := if checkTypes.Some? then checkTypes.value else Registry;
    var scoped := if testMode then Take(chapters, 3) else chapters;
    assert kinds == checkTypes.GetOr(Registry) && scoped == Scope(chapters, testMode);
    var c := Collected([], map[], map[]);
    var i := 0;
    assert kinds[..0] == [];
    while i < |kinds|
      invariant i <= |kinds| && Collect(run, kinds[..i], scoped, testMode) == Ok(c)
    {
      var next := RunKind(run, c, kinds[i], scoped, testMode);
      CollectNext(run, kinds, scoped, testMode, i);
      if next.Err? {
        CollectErrStays(run, kinds, scoped, testMode, i + 1);
        return Err(next.error);
      }
      c := next.value;
      i := i + 1;
    }
    assert kinds[..i] == kinds;
    r := Ok(ReportOf(|scoped|, kinds, c));
  }

  /** Once an analyzer raises, the rest of the loop is never reached. */
  lemma {:induction false} CollectErrStays(run: Analyzer, kinds: seq<string>, chapters: seq<Chapters.Chapter>,
                                           testMode: bool, i: nat)
    requires i <= |kinds| && Collect(run, kinds[..i], chapters, testMode).Err?
    ensures Collect(run, kinds, chapters, testMode) == Collect(run, kinds[..i], chapters, testMode)
    decreases |kinds| - i
  {
    if i < |kinds| {
      assert kinds[..i + 1][..i] == kinds[..i];
      CollectErrStays(run, kinds, chapters, testMode, i + 1);
    } else {
      assert kinds[..i] == kinds;
    }
  }
}
