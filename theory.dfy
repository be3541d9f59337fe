/**
 * `TheoryAnalyzer` (analyzers/theory.py): one model call per chapter, the reply's
 * deviations mapped with their defaults, and the mean of the chapters' scores.
 */
module TheoryAnalyzer {
  import opened Wrappers
  import opened Analysis
  import Chapters

  /** `TheoryDeviation` */
  datatype TheoryDeviation = TheoryDeviation(
    chapterId: string,
    excerpt: string,
    standardViolated: string,
    explanation: string,
    severity: string,
    correctApproach: string)

  // ---------------------------------------------------------------------------
  // The standards named in the prompt
  // ---------------------------------------------------------------------------

  /** `STANDARDS`, category by category, in declaration order. */
  const Standards: seq<(string, seq<string>)> := [
    ("SOLID", [
      "Single Responsibility Principle",
      "Open/Closed Principle",
      "Liskov Substitution Principle",
      "Interface Segregation Principle",
      "Dependency Inversion Principle"]),
    ("Design Patterns", [
      "Singleton", "Factory", "Observer", "Strategy", "Decorator",
      "Adapter", "Facade", "Template Method", "Iterator", "Composite"]),
    ("Principles", [
      "DRY (Don't Repeat Yourself)",
      "KISS (Keep It Simple, Stupid)",
      "YAGNI (You Aren't Gonna Need It)",
      "Separation of Concerns",
      "Law of Demeter"]),
    ("Architecture", [
      "Clean Architecture",
      "Hexagonal Architecture",
      "Domain-Driven Design",
      "Event-Driven Architecture",
      "Microservices"])]

  /** The items of every category, one category after the other. */
  function Flatten(categories: seq<(string, seq<string>)>): seq<string>
    decreases |categories|
  {
    if |categories| == 0 then []
    else Flatten(categories[..|categories| - 1]) + categories[|categories| - 1].1
  }

  /** A standard is listed exactly when some category holds it. */
  lemma {:induction false} FlattenMembers(categories: seq<(string, seq<string>)>, x: string)
    ensures x in Flatten(categories) <==> exists c :: 0 <= c < |categories| && x in categories[c].1
    decreases |categories|
  {
    if |categories| > 0 {
      var n := |categories| - 1;
      FlattenMembers(categories[..n], x);
      if x in Flatten(categories[..n]) {
        var c :| 0 <= c < n && x in categories[..n][c].1;
        assert categories[c] == categories[..n][c];
      }
      if exists c :: 0 <= c < |categories| && x in categories[c].1 {
        var c :| 0 <= c < |categories| && x in categories[c].1;
        if c < n {
          assert categories[..n][c] == categories[c];
        }
      }
    }
  }

  /** The flattening loop of `get_prompt`. */
  method StandardsList(categories: seq<(string, seq<string>)>) returns (standards: seq<string>)
    ensures standards == Flatten(categories)
  {
    standards := [];
    var i := 0;
    while i < |categories|
      invariant i <= |categories| && standards == Flatten(categories[..i])
    {
      assert categories[..i + 1][..i] == categories[..i];
      standards := standards + categories[i].1;
      i := i + 1;
    }
    assert categories[..i] == categories;
  }

  /** The prompt lists 25 standards, SOLID first and the architectures last. */
  lemma StandardsListed()
    ensures |Flatten(Standards)| == 25
    ensures Flatten(Standards)[0] == "Single Responsibility Principle"
    ensures Flatten(Standards)[24] == "Microservices"
  {
    var s := Standards;
    assert s[..1][..0] == [] && s[..2][..1] == s[..1] && s[..3][..2] == s[..2] && s[..4] == s && s[..4][..3] == s[..3];
    assert Flatten(s[..1]) == s[0].1;
    assert Flatten(s[..2]) == s[0].1 + s[1].1;
    assert Flatten(s[..3]) == s[0].1 + s[1].1 + s[2].1;
    assert Flatten(s) == s[0].1 + s[1].1 + s[2].1 + s[3].1;
  }

  // ---------------------------------------------------------------------------
  // One chapter
  // ---------------------------------------------------------------------------

  /** One entry of the reply's `deviations`; a key left out is `None`. */
  datatype DeviationData = DeviationData(
    excerpt: Option<string>,
    standardViolated: Option<string>,
    explanation: Option<string>,
    severity: Option<string>,
    correctApproach: Option<string>)

  datatype TheoryReply = TheoryReply(
    deviations: Option<seq<DeviationData>>,
    theoryScore: Option<real>,
    positiveAspects: Option<seq<string>>)

  /** What `_analyze_chapter_theory` returns for one chapter. */
  datatype ChapterTheory = ChapterTheory(deviations: seq<TheoryDeviation>, score: real, positives: seq<string>)

  /** The score and positives a chapter gets when its reply does not parse. */
  const FallbackScore := 0.8

  function FromData(chapterId: string, data: DeviationData): (r: TheoryDeviation)
    ensures r.chapterId == chapterId && r.excerpt == data.excerpt.GetOr("")
    ensures r.standardViolated == data.standardViolated.GetOr("unknown") && r.severity == data.severity.GetOr("minor")
    ensures r.explanation == data.explanation.GetOr("") && r.correctApproach == data.correctApproach.GetOr("")
  {
    TheoryDeviation(chapterId, data.excerpt.GetOr(""), data.standardViolated.GetOr("unknown"),
      data.explanation.GetOr(""), data.severity.GetOr("minor"), data.correctApproach.GetOr(""))
  }

  /** The score a chapter gets from its reply, the call having succeeded. */
  function ScoreOf(reply: string, decode: string -> Option<TheoryReply>): (s: real)
    ensures decode(reply).Some? ==> s == decode(reply).value.theoryScore.GetOr(FallbackScore)
    ensures decode(reply).None? && Replies.FencedBody(reply).None? ==> s == FallbackScore
  {
    match Ask(Some(reply), decode)
    case Ok(v) => v.theoryScore.GetOr(FallbackScore)
    case Err(_) => FallbackScore
  }

  /**
   * `_analyze_chapter_theory` on the model's reply (`None` when the call raised): a failed
   * call escapes; a reply that does not parse gives no deviations, the fallback score and
   * no positives; otherwise every deviation is mapped, and a missing score is the fallback.
   */
  function AnalyzeChapter(reply: Option<string>, decode: string -> Option<TheoryReply>, chapterId: string)
    : (r: Result<ChapterTheory, Failure>)
    ensures r.Err? <==> reply.None?
    ensures r.Err? ==> r.error == LlmError
    ensures r.Ok? ==> forall d :: d in r.value.deviations ==> d.chapterId == chapterId
    ensures r.Ok? ==> r.value.score == ScoreOf(reply.value, decode)
  {
    match Ask(reply, decode)
    case Err(LlmError) => Err(LlmError)
    case Err(_) => Ok(ChapterTheory([], FallbackScore, []))
    case Ok(v) =>
      var datas := v.deviations.GetOr([]);
      Ok(ChapterTheory(seq(|datas|, k requires 0 <= k < |datas| => FromData(chapterId, datas[k])),
        v.theoryScore.GetOr(FallbackScore), v.positiveAspects.GetOr([])))
  }

  /**
   * A reply that does not parse, even inside a fence, gives the fallback; a parsed one
   * gives its deviations mapped with their defaults, its score (the fallback when
   * missing) and its positives.
   */
  lemma ChapterReply(reply: Option<string>, decode: string -> Option<TheoryReply>, chapterId: string)
    ensures reply.Some? && decode(reply.value).None? && Replies.FencedBody(reply.value).None?
      ==> AnalyzeChapter(reply, decode, chapterId) == Ok(ChapterTheory([], FallbackScore, []))
    ensures reply.Some? && decode(reply.value).Some? ==>
      var v := decode(reply.value).value;
      var datas := v.deviations.GetOr([]);
      AnalyzeChapter(reply, decode, chapterId).Ok? && |AnalyzeChapter(reply, decode, chapterId).value.deviations| == |datas|
      && (forall k :: 0 <= k < |datas| ==> AnalyzeChapter(reply, decode, chapterId).value.deviations[k] == FromData(chapterId, datas[k]))
      && AnalyzeChapter(reply, decode, chapterId).value.score == v.theoryScore.GetOr(FallbackScore) && AnalyzeChapter(reply, decode, chapterId).value.positives == v.positiveAspects.GetOr([])
  {
  }

  // ---------------------------------------------------------------------------
  // All chapters
  // ---------------------------------------------------------------------------

  /** What the loop of `analyze` has gathered. */
  datatype Totals = Totals(deviations: seq<TheoryDeviation>, scores: seq<real>, positives: seq<string>)

  /** The gathered results extended by one more chapter's; a failure on either side stays. */
  function Extend(t: Result<Totals, Failure>, one: Result<ChapterTheory, Failure>): (r: Result<Totals, Failure>)
    ensures r.Err? <==> t.Err? || one.Err?
    ensures t.Ok? && one.Ok? ==> r.value.scores == t.value.scores + [one.value.score]
  {
    match t
    case Err(e) => Err(e)
    case Ok(t) =>
      match one
      case Err(e) => Err(e)
      case Ok(one) => Ok(Totals(t.deviations + one.deviations, t.scores + [one.score], t.positives + one.positives))
  }

  /** `_analyze_chapter_theory` for each chapter, `llm` giving the reply to its prompt. */
  function ChapterOf(llm: Chapters.Chapter -> Option<string>, decode: string -> Option<TheoryReply>)
    : Chapters.Chapter -> Result<ChapterTheory, Failure>
  {
    c => AnalyzeChapter(llm(c), decode, Chapters.GetId(c))
  }

  /** The chapters' results gathered in order; the first failure escapes. */
  function Gather(f: Chapters.Chapter -> Result<ChapterTheory, Failure>, chapters: seq<Chapters.Chapter>)
    : (r: Result<Totals, Failure>)
    ensures r.Ok? ==> |r.value.scores| == |chapters|
    decreases |chapters|
  {
    if |chapters| == 0 then Ok(Totals([], [], []))
    else Extend(Gather(f, chapters[..|chapters| - 1]), f(chapters[|chapters| - 1]))
  }

  lemma GatherNext(f: Chapters.Chapter -> Result<ChapterTheory, Failure>, chapters: seq<Chapters.Chapter>, i: nat)
    requires i < |chapters|
    ensures Gather(f, chapters[..i + 1]) == Extend(Gather(f, chapters[..i]), f(chapters[i]))
  {
    assert chapters[..i + 1][..i] == chapters[..i];
  }

  /** The gathering fails exactly when some chapter fails. */
  lemma {:induction false} GatherFails(f: Chapters.Chapter -> Result<ChapterTheory, Failure>, chapters: seq<Chapters.Chapter>)
    ensures Gather(f, chapters).Err? <==> exists k :: 0 <= k < |chapters| && f(chapters[k]).Err?
    decreases |chapters|
  {
    if |chapters| > 0 {
      var n := |chapters| - 1;
      GatherFails(f, chapters[..n]);
      if exists k :: 0 <= k < n && f(chapters[..n][k]).Err? {
        var k :| 0 <= k < n && f(chapters[..n][k]).Err?;
        assert chapters[k] == chapters[..n][k];
      }
      if exists k :: 0 <= k < |chapters| && f(chapters[k]).Err? {
        var k :| 0 <= k < |chapters| && f(chapters[k]).Err?;
        if k < n {
          assert chapters[..n][k] == chapters[k];
        }
      }
    }
  }

  /** Chapter k's score is the k-th gathered. */
  lemma {:induction false} GatherScores(f: Chapters.Chapter -> Result<ChapterTheory, Failure>, chapters: seq<Chapters.Chapter>)
    requires Gather(f, chapters).Ok?
    ensures forall k :: 0 <= k < |chapters| ==>
      f(chapters[k]).Ok? && Gather(f, chapters).value.scores[k] == f(chapters[k]).value.score
    decreases |chapters|
  {
    if |chapters| > 0 {
      var n := |chapters| - 1;
      GatherScores(f, chapters[..n]);
      var t := Gather(f, chapters[..n]).value;
      forall k | 0 <= k < |chapters|
        ensures f(chapters[k]).Ok? && Gather(f, chapters).value.scores[k] == f(chapters[k]).value.score
      {
        if k < n {
          assert chapters[..n][k] == chapters[k];
          assert Gather(f, chapters).value.scores[k] == t.scores[k];
        }
      }
    }
  }

  /** The run fails exactly when the call for some chapter fails, and then with that failure. */
  lemma CallFailures(llm: Chapters.Chapter -> Option<string>, decode: string -> Option<TheoryReply>,
                     chapters: seq<Chapters.Chapter>)
    ensures Gather(ChapterOf(llm, decode), chapters).Err? <==> exists k :: 0 <= k < |chapters| && llm(chapters[k]).None?
    ensures Gather(ChapterOf(llm, decode), chapters).Err? ==> Gather(ChapterOf(llm, decode), chapters).error == LlmError
  {
    var f := ChapterOf(llm, decode);
    GatherFails(f, chapters);
    forall c ensures f(c).Err? ==> f(c).error == LlmError {
      assert f(c) == AnalyzeChapter(llm(c), decode, Chapters.GetId(c));
    }
    GatherError(f, chapters);
    forall k | 0 <= k < |chapters| ensures f(chapters[k]).Err? <==> llm(chapters[k]).None? {
      assert f(chapters[k]) == AnalyzeChapter(llm(chapters[k]), decode, Chapters.GetId(chapters[k]));
    }
  }

  /** A gathered failure is one of the chapters' failures. */
  lemma {:induction false} GatherError(f: Chapters.Chapter -> Result<ChapterTheory, Failure>, chapters: seq<Chapters.Chapter>)
    requires forall c :: f(c).Err? ==> f(c).error == LlmError
    ensures Gather(f, chapters).Err? ==> Gather(f, chapters).error == LlmError
    decreases |chapters|
  {
    if |chapters| > 0 {
      GatherError(f, chapters[..|chapters| - 1]);
    }
  }

  /** `_deviation_to_dict` */
  function ToDict(d: TheoryDeviation): (r: Dict)
    ensures r.Keys == {"chapter_id", "excerpt", "standard_violated", "explanation", "severity", "correct_approach"}
  {
    map[
      "chapter_id" := Str(d.chapterId),
      "excerpt" := Str(d.excerpt),
      "standard_violated" := Str(d.standardViolated),
      "explanation" := Str(d.explanation),
      "severity" := Str(d.severity),
      "correct_approach" := Str(d.correctApproach)]
  }

  function FromDict(r: Dict): Option<TheoryDeviation>
  {
    if {"chapter_id", "excerpt", "standard_violated", "explanation", "severity", "correct_approach"} <= r.Keys
      && r["chapter_id"].Str? && r["excerpt"].Str? && r["standard_violated"].Str?
      && r["explanation"].Str? && r["severity"].Str? && r["correct_approach"].Str?
    then Some(TheoryDeviation(r["chapter_id"].s, r["excerpt"].s, r["standard_violated"].s,
      r["explanation"].s, r["severity"].s, r["correct_approach"].s))
    else None
  }

  /** Nothing is lost by the conversion to a dictionary. */
  lemma DictRoundTrip(d: TheoryDeviation)
    ensures FromDict(ToDict(d)) == Some(d)
  {
  }

  /** The result `analyze` returns: every deviation, and the mean score (0.0 for no chapters). */
  function Summarize(t: Totals): (r: AnalysisResult)
    ensures r.analyzerType == "theory" && r.details.Items? && r.totalIssues == |r.details.items| == |t.deviations|
    ensures forall x :: 0 <= x < |t.deviations| ==> FromDict(r.details.items[x]) == Some(t.deviations[x])
    ensures r.confidenceScore == Mean(t.scores, 0.0)
  {
    AnalysisResult("theory", |t.deviations|, Mean(t.scores, 0.0), Items(ToDicts(ToDict, t.deviations)))
  }

  /** With every chapter's score within [0, 1], so is the confidence. */
  lemma ConfidenceBounds(llm: Chapters.Chapter -> Option<string>, decode: string -> Option<TheoryReply>,
                         chapters: seq<Chapters.Chapter>)
    requires Gather(ChapterOf(llm, decode), chapters).Ok?
    requires forall k :: 0 <= k < |chapters| && llm(chapters[k]).Some? ==> 0.0 <= ScoreOf(llm(chapters[k]).value, decode) <= 1.0
    ensures 0.0 <= Summarize(Gather(ChapterOf(llm, decode), chapters).value).confidenceScore <= 1.0
  {
    var f := ChapterOf(llm, decode);
    var scores := Gather(f, chapters).value.scores;
    GatherScores(f, chapters);
    forall k | 0 <= k < |scores| ensures 0.0 <= scores[k] <= 1.0 {
      assert f(chapters[k]).Ok?;
    }
    MeanBounds(scores, 0.0, 0.0, 1.0);
  }

  /**
   * `analyze`: the loop over the chapters, summing their scores and gathering their
   * deviations and positives; a failed call escapes.
   */
  method Analyze(llm: Chapters.Chapter -> Option<string>, decode: string -> Option<TheoryReply>,
                 chapters: seq<Chapters.Chapter>) returns (r: Result<AnalysisResult, Failure>)
    ensures var g := Gather(ChapterOf(llm, decode), chapters);
      (g.Err? ==> r == Err(g.error)) && (g.Ok? ==> r == Ok(Summarize(g.value)))
  {
    ghost var f := ChapterOf(llm, decode);
    var deviations: seq<TheoryDeviation> := [];
    var scores: seq<real> := [];
    var totalScore := 0.0;
    var positives: seq<string> := [];
    var i := 0;
    while i < |chapters|
      invariant i <= |chapters|
      invariant Gather(f, chapters[..i]) == Ok(Totals(deviations, scores, positives))
      invariant totalScore == Sum(scores)
    {
      var c := chapters[i];
      var one := AnalyzeChapter(llm(c), decode, Chapters.GetId(c));
      assert f(c) == one;
      GatherNext(f, chapters, i);
      if one.Err? {
        GatherErrStays(f, chapters, i + 1);
        return Err(one.error);
      }
      deviations := deviations + one.value.deviations;
      SumAppend(scores, one.value.score);
      scores := scores + [one.value.score];
      totalScore := totalScore + one.value.score;
      positives := positives + one.value.positives;
      i := i + 1;
    }
    assert chapters[..i] == chapters;
    var average := if |chapters| > 0 then totalScore / |chapters| as real else 0.0;
    assert average == Mean(scores, 0.0);
    r := Ok(AnalysisResult("theory", |deviations|, average, Items(ToDicts(ToDict, deviations))));
  }

  /** Once a chapter fails, so does the whole run. */
  lemma {:induction false} GatherErrStays(f: Chapters.Chapter -> Result<ChapterTheory, Failure>,
                                          chapters: seq<Chapters.Chapter>, i: nat)
    requires i <= |chapters| && Gather(f, chapters[..i]).Err?
    ensures Gather(f, chapters) == Gather(f, chapters[..i])
    decreases |chapters| - i
  {
    if i < |chapters| {
      assert chapters[..i + 1][..i] == chapters[..i];
      GatherErrStays(f, chapters, i + 1);
    } else {
      assert chapters[..i] == chapters;
    }
  }
}
