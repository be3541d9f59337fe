/**
 * The model side of `TerminologyAnalyzer` (analyzers/terminology.py) and `analyze`
 * itself: the reply for a chapter pair mapped to findings, the pair loop capped at ten
 * calls, the consistency score and the summary.
 */
module TerminologyAnalyzer {
  import opened Wrappers
  import opened Strings
  import opened Dicts
  import opened Pairs
  import opened Analysis
  import opened Terminology
  import Chapters

  // ---------------------------------------------------------------------------
  // The model's reply for one pair
  // ---------------------------------------------------------------------------

  /** One entry of `examples`; a key the reply leaves out is `None`. */
  datatype Example = Example(chapterId: Option<string>, termUsed: Option<string>)

  /** One entry of `inconsistencies`. */
  datatype IncData = IncData(
    termsFound: Option<seq<string>>,
    recommendedTerm: Option<string>,
    severity: Option<string>,
    explanation: Option<string>,
    examples: Option<seq<Example>>)

  /** The decoded reply. */
  datatype LlmReply = LlmReply(inconsistencies: Option<seq<IncData>>)

  /** `example['chapter_id']` and `example['term_used']` both succeed. */
  predicate Complete(e: Example)
  {
    e.chapterId.Some? && e.termUsed.Some?
  }

  /** The `chapters_usage` loop: every example's term appended under its chapter. */
  function UsageFrom(examples: seq<Example>): Result<map<string, seq<string>>, Failure>
    decreases |examples|
  {
    if |examples| == 0 then Ok(map[])
    else
      match UsageFrom(examples[..|examples| - 1])
      case Err(e) => Err(e)
      case Ok(usage) =>
        var e := examples[|examples| - 1];
        if e.chapterId.None? then Err(KeyError("chapter_id"))
        else if e.termUsed.None? then Err(KeyError("term_used"))
        else
          var id := e.chapterId.value;
          Ok(usage[id := (if id in usage then usage[id] else []) + [e.termUsed.value]])
  }

  /** The terms the examples give for chapter `id`, in order. */
  function TermsFor(examples: seq<Example>, id: string): seq<string>
    decreases |examples|
  {
    if |examples| == 0 then []
    else
      var e := examples[|examples| - 1];
      TermsFor(examples[..|examples| - 1], id)
      + (if e.chapterId == Some(id) && e.termUsed.Some? then [e.termUsed.value] else [])
  }

  /** The usage is built iff every example has both keys; otherwise a `KeyError` escapes. */
  lemma UsageFromOk(examples: seq<Example>)
    ensures UsageFrom(examples).Ok? <==> forall k :: 0 <= k < |examples| ==> Complete(examples[k])
    ensures UsageFrom(examples).Err? ==> UsageFrom(examples).error.KeyError?
  {
    assert examples[..|examples|] == examples;
    UsageFromOkTo(examples, |examples|);
  }

  lemma {:induction false} UsageFromOkTo(examples: seq<Example>, m: nat)
    requires m <= |examples|
    ensures UsageFrom(examples[..m]).Ok? <==> forall k :: 0 <= k < m ==> Complete(examples[k])
    ensures UsageFrom(examples[..m]).Err? ==> UsageFrom(examples[..m]).error.KeyError?
    decreases m
  {
    if m > 0 {
      assert examples[..m][..m - 1] == examples[..m - 1];
      UsageFromOkTo(examples, m - 1);
    }
  }

  /**
   * A built usage maps exactly the chapters the examples name, each to the terms its
   * examples use, in order.
   */
  lemma UsageFromContents(examples: seq<Example>)
    requires UsageFrom(examples).Ok?
    ensures var usage := UsageFrom(examples).value;
      (forall id :: id in usage <==> exists k :: 0 <= k < |examples| && examples[k].chapterId == Some(id))
      && (forall id :: id in usage ==> usage[id] == TermsFor(examples, id))
  {
    assert examples[..|examples|] == examples;
    UsageFromContentsTo(examples, |examples|);
  }

  lemma {:induction false} UsageFromContentsTo(examples: seq<Example>, m: nat)
    requires m <= |examples| && UsageFrom(examples[..m]).Ok?
    ensures var usage := UsageFrom(examples[..m]).value;
      (forall id :: id in usage <==> exists k :: 0 <= k < m && examples[k].chapterId == Some(id))
      && (forall id :: id in usage ==> usage[id] == TermsFor(examples[..m], id))
    decreases m
  {
    if m > 0 {
      var prev := examples[..m - 1];
      assert examples[..m][..m - 1] == prev;
      UsageFromContentsTo(examples, m - 1);
      var usage := UsageFrom(prev).value;
      var e := examples[m - 1];
      var id0 := e.chapterId.value;
      assert UsageFrom(examples[..m]).value == usage[id0 := (if id0 in usage then usage[id0] else []) + [e.termUsed.value]];
      forall id | id in UsageFrom(examples[..m]).value
        ensures UsageFrom(examples[..m]).value[id] == TermsFor(examples[..m], id)
      {
        if id == id0 && id !in usage {
          TermsForAbsent(prev, id);
        }
      }
    }
  }

  /** An error in a prefix of the examples is the error of the whole loop. */
  lemma {:induction false} UsageErrorStays(examples: seq<Example>, m: nat)
    requires m <= |examples| && UsageFrom(examples[..m]).Err?
    ensures UsageFrom(examples) == UsageFrom(examples[..m])
    decreases |examples| - m
  {
    if m < |examples| {
      assert examples[..m + 1][..m] == examples[..m];
      UsageErrorStays(examples, m + 1);
    } else {
      assert examples[..m] == examples;
    }
  }

  /** A chapter no example names gets no terms. */
  lemma {:induction false} TermsForAbsent(examples: seq<Example>, id: string)
    requires forall k :: 0 <= k < |examples| ==> examples[k].chapterId != Some(id)
    ensures TermsFor(examples, id) == []
    decreases |examples|
  {
    if |examples| > 0 {
      TermsForAbsent(examples[..|examples| - 1], id);
    }
  }

  /** The body of the loop over `inconsistencies`, with the reply's defaults. */
  function IncFrom(data: IncData): (r: Result<TermInconsistency, Failure>)
    ensures r.Ok? <==> UsageFrom(data.examples.GetOr([])).Ok?
    ensures r.Ok? ==> r.value.chaptersUsage == UsageFrom(data.examples.GetOr([])).value
    ensures r.Ok? ==> (r.value.termVariations == data.termsFound.GetOr([])
      && r.value.canonicalTerm == data.recommendedTerm.GetOr("")
      && r.value.severity == data.severity.GetOr("medium")
      && r.value.explanation == data.explanation.GetOr(""))
  {
    match UsageFrom(data.examples.GetOr([]))
    case Err(e) => Err(e)
    case Ok(usage) =>
      Ok(TermInconsistency(data.termsFound.GetOr([]), data.recommendedTerm.GetOr(""), usage,
        data.severity.GetOr("medium"), data.explanation.GetOr("")))
  }

  /** The loop over `inconsistencies`; the first `KeyError` aborts it. */
  function IncsFrom(datas: seq<IncData>): (r: Result<seq<TermInconsistency>, Failure>)
    ensures r.Ok? <==> forall k :: 0 <= k < |datas| ==> IncFrom(datas[k]).Ok?
    ensures r.Ok? ==> |r.value| == |datas| && forall k :: 0 <= k < |datas| ==> r.value[k] == IncFrom(datas[k]).value
    decreases |datas|
  {
    if |datas| == 0 then Ok([])
    else
      var init := datas[..|datas| - 1];
      assert forall k :: 0 <= k < |init| ==> init[k] == datas[k];
      match IncsFrom(init)
      case Err(e) => Err(e)
      case Ok(incs) =>
        match IncFrom(datas[|datas| - 1])
        case Err(e) => Err(e)
        case Ok(inc) => Ok(incs + [inc])
  }

  /**
   * `_analyze_chapter_pair_terminology` on the reply to its model call (`None` when the
   * call raised): the findings the reply lists, or none when anything raised.
   */
  function PairFindings(reply: Option<string>, decode: string -> Option<LlmReply>): (r: seq<TermInconsistency>)
    ensures reply.None? ==> r == []
    ensures reply.Some? && decode(reply.value).Some? ==>
      var datas := decode(reply.value).value.inconsistencies.GetOr([]);
      r == if IncsFrom(datas).Ok? then IncsFrom(datas).value else []
  {
    match Ask(reply, decode)
    case Err(_) => []
    case Ok(v) =>
      match IncsFrom(v.inconsistencies.GetOr([]))
      case Err(_) => []
      case Ok(incs) => incs
  }

  /** A reply entry without `terms_found` yields a finding without variations. */
  lemma MissingTermsFound(data: IncData, others: seq<TermInconsistency>)
    requires data.termsFound.None? && IncFrom(data).Ok?
    ensures IncFrom(data).value.termVariations == []
    ensures RecommendationsAsWritten(others + [IncFrom(data).value]) == Err(IndexError)
  {
    var all := others + [IncFrom(data).value];
    assert |all[|others|].termVariations| == 0;
  }

  /** The example loop. */
  method CollectUsage(examples: seq<Example>) returns (r: Result<map<string, seq<string>>, Failure>)
    ensures r == UsageFrom(examples)
  {
    var usage: map<string, seq<string>> := map[];
    var k := 0;
    while k < |examples|
      invariant k <= |examples|
      invariant UsageFrom(examples[..k]) == Ok(usage)
    {
      var e := examples[k];
      assert examples[..k + 1][..k] == examples[..k];
      if e.chapterId.None? {
        UsageErrorStays(examples, k + 1);
        return Err(KeyError("chapter_id"));
      }
      if e.termUsed.None? {
        UsageErrorStays(examples, k + 1);
        return Err(KeyError("term_used"));
      }
      var id := e.chapterId.value;
      usage := usage[id := (if id in usage then usage[id] else []) + [e.termUsed.value]];
      k := k + 1;
    }
    assert examples[..k] == examples;
    r := Ok(usage);
  }

  /** An error in a prefix of the entries is the error of the whole loop. */
  lemma {:induction false} IncsErrorStays(datas: seq<IncData>, m: nat)
    requires m <= |datas| && IncsFrom(datas[..m]).Err?
    ensures IncsFrom(datas) == IncsFrom(datas[..m])
    decreases |datas| - m
  {
    if m < |datas| {
      assert datas[..m + 1][..m] == datas[..m];
      IncsErrorStays(datas, m + 1);
    } else {
      assert datas[..m] == datas;
    }
  }

  /** The `inconsistencies` loop. */
  method CollectInconsistencies(datas: seq<IncData>) returns (r: Result<seq<TermInconsistency>, Failure>)
    ensures r == IncsFrom(datas)
  {
    var incs: seq<TermInconsistency> := [];
    var k := 0;
    while k < |datas|
      invariant k <= |datas|
      invariant IncsFrom(datas[..k]) == Ok(incs)
    {
      var data := datas[k];
      assert datas[..k + 1][..k] == datas[..k];
      var usage := CollectUsage(data.examples.GetOr([]));
      if usage.Err? {
        IncsErrorStays(datas, k + 1);
        return Err(usage.error);
      }
      incs := incs + [TermInconsistency(data.termsFound.GetOr([]), data.recommendedTerm.GetOr(""), usage.value,
        data.severity.GetOr("medium"), data.explanation.GetOr(""))];
      k := k + 1;
    }
    assert datas[..k] == datas;
    r := Ok(incs);
  }

  // ---------------------------------------------------------------------------
  // The pair loop
  // ---------------------------------------------------------------------------

  /** The model calls `analyze` makes at most. */
  const MaxPairs: nat := 10

  /** The model's reply for the chapters at positions i and j (`None` when the call raised). */
  type Oracle = (nat, nat) -> Option<string>

  /** The findings of the first m pairs. */
  function LlmFindings(llm: Oracle, decode: string -> Option<LlmReply>, pairs: seq<Pair>, m: nat): seq<TermInconsistency>
    requires m <= |pairs|
  {
    if m == 0 then []
    else LlmFindings(llm, decode, pairs, m - 1) + PairFindings(llm(pairs[m - 1].0, pairs[m - 1].1), decode)
  }

  /** One more pair: its findings follow. */
  lemma {:induction false} LlmFindingsNext(llm: Oracle, decode: string -> Option<LlmReply>, pairs: seq<Pair>, m: nat)
    requires m < |pairs|
    ensures LlmFindings(llm, decode, pairs, m + 1)
      == LlmFindings(llm, decode, pairs, m) + PairFindings(llm(pairs[m].0, pairs[m].1), decode)
  {
    var p := pairs[m];
    assert LlmFindings(llm, decode, pairs, m + 1)
      == LlmFindings(llm, decode, pairs, m) + PairFindings(llm(p.0, p.1), decode);
  }

  lemma SliceNext<T>(s: seq<T>, m: nat)
    requires m < |s|
    ensures s[..m + 1] == s[..m] + [s[m]]
  {
  }

  /** One model call, on the pair the loops are at, and its findings. */
  method AskPair(llm: Oracle, decode: string -> Option<LlmReply>, n: nat, i: nat, j: nat,
                 incs0: seq<TermInconsistency>, calls0: seq<Pair>, totalPairs0: nat)
    returns (incs: seq<TermInconsistency>, calls: seq<Pair>, totalPairs: nat)
    requires totalPairs0 < |AllPairs(n)| && AllPairs(n)[totalPairs0] == (i, j)
    requires calls0 == AllPairs(n)[..totalPairs0]
    requires incs0 == LlmFindings(llm, decode, AllPairs(n), totalPairs0)
    ensures totalPairs == totalPairs0 + 1 && calls == AllPairs(n)[..totalPairs]
    ensures incs == LlmFindings(llm, decode, AllPairs(n), totalPairs)
  {
    LlmFindingsNext(llm, decode, AllPairs(n), totalPairs0);
    SliceNext(AllPairs(n), totalPairs0);
    incs := incs0 + PairFindings(llm(i, j), decode);
    calls := calls0 + [(i, j)];
    totalPairs := totalPairs0 + 1;
  }

  /** The inner loop for row i, which stops once ten pairs are done. */
  method PairRow(llm: Oracle, decode: string -> Option<LlmReply>, n: nat, i: nat,
                 incs0: seq<TermInconsistency>, calls0: seq<Pair>, totalPairs0: nat)
    returns (incs: seq<TermInconsistency>, calls: seq<Pair>, totalPairs: nat)
    requires i < n && totalPairs0 == |Rows(n, i)| < MaxPairs
    requires totalPairs0 <= |AllPairs(n)| && calls0 == AllPairs(n)[..totalPairs0]
    requires incs0 == LlmFindings(llm, decode, AllPairs(n), totalPairs0)
    ensures |Rows(n, i + 1)| <= |AllPairs(n)|
    ensures totalPairs < MaxPairs ==> totalPairs == |Rows(n, i + 1)|
    ensures totalPairs >= MaxPairs ==> totalPairs == MaxPairs <= |Rows(n, i + 1)|
    ensures totalPairs <= |AllPairs(n)| && calls == AllPairs(n)[..totalPairs]
    ensures incs == LlmFindings(llm, decode, AllPairs(n), totalPairs)
  {
    incs, calls, totalPairs := incs0, calls0, totalPairs0;
    RowEnd(n, i);
    var j := i + 1;
    while j < n
      invariant i + 1 <= j <= n
      invariant totalPairs == totalPairs0 + (j - i - 1) <= MaxPairs
      invariant totalPairs <= |AllPairs(n)| && calls == AllPairs(n)[..totalPairs]
      invariant incs == LlmFindings(llm, decode, AllPairs(n), totalPairs)
    {
      if totalPairs >= MaxPairs {
        break;
      }
      PairAt(n, i, j);
      incs, calls, totalPairs := AskPair(llm, decode, n, i, j, incs, calls, totalPairs);
      j := j + 1;
    }
    assert totalPairs < MaxPairs ==> j == n;
    assert totalPairs <= |Rows(n, i + 1)|;
  }

  /** The pair loop of `analyze`: the pairs (i, j), i < j, in order, until ten are done. */
  method LlmPairs(llm: Oracle, decode: string -> Option<LlmReply>, n: nat)
    returns (incs: seq<TermInconsistency>, calls: seq<Pair>)
    ensures var m := Min(|AllPairs(n)|, MaxPairs);
      calls == AllPairs(n)[..m] && incs == LlmFindings(llm, decode, AllPairs(n), m)
  {
    incs, calls := [], [];
    var totalPairs := 0;
    var i := 0;
    while i < n
      invariant i <= n && totalPairs == |Rows(n, i)| < MaxPairs
      invariant totalPairs <= |AllPairs(n)| && calls == AllPairs(n)[..totalPairs]
      invariant incs == LlmFindings(llm, decode, AllPairs(n), totalPairs)
    {
      incs, calls, totalPairs := PairRow(llm, decode, n, i, incs, calls, totalPairs);
      if totalPairs >= MaxPairs {
        assert totalPairs == Min(|AllPairs(n)|, MaxPairs);
        return;
      }
      i := i + 1;
    }
    assert totalPairs == Min(|AllPairs(n)|, MaxPairs);
  }

  /** Ten calls are made once there are five chapters or more, and every pair is asked below that. */
  lemma CallCount(n: nat)
    ensures Min(|AllPairs(n)|, MaxPairs) == if n >= 5 then 10 else n * (n - 1) / 2
  {
    PairCount(n);
    if n >= 5 {
      assert n * (n - 1) >= 5 * 4;
    } else {
      assert n * (n - 1) <= 4 * 3;
    }
  }

  // ---------------------------------------------------------------------------
  // Score and result
  // ---------------------------------------------------------------------------

  /** `1.0 - (inconsistent_terms / max(total_terms, 1))`, not clamped. */
  function ConsistencyScore(issues: nat, totalTerms: nat): (r: real)
    ensures r <= 1.0
    ensures r == 1.0 <==> issues == 0
    ensures issues <= totalTerms ==> r >= 0.0
  {
    var d: real := if totalTerms > 1 then totalTerms as real else 1.0;
    var q := issues as real / d;
    assert q >= 0.0 && (q == 0.0 <==> issues == 0);
    assert issues <= totalTerms ==> issues as real <= d;
    1.0 - q
  }

  /** More findings than terms make the score negative. */
  lemma NegativeScore()
    ensures ConsistencyScore(2, 1) == -1.0
  {
  }

  /** No term in any chapter means a zero total. */
  lemma {:induction false} TotalTermsZero(d: TermsDict)
    ensures TotalTerms(d) == 0 <==> forall k :: 0 <= k < |d| ==> d[k].1 == {}
    decreases |d|
  {
    if |d| > 0 {
      TotalTermsZero(d[1..]);
      assert forall k :: 1 <= k < |d| ==> d[k] == d[1..][k - 1];
    }
  }

  /** The `summary` of the result. */
  datatype TermSummary = TermSummary(
    totalInconsistencies: nat,
    highSeverity: nat,
    mostInconsistentTerms: seq<string>,
    recommendations: seq<string>)

  /** The result `analyze` returns for its findings and the number of terms found. */
  function Summarize(all: seq<TermInconsistency>, totalTerms: nat): (r: AnalysisResult)
    ensures r.analyzerType == "terminology" && r.totalIssues == |all|
    ensures r.details.Inconsistencies? && |r.details.list| == |all|
    ensures forall x :: 0 <= x < |all| ==> Terminology.FromDict(r.details.list[x]) == Some(all[x])
    ensures r.confidenceScore <= 1.0 && (r.confidenceScore == 1.0 <==> |all| == 0)
  {
    var r := AnalysisResult("terminology", |all|, ConsistencyScore(|all|, totalTerms), Inconsistencies(ToDicts(ToDict, all)));
    forall x | 0 <= x < |all| ensures Terminology.FromDict(r.details.list[x]) == Some(all[x]) {
      Terminology.DictRoundTrip(all[x]);
    }
    r
  }

  function SummaryOf(all: seq<TermInconsistency>): TermSummary
  {
    TermSummary(|all|, HighCount(all), MostInconsistentTerms(all), Recommendations(all))
  }

  /**
   * `analyze`: the pattern findings for every concept of the table, then the findings of
   * the first ten chapter pairs, scored against the number of terms found.
   */
  method Analyze(found: string -> set<string>, llm: Oracle, decode: string -> Option<LlmReply>,
                 chapters: seq<Chapters.Chapter>)
    returns (result: AnalysisResult, summary: TermSummary, calls: seq<Pair>,
             ghost patternResults: seq<Option<TermInconsistency>>)
    ensures var d := TermsOf(TermMappings, found, chapters);
      |patternResults| == |TermMappings|
      && forall k :: 0 <= k < |TermMappings| ==>
           IsPatternResult(TermMappings, TermMappings[k].0, TermMappings[k].1, d, patternResults[k])
    ensures var m := Min(|AllPairs(|chapters|)|, MaxPairs);
      calls == AllPairs(|chapters|)[..m]
      && var all := Somes(patternResults) + LlmFindings(llm, decode, AllPairs(|chapters|), m);
      result == Summarize(all, TotalTerms(TermsOf(TermMappings, found, chapters))) && summary == SummaryOf(all)
  {
    var chapterTerms := ExtractTerms(TermMappings, found, chapters);
    TermsOfKeys(TermMappings, found, chapters);
    var patterns;
    patterns, patternResults := DetectPatterns(TermMappings, chapterTerms);
    var llmIncs;
    llmIncs, calls := LlmPairs(llm, decode, |chapters|);
    var all := patterns + llmIncs;
    result := Summarize(all, TotalTerms(chapterTerms));
    summary := SummaryOf(all);
  }
}
