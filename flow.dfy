/**
 * `FlowAnalyzer` (analyzers/flow.py): one model call per chapter for its key concepts
 * (a failure leaves the chapter without concepts), a summary of every chapter, and one
 * model call over that summary whose issues are mapped into the result.
 */
module FlowAnalyzer {
  import opened Wrappers
  import opened Strings
  import opened Analysis
  import Chapters

  /** `FlowIssue` */
  datatype FlowIssue = FlowIssue(
    chapterId: string,
    issueType: string,
    description: string,
    missingConcepts: seq<string>,
    severity: string)

  // ---------------------------------------------------------------------------
  // Concepts per chapter
  // ---------------------------------------------------------------------------

  /** The reply to a concept-extraction prompt; `concepts` is `None` when the key is absent. */
  datatype ConceptReply = ConceptReply(concepts: Option<seq<string>>)

  /** The concepts of one chapter: those of a parsed reply, none when the call or the parse failed. */
  function ConceptSet(reply: Option<string>, decode: string -> Option<ConceptReply>): (s: set<string>)
    ensures reply.None? ==> s == {}
    ensures reply.Some? && decode(reply.value).Some? ==>
      s == set x | x in decode(reply.value).value.concepts.GetOr([])
  {
    match Ask(reply, decode)
    case Err(_) => {}
    case Ok(v) => set x | x in v.concepts.GetOr([])
  }

  /**
   * A dictionary filled in order: each element `x` sets `d[key(x)] := value(x)`, so a later
   * element overwrites an earlier one with the same key.
   */
  function Index<T, V>(key: T -> string, value: T -> V, xs: seq<T>): (d: map<string, V>)
    ensures |xs| > 0 ==> key(xs[|xs| - 1]) in d
    decreases |xs|
  {
    if |xs| == 0 then map[]
    else Index(key, value, xs[..|xs| - 1])[key(xs[|xs| - 1]) := value(xs[|xs| - 1])]
  }

  /** Exactly the keys of the elements are keys. */
  lemma {:induction false} IndexKeys<T, V>(key: T -> string, value: T -> V, xs: seq<T>)
    ensures Index(key, value, xs).Keys == set k | 0 <= k < |xs| :: key(xs[k])
    decreases |xs|
  {
    if |xs| > 0 {
      var n := |xs| - 1;
      var prefix := xs[..n];
      IndexKeys(key, value, prefix);
      var ids := set k | 0 <= k < |xs| :: key(xs[k]);
      var before := set k | 0 <= k < n :: key(prefix[k]);
      forall x | x in ids ensures x in before + {key(xs[n])} {
        var k :| 0 <= k < |xs| && key(xs[k]) == x;
        if k < n { assert prefix[k] == xs[k]; }
      }
      forall x | x in before ensures x in ids {
        var k :| 0 <= k < n && key(prefix[k]) == x;
        assert prefix[k] == xs[k];
      }
    }
  }

  /** An element's entry holds its own value unless a later element has the same key. */
  lemma {:induction false} IndexLookup<T, V>(key: T -> string, value: T -> V, xs: seq<T>, k: nat)
    requires k < |xs|
    requires forall j :: k < j < |xs| ==> key(xs[j]) != key(xs[k])
    ensures key(xs[k]) in Index(key, value, xs) && Index(key, value, xs)[key(xs[k])] == value(xs[k])
    decreases |xs|
  {
    var n := |xs| - 1;
    if k < n {
      var prefix := xs[..n];
      assert prefix[k] == xs[k];
      forall j | k < j < n ensures key(prefix[j]) != key(prefix[k]) {
        assert prefix[j] == xs[j];
      }
      IndexLookup(key, value, prefix, k);
    }
  }

  /** The concepts of each chapter, by way of its own concept call. */
  function ConceptsOfChapter(llm: Chapters.Chapter -> Option<string>, decode: string -> Option<ConceptReply>)
    : Chapters.Chapter -> set<string>
  {
    c => ConceptSet(llm(c), decode)
  }

  /** The concepts dictionary after the given chapters. */
  function ConceptsOf(llm: Chapters.Chapter -> Option<string>, decode: string -> Option<ConceptReply>,
                      chapters: seq<Chapters.Chapter>): map<string, set<string>>
  {
    Index(Chapters.GetId, ConceptsOfChapter(llm, decode), chapters)
  }

  /**
   * Every chapter ID is a key, and a chapter whose ID no later chapter shares is
   * listed with the concepts of its own reply.
   */
  lemma ConceptsLookup(llm: Chapters.Chapter -> Option<string>, decode: string -> Option<ConceptReply>,
                       chapters: seq<Chapters.Chapter>, k: nat)
    requires k < |chapters|
    requires forall j :: k < j < |chapters| ==> Chapters.GetId(chapters[j]) != Chapters.GetId(chapters[k])
    ensures ConceptsOf(llm, decode, chapters).Keys == set j | 0 <= j < |chapters| :: Chapters.GetId(chapters[j])
    ensures ConceptsOf(llm, decode, chapters)[Chapters.GetId(chapters[k])] == ConceptSet(llm(chapters[k]), decode)
  {
    IndexKeys(Chapters.GetId, ConceptsOfChapter(llm, decode), chapters);
    IndexLookup(Chapters.GetId, ConceptsOfChapter(llm, decode), chapters, k);
  }

  /** `_extract_concepts_from_chapters`: a failed call or parse is caught and gives no concepts. */
  method ExtractConcepts(llm: Chapters.Chapter -> Option<string>, decode: string -> Option<ConceptReply>,
                         chapters: seq<Chapters.Chapter>) returns (concepts: map<string, set<string>>)
    ensures concepts == ConceptsOf(llm, decode, chapters)
  {
    concepts := map[];
    var i := 0;
    while i < |chapters|
      invariant i <= |chapters| && concepts == ConceptsOf(llm, decode, chapters[..i])
    {
      var c := chapters[i];
      assert chapters[..i + 1][..i] == chapters[..i];
      var found := ConceptSet(llm(c), decode);
      assert found == ConceptsOfChapter(llm, decode)(c);
      concepts := concepts[Chapters.GetId(c) := found];
      i := i + 1;
    }
    assert chapters[..i] == chapters;
  }

  // ---------------------------------------------------------------------------
  // The chapters summary
  // ---------------------------------------------------------------------------

  /** `concepts.get(id, [])` */
  function ConceptsFor(concepts: map<string, set<string>>, id: string): set<string>
  {
    if id in concepts then concepts[id] else {}
  }

  /** The summary block of the chapter numbered `number`, showing the concepts `shown`. */
  function Block(number: nat, c: Chapters.Chapter, shown: seq<string>): string
  {
    "Chapter " + NatToString(number) + " (" + Chapters.GetId(c) + "):\n"
      + "- Key concepts: " + Join(shown, ", ") + "\n"
      + "- Preview: " + Take(c.text, 200) + "...\n"
  }

  /**
   * The block for the i-th chapter (from 0): numbered i + 1, showing the first ten of
   * its concepts in some iteration order of the set.
   */
  ghost predicate IsBlock(i: nat, c: Chapters.Chapter, concepts: map<string, set<string>>, block: string)
  {
    exists order :: Enumerates(order, ConceptsFor(concepts, Chapters.GetId(c)))
      && block == Block(i + 1, c, Take(order, 10))
  }

  /** At most ten concepts are shown, all of them the chapter's, and all of them when there are at most ten. */
  lemma ShownConcepts(order: seq<string>, s: set<string>)
    requires Enumerates(order, s)
    ensures |Take(order, 10)| == Min(|s|, 10) <= 10
    ensures forall x :: x in Take(order, 10) ==> x in s
    ensures |s| <= 10 ==> forall x :: x in s ==> x in Take(order, 10)
  {
    forall x | x in Take(order, 10) ensures x in s {
      var k :| 0 <= k < |Take(order, 10)| && Take(order, 10)[k] == x;
      assert order[k] == x;
    }
  }

  /** `_build_chapters_summary`: one block per chapter, joined by newlines. */
  method BuildSummary(chapters: seq<Chapters.Chapter>, concepts: map<string, set<string>>)
    returns (summary: string, ghost blocks: seq<string>)
    ensures |blocks| == |chapters| && summary == Join(blocks, "\n")
    ensures forall i :: 0 <= i < |chapters| ==> IsBlock(i, chapters[i], concepts, blocks[i])
  {
    var parts: seq<string> := [];
    var i := 0;
    while i < |chapters|
      invariant i <= |chapters| && |parts| == i
      invariant forall k :: 0 <= k < i ==> IsBlock(k, chapters[k], concepts, parts[k])
    {
      var c := chapters[i];
      var order := Enumerate(ConceptsFor(concepts, Chapters.GetId(c)));
      var block := Block(i + 1, c, Take(order, 10));
      assert IsBlock(i, c, concepts, block);
      parts := parts + [block];
      i := i + 1;
    }
    summary := Join(parts, "\n");
    blocks := parts;
  }

  // ---------------------------------------------------------------------------
  // The flow reply
  // ---------------------------------------------------------------------------

  /** One entry of the reply's `flow_issues`; a key left out is `None`. */
  datatype IssueData = IssueData(
    chapterId: Option<string>,
    issueType: Option<string>,
    description: Option<string>,
    missingConcepts: Option<seq<string>>,
    severity: Option<string>)

  datatype FlowReply = FlowReply(flowIssues: Option<seq<IssueData>>, overallFlowScore: Option<real>)

  /** The score when the reply gives none. */
  const DefaultScore := 0.7

  /** One entry: `chapter_id`, `issue_type`, `description` and `severity` are required, read in that order. */
  function IssueFrom(data: IssueData): (r: Result<FlowIssue, Failure>)
    ensures r.Ok? <==> data.chapterId.Some? && data.issueType.Some? && data.description.Some? && data.severity.Some?
    ensures r.Ok? ==> r.value == FlowIssue(data.chapterId.value, data.issueType.value, data.description.value,
      data.missingConcepts.GetOr([]), data.severity.value)
    ensures data.chapterId.None? ==> r == Err(KeyError("chapter_id"))
    ensures data.chapterId.Some? && data.issueType.None? ==> r == Err(KeyError("issue_type"))
    ensures data.chapterId.Some? && data.issueType.Some? && data.description.None? ==> r == Err(KeyError("description"))
    ensures data.chapterId.Some? && data.issueType.Some? && data.description.Some? && data.severity.None?
      ==> r == Err(KeyError("severity"))
  {
    if data.chapterId.None? then Err(KeyError("chapter_id"))
    else if data.issueType.None? then Err(KeyError("issue_type"))
    else if data.description.None? then Err(KeyError("description"))
    else if data.severity.None? then Err(KeyError("severity"))
    else Ok(FlowIssue(data.chapterId.value, data.issueType.value, data.description.value,
      data.missingConcepts.GetOr([]), data.severity.value))
  }

  /** The entries mapped in order; the first incomplete one raises. */
  function IssuesFrom(datas: seq<IssueData>): (r: Result<seq<FlowIssue>, Failure>)
    decreases |datas|
  {
    if |datas| == 0 then Ok([])
    else
      match IssuesFrom(datas[..|datas| - 1])
      case Err(e) => Err(e)
      case Ok(issues) =>
        match IssueFrom(datas[|datas| - 1])
        case Err(e) => Err(e)
        case Ok(issue) => Ok(issues + [issue])
  }

  /** The mapping succeeds exactly when every entry is complete, and then keeps every entry in order. */
  lemma {:induction false} IssuesFromOk(datas: seq<IssueData>)
    ensures IssuesFrom(datas).Ok? <==> forall k :: 0 <= k < |datas| ==> IssueFrom(datas[k]).Ok?
    ensures IssuesFrom(datas).Ok? ==> (|IssuesFrom(datas).value| == |datas|
      && forall k :: 0 <= k < |datas| ==> IssuesFrom(datas).value[k] == IssueFrom(datas[k]).value)
    decreases |datas|
  {
    if |datas| > 0 {
      var n := |datas| - 1;
      IssuesFromOk(datas[..n]);
      assert forall k :: 0 <= k < n ==> datas[..n][k] == datas[k];
    }
  }

  /** A failed mapping is the error of the first incomplete entry. */
  lemma {:induction false} IssuesFromErr(datas: seq<IssueData>, k: nat)
    requires k < |datas| && IssueFrom(datas[k]).Err?
    requires forall j :: 0 <= j < k ==> IssueFrom(datas[j]).Ok?
    ensures IssuesFrom(datas) == Err(IssueFrom(datas[k]).error)
    decreases |datas|
  {
    var n := |datas| - 1;
    if k < n {
      assert forall j :: 0 <= j < k ==> datas[..n][j] == datas[j];
      assert datas[..n][k] == datas[k];
      IssuesFromErr(datas[..n], k);
    } else {
      IssuesFromOk(datas[..n]);
      assert forall j :: 0 <= j < n ==> datas[..n][j] == datas[j];
    }
  }

  /** `_flow_issue_to_dict` */
  function ToDict(fi: FlowIssue): (d: Dict)
    ensures d.Keys == {"chapter_id", "issue_type", "description", "missing_concepts", "severity"}
  {
    map[
      "chapter_id" := Str(fi.chapterId),
      "issue_type" := Str(fi.issueType),
      "description" := Str(fi.description),
      "missing_concepts" := Strs(fi.missingConcepts),
      "severity" := Str(fi.severity)]
  }

  function FromDict(d: Dict): Option<FlowIssue>
  {
    if {"chapter_id", "issue_type", "description", "missing_concepts", "severity"} <= d.Keys
      && d["chapter_id"].Str? && d["issue_type"].Str? && d["description"].Str?
      && d["missing_concepts"].Strs? && d["severity"].Str?
    then Some(FlowIssue(d["chapter_id"].s, d["issue_type"].s, d["description"].s, d["missing_concepts"].items, d["severity"].s))
    else None
  }

  /** Nothing is lost by the conversion to a dictionary. */
  lemma DictRoundTrip(fi: FlowIssue)
    ensures FromDict(ToDict(fi)) == Some(fi)
  {
  }

  /**
   * The second half of `analyze`, on the reply to the flow prompt (`None` when the call
   * raised): call and parse failures escape, as does a missing required key; otherwise
   * every issue, and the reply's score or 0.7.
   */
  function FlowResult(reply: Option<string>, decode: string -> Option<FlowReply>): (r: Result<AnalysisResult, Failure>)
    ensures reply.None? ==> r == Err(LlmError)
    ensures r.Err? ==> r.error in {LlmError, JsonError, KeyError("chapter_id"), KeyError("issue_type"),
      KeyError("description"), KeyError("severity")}
    ensures r.Ok? ==> (r.value.analyzerType == "flow" && r.value.details.Items?
      && r.value.totalIssues == |r.value.details.items|)
    ensures reply.Some? && decode(reply.value).Some? ==>
      var v := decode(reply.value).value;
      (r.Ok? <==> IssuesFrom(v.flowIssues.GetOr([])).Ok?)
      && (r.Ok? ==> (r.value.confidenceScore == v.overallFlowScore.GetOr(DefaultScore)
        && |r.value.details.items| == |IssuesFrom(v.flowIssues.GetOr([])).value|
        && forall x :: 0 <= x < |r.value.details.items| ==>
          FromDict(r.value.details.items[x]) == Some(IssuesFrom(v.flowIssues.GetOr([])).value[x])))
  {
    match Ask(reply, decode)
    case Err(e) => Err(e)
    case Ok(v) =>
      match IssuesFrom(v.flowIssues.GetOr([]))
      case Err(e) =>
        IssuesErrorKey(v.flowIssues.GetOr([]));
        Err(e)
      case Ok(issues) => Ok(AnalysisResult("flow", |issues|, v.overallFlowScore.GetOr(DefaultScore), Items(ToDicts(ToDict, issues))))
  }

  /** A failed mapping only ever reports one of the four required keys. */
  lemma {:induction false} IssuesErrorKey(datas: seq<IssueData>)
    ensures IssuesFrom(datas).Err? ==> IssuesFrom(datas).error in {KeyError("chapter_id"), KeyError("issue_type"),
      KeyError("description"), KeyError("severity")}
    decreases |datas|
  {
    if |datas| > 0 {
      IssuesErrorKey(datas[..|datas| - 1]);
    }
  }

  /** The issue loop of `analyze`. */
  method MapIssues(datas: seq<IssueData>) returns (r: Result<seq<FlowIssue>, Failure>)
    ensures r == IssuesFrom(datas)
  {
    var issues: seq<FlowIssue> := [];
    var i := 0;
    while i < |datas|
      invariant i <= |datas| && IssuesFrom(datas[..i]) == Ok(issues)
    {
      assert datas[..i + 1][..i] == datas[..i];
      var issue := IssueFrom(datas[i]);
      if issue.Err? {
        IssuesErrStays(datas, i + 1);
        return Err(issue.error);
      }
      issues := issues + [issue.value];
      i := i + 1;
    }
    assert datas[..i] == datas;
    r := Ok(issues);
  }

  /** Once an entry fails, the whole mapping fails with its error. */
  lemma {:induction false} IssuesErrStays(datas: seq<IssueData>, i: nat)
    requires i <= |datas| && IssuesFrom(datas[..i]).Err?
    ensures IssuesFrom(datas) == IssuesFrom(datas[..i])
    decreases |datas| - i
  {
    if i < |datas| {
      assert datas[..i + 1][..i] == datas[..i];
      IssuesErrStays(datas, i + 1);
    } else {
      assert datas[..i] == datas;
    }
  }

  /**
   * `analyze`. `conceptLlm` gives the reply to each chapter's concept prompt and `flowLlm`
   * the reply to the flow prompt built from the summary; `None` stands for a call that
   * raised. Exactly one flow call is made, on the summary returned here.
   */
  method Analyze(conceptLlm: Chapters.Chapter -> Option<string>, decodeConcepts: string -> Option<ConceptReply>,
                 flowLlm: string -> Option<string>, decode: string -> Option<FlowReply>,
                 chapters: seq<Chapters.Chapter>)
    returns (r: Result<AnalysisResult, Failure>, summary: string, ghost blocks: seq<string>)
    ensures var concepts := ConceptsOf(conceptLlm, decodeConcepts, chapters);
      |blocks| == |chapters| && summary == Join(blocks, "\n")
      && forall i :: 0 <= i < |chapters| ==> IsBlock(i, chapters[i], concepts, blocks[i])
    ensures r == FlowResult(flowLlm(summary), decode)
  {
    var concepts := ExtractConcepts(conceptLlm, decodeConcepts, chapters);
    summary, blocks := BuildSummary(chapters, concepts);
    var parsed := Ask(flowLlm(summary), decode);
    if parsed.Err? {
      return Err(parsed.error), summary, blocks;
    }
    var issues := MapIssues(parsed.value.flowIssues.GetOr([]));
    if issues.Err? {
      return Err(issues.error), summary, blocks;
    }
    var score := parsed.value.overallFlowScore.GetOr(DefaultScore);
    r := Ok(AnalysisResult("flow", |issues.value|, score, Items(ToDicts(ToDict, issues.value))));
  }
}
