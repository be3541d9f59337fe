/**
 * `RedundancyAnalyzer` of the second pipeline (analyzers/redundancy.py): chapters are cut
 * into overlapping windows, every pair of windows from different chapters is counted as
 * a comparison, the model is asked only about pairs whose word sets overlap enough, and
 * the run is scored by the share of comparisons that turned out redundant.
 */
module RedundancyAnalyzer {
  import opened Wrappers
  import opened Strings
  import opened Pairs
  import opened Analysis
  import Chapters

  // ---------------------------------------------------------------------------
  // The finding and its dictionary
  // ---------------------------------------------------------------------------

  datatype Redundancy = Redundancy(
    section1Id: string,
    section2Id: string,
    section1Excerpt: string,
    section2Excerpt: string,
    similarityScore: real,
    redundancyType: string,
    explanation: string,
    recommendation: string)

  /** The decoded JSON reply: one entry per key the code reads, `None` when the key is absent. */
  datatype Reply = Reply(
    isRedundant: Option<bool>,
    similarityScore: Option<real>,
    section1Excerpt: Option<string>,
    section2Excerpt: Option<string>,
    redundancyType: Option<string>,
    explanation: Option<string>,
    recommendation: Option<string>)

  /** A pair is redundant only above this similarity. */
  const Threshold: real := 0.7
  /** The model is asked only about pairs whose word overlap exceeds this. */
  const Prefilter: real := 0.3

  /** The mapping from a decoded reply to a finding about the two given segment IDs. */
  function FromReply(reply: Reply, id1: string, id2: string): (r: Option<Redundancy>)
    ensures r.Some? <==> reply.isRedundant == Some(true) && reply.similarityScore.GetOr(0.0) > Threshold
    ensures r.Some? ==> r.value.section1Id == id1 && r.value.section2Id == id2
    ensures r.Some? ==> r.value.similarityScore == reply.similarityScore.value
    ensures r.Some? ==> (r.value.section1Excerpt == reply.section1Excerpt.GetOr("")
      && r.value.section2Excerpt == reply.section2Excerpt.GetOr("")
      && r.value.explanation == reply.explanation.GetOr(""))
    ensures r.Some? ==> (r.value.redundancyType == reply.redundancyType.GetOr("unknown")
      && r.value.recommendation == reply.recommendation.GetOr("keep_both"))
  {
    if reply.isRedundant.GetOr(false) && reply.similarityScore.GetOr(0.0) > Threshold then
      Some(Redundancy(
        id1, id2,
        reply.section1Excerpt.GetOr(""),
        reply.section2Excerpt.GetOr(""),
        reply.similarityScore.GetOr(0.0),
        reply.redundancyType.GetOr("unknown"),
        reply.explanation.GetOr(""),
        reply.recommendation.GetOr("keep_both")))
    else None
  }

  /**
   * `_detect_redundancy` on the reply to its model call (`None` when the call raised): a
   * failed call or an unreadable reply is no finding, and a finding is always above the
   * threshold, so the second test in `analyze` never drops one.
   */
  function DetectRedundancy(reply: Option<string>, decode: string -> Option<Reply>, id1: string, id2: string)
    : (r: Option<Redundancy>)
    ensures reply.None? ==> r.None?
    ensures reply.Some? && decode(reply.value).Some? ==> r == FromReply(decode(reply.value).value, id1, id2)
    ensures r.Some? ==> r.value.similarityScore > Threshold && r.value.section1Id == id1 && r.value.section2Id == id2
  {
    match Ask(reply, decode)
    case Err(_) => None
    case Ok(v) => FromReply(v, id1, id2)
  }

  /** The eight keys of `_redundancy_to_dict`. */
  const Keys: set<string> := {"section1_id", "section2_id", "section1_excerpt", "section2_excerpt",
    "similarity_score", "type", "explanation", "recommendation"}

  /** `_redundancy_to_dict` */
  function ToDict(r: Redundancy): (d: Dict)
    ensures d.Keys == Keys
    ensures "segment1_id" !in d && "segment2_id" !in d
    ensures d["section1_id"] == Str(r.section1Id) && d["section2_id"] == Str(r.section2Id)
    ensures d["type"] == Str(r.redundancyType) && d["similarity_score"] == Num(r.similarityScore)
  {
    map[
      "section1_id" := Str(r.section1Id),
      "section2_id" := Str(r.section2Id),
      "section1_excerpt" := Str(r.section1Excerpt),
      "section2_excerpt" := Str(r.section2Excerpt),
      "similarity_score" := Num(r.similarityScore),
      "type" := Str(r.redundancyType),
      "explanation" := Str(r.explanation),
      "recommendation" := Str(r.recommendation)]
  }

  /** Reading a dictionary back as a finding. */
  function FromDict(d: Dict): Option<Redundancy>
  {
    if Keys <= d.Keys
      && d["section1_id"].Str? && d["section2_id"].Str? && d["section1_excerpt"].Str?
      && d["section2_excerpt"].Str? && d["similarity_score"].Num? && d["type"].Str?
      && d["explanation"].Str? && d["recommendation"].Str?
    then Some(Redundancy(d["section1_id"].s, d["section2_id"].s, d["section1_excerpt"].s,
      d["section2_excerpt"].s, d["similarity_score"].x, d["type"].s, d["explanation"].s,
      d["recommendation"].s))
    else None
  }

  /** Nothing is lost by the conversion to a dictionary. */
  lemma DictRoundTrip(r: Redundancy)
    ensures FromDict(ToDict(r)) == Some(r)
  {
  }

  // ---------------------------------------------------------------------------
  // Segments
  // ---------------------------------------------------------------------------

  /** A window of a chapter's text, as `_create_segments` records it. */
  datatype Segment = Segment(id: string, chapterId: string, text: string, start: nat, end: nat)

  const SegmentSize: nat := 1000
  /** Windows start every half segment, so neighbouring windows overlap by half. */
  const Stride: nat := 500
  /** Windows of this length or shorter are dropped. */
  const MinLength: nat := 200

  /** How many windows `range(0, len, 500)` starts. */
  function WindowCount(len: nat): nat
  {
    (len + 499) / 500
  }

  /** Window number `w` of a chapter: the text from 500w on, at most 1000 characters. */
  function Window(chapterId: string, text: string, w: nat): Segment
    requires 500 * w < |text|
  {
    var start := 500 * w;
    var end := Min(start + SegmentSize, |text|);
    Segment(chapterId + "_seg" + NatToString(w), chapterId, text[start..end], start, end)
  }

  /** A window is kept when it is longer than the minimum. */
  predicate Kept(chapterId: string, text: string, w: nat)
    requires 500 * w < |text|
  {
    |Window(chapterId, text, w).text| > MinLength
  }

  /** The kept windows among the first `w` windows, in order. */
  function WindowsTo(chapterId: string, text: string, w: nat): seq<Segment>
    requires 500 * w <= |text| + 499
    decreases w
  {
    if w == 0 then []
    else
      var last := if Kept(chapterId, text, w - 1) then [Window(chapterId, text, w - 1)] else [];
      WindowsTo(chapterId, text, w - 1) + last
  }

  /** The segments of one chapter. */
  function ChapterSegments(chapterId: string, text: string): seq<Segment>
  {
    WindowCountBound(|text|);
    WindowsTo(chapterId, text, WindowCount(|text|))
  }

  /** The segments of a chapter list, chapter by chapter. */
  function AllSegments(chapters: seq<Chapters.Chapter>): seq<Segment>
    decreases |chapters|
  {
    if |chapters| == 0 then []
    else
      var c := chapters[|chapters| - 1];
      AllSegments(chapters[..|chapters| - 1]) + ChapterSegments(Chapters.GetId(c), c.text)
  }

  /** The number of kept windows of a text of length `len`. */
  function KeptCount(len: nat): nat
  {
    if len <= MinLength then 0 else (len - 201) / 500 + 1
  }

  lemma {:induction false} WindowCountBound(len: nat)
    ensures 500 * WindowCount(len) <= len + 499
    ensures forall w: nat :: w < WindowCount(len) <==> 500 * w < len
  {
  }

  /** Window w is kept exactly when w is below the kept count: the kept windows come first. */
  lemma {:induction false} KeptIff(chapterId: string, text: string, w: nat)
    requires 500 * w < |text|
    ensures Kept(chapterId, text, w) <==> w < KeptCount(|text|)
  {
    var len := |text|;
    assert |Window(chapterId, text, w).text| == Min(500 * w + SegmentSize, len) - 500 * w;
    if len > MinLength {
      var q := (len - 201) / 500;
      assert 500 * q <= len - MinLength - 1 < 500 * q + 500;
    }
  }

  lemma {:induction false} KeptCountBound(len: nat)
    ensures KeptCount(len) <= WindowCount(len)
    ensures KeptCount(len) == 0 <==> len <= MinLength
  {
    if len > MinLength {
      var q := (len - 201) / 500;
      assert 500 * q <= len - MinLength - 1;
      WindowCountBound(len);
      assert 500 * q < len;
    }
  }

  lemma {:induction false} WindowsToShape(chapterId: string, text: string, w: nat)
    requires 500 * w <= |text| + 499
    ensures |WindowsTo(chapterId, text, w)| == Min(w, KeptCount(|text|))
    ensures forall x :: 0 <= x < |WindowsTo(chapterId, text, w)| ==>
      500 * x < |text| && WindowsTo(chapterId, text, w)[x] == Window(chapterId, text, x)
    decreases w
  {
    if w > 0 {
      WindowsToShape(chapterId, text, w - 1);
      KeptIff(chapterId, text, w - 1);
    }
  }

  /**
   * The segments of a chapter are its first KeptCount windows, in order: the windows at
   * 0, 500, 1000, ... with an ID ending in "_seg" and the window number; a chapter of 200
   * characters or fewer has none.
   */
  lemma {:induction false} ChapterSegmentsPrefix(chapterId: string, text: string)
    ensures var r := ChapterSegments(chapterId, text);
      |r| == KeptCount(|text|)
      && (|r| == 0 <==> |text| <= MinLength)
      && forall x :: 0 <= x < |r| ==> 500 * x < |text| && r[x] == Window(chapterId, text, x)
  {
    WindowCountBound(|text|);
    KeptCountBound(|text|);
    WindowsToShape(chapterId, text, WindowCount(|text|));
  }

  /** What a single segment holds: a window of 201 to 1000 characters of its chapter's text. */
  lemma {:induction false} WindowFields(chapterId: string, text: string, w: nat)
    requires 500 * w < |text| && Kept(chapterId, text, w)
    ensures var s := Window(chapterId, text, w);
      s.chapterId == chapterId && s.start == 500 * w && s.start < s.end <= |text|
      && s.end - s.start <= SegmentSize && s.text == text[s.start..s.end]
      && MinLength < |s.text| <= SegmentSize
      && s.end == Min(s.start + SegmentSize, |text|)
  {
  }

  /** The inner loop of `_create_segments`, over one chapter's windows. */
  method SplitChapter(chapterId: string, text: string, segments0: seq<Segment>) returns (segments: seq<Segment>)
    ensures segments == segments0 + ChapterSegments(chapterId, text)
  {
    WindowCountBound(|text|);
    segments := segments0;
    var i := 0;
    ghost var w := 0;
    while i < |text|
      invariant i == 500 * w && w <= WindowCount(|text|)
      invariant segments == segments0 + WindowsTo(chapterId, text, w)
      decreases |text| - i
    {
      var end := Min(i + SegmentSize, |text|);
      var segmentText := text[i..end];
      if |segmentText| > MinLength {
        assert i / 500 == w;
        segments := segments + [Segment(chapterId + "_seg" + NatToString(i / 500), chapterId, segmentText, i, end)];
      }
      i := i + Stride;
      w := w + 1;
    }
  }

  /** `_create_segments` */
  method CreateSegments(chapters: seq<Chapters.Chapter>) returns (segments: seq<Segment>)
    ensures segments == AllSegments(chapters)
  {
    segments := [];
    var c := 0;
    while c < |chapters|
      invariant c <= |chapters|
      invariant segments == AllSegments(chapters[..c])
    {
      var chapter := chapters[c];
      assert chapters[..c + 1][..c] == chapters[..c];
      segments := SplitChapter(Chapters.GetId(chapter), chapter.text, segments);
      c := c + 1;
    }
    assert chapters[..c] == chapters;
  }

  // ---------------------------------------------------------------------------
  // The word-overlap prefilter
  // ---------------------------------------------------------------------------

  /** `set(text.lower().split())` */
  function WordSet(text: string): set<string>
  {
    set w | w in Words(Lower(text))
  }

  /** `_quick_similarity_check`: the Jaccard index of the two word sets. */
  function Jaccard(text1: string, text2: string): real
  {
    SetJaccard(WordSet(text1), WordSet(text2))
  }

  /** |a ∩ b| / |a ∪ b|, or 0 if either set is empty. */
  function SetJaccard(a: set<string>, b: set<string>): (r: real)
    ensures 0.0 <= r <= 1.0
    ensures r > 0.0 <==> a * b != {}
  {
    if |a| == 0 || |b| == 0 then
      assert a * b == {} by { assert a == {} || b == {}; }
      0.0
    else
      UnionCard(a, b);
      DivBounds(|a * b| as real, |a + b| as real, 0.0, 1.0);
      PositiveRatio(|a * b| as real, |a + b| as real);
      |a * b| as real / |a + b| as real
  }

  /** The intersection is no larger than the union, which is non-empty when either set is. */
  lemma {:induction false} UnionCard(a: set<string>, b: set<string>)
    requires |a| > 0
    ensures |a * b| <= |a + b| && |a + b| > 0
    ensures |a * b| == 0 <==> a * b == {}
  {
    var x :| x in a;
    assert x in a + b;
    assert |a + b| == |a - b| + |b - a| + |a * b|;
  }

  lemma {:induction false} PositiveRatio(x: real, y: real)
    requires x >= 0.0 && y > 0.0
    ensures x / y > 0.0 <==> x > 0.0
  {
  }

  /** The check is symmetric in its two texts. */
  lemma {:induction false} JaccardSymmetric(text1: string, text2: string)
    ensures Jaccard(text1, text2) == Jaccard(text2, text1)
  {
    var a, b := WordSet(text1), WordSet(text2);
    assert a * b == b * a && a + b == b + a;
  }

  /** Texts with the same non-empty word set score 1.0. */
  lemma {:induction false} JaccardSame(text1: string, text2: string)
    requires WordSet(text1) == WordSet(text2) != {}
    ensures Jaccard(text1, text2) == 1.0
  {
    var a := WordSet(text1);
    assert a * a == a && a + a == a;
    UnionCard(a, a);
  }

  /** Only pairs that share a word get past the prefilter, so the model never sees the others. */
  lemma {:induction false} PrefilterShares(text1: string, text2: string)
    requires Jaccard(text1, text2) > Prefilter
    ensures exists w :: w in WordSet(text1) && w in WordSet(text2)
  {
    var x :| x in WordSet(text1) * WordSet(text2);
  }

  // ---------------------------------------------------------------------------
  // The comparison loop
  // ---------------------------------------------------------------------------

  /** The pair crosses chapters: `analyze` counts it as a comparison. */
  predicate Cross(segs: seq<Segment>, p: Pair)
  {
    p.0 < |segs| && p.1 < |segs| && segs[p.0].chapterId != segs[p.1].chapterId
  }

  /** The pair crosses chapters and passes the prefilter: `analyze` asks the model about it. */
  predicate Asks(segs: seq<Segment>, p: Pair)
  {
    Cross(segs, p) && Jaccard(segs[p.0].text, segs[p.1].text) > Prefilter
  }

  /**
   * What `_detect_redundancy` yields for the segments at positions i and j. Each pair is
   * asked about at most once, so the reply is a function of the pair.
   */
  type Detector = (nat, nat) -> Option<Redundancy>

  /** The detector for a segment list, the model's reply for each pair and the JSON decoder. */
  function DetectorOf(llm: (nat, nat) -> Option<string>, decode: string -> Option<Reply>, segs: seq<Segment>): Detector
  {
    (i: nat, j: nat) =>
      if i < |segs| && j < |segs| then DetectRedundancy(llm(i, j), decode, segs[i].id, segs[j].id)
      else None
  }

  /** A detection, if it clears the threshold. */
  function Keep(o: Option<Redundancy>): seq<Redundancy>
  {
    if o.Some? && o.value.similarityScore > Threshold then [o.value] else []
  }

  datatype State = State(found: seq<Redundancy>, comparisons: nat, trace: seq<Event<()>>)

  function Step(detect: Detector, segs: seq<Segment>, s: State, p: Pair): State
  {
    if !Cross(segs, p) then s
    else if !Asks(segs, p) then State(s.found, s.comparisons + 1, s.trace)
    else State(s.found + Keep(detect(p.0, p.1)), s.comparisons + 1, s.trace + [Call(p.0, p.1)])
  }

  /** The state after the first `m` of `pairs`. */
  function Run(detect: Detector, segs: seq<Segment>, pairs: seq<Pair>, m: nat): State
    requires m <= |pairs|
  {
    if m == 0 then State([], 0, [])
    else Step(detect, segs, Run(detect, segs, pairs, m - 1), pairs[m - 1])
  }

  lemma {:induction false} RunNext(detect: Detector, segs: seq<Segment>, pairs: seq<Pair>, m: nat, s: State)
    requires m < |pairs| && s == Run(detect, segs, pairs, m)
    ensures Step(detect, segs, s, pairs[m]) == Run(detect, segs, pairs, m + 1)
  {
  }

  /** `1 - kept / max(comparisons, 1)` */
  function Score(kept: nat, comparisons: nat): (r: real)
    ensures kept == 0 ==> r == 1.0
    ensures kept <= comparisons ==> 0.0 <= r <= 1.0
  {
    var n := if comparisons > 1 then comparisons else 1;
    RatioBounds(kept, n);
    1.0 - kept as real / n as real
  }

  lemma {:induction false} RatioBounds(kept: nat, n: nat)
    requires n > 0
    ensures kept <= n ==> 0.0 <= kept as real / n as real <= 1.0
  {
    if kept <= n {
      DivBounds(kept as real, n as real, 0.0, 1.0);
    }
  }

  /** The result `analyze` returns for the findings and the comparison count of a run. */
  function Summarize(found: seq<Redundancy>, comparisons: nat): (r: AnalysisResult)
    ensures r.analyzerType == "redundancy"
    ensures r.details.Items? && r.totalIssues == |r.details.items| == |found|
    ensures forall x :: 0 <= x < |found| ==> FromDict(r.details.items[x]) == Some(found[x])
    ensures r.confidenceScore == Score(|found|, comparisons)
  {
    var r := AnalysisResult("redundancy", |found|, Score(|found|, comparisons), Items(ToDicts(ToDict, found)));
    forall x | 0 <= x < |found| ensures FromDict(r.details.items[x]) == Some(found[x]) {
      DictRoundTrip(found[x]);
    }
    r
  }

  /** The body of the inner loop for pair (i, j), visited after `before` others. */
  method ComparePair(detect: Detector, segs: seq<Segment>, ghost pairs: seq<Pair>, ghost before: nat, i: nat, j: nat,
                     redundancies: seq<Redundancy>, totalComparisons: nat, trace: seq<Event<()>>)
    returns (found: seq<Redundancy>, comparisons: nat, trace': seq<Event<()>>)
    requires i < j < |segs| && before < |pairs| && pairs[before] == (i, j)
    requires State(redundancies, totalComparisons, trace) == Run(detect, segs, pairs, before)
    ensures State(found, comparisons, trace') == Run(detect, segs, pairs, before + 1)
  {
    RunNext(detect, segs, pairs, before, State(redundancies, totalComparisons, trace));
    found, comparisons, trace' := redundancies, totalComparisons, trace;
    if segs[i].chapterId == segs[j].chapterId {
      return;
    }
    comparisons := comparisons + 1;
    if Jaccard(segs[i].text, segs[j].text) > Prefilter {
      trace' := trace' + [Call(i, j)];
      var redundancy := detect(i, j);
      if redundancy.Some? && redundancy.value.similarityScore > Threshold {
        found := found + [redundancy.value];
      }
    }
  }

  /** The inner loop of `analyze`: the pairs (i, j), j > i. */
  method CompareRow(detect: Detector, segs: seq<Segment>, i: nat,
                    redundancies0: seq<Redundancy>, comparisons0: nat, trace0: seq<Event<()>>, ghost visited0: nat)
    returns (redundancies: seq<Redundancy>, comparisons: nat, trace: seq<Event<()>>, ghost visited: nat)
    requires i < |segs| && visited0 == |Rows(|segs|, i)| <= |AllPairs(|segs|)|
    requires State(redundancies0, comparisons0, trace0) == Run(detect, segs, AllPairs(|segs|), visited0)
    ensures visited == |Rows(|segs|, i + 1)| <= |AllPairs(|segs|)|
    ensures State(redundancies, comparisons, trace) == Run(detect, segs, AllPairs(|segs|), visited)
  {
    var n := |segs|;
    redundancies, comparisons, trace, visited := redundancies0, comparisons0, trace0, visited0;
    var j := i + 1;
    while j < n
      invariant i + 1 <= j <= n
      invariant visited == visited0 + (j - i - 1) <= |AllPairs(n)|
      invariant State(redundancies, comparisons, trace) == Run(detect, segs, AllPairs(n), visited)
    {
      PairAt(n, i, j);
      redundancies, comparisons, trace :=
        ComparePair(detect, segs, AllPairs(n), visited, i, j, redundancies, comparisons, trace);
      visited := visited + 1;
      j := j + 1;
    }
    RowEnd(n, i);
  }

  /** The comparison loop of `analyze` over a segment list. */
  method CompareSegments(detect: Detector, segs: seq<Segment>) returns (result: AnalysisResult, trace: seq<Event<()>>)
    ensures var s := Run(detect, segs, AllPairs(|segs|), |AllPairs(|segs|)|);
      result == Summarize(s.found, s.comparisons) && trace == s.trace
  {
    var redundancies: seq<Redundancy> := [];
    var totalComparisons := 0;
    trace := [];
    ghost var visited := 0;
    var i := 0;
    while i < |segs|
      invariant 0 <= i <= |segs|
      invariant visited == |Rows(|segs|, i)| <= |AllPairs(|segs|)|
      invariant State(redundancies, totalComparisons, trace) == Run(detect, segs, AllPairs(|segs|), visited)
    {
      redundancies, totalComparisons, trace, visited :=
        CompareRow(detect, segs, i, redundancies, totalComparisons, trace, visited);
      i := i + 1;
    }
    result := Summarize(redundancies, totalComparisons);
  }

  /** `analyze`: segment the chapters, then compare the segments pair by pair. */
  method Analyze(llm: (nat, nat) -> Option<string>, decode: string -> Option<Reply>, chapters: seq<Chapters.Chapter>)
    returns (result: AnalysisResult, trace: seq<Event<()>>)
    ensures var segs := AllSegments(chapters);
      var s := Run(DetectorOf(llm, decode, segs), segs, AllPairs(|segs|), |AllPairs(|segs|)|);
      result == Summarize(s.found, s.comparisons) && trace == s.trace
  {
    var segments := CreateSegments(chapters);
    result, trace := CompareSegments(DetectorOf(llm, decode, segments), segments);
  }

  // ---------------------------------------------------------------------------
  // What the loop counts, asks and keeps
  // ---------------------------------------------------------------------------

  /** The pairs of `ps` that cross chapters, in order. */
  function Compared(segs: seq<Segment>, ps: seq<Pair>): seq<Pair>
    decreases |ps|
  {
    if |ps| == 0 then []
    else Compared(segs, ps[..|ps| - 1]) + (if Cross(segs, ps[|ps| - 1]) then [ps[|ps| - 1]] else [])
  }

  /** The pairs of `ps` the model is asked about, in order. */
  function Asked(segs: seq<Segment>, ps: seq<Pair>): seq<Pair>
    decreases |ps|
  {
    if |ps| == 0 then []
    else Asked(segs, ps[..|ps| - 1]) + (if Asks(segs, ps[|ps| - 1]) then [ps[|ps| - 1]] else [])
  }

  lemma {:induction false} ComparedMembers(segs: seq<Segment>, ps: seq<Pair>)
    ensures forall p :: p in Compared(segs, ps) <==> p in ps && Cross(segs, p)
    decreases |ps|
  {
    if |ps| > 0 {
      ComparedMembers(segs, ps[..|ps| - 1]);
      assert ps == ps[..|ps| - 1] + [ps[|ps| - 1]];
    }
  }

  lemma {:induction false} AskedMembers(segs: seq<Segment>, ps: seq<Pair>)
    ensures forall p :: p in Asked(segs, ps) <==> p in ps && Asks(segs, p)
    decreases |ps|
  {
    if |ps| > 0 {
      AskedMembers(segs, ps[..|ps| - 1]);
      assert ps == ps[..|ps| - 1] + [ps[|ps| - 1]];
    }
  }

  /** A filter of an ascending list is ascending. */
  lemma {:induction false} AskedAscending(segs: seq<Segment>, ps: seq<Pair>)
    requires Ascending(ps)
    ensures Ascending(Asked(segs, ps))
    decreases |ps|
  {
    if |ps| > 0 {
      var init, last := ps[..|ps| - 1], ps[|ps| - 1];
      AskedAscending(segs, init);
      AskedMembers(segs, init);
      var l := Asked(segs, init);
      if Asks(segs, last) {
        forall a, b | 0 <= a < b < |l| + 1 ensures LexLess((l + [last])[a], (l + [last])[b]) {
          if b == |l| {
            assert l[a] in init;
            var k :| 0 <= k < |init| && init[k] == l[a];
            assert ps[k] == l[a];
          }
        }
      }
    }
  }

  /** After m pairs the comparison count is the number of cross-chapter pairs among them. */
  lemma {:induction false} RunComparisons(detect: Detector, segs: seq<Segment>, pairs: seq<Pair>, m: nat)
    requires m <= |pairs|
    ensures Run(detect, segs, pairs, m).comparisons == |Compared(segs, pairs[..m])|
    decreases m
  {
    if m > 0 {
      RunComparisons(detect, segs, pairs, m - 1);
      assert pairs[..m][..m - 1] == pairs[..m - 1];
    }
  }

  /** After m pairs the model has been asked about exactly the cross-chapter pairs past the prefilter, in order. */
  lemma {:induction false} RunCalls(detect: Detector, segs: seq<Segment>, pairs: seq<Pair>, m: nat)
    requires m <= |pairs|
    ensures Calls(Run(detect, segs, pairs, m).trace) == Asked(segs, pairs[..m])
    decreases m
  {
    if m > 0 {
      var prev := Run(detect, segs, pairs, m - 1);
      RunCalls(detect, segs, pairs, m - 1);
      assert pairs[..m][..m - 1] == pairs[..m - 1];
      var p := pairs[m - 1];
      if Asks(segs, p) {
        CallsAppend(prev.trace, [Call(p.0, p.1)]);
      }
    }
  }

  /** No more findings than calls, and no more calls than comparisons. */
  lemma {:induction false} RunBounds(detect: Detector, segs: seq<Segment>, pairs: seq<Pair>, m: nat)
    requires m <= |pairs|
    ensures var s := Run(detect, segs, pairs, m);
      |s.found| <= |Calls(s.trace)| <= s.comparisons
    decreases m
  {
    if m > 0 {
      var prev := Run(detect, segs, pairs, m - 1);
      RunBounds(detect, segs, pairs, m - 1);
      var p := pairs[m - 1];
      if Asks(segs, p) {
        CallsAppend(prev.trace, [Call(p.0, p.1)]);
      }
    }
  }

  /** Every finding is a detection above the threshold for a pair the model was asked about. */
  lemma {:induction false} FoundFrom(detect: Detector, segs: seq<Segment>, pairs: seq<Pair>, m: nat, x: nat)
    returns (k: nat)
    requires m <= |pairs| && x < |Run(detect, segs, pairs, m).found|
    ensures k < m && Asks(segs, pairs[k])
    ensures detect(pairs[k].0, pairs[k].1) == Some(Run(detect, segs, pairs, m).found[x])
    ensures Run(detect, segs, pairs, m).found[x].similarityScore > Threshold
    decreases m
  {
    var prev := Run(detect, segs, pairs, m - 1);
    if x < |prev.found| {
      k := FoundFrom(detect, segs, pairs, m - 1, x);
    } else {
      k := m - 1;
    }
  }

  /**
   * `analyze` compares every cross-chapter pair of segments, asks the model, in ascending
   * order and once each, about exactly those that pass the prefilter (so never about two
   * segments without a common word), and finds no more than it compared.
   */
  lemma {:induction false} AnalyzeCounts(detect: Detector, segs: seq<Segment>)
    ensures var pairs := AllPairs(|segs|);
      var s := Run(detect, segs, pairs, |pairs|);
      (forall p :: p in Compared(segs, pairs) <==> p.0 < p.1 < |segs| && Cross(segs, p))
      && s.comparisons == |Compared(segs, pairs)|
      && Ascending(Calls(s.trace))
      && (forall p: Pair :: p in Calls(s.trace) <==> p.0 < p.1 < |segs| && Asks(segs, p))
      && |s.found| <= s.comparisons
      && 0.0 <= Score(|s.found|, s.comparisons) <= 1.0
  {
    var pairs := AllPairs(|segs|);
    assert pairs[..|pairs|] == pairs;
    RunComparisons(detect, segs, pairs, |pairs|);
    RunCalls(detect, segs, pairs, |pairs|);
    RunBounds(detect, segs, pairs, |pairs|);
    AllPairsMembers(|segs|);
    AllPairsAscending(|segs|);
    ComparedMembers(segs, pairs);
    AskedMembers(segs, pairs);
    AskedAscending(segs, pairs);
  }

  /** With the model's replies, every finding names two segments of different chapters by their IDs. */
  lemma {:induction false} FoundNamesSegments(llm: (nat, nat) -> Option<string>, decode: string -> Option<Reply>,
                                              segs: seq<Segment>, x: nat) returns (i: nat, j: nat)
    requires x < |Run(DetectorOf(llm, decode, segs), segs, AllPairs(|segs|), |AllPairs(|segs|)|).found|
    ensures var r := Run(DetectorOf(llm, decode, segs), segs, AllPairs(|segs|), |AllPairs(|segs|)|).found[x];
      i < j < |segs| && segs[i].chapterId != segs[j].chapterId
      && r.section1Id == segs[i].id && r.section2Id == segs[j].id && r.similarityScore > Threshold
  {
    var detect := DetectorOf(llm, decode, segs);
    var pairs := AllPairs(|segs|);
    var k := FoundFrom(detect, segs, pairs, |pairs|, x);
    AllPairsMembers(|segs|);
    assert pairs[k] in pairs;
    i, j := pairs[k].0, pairs[k].1;
    assert detect(i, j) == DetectRedundancy(llm(i, j), decode, segs[i].id, segs[j].id);
  }
}
