/**
 * `ContradictionAnalyzer` of the second pipeline (analyzers/contradiction.py): the ID
 * split its prompt shows, `_detect_contradiction` on one chapter pair, and `analyze`,
 * which asks the model about every chapter pair in turn with its own sleep schedule and
 * scores the run by the mean confidence of what it found.
 */
module ContradictionAnalyzer {
  import opened Wrappers
  import opened Strings
  import opened Pairs
  import opened Analysis
  import opened Contradictions
  import Chapters

  // ---------------------------------------------------------------------------
  // The chapter IDs in the prompt
  // ---------------------------------------------------------------------------

  /**
   * `get_prompt`'s reading of a chapter ID: the part before its last "_" (the document)
   * and the part after it (the section, "" when the ID has no "_").
   */
  function SplitId(id: string): (r: (string, string))
    ensures '_' !in r.1
  {
    var parts := Split(id, '_');
    if |parts| > 1 then (Join(parts[..|parts| - 1], "_"), parts[|parts| - 1]) else (parts[0], "")
  }

  /** An ID with a "_" is its document, "_" and its section; an ID without one is its own document. */
  lemma {:induction false} SplitIdRejoin(id: string)
    ensures '_' in id ==> SplitId(id).0 + "_" + SplitId(id).1 == id
    ensures '_' !in id ==> SplitId(id) == (id, "")
  {
    var parts := Split(id, '_');
    JoinSplit(id, '_');
    if |parts| > 1 {
      var n := |parts| - 1;
      assert parts[..n] + [parts[n]] == parts;
      JoinSnoc(parts[..n], parts[n], "_");
      assert '_' in "_";
    } else {
      assert Join(parts, "_") == parts[0];
      assert '_' !in parts[0];
    }
  }

  /** For a chapter ID `hash8_number` the prompt shows the hash prefix as the document and the number as the section. */
  lemma {:induction false} SplitChapterId(c: Chapters.Chapter)
    requires '_' !in Take(c.fileHash, 8)
    ensures SplitId(Chapters.GetId(c)) == (Take(c.fileHash, 8), NatToString(c.number))
  {
    var h, n := Take(c.fileHash, 8), NatToString(c.number);
    assert Chapters.GetId(c) == h + ['_'] + n;
    assert '_' !in n by { assert forall k :: 0 <= k < |n| ==> IsDigit(n[k]); }
    SplitConcat(h, n, '_');
    SplitNoSep(n, '_');
    assert Split(Chapters.GetId(c), '_') == [h, n];
    assert [h, n][..1] == [h];
  }

  // ---------------------------------------------------------------------------
  // One pair
  // ---------------------------------------------------------------------------

  /**
   * `_detect_contradiction` on the reply to its model call (`None` when the call raised):
   * an `Err` is the exception `analyze` catches; otherwise a finding or none.
   */
  function DetectPair(reply: Option<string>, decode: string -> Option<Reply>, id1: string, id2: string)
    : (r: Result<Option<Contradiction>, Failure>)
    ensures reply.None? ==> r == Err(LlmError)
    ensures reply.Some? && decode(reply.value).Some? ==> r == Ok(FromReply(decode(reply.value).value, id1, id2))
    ensures r.Ok? && r.value.Some? ==> r.value.value.doc1Id == id1 && r.value.value.doc2Id == id2
  {
    match Ask(reply, decode)
    case Err(e) => Err(e)
    case Ok(v) => Ok(FromReply(v, id1, id2))
  }

  /** What `_detect_contradiction` yields on the k-th call (from 0) for the chapters at positions i and j. */
  type Detector = (nat, nat, nat) -> Result<Option<Contradiction>, Failure>

  /** The detector for a chapter list, the model's reply to each call and the JSON decoder. */
  function DetectorOf(llm: nat -> Option<string>, decode: string -> Option<Reply>, chapters: seq<Chapters.Chapter>): Detector
  {
    (k: nat, i: nat, j: nat) =>
      if i < |chapters| && j < |chapters| then
        DetectPair(llm(k), decode, Chapters.GetId(chapters[i]), Chapters.GetId(chapters[j]))
      else Ok(None)
  }

  // ---------------------------------------------------------------------------
  // The pair loop
  // ---------------------------------------------------------------------------

  const DelaySeconds: nat := 2
  const PauseSeconds: nat := 60
  /** A pause comes before every pair whose number (from 1) is a multiple of this. */
  const PauseEvery: nat := 10

  /** What visiting pair `p` as pair number k + 1 does: the sleeps, then the call. */
  function PairEvents(k: nat, p: Pair): seq<Event<()>>
  {
    (if k > 0 then [Sleep(DelaySeconds)] else [])
    + (if (k + 1) % PauseEvery == 0 then [Sleep(PauseSeconds)] else [])
    + [Call(p.0, p.1)]
  }

  /** A finding, if the pair yielded one; an exception yields none. */
  function Finding(o: Result<Option<Contradiction>, Failure>): seq<Contradiction>
  {
    match o
    case Ok(Some(c)) => [c]
    case _ => []
  }

  datatype State = State(found: seq<Contradiction>, trace: seq<Event<()>>)

  function Step(detect: Detector, s: State, k: nat, p: Pair): State
  {
    State(s.found + Finding(detect(k, p.0, p.1)), s.trace + PairEvents(k, p))
  }

  /** The state after the first `m` of `pairs`. */
  function Run(detect: Detector, pairs: seq<Pair>, m: nat): State
    requires m <= |pairs|
  {
    if m == 0 then State([], [])
    else Step(detect, Run(detect, pairs, m - 1), m - 1, pairs[m - 1])
  }

  /** The result `analyze` returns for the findings of a run. */
  function Summarize(found: seq<Contradiction>): (r: AnalysisResult)
    ensures r.analyzerType == "contradiction"
    ensures r.details.Items? && r.totalIssues == |r.details.items| == |found|
    ensures forall x :: 0 <= x < |found| ==> FromDict(r.details.items[x]) == Some(found[x])
  {
    var r := AnalysisResult("contradiction", |found|, Mean(Confidences(found), 1.0), Items(ToDicts(ToDict, found)));
    forall x | 0 <= x < |found| ensures FromDict(r.details.items[x]) == Some(found[x]) {
      DictRoundTrip(found[x]);
    }
    r
  }

  lemma {:induction false} RunNext(detect: Detector, pairs: seq<Pair>, m: nat, s: State)
    requires m < |pairs| && s == Run(detect, pairs, m)
    ensures Step(detect, s, m, pairs[m]) == Run(detect, pairs, m + 1)
  {
  }

  /** The body of the inner loop for pair (i, j), visited after `before` others. */
  method CheckPair(detect: Detector, ghost pairs: seq<Pair>, before: nat, i: nat, j: nat,
                   contradictions: seq<Contradiction>, trace: seq<Event<()>>)
    returns (found: seq<Contradiction>, trace': seq<Event<()>>)
    requires before < |pairs| && pairs[before] == (i, j)
    requires State(contradictions, trace) == Run(detect, pairs, before)
    ensures State(found, trace') == Run(detect, pairs, before + 1)
  {
    RunNext(detect, pairs, before, State(contradictions, trace));
    var pairsChecked := before + 1;
    trace' := trace;
    if pairsChecked > 1 {
      trace' := trace' + [Sleep(DelaySeconds)];
    }
    if pairsChecked % PauseEvery == 0 {
      trace' := trace' + [Sleep(PauseSeconds)];
    }
    trace' := trace' + [Call(i, j)];
    found := contradictions;
    var contradiction := detect(before, i, j);
    if contradiction.Ok? && contradiction.value.Some? {
      found := found + [contradiction.value.value];
    }
  }

  /** The inner loop of `analyze`: the pairs (i, j), j > i. */
  method CheckRow(detect: Detector, n: nat, i: nat,
                  contradictions0: seq<Contradiction>, trace0: seq<Event<()>>, pairsChecked0: nat)
    returns (contradictions: seq<Contradiction>, trace: seq<Event<()>>, pairsChecked: nat)
    requires i < n && pairsChecked0 == |Rows(n, i)| <= |AllPairs(n)|
    requires State(contradictions0, trace0) == Run(detect, AllPairs(n), pairsChecked0)
    ensures pairsChecked == |Rows(n, i + 1)| <= |AllPairs(n)|
    ensures State(contradictions, trace) == Run(detect, AllPairs(n), pairsChecked)
  {
    contradictions, trace, pairsChecked := contradictions0, trace0, pairsChecked0;
    var j := i + 1;
    while j < n
      invariant i + 1 <= j <= n
      invariant pairsChecked == pairsChecked0 + (j - i - 1) <= |AllPairs(n)|
      invariant State(contradictions, trace) == Run(detect, AllPairs(n), pairsChecked)
    {
      PairAt(n, i, j);
      contradictions, trace := CheckPair(detect, AllPairs(n), pairsChecked, i, j, contradictions, trace);
      pairsChecked := pairsChecked + 1;
      j := j + 1;
    }
    RowEnd(n, i);
  }

  /** `analyze`: every pair (i, j), i < j, in turn. */
  method Analyze(detect: Detector, n: nat) returns (result: AnalysisResult, trace: seq<Event<()>>)
    ensures var s := Run(detect, AllPairs(n), |AllPairs(n)|);
      result == Summarize(s.found) && trace == s.trace
  {
    var contradictions: seq<Contradiction> := [];
    trace := [];
    var pairsChecked := 0;
    var i := 0;
    while i < n
      invariant 0 <= i <= n
      invariant pairsChecked == |Rows(n, i)| <= |AllPairs(n)|
      invariant State(contradictions, trace) == Run(detect, AllPairs(n), pairsChecked)
    {
      contradictions, trace, pairsChecked := CheckRow(detect, n, i, contradictions, trace, pairsChecked);
      i := i + 1;
    }
    result := Summarize(contradictions);
  }

  // ---------------------------------------------------------------------------
  // What the loop finds
  // ---------------------------------------------------------------------------

  /** Every finding is what the detector returned for one of the visited pairs. */
  lemma {:induction false} FoundFrom(detect: Detector, pairs: seq<Pair>, m: nat, x: nat) returns (k: nat)
    requires m <= |pairs| && x < |Run(detect, pairs, m).found|
    ensures k < m && detect(k, pairs[k].0, pairs[k].1) == Ok(Some(Run(detect, pairs, m).found[x]))
    decreases m
  {
    var prev := Run(detect, pairs, m - 1);
    if x < |prev.found| {
      k := FoundFrom(detect, pairs, m - 1, x);
    } else {
      k := m - 1;
    }
  }

  /** Findings are never dropped: the findings after m pairs begin those after any later count. */
  lemma {:induction false} FoundGrows(detect: Detector, pairs: seq<Pair>, m: nat, m': nat)
    requires m <= m' <= |pairs|
    ensures Run(detect, pairs, m).found <= Run(detect, pairs, m').found
    decreases m' - m
  {
    if m < m' {
      FoundGrows(detect, pairs, m, m' - 1);
    }
  }

  /**
   * Every finding the detector returns is kept, whatever the other pairs do: an
   * exception on one pair costs only that pair's finding.
   */
  lemma {:induction false} DetectedIsFound(detect: Detector, pairs: seq<Pair>, m: nat, k: nat)
    requires k < m <= |pairs|
    requires detect(k, pairs[k].0, pairs[k].1).Ok? && detect(k, pairs[k].0, pairs[k].1).value.Some?
    ensures detect(k, pairs[k].0, pairs[k].1).value.value in Run(detect, pairs, m).found
  {
    var prev := Run(detect, pairs, k);
    var f := Run(detect, pairs, k + 1).found;
    FoundGrows(detect, pairs, k + 1, m);
    assert f[|prev.found|] in f;
  }

  /** With the model's replies, every finding names the two chapters of its pair by their IDs. */
  lemma {:induction false} FoundNamesChapters(llm: nat -> Option<string>, decode: string -> Option<Reply>,
                                              chapters: seq<Chapters.Chapter>, x: nat) returns (k: nat)
    requires x < |Run(DetectorOf(llm, decode, chapters), AllPairs(|chapters|), |AllPairs(|chapters|)|).found|
    ensures var pairs := AllPairs(|chapters|);
      var c := Run(DetectorOf(llm, decode, chapters), pairs, |pairs|).found[x];
      k < |pairs| && pairs[k].0 < pairs[k].1 < |chapters|
      && c.doc1Id == Chapters.GetId(chapters[pairs[k].0]) && c.doc2Id == Chapters.GetId(chapters[pairs[k].1])
  {
    var detect := DetectorOf(llm, decode, chapters);
    var pairs := AllPairs(|chapters|);
    k := FoundFrom(detect, pairs, |pairs|, x);
    AllPairsMembers(|chapters|);
    assert pairs[k] in pairs;
    var (i, j) := pairs[k];
    assert detect(k, i, j) == DetectPair(llm(k), decode, Chapters.GetId(chapters[i]), Chapters.GetId(chapters[j]));
  }

  // ---------------------------------------------------------------------------
  // What the loop does
  // ---------------------------------------------------------------------------

  /** One pair's events call the model on that pair only. */
  lemma {:induction false} PairEventsCalls(k: nat, p: Pair)
    ensures Calls(PairEvents(k, p)) == [p]
  {
    var delay: seq<Event<()>> := if k > 0 then [Sleep(DelaySeconds)] else [];
    var pause: seq<Event<()>> := if (k + 1) % PauseEvery == 0 then [Sleep(PauseSeconds)] else [];
    assert Calls(delay) == [] && Calls(pause) == [];
    CallsAppend(delay + pause, [Call(p.0, p.1)]);
    CallsAppend(delay, pause);
  }

  /** One pair's events hold one short sleep, unless it is the first pair. */
  lemma {:induction false} PairEventsDelays(k: nat, p: Pair)
    ensures Sleeps(PairEvents(k, p), DelaySeconds) == if k > 0 then 1 else 0
  {
    var delay: seq<Event<()>> := if k > 0 then [Sleep(DelaySeconds)] else [];
    var pause: seq<Event<()>> := if (k + 1) % PauseEvery == 0 then [Sleep(PauseSeconds)] else [];
    assert Sleeps(pause, DelaySeconds) == 0;
    SleepsAppend(delay + pause, [Call(p.0, p.1)], DelaySeconds);
    SleepsAppend(delay, pause, DelaySeconds);
  }

  /** One pair's events hold one pause when its number (from 1) is a multiple of ten. */
  lemma {:induction false} PairEventsPauses(k: nat, p: Pair)
    ensures Sleeps(PairEvents(k, p), PauseSeconds) == if (k + 1) % PauseEvery == 0 then 1 else 0
  {
    var delay: seq<Event<()>> := if k > 0 then [Sleep(DelaySeconds)] else [];
    var pause: seq<Event<()>> := if (k + 1) % PauseEvery == 0 then [Sleep(PauseSeconds)] else [];
    assert Sleeps(delay, PauseSeconds) == 0;
    SleepsAppend(delay + pause, [Call(p.0, p.1)], PauseSeconds);
    SleepsAppend(delay, pause, PauseSeconds);
  }

  /** After m pairs the model has been called on those pairs, in order, once each. */
  lemma {:induction false} RunCalls(detect: Detector, pairs: seq<Pair>, m: nat)
    requires m <= |pairs|
    ensures Calls(Run(detect, pairs, m).trace) == pairs[..m]
    decreases m
  {
    if m > 0 {
      var prev := Run(detect, pairs, m - 1);
      RunCalls(detect, pairs, m - 1);
      PairEventsCalls(m - 1, pairs[m - 1]);
      CallsAppend(prev.trace, PairEvents(m - 1, pairs[m - 1]));
      SliceSnoc(pairs, 0, m - 1);
    }
  }

  /** A 2-second sleep comes before every pair but the first. */
  lemma {:induction false} RunDelays(detect: Detector, pairs: seq<Pair>, m: nat)
    requires m <= |pairs|
    ensures Sleeps(Run(detect, pairs, m).trace, DelaySeconds) == if m == 0 then 0 else m - 1
    decreases m
  {
    if m > 0 {
      var prev := Run(detect, pairs, m - 1);
      RunDelays(detect, pairs, m - 1);
      PairEventsDelays(m - 1, pairs[m - 1]);
      SleepsAppend(prev.trace, PairEvents(m - 1, pairs[m - 1]), DelaySeconds);
    }
  }

  lemma {:induction false} PauseCount(m: nat)
    requires m > 0
    ensures (m - 1) / PauseEvery + (if m % PauseEvery == 0 then 1 else 0) == m / PauseEvery
  {
  }

  /** A 60-second pause comes before pairs 10, 20, ...: m / 10 of them after m pairs. */
  lemma {:induction false} RunPauses(detect: Detector, pairs: seq<Pair>, m: nat)
    requires m <= |pairs|
    ensures Sleeps(Run(detect, pairs, m).trace, PauseSeconds) == m / PauseEvery
    decreases m
  {
    if m > 0 {
      var prev := Run(detect, pairs, m - 1);
      var events := PairEvents(m - 1, pairs[m - 1]);
      assert Run(detect, pairs, m).trace == prev.trace + events;
      RunPauses(detect, pairs, m - 1);
      PairEventsPauses(m - 1, pairs[m - 1]);
      SleepsAppend(prev.trace, events, PauseSeconds);
      var before, added := Sleeps(prev.trace, PauseSeconds), Sleeps(events, PauseSeconds);
      assert before == (m - 1) / PauseEvery;
      assert added == if m % PauseEvery == 0 then 1 else 0;
      PauseCount(m);
    }
  }

  /**
   * `analyze` calls the model on the n(n-1)/2 pairs (i, j), i < j, in ascending order,
   * each once, with n(n-1)/2 - 1 short sleeps (none for fewer than two pairs) and one
   * pause per ten pairs.
   */
  lemma {:induction false} AnalyzeTrace(detect: Detector, n: nat)
    ensures var m := |AllPairs(n)|;
      var t := Run(detect, AllPairs(n), m).trace;
      Ascending(Calls(t)) && |Calls(t)| == n * (n - 1) / 2
      && (forall p: Pair :: p in Calls(t) <==> p.0 < p.1 < n)
      && Sleeps(t, DelaySeconds) == (if m == 0 then 0 else m - 1)
      && Sleeps(t, PauseSeconds) == m / PauseEvery
  {
    RunCalls(detect, AllPairs(n), |AllPairs(n)|);
    RunDelays(detect, AllPairs(n), |AllPairs(n)|);
    RunPauses(detect, AllPairs(n), |AllPairs(n)|);
    AllPairsAscending(n);
    AllPairsMembers(n);
    PairCount(n);
    assert AllPairs(n)[..|AllPairs(n)|] == AllPairs(n);
  }

  // ---------------------------------------------------------------------------
  // The score
  // ---------------------------------------------------------------------------

  /** With no finding the score is 1.0; otherwise it is the mean confidence. */
  lemma {:induction false} ScoreIsMean(found: seq<Contradiction>)
    ensures |found| == 0 ==> Summarize(found).confidenceScore == 1.0
    ensures |found| > 0 ==> Summarize(found).confidenceScore * |found| as real == Sum(Confidences(found))
  {
  }

  /** Confidences within [lo, hi], a range that holds 1.0, give a score within it. */
  lemma {:induction false} ScoreBounds(found: seq<Contradiction>, lo: real, hi: real)
    requires lo <= 1.0 <= hi
    requires forall x :: 0 <= x < |found| ==> lo <= found[x].confidenceScore <= hi
    ensures lo <= Summarize(found).confidenceScore <= hi
  {
    MeanBounds(Confidences(found), 1.0, lo, hi);
  }
}
