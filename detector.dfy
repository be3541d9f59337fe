/**
 * The contradiction search of the first pipeline (rag_pdf_checker_v1.py):
 * `ContradictionDetector.detect_contradiction` on one chapter pair, and
 * `RAGPDFChecker._detect_all_contradictions`, which walks every chapter pair with a
 * call budget, a confidence threshold and a checkpoint rewrite after every finding.
 */
module DetectorV1 {
  import opened Wrappers
  import opened Strings
  import opened Pairs
  import opened Replies
  import opened Analysis
  import opened Contradictions
  import ChaptersV1

  datatype ModelType = OpenAi | Claude

  /**
   * What one model call returned: `None` when the client raised, otherwise the text
   * of every returned item (each choice's message for OpenAI, each content block for Claude).
   */
  type Response = Option<seq<string>>

  /**
   * Everything outside the code: the model in use, its reply to the k-th call,
   * the JSON decoder and the MD5 hex digest used by chapter IDs.
   */
  datatype Env = Env(
    model: ModelType,
    llm: nat -> Response,
    decode: string -> Option<Reply>,
    md5: string -> string)

  /**
   * The text handed to `json.loads`, or `None` when reading the reply raises (an
   * OpenAI reply without choices). A Claude reply without content blocks reads as "".
   */
  function ReplyText(model: ModelType, texts: seq<string>): Option<string>
  {
    match model
    case OpenAi => if |texts| == 0 then None else Some(texts[0])
    case Claude => Some(UnwrapLeadingFence(if |texts| == 0 then "" else texts[0]))
  }

  /** `detect_contradiction`: any exception is logged and yields no finding. */
  function Detect(model: ModelType, response: Response, decode: string -> Option<Reply>, id1: string, id2: string): (r: Option<Contradiction>)
    ensures r.Some? ==> r.value.doc1Id == id1 && r.value.doc2Id == id2
    ensures response.None? ==> r.None?
  {
    match response
    case None => None
    case Some(texts) =>
      match ReplyText(model, texts)
      case None => None
      case Some(text) =>
        match decode(text)
        case None => None
        case Some(reply) => FromReply(reply, id1, id2)
  }

  /** A Claude reply that is one "```json" block is decoded from the block's stripped body. */
  lemma {:induction false} ClaudeFencedReply(body: string, decode: string -> Option<Reply>, id1: string, id2: string)
    ensures Detect(Claude, Some([JsonFence + body + Fence]), decode, id1, id2)
      == (match decode(Strip(body)) case Some(reply) => FromReply(reply, id1, id2) case None => None)
  {
    LeadingFenceRoundTrip(body);
  }

  /** An OpenAI reply is decoded as it is, fences included. */
  lemma {:induction false} OpenAiReplyVerbatim(text: string, decode: string -> Option<Reply>, id1: string, id2: string)
    ensures Detect(OpenAi, Some([text]), decode, id1, id2)
      == (match decode(text) case Some(reply) => FromReply(reply, id1, id2) case None => None)
  {
  }

  // ---------------------------------------------------------------------------
  // The checkpoint file
  // ---------------------------------------------------------------------------

  /** The checkpoint file's content; `generated_at` (the clock) is not modelled. */
  datatype Checkpoint = Checkpoint(status: string, totalContradictions: nat, contradictions: seq<Dict>)

  /**
   * `save_intermediate_results`: the file written for the list `cs` (a `Save(cs)` event
   * of the trace below).
   */
  function Interim(cs: seq<Contradiction>): Checkpoint
  {
    Checkpoint("in_progress", |cs|, ToDicts(ToDict, cs))
  }

  /** The file is marked in progress, counts its records, and every record reads back as its finding. */
  lemma {:induction false} InterimShape(cs: seq<Contradiction>)
    ensures var r := Interim(cs);
      r.status == "in_progress" && r.totalContradictions == |cs| == |r.contradictions|
      && forall k :: 0 <= k < |cs| ==> FromDict(r.contradictions[k]) == Some(cs[k])
  {
    forall k | 0 <= k < |cs| ensures FromDict(Interim(cs).contradictions[k]) == Some(cs[k]) {
      DictRoundTrip(cs[k]);
    }
  }

  // ---------------------------------------------------------------------------
  // The scheduler
  // ---------------------------------------------------------------------------

  /** `api_calls_per_minute` */
  const CallsPerMinute: nat := 10
  const PauseSeconds: nat := 60
  const DelaySeconds: nat := 2
  /** Findings at or below this confidence are dropped. */
  const Threshold: real := 0.6
  /** Pairs checked in test mode. */
  const TestPairs: nat := 5

  /** The pairs visited: all of them, or the first five in test mode. */
  function Visited(n: nat, testMode: bool): seq<Pair>
  {
    if testMode then Take(AllPairs(n), TestPairs) else AllPairs(n)
  }

  lemma {:induction false} VisitedInRange(n: nat, testMode: bool)
    ensures InRange(Visited(n, testMode), n)
  {
    AllPairsInRange(n);
  }

  /**
   * `detect_contradiction` as the scheduler sees it: what it returns on the scheduler's
   * k-th model call, for the chapters at positions i and j of the chapter list.
   */
  type Detector = (nat, nat, nat) -> Option<Contradiction>

  /**
   * The detector built on the environment's client for a given chapter list: `Detect` on
   * the two chapters' IDs. Positions outside the list are never visited.
   */
  function DetectorOf(env: Env, chapters: seq<ChaptersV1.Chapter>): Detector
  {
    (k: nat, i: nat, j: nat) =>
      if i < |chapters| && j < |chapters| then
        Detect(env.model, env.llm(k), env.decode, ChaptersV1.GetId(chapters[i], env.md5), ChaptersV1.GetId(chapters[j], env.md5))
      else None
  }

  /** The finding kept for the pair visited as the k-th call, if any. */
  function Kept(detect: Detector, k: nat, p: Pair): (r: Option<Contradiction>)
    ensures r.Some? <==> (detect(k, p.0, p.1).Some?
      && detect(k, p.0, p.1).value.confidenceScore > Threshold)
    ensures r.Some? ==> r == detect(k, p.0, p.1)
  {
    var c := detect(k, p.0, p.1);
    if c.Some? && c.value.confidenceScore > Threshold then c else None
  }

  function OptionToSeq<T>(o: Option<T>): seq<T>
  {
    match o case Some(v) => [v] case None => []
  }

  /** Whether the k-th call (from 0) waits for a minute first: after every tenth call. */
  predicate PausesBefore(k: nat)
  {
    k > 0 && k % CallsPerMinute == 0
  }

  /** What visiting one pair does; `found` is the list after it. */
  function PairEvents(pause: bool, p: Pair, kept: bool, found: seq<Contradiction>): seq<Event<seq<Contradiction>>>
  {
    (if pause then [Sleep(PauseSeconds)] else []) + [Call(p.0, p.1)] + (if kept then [Save(found)] else []) + [Sleep(DelaySeconds)]
  }

  /** What the scheduler holds: the findings kept so far and everything done so far. */
  datatype State = State(found: seq<Contradiction>, trace: seq<Event<seq<Contradiction>>>)

  /** Visiting pair `p` as the k-th call (from 0). */
  function Step(detect: Detector, s: State, k: nat, p: Pair): State
  {
    var kept := Kept(detect, k, p);
    var found := s.found + OptionToSeq(kept);
    State(found, s.trace + PairEvents(PausesBefore(k), p, kept.Some?, found))
  }

  /** The state after visiting the first `m` of `pairs`, in order, from the start. */
  function Run(detect: Detector, pairs: seq<Pair>, m: nat): State
    requires m <= |pairs|
  {
    if m == 0 then State([], [])
    else Step(detect, Run(detect, pairs, m - 1), m - 1, pairs[m - 1])
  }

  /** Visiting the next pair of a run extends the run by one. */
  lemma {:induction false} RunNext(detect: Detector, pairs: seq<Pair>, m: nat, s: State)
    requires m < |pairs|
    requires s == Run(detect, pairs, m)
    ensures Step(detect, s, m, pairs[m]) == Run(detect, pairs, m + 1)
  {
  }

  /** One pair: the pause, the call, the threshold and the checkpoint rewrite. */
  method CheckPair(detect: Detector, apiCallsCount: nat, i: nat, j: nat,
                   contradictions: seq<Contradiction>, trace: seq<Event<seq<Contradiction>>>)
    returns (found: seq<Contradiction>, trace': seq<Event<seq<Contradiction>>>)
    ensures State(found, trace') == Step(detect, State(contradictions, trace), apiCallsCount, (i, j))
  {
    var events := [];
    if apiCallsCount > 0 && apiCallsCount % CallsPerMinute == 0 {
      events := events + [Sleep(PauseSeconds)];
    }
    events := events + [Call(i, j)];
    found := contradictions;
    var contradiction := detect(apiCallsCount, i, j);
    if contradiction.Some? && contradiction.value.confidenceScore > Threshold {
      found := found + [contradiction.value];
      events := events + [Save(found)];
    }
    events := events + [Sleep(DelaySeconds)];
    trace' := trace + events;
  }

  /** How many pairs are visited: all of them, or five in test mode when there are more. */
  function VisitCount(n: nat, testMode: bool): (r: nat)
    ensures r <= |AllPairs(n)|
    ensures Visited(n, testMode) == AllPairs(n)[..r]
  {
    if testMode && TestPairs < |AllPairs(n)| then TestPairs else |AllPairs(n)|
  }

  /** The scheduler stops after all pairs, or in test mode after five pairs, or fewer when there are fewer. */
  lemma {:induction false} VisitCountIs(n: nat, testMode: bool, m: nat)
    requires (m == |AllPairs(n)| && (testMode ==> m < TestPairs)) || (testMode && m == TestPairs <= |AllPairs(n)|)
    ensures VisitCount(n, testMode) == m
  {
  }

  /**
   * The inner loop of `_detect_all_contradictions`: the pairs (i, j), j > i, until the row
   * ends or, in test mode, five pairs have been checked in all.
   */
  method CheckRow(detect: Detector, n: nat, testMode: bool, i: nat,
                  contradictions0: seq<Contradiction>, trace0: seq<Event<seq<Contradiction>>>, pairsChecked0: nat)
    returns (contradictions: seq<Contradiction>, trace: seq<Event<seq<Contradiction>>>, pairsChecked: nat)
    requires i < n && pairsChecked0 == |Rows(n, i)|
    requires pairsChecked0 <= |AllPairs(n)|
    requires State(contradictions0, trace0) == Run(detect, AllPairs(n), pairsChecked0)
    requires testMode ==> pairsChecked0 < TestPairs
    ensures pairsChecked <= |AllPairs(n)|
    ensures State(contradictions, trace) == Run(detect, AllPairs(n), pairsChecked)
    ensures testMode ==> pairsChecked <= TestPairs
    ensures !(testMode && pairsChecked == TestPairs) ==> pairsChecked == |Rows(n, i + 1)|
  {
    contradictions, trace, pairsChecked := contradictions0, trace0, pairsChecked0;
    var j := i + 1;
    while j < n
      invariant i + 1 <= j <= n
      invariant pairsChecked == |Rows(n, i)| + (j - i - 1) <= |AllPairs(n)|
      invariant State(contradictions, trace) == Run(detect, AllPairs(n), pairsChecked)
      invariant testMode ==> pairsChecked <= TestPairs
    {
      if testMode && pairsChecked >= TestPairs {
        return;
      }
      PairAt(n, i, j);
      RunNext(detect, AllPairs(n), pairsChecked, State(contradictions, trace));
      contradictions, trace := CheckPair(detect, pairsChecked, i, j, contradictions, trace);
      pairsChecked := pairsChecked + 1;
      j := j + 1;
    }
    RowEnd(n, i);
  }

  /**
   * `_detect_all_contradictions`: returns the kept findings and what was done, in order.
   * The source's two counters (`api_calls_count`, `pairs_checked`) are always equal; the
   * model keeps one.
   */
  method DetectAll(detect: Detector, n: nat, testMode: bool)
    returns (contradictions: seq<Contradiction>, trace: seq<Event<seq<Contradiction>>>)
    ensures State(contradictions, trace) == Run(detect, AllPairs(n), VisitCount(n, testMode))
  {
    contradictions, trace := [], [];
    var pairsChecked := 0;
    var i := 0;
    while i < n
      invariant 0 <= i <= n
      invariant pairsChecked == |Rows(n, i)| <= |AllPairs(n)|
      invariant State(contradictions, trace) == Run(detect, AllPairs(n), pairsChecked)
      invariant testMode ==> pairsChecked < TestPairs
    {
      contradictions, trace, pairsChecked := CheckRow(detect, n, testMode, i, contradictions, trace, pairsChecked);
      if testMode && pairsChecked >= TestPairs {
        VisitCountIs(n, testMode, pairsChecked);
        return;
      }
      i := i + 1;
    }
    VisitCountIs(n, testMode, pairsChecked);
  }

  // ---------------------------------------------------------------------------
  // What the scheduler keeps
  // ---------------------------------------------------------------------------

  /** A step keeps the findings it had and adds the pair's finding, if it is kept. */
  lemma {:induction false} StepFound(detect: Detector, s: State, k: nat, p: Pair)
    ensures var f := Step(detect, s, k, p).found;
      |f| == |s.found| + |OptionToSeq(Kept(detect, k, p))|
      && f[..|s.found|] == s.found
      && (Kept(detect, k, p).Some? ==> f[|s.found|] == Kept(detect, k, p).value)
  {
    var kept := Kept(detect, k, p);
    assert (s.found + OptionToSeq(kept))[..|s.found|] == s.found;
  }

  /** Every kept finding is what the detector returned for one of the visited pairs. */
  lemma {:induction false} FoundFrom(detect: Detector, pairs: seq<Pair>, m: nat, x: nat)
    returns (k: nat)
    requires m <= |pairs|
    requires x < |Run(detect, pairs, m).found|
    ensures k < m && Kept(detect, k, pairs[k]) == Some(Run(detect, pairs, m).found[x])
    decreases m
  {
    var prev := Run(detect, pairs, m - 1);
    StepFound(detect, prev, m - 1, pairs[m - 1]);
    if x < |prev.found| {
      k := FoundFrom(detect, pairs, m - 1, x);
    } else {
      k := m - 1;
    }
  }

  /**
   * With the client's detector, every kept finding names the two chapters of the visited
   * pair it came from, by their IDs.
   */
  lemma {:induction false} FoundNamesChapters(env: Env, chapters: seq<ChaptersV1.Chapter>, pairs: seq<Pair>, m: nat, x: nat)
    returns (k: nat)
    requires InRange(pairs, |chapters|) && m <= |pairs|
    requires x < |Run(DetectorOf(env, chapters), pairs, m).found|
    ensures k < m
    ensures var c := Run(DetectorOf(env, chapters), pairs, m).found[x];
      c.doc1Id == ChaptersV1.GetId(chapters[pairs[k].0], env.md5)
      && c.doc2Id == ChaptersV1.GetId(chapters[pairs[k].1], env.md5)
  {
    var detect := DetectorOf(env, chapters);
    k := FoundFrom(detect, pairs, m, x);
    var c := Run(detect, pairs, m).found[x];
    var (i, j) := pairs[k];
    assert detect(k, i, j) == Some(c);
    assert Detect(env.model, env.llm(k), env.decode, ChaptersV1.GetId(chapters[i], env.md5), ChaptersV1.GetId(chapters[j], env.md5)) == Some(c);
  }

  /** Every finding the scheduler keeps has a confidence above 0.6. */
  lemma {:induction false} AboveThreshold(detect: Detector, pairs: seq<Pair>, m: nat, x: nat)
    requires m <= |pairs|
    requires x < |Run(detect, pairs, m).found|
    ensures Run(detect, pairs, m).found[x].confidenceScore > Threshold
  {
    var k := FoundFrom(detect, pairs, m, x);
  }

  /** Findings are never dropped: the findings after m pairs begin the findings after any later count. */
  lemma {:induction false} FoundGrows(detect: Detector, pairs: seq<Pair>, m: nat, m': nat)
    requires m <= m' <= |pairs|
    ensures var f := Run(detect, pairs, m).found;
      var f' := Run(detect, pairs, m').found;
      |f| <= |f'| && f'[..|f|] == f
    decreases m' - m
  {
    if m < m' {
      var f := Run(detect, pairs, m).found;
      var mid := Run(detect, pairs, m' - 1);
      FoundGrows(detect, pairs, m, m' - 1);
      StepFound(detect, mid, m' - 1, pairs[m' - 1]);
      var f' := Run(detect, pairs, m').found;
      assert f'[..|mid.found|][..|f|] == f'[..|f|];
    }
  }

  /** Every finding above the threshold is kept: a pair whose finding passes appears in the result. */
  lemma {:induction false} KeptIsFound(detect: Detector, pairs: seq<Pair>, m: nat, k: nat)
    requires k < m <= |pairs|
    requires Kept(detect, k, pairs[k]).Some?
    ensures Kept(detect, k, pairs[k]).value in Run(detect, pairs, m).found
  {
    var prev := Run(detect, pairs, k);
    StepFound(detect, prev, k, pairs[k]);
    FoundGrows(detect, pairs, k + 1, m);
    var f := Run(detect, pairs, k + 1).found;
    var f' := Run(detect, pairs, m).found;
    assert f'[..|f|][|prev.found|] == f[|prev.found|];
  }

  // ---------------------------------------------------------------------------
  // What the scheduler's trace says
  // ---------------------------------------------------------------------------

  /** One pair's events call the model on that pair only. */
  lemma {:induction false} PairEventsCalls(pause: bool, p: Pair, kept: bool, f: seq<Contradiction>)
    ensures Calls(PairEvents(pause, p, kept, f)) == [p]
  {
    var wait: seq<Event<seq<Contradiction>>> := if pause then [Sleep(PauseSeconds)] else [];
    var tail: seq<Event<seq<Contradiction>>> := if kept then [Save(f)] else [];
    var call: seq<Event<seq<Contradiction>>> := [Call(p.0, p.1)];
    var delay: seq<Event<seq<Contradiction>>> := [Sleep(DelaySeconds)];
    assert Calls(wait) == [] && Calls(delay) == [];
    assert Calls(call) == [p];
    assert Calls(tail) == [];
    CallsAppend(wait + call + tail, delay);
    CallsAppend(wait + call, tail);
    CallsAppend(wait, call);
  }

  /** One pair's events write the checkpoint once if a finding was kept, else never. */
  lemma {:induction false} PairEventsSaves(pause: bool, p: Pair, kept: bool, f: seq<Contradiction>)
    ensures Saves(PairEvents(pause, p, kept, f)) == if kept then [f] else []
  {
    var wait: seq<Event<seq<Contradiction>>> := if pause then [Sleep(PauseSeconds)] else [];
    var tail: seq<Event<seq<Contradiction>>> := if kept then [Save(f)] else [];
    var call: seq<Event<seq<Contradiction>>> := [Call(p.0, p.1)];
    var delay: seq<Event<seq<Contradiction>>> := [Sleep(DelaySeconds)];
    assert Saves(wait) == [] && Saves(delay) == [];
    assert Saves(call) == [];
    assert Saves(tail) == if kept then [f] else [];
    SavesAppend(wait + call + tail, delay);
    SavesAppend(wait + call, tail);
    SavesAppend(wait, call);
  }

  /** One pair's events hold one delay, and one pause if the pair waits first. */
  lemma {:induction false} PairEventsSleeps(pause: bool, p: Pair, kept: bool, f: seq<Contradiction>, seconds: nat)
    ensures Sleeps(PairEvents(pause, p, kept, f), seconds)
      == (if pause && seconds == PauseSeconds then 1 else 0) + (if seconds == DelaySeconds then 1 else 0)
  {
    var wait: seq<Event<seq<Contradiction>>> := if pause then [Sleep(PauseSeconds)] else [];
    var tail: seq<Event<seq<Contradiction>>> := if kept then [Save(f)] else [];
    var call: seq<Event<seq<Contradiction>>> := [Call(p.0, p.1)];
    var delay: seq<Event<seq<Contradiction>>> := [Sleep(DelaySeconds)];
    assert Sleeps(wait, seconds) == if pause && seconds == PauseSeconds then 1 else 0;
    assert Sleeps(call, seconds) == 0;
    assert Sleeps(tail, seconds) == 0;
    assert Sleeps(delay, seconds) == if seconds == DelaySeconds then 1 else 0;
    SleepsAppend(wait + call + tail, delay, seconds);
    SleepsAppend(wait + call, tail, seconds);
    SleepsAppend(wait, call, seconds);
  }

  /** A step calls the model on its pair, after the calls made before it. */
  lemma {:induction false} StepCalls(detect: Detector, s: State, k: nat, p: Pair)
    ensures Calls(Step(detect, s, k, p).trace) == Calls(s.trace) + [p]
  {
    var kept := Kept(detect, k, p);
    var found := s.found + OptionToSeq(kept);
    PairEventsCalls(PausesBefore(k), p, kept.Some?, found);
    CallsAppend(s.trace, PairEvents(PausesBefore(k), p, kept.Some?, found));
  }

  /** The first m pairs are called, in order, each once. */
  lemma {:induction false} RunCalls(detect: Detector, pairs: seq<Pair>, m: nat)
    requires m <= |pairs|
    ensures Calls(Run(detect, pairs, m).trace) == pairs[..m]
    decreases m
  {
    if m > 0 {
      RunCalls(detect, pairs, m - 1);
      StepCalls(detect, Run(detect, pairs, m - 1), m - 1, pairs[m - 1]);
      assert pairs[..m - 1] + [pairs[m - 1]] == pairs[..m];
    }
  }

  /**
   * The model is called on the pairs (i, j), i < j, in ascending order, each once:
   * n(n-1)/2 calls, or only the first five pairs in test mode.
   */
  lemma {:induction false} CallsEveryPairOnce(detect: Detector, n: nat, testMode: bool)
    ensures var calls := Calls(Run(detect, AllPairs(n), VisitCount(n, testMode)).trace);
      Ascending(calls)
      && (!testMode ==> (|calls| == n * (n - 1) / 2
        && forall p: Pair :: p in calls <==> p.0 < p.1 < n))
      && (testMode ==> calls == Take(AllPairs(n), TestPairs))
  {
    RunCalls(detect, AllPairs(n), VisitCount(n, testMode));
    AllPairsAscending(n);
    AllPairsMembers(n);
    PairCount(n);
    assert AllPairs(n)[..|AllPairs(n)|] == AllPairs(n);
  }

  /** Pauses before call k (from 0), plus the one before call k itself, are the pauses before call k + 1. */
  lemma {:induction false} PauseCount(before: nat, k: nat)
    requires before == if k == 0 then 0 else (k - 1) / CallsPerMinute
    ensures before + (if k > 0 && k % CallsPerMinute == 0 then 1 else 0) == k / CallsPerMinute
  {
  }

  /** A step adds one delay, and a pause when it is a positive multiple of ten. */
  lemma {:induction false} StepSleeps(detect: Detector, s: State, k: nat, p: Pair)
    ensures var t := Step(detect, s, k, p).trace;
      Sleeps(t, DelaySeconds) == Sleeps(s.trace, DelaySeconds) + 1
      && Sleeps(t, PauseSeconds) == Sleeps(s.trace, PauseSeconds) + if k > 0 && k % CallsPerMinute == 0 then 1 else 0
  {
    var kept := Kept(detect, k, p);
    var found := s.found + OptionToSeq(kept);
    var pe := PairEvents(PausesBefore(k), p, kept.Some?, found);
    PairEventsSleeps(PausesBefore(k), p, kept.Some?, found, DelaySeconds);
    PairEventsSleeps(PausesBefore(k), p, kept.Some?, found, PauseSeconds);
    SleepsAppend(s.trace, pe, DelaySeconds);
    SleepsAppend(s.trace, pe, PauseSeconds);
  }

  /** Every visited pair is followed by a 2-second delay, whatever its outcome. */
  lemma {:induction false} DelayCount(detect: Detector, pairs: seq<Pair>, m: nat)
    requires m <= |pairs|
    ensures Sleeps(Run(detect, pairs, m).trace, DelaySeconds) == m
    decreases m
  {
    if m > 0 {
      DelayCount(detect, pairs, m - 1);
      StepSleeps(detect, Run(detect, pairs, m - 1), m - 1, pairs[m - 1]);
    }
  }

  /** A 60-second pause comes before the 11th, 21st, ... call: (m-1)/10 pauses for m > 0 pairs. */
  lemma {:induction false} PauseCounts(detect: Detector, pairs: seq<Pair>, m: nat)
    requires m <= |pairs|
    ensures Sleeps(Run(detect, pairs, m).trace, PauseSeconds) == if m == 0 then 0 else (m - 1) / CallsPerMinute
    decreases m
  {
    if m > 0 {
      var prev := Run(detect, pairs, m - 1);
      PauseCounts(detect, pairs, m - 1);
      StepSleeps(detect, prev, m - 1, pairs[m - 1]);
      PauseCount(Sleeps(prev.trace, PauseSeconds), m - 1);
    }
  }

  /** The lists written after 1, 2, ..., |cs| findings. */
  function Snapshots(cs: seq<Contradiction>): (r: seq<seq<Contradiction>>)
    ensures |r| == |cs|
  {
    if |cs| == 0 then [] else Snapshots(cs[..|cs| - 1]) + [cs]
  }

  lemma {:induction false} SnapshotsAt(cs: seq<Contradiction>, m: nat)
    requires m < |cs|
    ensures Snapshots(cs)[m] == cs[..m + 1]
    decreases |cs|
  {
    if m < |cs| - 1 {
      SnapshotsAt(cs[..|cs| - 1], m);
      assert cs[..|cs| - 1][..m + 1] == cs[..m + 1];
    } else {
      assert cs[..m + 1] == cs;
    }
  }

  lemma {:induction false} SnapshotsStep(before: seq<Contradiction>, o: Option<Contradiction>)
    ensures Snapshots(before + OptionToSeq(o))
      == Snapshots(before) + (if o.Some? then [before + OptionToSeq(o)] else [])
  {
    var f := before + OptionToSeq(o);
    if o.Some? {
      assert f[..|f| - 1] == before;
    } else {
      assert f == before;
    }
  }

  /** A step whose checkpoint writes so far are the snapshots of its findings keeps them so. */
  lemma {:induction false} StepSaves(detect: Detector, s: State, k: nat, p: Pair)
    requires Saves(s.trace) == Snapshots(s.found)
    ensures var s' := Step(detect, s, k, p); Saves(s'.trace) == Snapshots(s'.found)
  {
    var kept := Kept(detect, k, p);
    var found := s.found + OptionToSeq(kept);
    PairEventsSaves(PausesBefore(k), p, kept.Some?, found);
    SavesAppend(s.trace, PairEvents(PausesBefore(k), p, kept.Some?, found));
    SnapshotsStep(s.found, kept);
  }

  /** The checkpoint is rewritten once per kept finding, each time with the whole list so far. */
  lemma {:induction false} RunSaves(detect: Detector, pairs: seq<Pair>, m: nat)
    requires m <= |pairs|
    ensures var s := Run(detect, pairs, m); Saves(s.trace) == Snapshots(s.found)
    decreases m
  {
    if m > 0 {
      RunSaves(detect, pairs, m - 1);
      StepSaves(detect, Run(detect, pairs, m - 1), m - 1, pairs[m - 1]);
    }
  }

  /**
   * The x-th checkpoint write (from 0) holds exactly the first x+1 findings: the file
   * is marked in progress and its total equals its list length, x+1; the last write
   * holds every finding.
   */
  lemma {:induction false} CheckpointsGrow(detect: Detector, pairs: seq<Pair>, m: nat, x: nat)
    requires m <= |pairs|
    requires x < |Saves(Run(detect, pairs, m).trace)|
    ensures var s := Run(detect, pairs, m);
      var saves := Saves(s.trace);
      var file := Interim(saves[x]);
      x < |s.found| && saves[x] == s.found[..x + 1]
      && file.status == "in_progress" && file.totalContradictions == x + 1 == |file.contradictions|
      && saves[|saves| - 1] == s.found
  {
    var f := Run(detect, pairs, m).found;
    RunSaves(detect, pairs, m);
    SnapshotsAt(f, x);
    SnapshotsAt(f, |f| - 1);
    assert f[..|f|] == f;
    InterimShape(f[..x + 1]);
  }
}
