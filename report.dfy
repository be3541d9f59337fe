/**
 * `ReportGenerator` (rag_pdf_checker.py): the parts of report writing that decide
 * something. Which bucket each finding is listed under, how a chapter ID becomes a
 * readable label, how a redundancy's section IDs and similarity, a flow issue's type
 * and a code error's message are read back, and the score bands behind the colours
 * and emoji.
 */
module ReportGenerator {
  import opened Wrappers
  import opened Strings
  import opened Analysis
  import Quality
  import RedundancyAnalyzer
  import FlowAnalyzer
  import CodeAnalyzer

  // ---------------------------------------------------------------------------
  // Severity buckets
  // ---------------------------------------------------------------------------

  /** What a section files an item under: `item.get('severity', default)`. */
  function SeverityKey(default: string): Dict -> Value
  {
    d => Get(d, "severity", Str(default))
  }

  /** The code section files syntax errors as errors and everything else as warnings. */
  function CodeKey(): Dict -> Value
  {
    d => if Get(d, "error_type", Null) == Str("syntax") then Str("error") else Str("warning")
  }

  const FlowBuckets: seq<string> := ["high", "medium", "low"]
  const CodeBuckets: seq<string> := ["error", "warning"]
  const TheoryBuckets: seq<string> := ["critical", "major", "minor"]
  const TerminologyBuckets: seq<string> := ["high", "medium", "low"]

  predicate Distinct(buckets: seq<string>)
  {
    forall i, j :: 0 <= i < j < |buckets| ==> buckets[i] != buckets[j]
  }

  /** The bucket a key names, if any. */
  function BucketOf(buckets: seq<string>, v: Value): (r: Option<nat>)
    ensures r.Some? ==> r.value < |buckets| && v == Str(buckets[r.value])
    ensures r.None? ==> forall k :: 0 <= k < |buckets| ==> v != Str(buckets[k])
    decreases |buckets|
  {
    if |buckets| == 0 then None
    else if v == Str(buckets[|buckets| - 1]) then Some(|buckets| - 1)
    else BucketOf(buckets[..|buckets| - 1], v)
  }

  /** The key as Python would show it in the `KeyError`; a non-string one is shown as "". */
  function KeyText(v: Value): string
  {
    if v.Str? then v.s else ""
  }

  /**
   * The `by_severity` dictionary after the given items: each item appended to its own
   * bucket, and a key naming no bucket raising `KeyError`.
   */
  function Grouped(items: seq<Dict>, buckets: seq<string>, key: Dict -> Value): (r: Result<seq<seq<Dict>>, Failure>)
    ensures r.Ok? ==> |r.value| == |buckets|
    decreases |items|
  {
    if |items| == 0 then Ok(seq(|buckets|, _ => []))
    else
      var item := items[|items| - 1];
      match Grouped(items[..|items| - 1], buckets, key)
      case Err(e) => Err(e)
      case Ok(groups) =>
        match BucketOf(buckets, key(item))
        case None => Err(KeyError(KeyText(key(item))))
        case Some(b) => Ok(groups[b := groups[b] + [item]])
  }

  /** The items whose key is `v`, in input order: what one bucket should hold. */
  function Filter(items: seq<Dict>, key: Dict -> Value, v: Value): seq<Dict>
    decreases |items|
  {
    if |items| == 0 then []
    else Filter(items[..|items| - 1], key, v) + (if key(items[|items| - 1]) == v then [items[|items| - 1]] else [])
  }

  /** Grouping succeeds exactly when every item's key names a bucket. */
  lemma {:induction false} GroupedOk(items: seq<Dict>, buckets: seq<string>, key: Dict -> Value)
    ensures Grouped(items, buckets, key).Ok? <==>
      forall i :: 0 <= i < |items| ==> BucketOf(buckets, key(items[i])).Some?
    decreases |items|
  {
    if |items| > 0 {
      var n := |items| - 1;
      GroupedOk(items[..n], buckets, key);
      assert forall i :: 0 <= i < n ==> items[..n][i] == items[i];
    }
  }

  /** With distinct bucket names, each bucket holds exactly the items with its key, in order. */
  lemma {:induction false} GroupedFilters(items: seq<Dict>, buckets: seq<string>, key: Dict -> Value)
    requires Distinct(buckets) && Grouped(items, buckets, key).Ok?
    ensures forall b :: 0 <= b < |buckets| ==>
      Grouped(items, buckets, key).value[b] == Filter(items, key, Str(buckets[b]))
    decreases |items|
  {
    if |items| > 0 {
      var n := |items| - 1;
      GroupedFilters(items[..n], buckets, key);
      var item := items[n];
      var b0 := BucketOf(buckets, key(item)).value;
      forall b | 0 <= b < |buckets|
        ensures Grouped(items, buckets, key).value[b] == Filter(items, key, Str(buckets[b]))
      {
        if b != b0 {
          assert buckets[b] != buckets[b0];
        }
      }
    }
  }

  function SumLens(groups: seq<seq<Dict>>): nat
    decreases |groups|
  {
    if |groups| == 0 then 0 else SumLens(groups[..|groups| - 1]) + |groups[|groups| - 1]|
  }

  /** Appending to one bucket adds one to the total. */
  lemma {:induction false} SumLensAppend(groups: seq<seq<Dict>>, b: nat, x: Dict)
    requires b < |groups|
    ensures SumLens(groups[b := groups[b] + [x]]) == SumLens(groups) + 1
    decreases |groups|
  {
    var n := |groups| - 1;
    var g := groups[b := groups[b] + [x]];
    assert g[..n] == if b < n then groups[..n][b := groups[b] + [x]] else groups[..n];
    if b < n {
      SumLensAppend(groups[..n], b, x);
    }
  }

  lemma {:induction false} SumLensEmpty(k: nat)
    ensures SumLens(seq(k, _ => [])) == 0
  {
    if k > 0 {
      var empty: seq<seq<Dict>> := seq(k, _ => []);
      assert empty[..k - 1] == seq(k - 1, _ => []);
      SumLensEmpty(k - 1);
    }
  }

  /** The buckets together hold every item once: the section lists each finding exactly once. */
  lemma {:induction false} GroupedKeepsAll(items: seq<Dict>, buckets: seq<string>, key: Dict -> Value)
    requires Grouped(items, buckets, key).Ok?
    ensures SumLens(Grouped(items, buckets, key).value) == |items|
    decreases |items|
  {
    if |items| == 0 {
      SumLensEmpty(|buckets|);
    } else {
      var n := |items| - 1;
      GroupedKeepsAll(items[..n], buckets, key);
      SumLensAppend(Grouped(items[..n], buckets, key).value, BucketOf(buckets, key(items[n])).value, items[n]);
    }
  }

  /** The bucketing loop of the `_format_*_section` methods. */
  method GroupBySeverity(items: seq<Dict>, buckets: seq<string>, key: Dict -> Value)
    returns (r: Result<seq<seq<Dict>>, Failure>)
    ensures r == Grouped(items, buckets, key)
  {
    var groups: seq<seq<Dict>> := seq(|buckets|, _ => []);
    var i := 0;
    while i < |items|
      invariant i <= |items| && Grouped(items[..i], buckets, key) == Ok(groups)
    {
      assert items[..i + 1][..i] == items[..i];
      var b := BucketOf(buckets, key(items[i]));
      if b.None? {
        GroupedErrStays(items, buckets, key, i + 1);
        return Err(KeyError(KeyText(key(items[i]))));
      }
      groups := groups[b.value := groups[b.value] + [items[i]]];
      i := i + 1;
    }
    assert items[..i] == items;
    r := Ok(groups);
  }

  /** Once an item raises, the rest of the loop is never reached. */
  lemma {:induction false} GroupedErrStays(items: seq<Dict>, buckets: seq<string>, key: Dict -> Value, i: nat)
    requires i <= |items| && Grouped(items[..i], buckets, key).Err?
    ensures Grouped(items, buckets, key) == Grouped(items[..i], buckets, key)
    decreases |items| - i
  {
    if i < |items| {
      assert items[..i + 1][..i] == items[..i];
      GroupedErrStays(items, buckets, key, i + 1);
    } else {
      assert items[..i] == items;
    }
  }

  /** The code section never raises: every item is an error or a warning. */
  lemma CodeSectionTotal(items: seq<Dict>)
    ensures Grouped(items, CodeBuckets, CodeKey()).Ok?
  {
    forall i | 0 <= i < |items| ensures BucketOf(CodeBuckets, CodeKey()(items[i])).Some? {
      assert CodeKey()(items[i]) == Str(CodeBuckets[0]) || CodeKey()(items[i]) == Str(CodeBuckets[1]);
    }
    GroupedOk(items, CodeBuckets, CodeKey());
  }

  /** A flow issue whose severity is not high, medium or low makes the flow section raise. */
  lemma FlowSectionRaises(fi: FlowAnalyzer.FlowIssue)
    requires fi.severity !in FlowBuckets
    ensures Grouped([FlowAnalyzer.ToDict(fi)], FlowBuckets, SeverityKey("low")) == Err(KeyError(fi.severity))
  {
    var d := FlowAnalyzer.ToDict(fi);
    assert [d][..0] == [];
    assert SeverityKey("low")(d) == Str(fi.severity);
    assert BucketOf(FlowBuckets, Str(fi.severity)).None?;
  }

  // ---------------------------------------------------------------------------
  // Chapter labels
  // ---------------------------------------------------------------------------

  /** An entry of `chapter_map`, as the main program fills it from a chapter. */
  datatype ChapterEntry = ChapterEntry(fileName: string, title: string, chapterNumber: nat)

  /** The file name without ".pdf" and without the part up to its first "_". */
  function Readable(fileName: string): string
  {
    var f := ReplaceAll(fileName, ".pdf", "");
    if '_' in f then Join(Split(f, '_')[1..], "_") else f
  }

  /** Dropping the first part of a split: the text after the first separator. */
  lemma {:induction false} DropFirstPart(f: string, i: nat)
    requires i < |f| && f[i] == '_' && '_' !in f[..i]
    ensures Join(Split(f, '_')[1..], "_") == f[i + 1..]
    decreases i
  {
    var rest := Split(f[1..], '_');
    if i == 0 {
      assert Split(f, '_') == [""] + rest;
      assert Split(f, '_')[1..] == rest;
      JoinSplit(f[1..], '_');
    } else {
      assert f[1..][..i - 1] == f[..i][1..];
      DropFirstPart(f[1..], i - 1);
      assert Split(f, '_')[1..] == rest[1..];
      assert f[1..][i..] == f[i + 1..];
    }
  }

  /**
   * `_get_chapter_info`: the ID itself when there is no map or the ID is not in it;
   * otherwise the readable file name and the chapter number. The truncated title it
   * computes is not part of the label.
   */
  function ChapterInfo(chapterId: string, chapterMap: Option<map<string, ChapterEntry>>): (r: string)
    ensures chapterMap.None? || chapterId !in chapterMap.value ==> r == chapterId
    ensures chapterMap.Some? && chapterId in chapterMap.value ==>
      var e := chapterMap.value[chapterId];
      StartsWith(r, Readable(e.fileName)) && EndsWith(r, " (Chapter " + NatToString(e.chapterNumber) + ")")
  {
    if chapterMap.None? || chapterId !in chapterMap.value then chapterId
    else
      var e := chapterMap.value[chapterId];
      var r := Readable(e.fileName) + " (Chapter " + NatToString(e.chapterNumber) + ")";
      assert r[..|Readable(e.fileName)|] == Readable(e.fileName);
      r
  }

  /** Two chapters of one file with different numbers get different labels. */
  lemma ChapterInfoDistinct(id1: string, id2: string, chapterMap: map<string, ChapterEntry>)
    requires id1 in chapterMap && id2 in chapterMap
    requires chapterMap[id1].fileName == chapterMap[id2].fileName
    requires chapterMap[id1].chapterNumber != chapterMap[id2].chapterNumber
    ensures ChapterInfo(id1, Some(chapterMap)) != ChapterInfo(id2, Some(chapterMap))
  {
    var name := Readable(chapterMap[id1].fileName);
    var s1 := NatToString(chapterMap[id1].chapterNumber);
    var s2 := NatToString(chapterMap[id2].chapterNumber);
    var r1 := name + " (Chapter " + s1 + ")";
    var r2 := name + " (Chapter " + s2 + ")";
    if r1 == r2 {
      var p := |name + " (Chapter "|;
      assert r1[p..|r1| - 1] == s1;
      assert r2[p..|r2| - 1] == s2;
      NatToStringInjective(chapterMap[id1].chapterNumber, chapterMap[id2].chapterNumber);
    }
  }

  // ---------------------------------------------------------------------------
  // Redundancy section IDs
  // ---------------------------------------------------------------------------

  /** The last occurrence of `p` that starts below `k`. */
  function LastBelow(s: string, p: string, k: nat): (r: Option<nat>)
    ensures r.Some? ==> (r.value < k && OccursAt(s, p, r.value)
      && forall j: nat :: r.value < j < k ==> !OccursAt(s, p, j))
    ensures r.None? ==> forall j: nat :: j < k ==> !OccursAt(s, p, j)
    decreases k
  {
    if k == 0 then None
    else if OccursAt(s, p, k - 1) then Some(k - 1)
    else LastBelow(s, p, k - 1)
  }

  /** An occurrence with none after it (below `k`) is the one `LastBelow` reports. */
  lemma {:induction false} LastOccurrence(s: string, p: string, k: nat, i: nat)
    requires i < k && OccursAt(s, p, i)
    requires forall j: nat :: i < j < k ==> !OccursAt(s, p, j)
    ensures LastBelow(s, p, k) == Some(i)
    decreases k
  {
    if i < k - 1 {
      assert !OccursAt(s, p, k - 1);
      LastOccurrence(s, p, k - 1, i);
    }
  }

  /** `seg_id.split('_seg')[0] if '_seg' in seg_id else seg_id` */
  function ChapterPart(segId: string): string
  {
    match FindFrom(segId, "_seg", 0)
    case None => segId
    case Some(i) => segId[..i]
  }

  /** `seg_id.split('_seg')[-1] if '_seg' in seg_id else ''` */
  function WindowPart(segId: string): string
  {
    match LastBelow(segId, "_seg", |segId| + 1)
    case None => ""
    case Some(i) => segId[i + 4..]
  }

  /**
   * A segment ID as the redundancy analyzer makes it (the chapter ID, "_seg" and the
   * window number) splits back into the chapter ID and the window number when the
   * chapter ID does not itself hold "_seg".
   */
  lemma SegmentIdParts(chapterId: string, w: nat)
    requires !Contains(chapterId, "_seg")
    ensures ChapterPart(chapterId + "_seg" + NatToString(w)) == chapterId
    ensures WindowPart(chapterId + "_seg" + NatToString(w)) == NatToString(w)
  {
    SegmentChapterPart(chapterId, NatToString(w));
    SegmentWindowPart(chapterId, NatToString(w));
  }

  lemma SegmentChapterPart(chapterId: string, digits: string)
    requires !Contains(chapterId, "_seg")
    ensures ChapterPart(chapterId + "_seg" + digits) == chapterId
  {
    var s := chapterId + "_seg" + digits;
    var n := |chapterId|;
    assert s[n..n + 4] == "_seg";
    FindFromSpec(chapterId, "_seg", 0);
    forall j: nat | j < n ensures !OccursAt(s, "_seg", j) {
      if j + 4 <= n {
        assert s[j..j + 4] == chapterId[j..j + 4];
        assert !OccursAt(chapterId, "_seg", j);
      } else {
        assert s[j..j + 4][n - j] == s[n] == '_';
        assert "_seg"[n - j] != '_';
      }
    }
    FindFirst(s, "_seg", 0, n);
  }

  lemma SegmentWindowPart(chapterId: string, digits: string)
    requires IsDigits(digits)
    ensures WindowPart(chapterId + "_seg" + digits) == digits
  {
    var s := chapterId + "_seg" + digits;
    var n := |chapterId|;
    assert s[n..n + 4] == "_seg";
    forall j: nat | n < j <= |s| ensures !OccursAt(s, "_seg", j) {
      if j + 4 <= |s| {
        assert s[j..j + 4][0] == s[j];
        if j < n + 4 {
          assert s[j] == "_seg"[j - n] != '_';
        } else {
          assert s[j] == digits[j - n - 4];
          assert IsDigit(digits[j - n - 4]);
        }
      }
    }
    LastOccurrence(s, "_seg", |s| + 1, n);
  }

  /** `(red.get('segment1_id', ''), red.get('segment2_id', ''))`, the keys the report reads. */
  function SectionIdsAsWritten(red: Dict): (string, string)
  {
    (KeyText(Get(red, "segment1_id", Str(""))), KeyText(Get(red, "segment2_id", Str(""))))
  }

  /** The redundancy analyzer writes no `segment*_id` keys, so the report always reads empty IDs. */
  lemma SegmentKeysMissing(r: RedundancyAnalyzer.Redundancy)
    ensures SectionIdsAsWritten(RedundancyAnalyzer.ToDict(r)) == ("", "")
    ensures ChapterPart(SectionIdsAsWritten(RedundancyAnalyzer.ToDict(r)).0) == ""
  {
  }

  /** The IDs read from the keys the analyzer writes, `section1_id` and `section2_id`. */
  function SectionIds(red: Dict): (string, string)
  {
    (KeyText(Get(red, "section1_id", Str(""))), KeyText(Get(red, "section2_id", Str(""))))
  }

  /** Reading `section*_id` gets back the segment IDs, and from them the chapters and windows. */
  lemma SectionKeysFound(r: RedundancyAnalyzer.Redundancy, chapter1: string, w1: nat)
    requires r.section1Id == chapter1 + "_seg" + NatToString(w1) && !Contains(chapter1, "_seg")
    ensures SectionIds(RedundancyAnalyzer.ToDict(r)) == (r.section1Id, r.section2Id)
    ensures ChapterPart(SectionIds(RedundancyAnalyzer.ToDict(r)).0) == chapter1
    ensures WindowPart(SectionIds(RedundancyAnalyzer.ToDict(r)).0) == NatToString(w1)
  {
    SegmentIdParts(chapter1, w1);
  }

  /** `red.get('similarity', 0)`, the similarity the report prints. */
  function SimilarityAsWritten(red: Dict): Value
  {
    Get(red, "similarity", Int(0))
  }

  /**
   * The redundancy analyzer writes no `similarity` key, so every finding it keeps, whose
   * similarity is above 0.7, is printed with similarity 0.
   */
  lemma SimilarityKeyMissing(r: RedundancyAnalyzer.Redundancy)
    requires r.similarityScore > RedundancyAnalyzer.Threshold
    ensures SimilarityAsWritten(RedundancyAnalyzer.ToDict(r)) == Int(0)
    ensures (SimilarityAsWritten(RedundancyAnalyzer.ToDict(r)).n as real) < r.similarityScore
  {
  }

  /** The similarity read from the key the analyzer writes, `similarity_score`. */
  function Similarity(red: Dict): Value
  {
    Get(red, "similarity_score", Int(0))
  }

  /** Reading `similarity_score` gets back the finding's similarity. */
  lemma SimilarityKeyFound(r: RedundancyAnalyzer.Redundancy)
    ensures Similarity(RedundancyAnalyzer.ToDict(r)) == Num(r.similarityScore)
  {
  }

  /** `issue.get('type', 'unknown')`, the type the flow section prints. */
  function FlowTypeAsWritten(issue: Dict): Value
  {
    Get(issue, "type", Str("unknown"))
  }

  /**
   * The flow analyzer writes no `type` key, so every flow issue is printed with type
   * "unknown", whatever its own type is.
   */
  lemma FlowTypeKeyMissing(fi: FlowAnalyzer.FlowIssue)
    ensures FlowTypeAsWritten(FlowAnalyzer.ToDict(fi)) == Str("unknown")
    ensures fi.issueType != "unknown" ==> FlowTypeAsWritten(FlowAnalyzer.ToDict(fi)) != Str(fi.issueType)
  {
  }

  /** The type read from the key the flow analyzer writes, `issue_type`. */
  function FlowType(issue: Dict): Value
  {
    Get(issue, "issue_type", Str("unknown"))
  }

  /** Reading `issue_type` gets back the issue's type. */
  lemma FlowTypeKeyFound(fi: FlowAnalyzer.FlowIssue)
    ensures FlowType(FlowAnalyzer.ToDict(fi)) == Str(fi.issueType)
  {
  }

  /** `error.get('message', '')`, the message the code section prints. */
  function CodeMessageAsWritten(error: Dict): Value
  {
    Get(error, "message", Str(""))
  }

  /**
   * The code analyzer writes no `message` key, so every code error is printed with an
   * empty message, whatever its description is.
   */
  lemma CodeMessageKeyMissing(e: CodeAnalyzer.CodeError)
    ensures CodeMessageAsWritten(CodeAnalyzer.ToDict(e)) == Str("")
    ensures e.description != "" ==> CodeMessageAsWritten(CodeAnalyzer.ToDict(e)) != Str(e.description)
  {
  }

  /** The message read from the key the code analyzer writes, `description`. */
  function CodeMessage(error: Dict): Value
  {
    Get(error, "description", Str(""))
  }

  /** Reading `description` gets back the error's description. */
  lemma CodeMessageKeyFound(e: CodeAnalyzer.CodeError)
    ensures CodeMessage(CodeAnalyzer.ToDict(e)) == Str(e.description)
  {
  }

  // ---------------------------------------------------------------------------
  // Score bands
  // ---------------------------------------------------------------------------

  datatype Color = Green | Yellow | Red

  /** `_get_score_color` */
  function ScoreColor(score: real): Color
  {
    if score >= 0.9 then Green else if score >= 0.7 then Yellow else Red
  }

  /** `_get_score_emoji` */
  function ScoreEmoji(score: real): string
  {
    if score >= 0.9 then "✅" else if score >= 0.7 then "⚠️" else "❌"
  }

  /**
   * The colour and the emoji follow the same bands, and they agree with the assessment:
   * green is "Excellent", yellow "Good" or "Fair", red "Needs Improvement" or "Poor".
   */
  lemma ScoreBands(score: real)
    ensures ScoreColor(score) == Green <==> ScoreEmoji(score) == "✅"
    ensures ScoreColor(score) == Red <==> ScoreEmoji(score) == "❌"
    ensures ScoreColor(score) == Green <==> Quality.Assessment(score) == "Excellent"
    ensures ScoreColor(score) == Yellow <==> Quality.Assessment(score) in {"Good", "Fair"}
    ensures ScoreColor(score) == Red <==> Quality.Assessment(score) in {"Needs Improvement", "Poor"}
  {
  }

  /** A higher score never gets a worse colour. */
  lemma ColorMonotone(a: real, b: real)
    requires a <= b
    ensures ScoreColor(a) == Green ==> ScoreColor(b) == Green
    ensures ScoreColor(b) == Red ==> ScoreColor(a) == Red
  {
  }
}
