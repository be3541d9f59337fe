/**
 * The contradiction finding, as both pipelines record it: the `Contradiction` record
 * (rag_pdf_checker_v1.py and analyzers/contradiction.py declare the same seven fields),
 * the decoded model reply it is built from, and its dictionary form.
 */
module Contradictions {
  import opened Wrappers
  import opened Analysis

  datatype Contradiction = Contradiction(
    doc1Id: string,
    doc2Id: string,
    doc1Excerpt: string,
    doc2Excerpt: string,
    contradictionType: string,
    explanation: string,
    confidenceScore: real)

  /**
   * The decoded JSON reply: one entry per key the code reads, `None` when the key is
   * absent. `hasContradiction` is the truth value of the key's JSON value.
   */
  datatype Reply = Reply(
    hasContradiction: Option<bool>,
    doc1Excerpt: Option<string>,
    doc2Excerpt: Option<string>,
    contradictionType: Option<string>,
    explanation: Option<string>,
    confidenceScore: Option<real>)

  const DefaultType: string := "unknown"
  const DefaultConfidence: real := 0.5

  /** The mapping from a decoded reply to a finding about the two given chapter IDs. */
  function FromReply(reply: Reply, id1: string, id2: string): (r: Option<Contradiction>)
    ensures r.Some? <==> reply.hasContradiction == Some(true)
    ensures r.Some? ==> r.value.doc1Id == id1 && r.value.doc2Id == id2
    ensures r.Some? ==> (r.value.doc1Excerpt == reply.doc1Excerpt.GetOr("")
      && r.value.doc2Excerpt == reply.doc2Excerpt.GetOr("")
      && r.value.explanation == reply.explanation.GetOr(""))
    ensures r.Some? ==> r.value.contradictionType == reply.contradictionType.GetOr(DefaultType)
    ensures r.Some? ==> r.value.confidenceScore == reply.confidenceScore.GetOr(DefaultConfidence)
  {
    if reply.hasContradiction.GetOr(false) then
      Some(Contradiction(
        id1, id2,
        reply.doc1Excerpt.GetOr(""),
        reply.doc2Excerpt.GetOr(""),
        reply.contradictionType.GetOr(DefaultType),
        reply.explanation.GetOr(""),
        reply.confidenceScore.GetOr(DefaultConfidence)))
    else None
  }

  /** A reply without any of the optional keys yields the documented defaults. */
  lemma DefaultsApply(id1: string, id2: string)
    ensures FromReply(Reply(Some(true), None, None, None, None, None), id1, id2)
      == Some(Contradiction(id1, id2, "", "", "unknown", "", 0.5))
  {
  }

  /** The seven keys of `_contradiction_to_dict` and of a checkpoint record. */
  const Keys: set<string> := {"doc1_id", "doc2_id", "doc1_excerpt", "doc2_excerpt", "type", "explanation", "confidence"}

  /** `_contradiction_to_dict`, also the record shape of `save_intermediate_results`. */
  function ToDict(c: Contradiction): (d: Dict)
    ensures d.Keys == Keys
    ensures d["doc1_id"] == Str(c.doc1Id) && d["doc2_id"] == Str(c.doc2Id)
    ensures d["type"] == Str(c.contradictionType) && d["confidence"] == Num(c.confidenceScore)
  {
    map[
      "doc1_id" := Str(c.doc1Id),
      "doc2_id" := Str(c.doc2Id),
      "doc1_excerpt" := Str(c.doc1Excerpt),
      "doc2_excerpt" := Str(c.doc2Excerpt),
      "type" := Str(c.contradictionType),
      "explanation" := Str(c.explanation),
      "confidence" := Num(c.confidenceScore)]
  }

  /** Reading the dictionary back gives the record back: nothing is lost by the conversion. */
  function FromDict(d: Dict): Option<Contradiction>
  {
    if Keys <= d.Keys
      && d["doc1_id"].Str? && d["doc2_id"].Str? && d["doc1_excerpt"].Str? && d["doc2_excerpt"].Str?
      && d["type"].Str? && d["explanation"].Str? && d["confidence"].Num?
    then Some(Contradiction(d["doc1_id"].s, d["doc2_id"].s, d["doc1_excerpt"].s, d["doc2_excerpt"].s,
      d["type"].s, d["explanation"].s, d["confidence"].x))
    else None
  }

  lemma DictRoundTrip(c: Contradiction)
    ensures FromDict(ToDict(c)) == Some(c)
  {
  }

  function Confidences(cs: seq<Contradiction>): (r: seq<real>)
    ensures |r| == |cs|
    ensures forall k :: 0 <= k < |cs| ==> r[k] == cs[k].confidenceScore
  {
    seq(|cs|, k requires 0 <= k < |cs| => cs[k].confidenceScore)
  }
}
