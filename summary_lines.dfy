/**
 * The `key_insights` lines of the quality summary (rag_pdf_checker.py): which lines a
 * summary holds for given counts. `Quality.Text` writes each line out.
 */
module SummaryLines {
  /** A line of `key_insights`: what it reports, and the count it shows. */
  datatype Insight =
    | ContradictionsFound(n: nat)   // "Found {n} logical contradictions"
    | HighFlowIssues(n: nat)        // "{n} high-severity flow issues detected"
    | SyntaxErrorsFound(n: nat)     // "{n} syntax errors in code examples"
    | CriticalTheoryIssues(n: nat)  // "{n} critical theoretical accuracy issues"
    | HighTermIssues(n: nat)        // "{n} high-severity terminology inconsistencies"
    | TermVariations(n: nat)        // "Found {n} terminology variations"

  /** The lines whose condition holds, in order. */
  function Selected(conds: seq<bool>, lines: seq<Insight>): (r: seq<Insight>)
    requires |conds| == |lines|
    ensures |r| <= |lines|
    ensures forall i :: i in r ==> i in lines
    decreases |lines|
  {
    if |lines| == 0 then []
    else
      var n := |lines| - 1;
      Selected(conds[..n], lines[..n]) + (if conds[n] then [lines[n]] else [])
  }

  /** Among distinct lines, a line is selected exactly when its condition holds. */
  lemma {:induction false} SelectedIff(conds: seq<bool>, lines: seq<Insight>, k: nat)
    requires |conds| == |lines| && k < |lines|
    requires forall i, j :: 0 <= i < j < |lines| ==> lines[i] != lines[j]
    ensures lines[k] in Selected(conds, lines) <==> conds[k]
    decreases |lines|
  {
    var n := |lines| - 1;
    if k < n {
      SelectedIff(conds[..n], lines[..n], k);
      assert lines[..n][k] == lines[k];
    }
  }

  /**
   * The insight lines for the given counts, in the summary's fixed order: contradictions,
   * high-severity flow issues, syntax errors, critical theory issues, then terminology.
   */
  function InsightLines(contradictions: nat, flowHigh: nat, syntax: nat, critical: nat, terms: nat, termsHigh: nat)
    : (r: seq<Insight>)
    requires termsHigh <= terms
    ensures |r| <= 5
    ensures ContradictionsFound(contradictions) in r <==> contradictions > 0
    ensures HighFlowIssues(flowHigh) in r <==> flowHigh > 0
    ensures SyntaxErrorsFound(syntax) in r <==> syntax > 0
    ensures CriticalTheoryIssues(critical) in r <==> critical > 0
    ensures HighTermIssues(termsHigh) in r <==> termsHigh > 0
    ensures TermVariations(terms) in r <==> terms > 0 && termsHigh == 0
    ensures terms > 0 ==> |r| >= 1
    ensures forall i :: i in r ==> i in [ContradictionsFound(contradictions), HighFlowIssues(flowHigh),
      SyntaxErrorsFound(syntax), CriticalTheoryIssues(critical), HighTermIssues(termsHigh), TermVariations(terms)]
  {
    var termLine := if termsHigh > 0 then HighTermIssues(termsHigh) else TermVariations(terms);
    var lines := [ContradictionsFound(contradictions), HighFlowIssues(flowHigh), SyntaxErrorsFound(syntax),
      CriticalTheoryIssues(critical), termLine];
    var conds := [contradictions > 0, flowHigh > 0, syntax > 0, critical > 0, terms > 0];
    SelectedIff(conds, lines, 0);
    SelectedIff(conds, lines, 1);
    SelectedIff(conds, lines, 2);
    SelectedIff(conds, lines, 3);
    SelectedIff(conds, lines, 4);
    Selected(conds, lines)
  }
}
