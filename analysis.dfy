/**
 * What every analyzer of the second pipeline shares (analyzers/base.py): the
 * `AnalysisResult` record, the dictionaries findings are converted to, and a model
 * call followed by `parse_llm_response`.
 */
module Analysis {
  import opened Wrappers
  import opened Replies

  /** A value held in a finding's dictionary. */
  datatype Value =
    | Str(s: string)
    | Num(x: real)
    | Int(n: int)
    | Null
    | Strs(items: seq<string>)
    | Usage(entries: map<string, seq<string>>)

  type Dict = map<string, Value>

  /** `d.get(key, default)` */
  function Get(d: Dict, key: string, default: Value): Value
  {
    if key in d then d[key] else default
  }

  /**
   * `AnalysisResult.details`: a list of dictionaries, except for the terminology
   * analyzer, which wraps its list in `{"inconsistencies": [...]}`.
   */
  datatype Details = Items(items: seq<Dict>) | Inconsistencies(list: seq<Dict>)

  /** `AnalysisResult`; the free-text `summary` is only logged and is not modelled. */
  datatype AnalysisResult = AnalysisResult(
    analyzerType: string,
    totalIssues: nat,
    confidenceScore: real,
    details: Details)

  /** An exception escaping an analyzer. */
  datatype Failure =
    | LlmError            // `call_llm` raised
    | JsonError           // `parse_llm_response` raised
    | KeyError(key: string)
    | IndexError

  /**
   * `call_llm` followed by `parse_llm_response`. `reply` is what the model returned,
   * `None` when the call raised. A reply is accepted exactly when `parse_llm_response`
   * accepts it, directly or through its fenced body; its failure becomes a JSON error.
   */
  function Ask<T>(reply: Option<string>, decode: string -> Option<T>): (r: Result<T, Failure>)
    ensures reply.None? ==> r == Err(LlmError)
    ensures r.Err? ==> r.error == LlmError || r.error == JsonError
    ensures reply.Some? && decode(reply.value).Some? ==> r == Ok(decode(reply.value).value)
    ensures (reply.Some? && decode(reply.value).None? && FencedBody(reply.value).Some?
             && decode(FencedBody(reply.value).value).Some?)
            ==> r == Ok(decode(FencedBody(reply.value).value).value)
    ensures reply.Some? ==> (r.Ok? <==> ParseLlmResponse(reply.value, decode).Ok?)
    ensures reply.Some? && r.Ok? ==> r.value == ParseLlmResponse(reply.value, decode).value
  {
    match reply
    case None => Err(LlmError)
    case Some(text) =>
      match ParseLlmResponse(text, decode)
      case Ok(v) => Ok(v)
      case Err(_) => Err(JsonError)
  }

  /** `[to_dict(x) for x in xs]`: the dictionaries of a list of records, one per record, in order. */
  function ToDicts<T>(toDict: T -> Dict, xs: seq<T>): (r: seq<Dict>)
    ensures |r| == |xs|
    ensures forall k :: 0 <= k < |xs| ==> r[k] == toDict(xs[k])
  {
    seq(|xs|, k requires 0 <= k < |xs| => toDict(xs[k]))
  }

  /** When every record reads back from its dictionary, so does every record of a list. */
  lemma DictsRoundTrip<T>(toDict: T -> Dict, fromDict: Dict -> Option<T>, xs: seq<T>)
    requires forall x :: fromDict(toDict(x)) == Some(x)
    ensures forall k :: 0 <= k < |xs| ==> fromDict(ToDicts(toDict, xs)[k]) == Some(xs[k])
  {
  }

  function Sum(xs: seq<real>): real
  {
    if |xs| == 0 then 0.0 else Sum(xs[..|xs| - 1]) + xs[|xs| - 1]
  }

  lemma {:induction false} SumAppend(xs: seq<real>, x: real)
    ensures Sum(xs + [x]) == Sum(xs) + x
  {
    assert (xs + [x])[..|xs|] == xs;
  }

  /** Every value in [lo, hi] makes the sum lie between |xs|*lo and |xs|*hi. */
  lemma {:induction false} SumBounds(xs: seq<real>, lo: real, hi: real)
    requires forall k :: 0 <= k < |xs| ==> lo <= xs[k] <= hi
    ensures |xs| as real * lo <= Sum(xs) <= |xs| as real * hi
    decreases |xs|
  {
    if |xs| > 0 {
      var n := |xs| - 1;
      SumBounds(xs[..n], lo, hi);
      assert Sum(xs) == Sum(xs[..n]) + xs[n];
      assert n as real * lo + lo == |xs| as real * lo;
      assert n as real * hi + hi == |xs| as real * hi;
    }
  }

  /** `sum(xs) / len(xs)`, with the given value for an empty list. */
  function Mean(xs: seq<real>, empty: real): real
  {
    if |xs| == 0 then empty else Sum(xs) / |xs| as real
  }

  /** A mean of values in [lo, hi] lies in [lo, hi]. */
  lemma {:induction false} MeanBounds(xs: seq<real>, empty: real, lo: real, hi: real)
    requires forall k :: 0 <= k < |xs| ==> lo <= xs[k] <= hi
    requires lo <= empty <= hi
    ensures lo <= Mean(xs, empty) <= hi
  {
    if |xs| > 0 {
      SumBounds(xs, lo, hi);
      DivBounds(Sum(xs), |xs| as real, lo, hi);
    }
  }

  /** Dividing by a positive count keeps the bounds: `n*lo <= s <= n*hi` gives `lo <= s/n <= hi`. */
  lemma {:induction false} DivBounds(s: real, n: real, lo: real, hi: real)
    requires n > 0.0 && n * lo <= s <= n * hi
    ensures lo <= s / n <= hi
  {
    var q := s / n;
    assert q * n == s;
    assert (q - lo) * n == s - n * lo;
    assert (hi - q) * n == n * hi - s;
    NonNegativeFactor(q - lo, n);
    NonNegativeFactor(hi - q, n);
  }

  lemma {:induction false} NonNegativeFactor(x: real, n: real)
    requires n > 0.0 && x * n >= 0.0
    ensures x >= 0.0
  {
  }
}
