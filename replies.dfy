/**
 * Unwrapping a model reply before JSON decoding. The decoder itself (`json.loads`
 * followed by reading the fields an analyzer expects) is a parameter
 * `decode: string -> Option<T>`: `None` is the `JSONDecodeError`.
 */
module Replies {
  import opened Wrappers
  import opened Strings

  /** `json.JSONDecodeError` escaping from `parse_llm_response`. */
  datatype ParseError = DecodeError

  const JsonFence: string := "```json"
  const Fence: string := "```"

  /**
   * The text the fallback branch of `parse_llm_response` decodes, if it reaches the
   * second `json.loads`: after the first "```json" up to the next "```" when the reply
   * has a "```json"; otherwise after the first "```" up to the next one.
   */
  function FencedBody(text: string): Option<string>
  {
    if Contains(text, JsonFence) then
      var start := FindFrom(text, JsonFence, 0).value + |JsonFence|;
      var end := FindFrom(text, Fence, start);
      if end.Some? && end.value > start then Some(Strip(text[start..end.value])) else None
    else if Contains(text, Fence) then
      var start := FindFrom(text, Fence, 0).value + |Fence|;
      var end := FindFrom(text, Fence, start);
      if end.Some? && end.value > start then Some(Strip(text[start..end.value])) else None
    else None
  }

  /** `BaseAnalyzer.parse_llm_response`: direct decoding first, then the fenced block. */
  function ParseLlmResponse<T>(text: string, decode: string -> Option<T>): Result<T, ParseError>
  {
    match decode(text)
    case Some(v) => Ok(v)
    case None =>
      match FencedBody(text)
      case Some(body) => (match decode(body) case Some(v) => Ok(v) case None => Err(DecodeError))
      case None => Err(DecodeError)
  }

  /** A reply that decodes as it is is returned as it is; fences are never looked at. */
  lemma DirectDecodeWins<T>(text: string, decode: string -> Option<T>)
    requires decode(text).Some?
    ensures ParseLlmResponse(text, decode) == Ok(decode(text).value)
  {
  }

  /** A pattern that starts with a backtick does not occur where the text has none. */
  lemma {:induction false} NoTickHere(t: string, p: string, k: nat)
    requires |p| > 0 && p[0] == '`' && k < |t| && t[k] != '`'
    ensures !OccursAt(t, p, k)
  {
    if k + |p| <= |t| {
      assert t[k..k + |p|][0] == t[k];
    }
  }

  /** In `a + f + rest`, with `a` backtick-free and `f` starting with a backtick, `f` is first found right after `a`. */
  lemma {:induction false} FirstFence(a: string, f: string, rest: string)
    requires '`' !in a && |f| > 0 && f[0] == '`'
    ensures FindFrom(a + f + rest, f, 0) == Some(|a|)
  {
    var t := a + f + rest;
    assert t[|a|..|a| + |f|] == f;
    forall k | 0 <= k < |a| ensures !OccursAt(t, f, k) {
      assert t[k] == a[k];
      NoTickHere(t, f, k);
    }
    FindFirst(t, f, 0, |a|);
  }

  /** A backtick-free stretch `b` from `start` on, followed by "```": the next "```" is after `b`. */
  lemma {:induction false} ClosingFence(t: string, start: nat, b: string)
    requires '`' !in b && start + |b| <= |t| && t[start..start + |b|] == b
    requires OccursAt(t, Fence, start + |b|)
    ensures FindFrom(t, Fence, start) == Some(start + |b|)
  {
    forall k | start <= k < start + |b| ensures !OccursAt(t, Fence, k) {
      assert t[k] == t[start..start + |b|][k - start] == b[k - start];
      NoTickHere(t, Fence, k);
    }
    FindFirst(t, Fence, start, start + |b|);
  }

  /** The pieces of `a + f + b + "```" + c` by position. */
  lemma {:induction false} Pieces(a: string, f: string, b: string, c: string)
    ensures var t := a + f + b + Fence + c;
      var start := |a| + |f|;
      t == a + f + (b + Fence + c)
      && t[start..start + |b|] == b && OccursAt(t, Fence, start + |b|)
  {
    var t := a + f + b + Fence + c;
    var start := |a| + |f|;
    assert t == (a + f) + b + Fence + c;
    assert t[start..start + |b|] == b;
    assert t[start + |b|..start + |b| + |Fence|] == Fence;
  }

  /**
   * In `a + f + b + "```" + c`, with `a` and `b` backtick-free and `f` a fence, the
   * fenced body `FencedBody` looks at is `b`, as soon as the first `f` is where it decides.
   */
  lemma {:induction false} FenceLocations(a: string, f: string, b: string, c: string)
    requires '`' !in a && '`' !in b && |f| > 0 && f[0] == '`'
    ensures var t := a + f + b + Fence + c;
      var start := |a| + |f|;
      FindFrom(t, f, 0) == Some(|a|)
      && FindFrom(t, Fence, start) == Some(start + |b|)
      && t[start..start + |b|] == b
  {
    var t := a + f + b + Fence + c;
    Pieces(a, f, b, c);
    FirstFence(a, f, b + Fence + c);
    ClosingFence(t, |a| + |f|, b);
  }

  /** A reply that does not decode as it is decodes as its fenced body, if it has one. */
  lemma {:induction false} ParseFenced<T>(t: string, body: string, decode: string -> Option<T>)
    requires decode(t).None? && FencedBody(t) == Some(body)
    ensures ParseLlmResponse(t, decode) == (match decode(body) case Some(v) => Ok(v) case None => Err(DecodeError))
  {
  }

  /** What `FencedBody` returns once the first "```json" and the fence after it are known. */
  lemma {:induction false} JsonFenceBody(t: string, i: nat, close: nat)
    requires FindFrom(t, JsonFence, 0) == Some(i)
    requires FindFrom(t, Fence, i + |JsonFence|) == Some(close) && close > i + |JsonFence|
    ensures FencedBody(t) == Some(Strip(t[i + |JsonFence|..close]))
  {
  }

  /** The same for a reply with no "```json", from its first "```" and the one after it. */
  lemma {:induction false} GenericFenceBody(t: string, i: nat, close: nat)
    requires !Contains(t, JsonFence)
    requires FindFrom(t, Fence, 0) == Some(i)
    requires FindFrom(t, Fence, i + |Fence|) == Some(close) && close > i + |Fence|
    ensures FencedBody(t) == Some(Strip(t[i + |Fence|..close]))
  {
  }

  /**
   * A reply made of backtick-free prose, a "```json" fence around a backtick-free body
   * and anything after the closing fence decodes to what the stripped body decodes to.
   */
  lemma {:induction false} JsonFenceRoundTrip<T>(prose: string, body: string, rest: string, decode: string -> Option<T>)
    requires '`' !in prose && '`' !in body && |body| > 0
    requires decode(prose + JsonFence + body + Fence + rest).None?
    ensures ParseLlmResponse(prose + JsonFence + body + Fence + rest, decode)
      == (match decode(Strip(body)) case Some(v) => Ok(v) case None => Err(DecodeError))
  {
    var t := prose + JsonFence + body + Fence + rest;
    FenceLocations(prose, JsonFence, body, rest);
    JsonFenceBody(t, |prose|, |prose| + |JsonFence| + |body|);
    ParseFenced(t, Strip(body), decode);
  }

  /** The example reply `here is the result: ```json {"a":1} ``` ` decodes like `{"a":1}`. */
  lemma {:induction false} ExampleReply<T>(decode: string -> Option<T>)
    requires decode("here is the result: ```json {\"a\":1} ```").None?
    ensures ParseLlmResponse("here is the result: ```json {\"a\":1} ```", decode)
      == (match decode("{\"a\":1}") case Some(v) => Ok(v) case None => Err(DecodeError))
  {
    ExampleParts();
    ExampleConcat();
    JsonFenceRoundTrip("here is the result: ", " {\"a\":1} ", "", decode);
  }

  lemma ExampleParts()
    ensures '`' !in "here is the result: " && '`' !in " {\"a\":1} "
    ensures Strip(" {\"a\":1} ") == "{\"a\":1}"
  {
    var prose, body := "here is the result: ", " {\"a\":1} ";
    forall k | 0 <= k < |prose| ensures prose[k] != '`' { }
    forall k | 0 <= k < |body| ensures body[k] != '`' { }
    ExampleStrip();
  }

  lemma ExampleConcat()
    ensures "here is the result: " + JsonFence + " {\"a\":1} " + Fence + "" == "here is the result: ```json {\"a\":1} ```"
  {
  }

  lemma ExampleStrip()
    ensures Strip(" {\"a\":1} ") == "{\"a\":1}"
  {
    var inner := "{\"a\":1}";
    assert " {\"a\":1} " == [' '] + inner + [' '];
    StripPadded(inner);
  }

  /**
   * With only a generic fence, decoding starts right after "```": a language tag
   * such as "python" stays in the decoded text.
   */
  lemma {:induction false} GenericFenceKeepsTag<T>(prose: string, tagged: string, rest: string, decode: string -> Option<T>)
    requires '`' !in prose && '`' !in tagged && |tagged| > 0
    requires !Contains(prose + Fence + tagged + Fence + rest, JsonFence)
    requires decode(prose + Fence + tagged + Fence + rest).None?
    ensures ParseLlmResponse(prose + Fence + tagged + Fence + rest, decode)
      == (match decode(Strip(tagged)) case Some(v) => Ok(v) case None => Err(DecodeError))
  {
    var t := prose + Fence + tagged + Fence + rest;
    FenceLocations(prose, Fence, tagged, rest);
    GenericFenceBody(t, |prose|, |prose| + |Fence| + |tagged|);
    ParseFenced(t, Strip(tagged), decode);
  }

  /**
   * A "```json" fence that is never closed makes the original decode error escape:
   * the generic-fence branch is not tried, whatever other fences the reply holds before it.
   */
  lemma UnclosedJsonFenceFails<T>(text: string, decode: string -> Option<T>)
    requires decode(text).None?
    requires Contains(text, JsonFence)
    requires FindFrom(text, Fence, FindFrom(text, JsonFence, 0).value + |JsonFence|).None?
    ensures ParseLlmResponse(text, decode) == Err(DecodeError)
  {
  }

  /** A reply with no fence at all that does not decode fails. */
  lemma NoFenceFails<T>(text: string, decode: string -> Option<T>)
    requires decode(text).None?
    requires !Contains(text, Fence)
    ensures ParseLlmResponse(text, decode) == Err(DecodeError)
  {
    JsonFenceIsFence(text);
  }

  /** Every "```json" begins with a "```". */
  lemma {:induction false} JsonFenceIsFence(text: string)
    ensures Contains(text, JsonFence) ==> Contains(text, Fence)
  {
    if Contains(text, JsonFence) {
      var i := FindFrom(text, JsonFence, 0).value;
      FindFromSpec(text, JsonFence, 0);
      assert text[i..i + 3] == text[i..i + |JsonFence|][..3] == Fence;
      assert OccursAt(text, Fence, i);
      FindFromSpec(text, Fence, 0);
    }
  }

  /**
   * The older detector's unwrapping: only a reply that starts (after stripping) with
   * "```json" loses those seven characters, and then a trailing "```"; the result is stripped.
   */
  function UnwrapLeadingFence(reply: string): string
  {
    var t := Strip(reply);
    if StartsWith(t, JsonFence) then
      var u := t[|JsonFence|..];
      Strip(if EndsWith(u, Fence) then u[..|u| - |Fence|] else u)
    else Strip(reply)
  }

  /** A reply that is exactly a fenced block unwraps to its stripped body. */
  lemma {:induction false} LeadingFenceRoundTrip(body: string)
    ensures UnwrapLeadingFence(JsonFence + body + Fence) == Strip(body)
  {
    var text := JsonFence + body + Fence;
    assert text[0] == '`' && text[|text| - 1] == '`';
    StripNoEdgeSpace(text);
    assert text[..|JsonFence|] == JsonFence;
    var u := text[|JsonFence|..];
    assert u == body + Fence;
    assert u[|u| - |Fence|..] == Fence;
    assert u[..|u| - |Fence|] == body;
  }

  /** Prose before the fence defeats the older unwrapping: the reply is only stripped. */
  lemma {:induction false} LeadingFenceOnly(prose: string, body: string)
    requires |prose| > 0 && !IsSpace(prose[0]) && prose[0] != '`'
    ensures UnwrapLeadingFence(prose + JsonFence + body + Fence)
      == Strip(prose + JsonFence + body + Fence)
  {
    var text := prose + JsonFence + body + Fence;
    assert text[0] == prose[0];
    assert text[|text| - 1] == '`';
    StripNoEdgeSpace(text);
    NoLeadingFence(text);
  }

  /** A reply that does not start (after stripping) with a backtick is only stripped. */
  lemma {:induction false} NoLeadingFence(reply: string)
    requires |Strip(reply)| == 0 || Strip(reply)[0] != '`'
    ensures UnwrapLeadingFence(reply) == Strip(reply)
  {
    var t := Strip(reply);
    if |JsonFence| <= |t| {
      assert t[..|JsonFence|][0] == t[0];
    }
  }
}
