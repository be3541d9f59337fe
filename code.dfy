/**
 * `CodeAnalyzer` (analyzers/code.py): code blocks numbered per chapter, a static check
 * of Python blocks (syntax error and missing imports), the model's errors for every
 * block with their defaults, and the quality score.
 */
module CodeAnalyzer {
  import opened Wrappers
  import opened Strings
  import opened Analysis
  import Chapters

  /** `CodeError`; `lineNumber` is `None` where the source stores `None`. */
  datatype CodeError = CodeError(
    chapterId: string,
    blockIndex: nat,
    excerpt: string,
    errorType: string,
    lineNumber: Option<int>,
    description: string,
    severity: string,
    suggestedFix: string)

  /** `CodeBlock` */
  datatype CodeBlock = CodeBlock(chapterId: string, index: nat, language: string, code: string, startPos: nat, endPos: nat)

  // ---------------------------------------------------------------------------
  // Code blocks
  // ---------------------------------------------------------------------------

  /** A match of the fenced-block pattern: the language tag (possibly empty) and the body. */
  datatype FencedMatch = FencedMatch(language: string, body: string, start: nat, end: nat)

  /** A match of the indented-block pattern: the indented lines as they stand. */
  datatype IndentedMatch = IndentedMatch(body: string, start: nat, end: nat)

  /** `line[4:] if line.startswith('    ') else line[1:]` */
  function Dedent(line: string): (r: string)
    ensures StartsWith(line, "    ") ==> line == "    " + r
    ensures !StartsWith(line, "    ") && |line| > 0 ==> line == [line[0]] + r
    ensures |line| == 0 ==> r == ""
  {
    if StartsWith(line, "    ") then line[4..] else if |line| > 0 then line[1..] else ""
  }

  /** The cleaned code of an indented block: every line dedented, rejoined and stripped. */
  function IndentedCode(body: string): string
  {
    var lines := Split(body, '\n');
    Strip(Join(seq(|lines|, k requires 0 <= k < |lines| => Dedent(lines[k])), "\n"))
  }

  function FencedBlock(chapterId: string, index: nat, m: FencedMatch): CodeBlock
  {
    CodeBlock(chapterId, index, if m.language == "" then "unknown" else m.language, Strip(m.body), m.start, m.end)
  }

  function IndentedBlock(chapterId: string, index: nat, m: IndentedMatch): CodeBlock
  {
    CodeBlock(chapterId, index, "unknown", IndentedCode(m.body), m.start, m.end)
  }

  /** The fenced blocks, numbered from 0. */
  function FencedBlocks(chapterId: string, fenced: seq<FencedMatch>): (r: seq<CodeBlock>)
    ensures |r| == |fenced|
  {
    seq(|fenced|, k requires 0 <= k < |fenced| => FencedBlock(chapterId, k, fenced[k]))
  }

  /** The indented blocks, numbered from `from`. */
  function IndentedBlocks(chapterId: string, from: nat, indented: seq<IndentedMatch>): (r: seq<CodeBlock>)
    ensures |r| == |indented|
  {
    seq(|indented|, k requires 0 <= k < |indented| => IndentedBlock(chapterId, from + k, indented[k]))
  }

  /**
   * `_extract_code_blocks` on the matches of the two patterns: the fenced blocks first,
   * then the indented ones, numbered on from where the fenced ones stop.
   */
  function Blocks(chapterId: string, fenced: seq<FencedMatch>, indented: seq<IndentedMatch>): seq<CodeBlock>
  {
    FencedBlocks(chapterId, fenced) + IndentedBlocks(chapterId, |fenced|, indented)
  }

  /** Blocks are numbered consecutively from 0, and a language is "unknown" exactly when none was given. */
  lemma BlocksNumbered(chapterId: string, fenced: seq<FencedMatch>, indented: seq<IndentedMatch>)
    ensures var r := Blocks(chapterId, fenced, indented);
      |r| == |fenced| + |indented|
      && (forall k :: 0 <= k < |r| ==> r[k].index == k && r[k].chapterId == chapterId)
      && (forall k :: 0 <= k < |fenced| ==>
        r[k].code == Strip(fenced[k].body) && (r[k].language == "unknown" <==> fenced[k].language in {"", "unknown"}))
      && (forall k :: |fenced| <= k < |r| ==> r[k].language == "unknown")
  {
  }

  /** The two `enumerate` loops of `_extract_code_blocks`. */
  method ExtractCodeBlocks(chapterId: string, fenced: seq<FencedMatch>, indented: seq<IndentedMatch>)
    returns (blocks: seq<CodeBlock>)
    ensures blocks == Blocks(chapterId, fenced, indented)
  {
    var first: seq<CodeBlock> := [];
    var i := 0;
    while i < |fenced|
      invariant i <= |fenced| && |first| == i
      invariant first == FencedBlocks(chapterId, fenced)[..i]
    {
      SliceSnoc(FencedBlocks(chapterId, fenced), 0, i);
      first := first + [FencedBlock(chapterId, i, fenced[i])];
      i := i + 1;
    }
    assert FencedBlocks(chapterId, fenced)[..i] == FencedBlocks(chapterId, fenced);
    var second: seq<CodeBlock> := [];
    var j := 0;
    while j < |indented|
      invariant j <= |indented| && |second| == j
      invariant second == IndentedBlocks(chapterId, |fenced|, indented)[..j]
    {
      SliceSnoc(IndentedBlocks(chapterId, |fenced|, indented), 0, j);
      second := second + [IndentedBlock(chapterId, |fenced| + j, indented[j])];
      j := j + 1;
    }
    assert IndentedBlocks(chapterId, |fenced|, indented)[..j] == IndentedBlocks(chapterId, |fenced|, indented);
    blocks := first + second;
  }

  // ---------------------------------------------------------------------------
  // Static analysis of Python blocks
  // ---------------------------------------------------------------------------

  /** `code_block.language.lower() in ['python', 'py']` */
  predicate IsPython(b: CodeBlock)
  {
    Lower(b.language) in ["python", "py"]
  }

  /** A character `\w` matches (ASCII letters, digits and `_`). */
  predicate IsWordChar(c: char)
  {
    'a' <= c <= 'z' || 'A' <= c <= 'Z' || '0' <= c <= '9' || c == '_'
  }

  /** The first position at or after `p` that is not whitespace. */
  function SkipSpace(line: string, p: nat): (q: nat)
    requires p <= |line|
    ensures p <= q <= |line| && (q < |line| ==> !IsSpace(line[q]))
    ensures forall k :: p <= k < q ==> IsSpace(line[k])
    decreases |line| - p
  {
    if p < |line| && IsSpace(line[p]) then SkipSpace(line, p + 1) else p
  }

  /** The end of the run of word characters starting at `q`. */
  function WordEnd(line: string, q: nat): (e: nat)
    requires q <= |line|
    ensures q <= e <= |line| && (e < |line| ==> !IsWordChar(line[e]))
    ensures forall k :: q <= k < e ==> IsWordChar(line[k])
    decreases |line| - q
  {
    if q < |line| && IsWordChar(line[q]) then WordEnd(line, q + 1) else q
  }

  /** `\s+(\w+)` at position `p`: at least one space, then the longest run of word characters. */
  function WordAfter(line: string, p: nat): (r: Option<string>)
    requires p <= |line|
    ensures r.Some? ==> |r.value| > 0 && forall c :: c in r.value ==> IsWordChar(c)
    ensures r.Some? ==> (var q := SkipSpace(line, p);
      p < q && r.value == line[q..WordEnd(line, q)])
    ensures r.None? <==> SkipSpace(line, p) == p || WordEnd(line, SkipSpace(line, p)) == SkipSpace(line, p)
  {
    var q := SkipSpace(line, p);
    var e := WordEnd(line, q);
    if q == p || e == q then None
    else
      assert forall c :: c in line[q..e] ==> IsWordChar(c);
      Some(line[q..e])
  }

  /** `re.match(r'(?:from\s+(\w+)|import\s+(\w+))', line)`: the module a line imports. */
  function ImportCapture(line: string): (r: Option<string>)
    ensures r.Some? ==> StartsWith(line, "from") || StartsWith(line, "import")
  {
    if StartsWith(line, "from") then WordAfter(line, 4)
    else if StartsWith(line, "import") then WordAfter(line, 6)
    else None
  }

  /** A run of whitespace from `p` that ends at `q` is what `SkipSpace` skips. */
  lemma {:induction false} SkipSpaceRun(line: string, p: nat, q: nat)
    requires p <= q <= |line|
    requires forall k :: p <= k < q ==> IsSpace(line[k])
    requires q < |line| ==> !IsSpace(line[q])
    ensures SkipSpace(line, p) == q
    decreases q - p
  {
    if p < q {
      SkipSpaceRun(line, p + 1, q);
    }
  }

  /** A run of word characters from `q` that ends at `e` is what `WordEnd` finds. */
  lemma {:induction false} WordEndRun(line: string, q: nat, e: nat)
    requires q <= e <= |line|
    requires forall k :: q <= k < e ==> IsWordChar(line[k])
    requires e < |line| ==> !IsWordChar(line[e])
    ensures WordEnd(line, q) == e
    decreases e - q
  {
    if q < e {
      WordEndRun(line, q + 1, e);
    }
  }

  /** Whitespace from `p` to `q` followed by a word ending at `e` is what `\s+(\w+)` captures. */
  lemma WordAfterRuns(line: string, p: nat, q: nat, e: nat)
    requires p < q < e <= |line|
    requires forall k :: p <= k < q ==> IsSpace(line[k])
    requires forall k :: q <= k < e ==> IsWordChar(line[k])
    requires e < |line| ==> !IsWordChar(line[e])
    ensures WordAfter(line, p) == Some(line[q..e])
  {
    SkipSpaceRun(line, p, q);
    WordEndRun(line, q, e);
  }

  /**
   * A line made of `import` or `from`, whitespace, a name of word characters and anything
   * that does not continue the name captures exactly that name.
   */
  lemma {:induction false} ImportCaptureOf(keyword: string, spaces: string, name: string, rest: string)
    requires keyword == "import" || keyword == "from"
    requires |spaces| > 0 && forall c :: c in spaces ==> IsSpace(c)
    requires |name| > 0 && forall c :: c in name ==> IsWordChar(c)
    requires |rest| > 0 ==> !IsWordChar(rest[0])
    ensures ImportCapture(keyword + spaces + name + rest) == Some(name)
  {
    var line := keyword + spaces + name + rest;
    var p, q, e := |keyword|, |keyword| + |spaces|, |keyword| + |spaces| + |name|;
    assert line[..p] == keyword;
    if keyword == "import" {
      assert line[..4][0] == 'i';
    }
    forall k | p <= k < q ensures IsSpace(line[k]) {
      assert line[k] == spaces[k - p];
    }
    forall k | q <= k < e ensures IsWordChar(line[k]) {
      assert line[k] == name[k - q];
    }
    if e < |line| {
      assert line[e] == rest[0];
    }
    WordAfterRuns(line, p, q, e);
    assert line[q..e] == name;
  }

  /** Only the first word after the keyword is captured: `import os.path` imports `os`. */
  lemma ImportCaptureDotted()
    ensures ImportCapture("import os.path") == Some("os")
  {
    var l := "import os.path";
    assert l[..6] == "import" && l[..4][0] == 'i';
    assert !StartsWith(l, "from");
    assert IsSpace(l[6]) && !IsSpace(l[7]);
    assert SkipSpace(l, 7) == 7;
    assert SkipSpace(l, 6) == 7;
    assert IsWordChar(l[7]) && IsWordChar(l[8]) && !IsWordChar(l[9]);
    assert WordEnd(l, 9) == 9;
    assert WordEnd(l, 8) == 9;
    assert WordEnd(l, 7) == 9;
    assert l[7..9] == "os";
  }

  /** `from m import x` imports `m`. */
  lemma ImportCaptureFrom()
    ensures ImportCapture("from re import sub") == Some("re")
  {
    var l := "from re import sub";
    assert l[..4] == "from";
    assert IsSpace(l[4]) && !IsSpace(l[5]);
    assert SkipSpace(l, 5) == 5;
    assert SkipSpace(l, 4) == 5;
    assert IsWordChar(l[5]) && IsWordChar(l[6]) && !IsWordChar(l[7]);
    assert WordEnd(l, 7) == 7;
    assert WordEnd(l, 6) == 7;
    assert WordEnd(l, 5) == 7;
    assert l[5..7] == "re";
  }

  /** An indented import is not seen. */
  lemma ImportCaptureIndented()
    ensures ImportCapture("  import os") == None
  {
    assert "  import os"[..4][0] != "from"[0];
    assert "  import os"[..6][0] != "import"[0];
  }

  /** The modules the usage heuristic looks for. */
  const CommonModules: seq<string> := ["os", "sys", "json", "re", "datetime", "numpy", "pandas"]

  /** `f'{common_module}.' in line` */
  predicate Uses(line: string, m: string)
  {
    Contains(line, m + ".")
  }

  /** The modules captured by the first n lines. */
  function ImportsTo(lines: seq<string>, n: nat): set<string>
    requires n <= |lines|
  {
    set k | 0 <= k < n && ImportCapture(lines[k]).Some? :: ImportCapture(lines[k]).value
  }

  /** The modules the loop has recorded as used after n lines: used on a line before their import. */
  function UsedTo(lines: seq<string>, n: nat): set<string>
    requires n <= |lines|
  {
    set m | m in CommonModules && exists k :: 0 <= k < n && Uses(lines[k], m) && m !in ImportsTo(lines, k + 1)
  }

  /** The modules reported missing: used on some line and imported on none. */
  function Missing(lines: seq<string>): set<string>
  {
    set m | m in CommonModules && (exists k :: 0 <= k < |lines| && Uses(lines[k], m)) && m !in ImportsTo(lines, |lines|)
  }

  /** The modules line n imports. */
  function LineImports(line: string): set<string>
  {
    if ImportCapture(line).Some? then {ImportCapture(line).value} else {}
  }

  /** The modules line n is recorded as using, given what is imported by then. */
  function LineUses(line: string, imported: set<string>): set<string>
  {
    set m | m in CommonModules && Uses(line, m) && m !in imported
  }

  lemma ImportsNext(lines: seq<string>, n: nat)
    requires n < |lines|
    ensures ImportsTo(lines, n + 1) == ImportsTo(lines, n) + LineImports(lines[n])
  {
  }

  lemma UsedNext(lines: seq<string>, n: nat)
    requires n < |lines|
    ensures UsedTo(lines, n + 1) == UsedTo(lines, n) + LineUses(lines[n], ImportsTo(lines, n + 1))
  {
  }

  lemma ImportsGrow(lines: seq<string>, a: nat, b: nat)
    requires a <= b <= |lines|
    ensures ImportsTo(lines, a) <= ImportsTo(lines, b)
  {
  }

  /** `used_modules - imported_modules` is exactly the missing modules. */
  lemma UsedMinusImported(lines: seq<string>)
    ensures UsedTo(lines, |lines|) - ImportsTo(lines, |lines|) == Missing(lines)
  {
    var n := |lines|;
    forall m | m in Missing(lines) ensures m in UsedTo(lines, n) {
      var k :| 0 <= k < n && Uses(lines[k], m);
      ImportsGrow(lines, k + 1, n);
    }
  }

  /** The module-usage loop for one line. */
  method AddUsed(line: string, imported: set<string>, used0: set<string>) returns (used: set<string>)
    ensures used == used0 + LineUses(line, imported)
  {
    used := used0;
    var x := 0;
    while x < |CommonModules|
      invariant x <= |CommonModules|
      invariant used == used0 + set m | m in CommonModules[..x] && Uses(line, m) && m !in imported
    {
      var m := CommonModules[x];
      assert CommonModules[..x + 1] == CommonModules[..x] + [m];
      assert forall y :: y in CommonModules[..x + 1] <==> y in CommonModules[..x] || y == m;
      if Contains(line, m + ".") && m !in imported {
        used := used + {m};
      }
      x := x + 1;
    }
    assert CommonModules[..x] == CommonModules;
  }

  /** The line loop of `_static_python_analysis`. */
  method ScanLines(lines: seq<string>) returns (used: set<string>, imported: set<string>)
    ensures imported == ImportsTo(lines, |lines|) && used == UsedTo(lines, |lines|)
  {
    used, imported := {}, {};
    var i := 0;
    while i < |lines|
      invariant i <= |lines|
      invariant imported == ImportsTo(lines, i) && used == UsedTo(lines, i)
    {
      var capture := ImportCapture(lines[i]);
      if capture.Some? {
        imported := imported + {capture.value};
      }
      ImportsNext(lines, i);
      UsedNext(lines, i);
      used := AddUsed(lines[i], imported, used);
      i := i + 1;
    }
  }

  /** The error reported for a module used without an import. */
  function ImportError(b: CodeBlock, m: string): CodeError
  {
    CodeError(b.chapterId, b.index, "Usage of " + m, "import", None,
      "'" + m + "' 모듈이 사용되었지만 import되지 않았습니다", "error",
      "코드 시작 부분에 'import " + m + "'를 추가하세요")
  }

  function ImportErrors(b: CodeBlock, modules: seq<string>): (r: seq<CodeError>)
    ensures |r| == |modules| && forall k :: 0 <= k < |modules| ==> r[k] == ImportError(b, modules[k])
  {
    seq(|modules|, k requires 0 <= k < |modules| => ImportError(b, modules[k]))
  }

  /** What `ast.parse` reports for a block that does not parse. */
  datatype SyntaxIssue = SyntaxIssue(lineno: Option<nat>, msg: string)

  /** `seq[i]` with Python's negative indices; an index out of range raises `IndexError`. */
  function PyIndex(s: seq<string>, i: int): (r: Result<string, Failure>)
    ensures r.Ok? <==> -|s| <= i < |s|
    ensures 0 <= i < |s| ==> r == Ok(s[i])
    ensures r.Err? ==> r.error == IndexError
  {
    if 0 <= i < |s| then Ok(s[i])
    else if -|s| <= i < 0 then Ok(s[|s| + i])
    else Err(IndexError)
  }

  /**
   * `code.split('\n')[line - 1] if line else code[:100]`, as written: a line past the end
   * raises `IndexError`, and a negative one counts from the end.
   */
  function ExcerptAsWritten(code: string, line: Option<int>): (r: Result<string, Failure>)
    ensures (line.None? || line == Some(0)) ==> r == Ok(Take(code, 100))
    ensures line.Some? && line.value != 0 ==> r == PyIndex(Split(code, '\n'), line.value - 1)
  {
    if line.Some? && line.value != 0 then PyIndex(Split(code, '\n'), line.value - 1)
    else Ok(Take(code, 100))
  }

  /** The excerpt as evidently intended: the numbered line if the block has it, else the first 100 characters. */
  function Excerpt(code: string, line: Option<int>): (r: string)
    ensures line.Some? && 1 <= line.value <= |Split(code, '\n')| ==> r == Split(code, '\n')[line.value - 1]
    ensures !(line.Some? && 1 <= line.value <= |Split(code, '\n')|) ==> r == Take(code, 100)
  {
    var lines := Split(code, '\n');
    if line.Some? && 1 <= line.value <= |lines| then lines[line.value - 1] else Take(code, 100)
  }

  /** Where the block has the line, or no line is given, the two agree. */
  lemma ExcerptAgrees(code: string, line: Option<int>)
    requires line.None? || line == Some(0) || 1 <= line.value <= |Split(code, '\n')|
    ensures ExcerptAsWritten(code, line) == Ok(Excerpt(code, line))
  {
  }

  /** A one-line block with an error the model places on line 2 makes the code as written raise. */
  lemma ExcerptPastEnd()
    ensures ExcerptAsWritten("x = 1", Some(2)) == Err(IndexError)
    ensures Excerpt("x = 1", Some(2)) == "x = 1"
  {
    SplitNoSep("x = 1", '\n');
  }

  /** The syntax error `_static_python_analysis` reports, if the block does not parse. */
  function SyntaxErrors(parse: string -> Option<SyntaxIssue>, b: CodeBlock): (r: Result<seq<CodeError>, Failure>)
    ensures parse(b.code).None? ==> r == Ok([])
    ensures r.Err? ==> r.error == IndexError
    ensures r.Ok? && parse(b.code).Some? ==> (|r.value| == 1
      && r.value[0].errorType == "syntax" && r.value[0].severity == "error"
      && r.value[0].blockIndex == b.index && r.value[0].chapterId == b.chapterId)
  {
    match parse(b.code)
    case None => Ok([])
    case Some(issue) =>
      var line: Option<int> := if issue.lineno.Some? then Some(issue.lineno.value) else None;
      match ExcerptAsWritten(b.code, line)
      case Err(e) => Err(e)
      case Ok(excerpt) =>
        var shown := if issue.lineno.Some? then NatToString(issue.lineno.value) else "None";
        Ok([CodeError(b.chapterId, b.index, excerpt, "syntax", line, "문법 오류: " + issue.msg, "error",
          "라인 " + shown + "의 문법을 확인하세요")])
  }

  /**
   * What `_static_python_analysis` returns: the syntax error, if any, then one import
   * error per missing module, in set order.
   */
  ghost predicate IsStaticResult(parse: string -> Option<SyntaxIssue>, b: CodeBlock, r: Result<seq<CodeError>, Failure>)
  {
    match SyntaxErrors(parse, b)
    case Err(e) => r == Err(e)
    case Ok(syntax) =>
      r.Ok? && exists order :: (Enumerates(order, Missing(Split(b.code, '\n')))
        && r.value == syntax + ImportErrors(b, order))
  }

  /** `_static_python_analysis` */
  method StaticAnalysis(parse: string -> Option<SyntaxIssue>, b: CodeBlock) returns (r: Result<seq<CodeError>, Failure>)
    ensures IsStaticResult(parse, b, r)
  {
    var syntax := SyntaxErrors(parse, b);
    if syntax.Err? {
      return Err(syntax.error);
    }
    var lines := Split(b.code, '\n');
    var used, imported := ScanLines(lines);
    UsedMinusImported(lines);
    var order := Enumerate(used - imported);
    r := Ok(syntax.value + ImportErrors(b, order));
  }

  // ---------------------------------------------------------------------------
  // The model's errors
  // ---------------------------------------------------------------------------

  /** One entry of the reply's `errors`; a key left out is `None`. */
  datatype ErrorData = ErrorData(
    line: Option<int>,
    errorType: Option<string>,
    description: Option<string>,
    severity: Option<string>,
    fix: Option<string>)

  datatype CodeReply = CodeReply(errors: Option<seq<ErrorData>>)

  /** One reply entry mapped with its defaults, the excerpt taken as evidently intended. */
  function FromData(b: CodeBlock, data: ErrorData): (r: CodeError)
    ensures r.chapterId == b.chapterId && r.blockIndex == b.index && r.lineNumber == data.line
    ensures r.excerpt == Excerpt(b.code, data.line)
    ensures r.errorType == data.errorType.GetOr("unknown") && r.severity == data.severity.GetOr("warning")
    ensures r.description == data.description.GetOr("") && r.suggestedFix == data.fix.GetOr("")
  {
    CodeError(b.chapterId, b.index, Excerpt(b.code, data.line), data.errorType.GetOr("unknown"), data.line,
      data.description.GetOr(""), data.severity.GetOr("warning"), data.fix.GetOr(""))
  }

  /**
   * `_llm_code_analysis` on the reply to its call (`None` when the call raised): a failed
   * call or an unparsable reply escapes; otherwise one error per reply entry.
   */
  function LlmErrors(reply: Option<string>, decode: string -> Option<CodeReply>, b: CodeBlock)
    : (r: Result<seq<CodeError>, Failure>)
    ensures reply.None? ==> r == Err(LlmError)
    ensures r.Err? ==> r.error == LlmError || r.error == JsonError
    ensures reply.Some? && decode(reply.value).Some? ==>
      var datas := decode(reply.value).value.errors.GetOr([]);
      r.Ok? && |r.value| == |datas| && forall k :: 0 <= k < |datas| ==> r.value[k] == FromData(b, datas[k])
  {
    match Ask(reply, decode)
    case Err(e) => Err(e)
    case Ok(v) =>
      var datas := v.errors.GetOr([]);
      Ok(seq(|datas|, k requires 0 <= k < |datas| => FromData(b, datas[k])))
  }

  // ---------------------------------------------------------------------------
  // Score, dictionaries and `analyze`
  // ---------------------------------------------------------------------------

  function SeverityCount(errors: seq<CodeError>, severity: string): (r: nat)
    ensures r <= |errors|
    decreases |errors|
  {
    if |errors| == 0 then 0
    else SeverityCount(errors[..|errors| - 1], severity) + (if errors[|errors| - 1].severity == severity then 1 else 0)
  }

  /** `max(0.0, 1.0 - (error_count * 0.1 + warning_count * 0.05))` */
  function Quality(errorCount: nat, warningCount: nat): (r: real)
    ensures 0.0 <= r <= 1.0
    ensures r == 1.0 <==> errorCount == 0 && warningCount == 0
    ensures errorCount >= 10 ==> r == 0.0
  {
    var penalty := errorCount as real * 0.1 + warningCount as real * 0.05;
    if 1.0 - penalty > 0.0 then 1.0 - penalty else 0.0
  }

  /** More errors or warnings never raise the score. */
  lemma QualityMonotone(e: nat, w: nat, e': nat, w': nat)
    requires e <= e' && w <= w'
    ensures Quality(e', w') <= Quality(e, w)
  {
  }

  /** `_code_error_to_dict` */
  function ToDict(e: CodeError): (d: Dict)
    ensures d.Keys == {"chapter_id", "code_block_index", "code_excerpt", "error_type", "line_number",
      "description", "severity", "suggested_fix"}
    ensures d["line_number"] == if e.lineNumber.Some? then Int(e.lineNumber.value) else Null
  {
    map[
      "chapter_id" := Str(e.chapterId),
      "code_block_index" := Int(e.blockIndex),
      "code_excerpt" := Str(e.excerpt),
      "error_type" := Str(e.errorType),
      "line_number" := if e.lineNumber.Some? then Int(e.lineNumber.value) else Null,
      "description" := Str(e.description),
      "severity" := Str(e.severity),
      "suggested_fix" := Str(e.suggestedFix)]
  }

  function FromDict(d: Dict): Option<CodeError>
  {
    if {"chapter_id", "code_block_index", "code_excerpt", "error_type", "line_number",
        "description", "severity", "suggested_fix"} <= d.Keys
      && d["chapter_id"].Str? && d["code_block_index"].Int? && d["code_block_index"].n >= 0
      && d["code_excerpt"].Str? && d["error_type"].Str? && (d["line_number"].Int? || d["line_number"].Null?)
      && d["description"].Str? && d["severity"].Str? && d["suggested_fix"].Str?
    then Some(CodeError(d["chapter_id"].s, d["code_block_index"].n, d["code_excerpt"].s, d["error_type"].s,
      if d["line_number"].Int? then Some(d["line_number"].n) else None,
      d["description"].s, d["severity"].s, d["suggested_fix"].s))
    else None
  }

  /** Nothing is lost by the conversion to a dictionary. */
  lemma DictRoundTrip(e: CodeError)
    ensures FromDict(ToDict(e)) == Some(e)
  {
  }

  /** The result `analyze` returns for the errors collected. */
  function Summarize(errors: seq<CodeError>): (r: AnalysisResult)
    ensures r.analyzerType == "code" && r.details.Items? && r.totalIssues == |r.details.items| == |errors|
    ensures forall x :: 0 <= x < |errors| ==> FromDict(r.details.items[x]) == Some(errors[x])
    ensures r.confidenceScore == Quality(SeverityCount(errors, "error"), SeverityCount(errors, "warning"))
  {
    var r := AnalysisResult("code", |errors|, Quality(SeverityCount(errors, "error"), SeverityCount(errors, "warning")),
      Items(seq(|errors|, k requires 0 <= k < |errors| => ToDict(errors[k]))));
    forall x | 0 <= x < |errors| ensures FromDict(r.details.items[x]) == Some(errors[x]) {
      DictRoundTrip(errors[x]);
    }
    r
  }

  /** What analysing one block yields: its errors, or the failure that escaped. */
  type BlockResult = Result<seq<CodeError>, Failure>

  /** One block to analyse, with the chapter text its prompt carries. */
  datatype Task = Task(block: CodeBlock, context: string)

  /** The blocks of one chapter, each with the first 1000 characters of the chapter. */
  function ChapterTasks(fencedOf: string -> seq<FencedMatch>, indentedOf: string -> seq<IndentedMatch>,
                        c: Chapters.Chapter): (r: seq<Task>)
    ensures |r| == |fencedOf(c.text)| + |indentedOf(c.text)|
  {
    var blocks := Blocks(Chapters.GetId(c), fencedOf(c.text), indentedOf(c.text));
    seq(|blocks|, k requires 0 <= k < |blocks| => Task(blocks[k], Take(c.text, 1000)))
  }

  /** Every block of every chapter, in the order `analyze` visits them. */
  function Tasks(fencedOf: string -> seq<FencedMatch>, indentedOf: string -> seq<IndentedMatch>,
                 chapters: seq<Chapters.Chapter>): seq<Task>
    decreases |chapters|
  {
    if |chapters| == 0 then []
    else
      Tasks(fencedOf, indentedOf, chapters[..|chapters| - 1]) + ChapterTasks(fencedOf, indentedOf, chapters[|chapters| - 1])
  }

  lemma TasksNext(fencedOf: string -> seq<FencedMatch>, indentedOf: string -> seq<IndentedMatch>,
                  chapters: seq<Chapters.Chapter>, i: nat)
    requires i < |chapters|
    ensures Tasks(fencedOf, indentedOf, chapters[..i + 1])
      == Tasks(fencedOf, indentedOf, chapters[..i]) + ChapterTasks(fencedOf, indentedOf, chapters[i])
  {
    assert chapters[..i + 1][..i] == chapters[..i];
  }

  /** The blocks of the first chapters come first. */
  lemma {:induction false} TasksPrefix(fencedOf: string -> seq<FencedMatch>, indentedOf: string -> seq<IndentedMatch>,
                                       chapters: seq<Chapters.Chapter>, i: nat)
    requires i <= |chapters|
    ensures Tasks(fencedOf, indentedOf, chapters[..i]) <= Tasks(fencedOf, indentedOf, chapters)
    decreases |chapters| - i
  {
    if i < |chapters| {
      TasksPrefix(fencedOf, indentedOf, chapters, i + 1);
      assert chapters[..i + 1][..i] == chapters[..i];
    } else {
      assert chapters[..i] == chapters;
    }
  }

  /**
   * What one block yields in `analyze`: for a Python block, the static errors and then the
   * model's; for any other block, the model's alone. The first failure escapes.
   */
  ghost predicate IsBlockResult(parse: string -> Option<SyntaxIssue>, llm: Task -> Option<string>,
                                decode: string -> Option<CodeReply>, t: Task, r: Result<seq<CodeError>, Failure>)
  {
    var fromLlm := LlmErrors(llm(t), decode, t.block);
    if IsPython(t.block) then
      exists fromStatic :: IsStaticResult(parse, t.block, fromStatic)
        && r == (if fromStatic.Err? then fromStatic else if fromLlm.Err? then fromLlm else Ok(fromStatic.value + fromLlm.value))
    else r == fromLlm
  }

  /** The body of the inner loop of `analyze`. */
  method AnalyzeBlock(parse: string -> Option<SyntaxIssue>, llm: Task -> Option<string>,
                      decode: string -> Option<CodeReply>, t: Task) returns (r: Result<seq<CodeError>, Failure>)
    ensures IsBlockResult(parse, llm, decode, t, r)
    ensures r.Err? ==> r.error in {LlmError, JsonError, IndexError}
  {
    var fromLlm: Result<seq<CodeError>, Failure>;
    if Lower(t.block.language) in ["python", "py"] {
      var fromStatic := StaticAnalysis(parse, t.block);
      if fromStatic.Err? {
        return fromStatic;
      }
      fromLlm := LlmErrors(llm(t), decode, t.block);
      if fromLlm.Err? {
        return fromLlm;
      }
      r := Ok(fromStatic.value + fromLlm.value);
    } else {
      r := LlmErrors(llm(t), decode, t.block);
    }
  }

  /** The errors of the blocks that succeeded, in order. */
  function Oks(rs: seq<BlockResult>): seq<CodeError>
  {
    if |rs| == 0 then []
    else Oks(rs[..|rs| - 1]) + (if rs[|rs| - 1].Ok? then rs[|rs| - 1].value else [])
  }

  lemma {:induction false} OksConcat(a: seq<BlockResult>, b: seq<BlockResult>)
    ensures Oks(a + b) == Oks(a) + Oks(b)
    decreases |b|
  {
    if |b| > 0 {
      assert (a + b)[..|a + b| - 1] == a + b[..|b| - 1];
      OksConcat(a, b[..|b| - 1]);
    } else {
      assert a + b == a;
    }
  }

  /** What a block yields in `analyze`, as a relation. */
  ghost function BlockSpec(parse: string -> Option<SyntaxIssue>, llm: Task -> Option<string>,
                           decode: string -> Option<CodeReply>): (Task, BlockResult) -> bool
  {
    (t, r) => IsBlockResult(parse, llm, decode, t, r)
  }

  /** `rs` is what the first `|rs|` of `ts` yielded, one entry each. */
  ghost predicate Pointwise<T, R>(P: (T, R) -> bool, ts: seq<T>, rs: seq<R>)
  {
    |rs| <= |ts| && forall k :: 0 <= k < |rs| ==> P(ts[k], rs[k])
  }

  lemma PointwiseSnoc<T, R>(P: (T, R) -> bool, ts: seq<T>, rs: seq<R>, r: R)
    requires Pointwise(P, ts, rs) && |rs| < |ts| && P(ts[|rs|], r)
    ensures Pointwise(P, ts, rs + [r])
  {
    forall k | 0 <= k < |rs| + 1 ensures P(ts[k], (rs + [r])[k]) {
      if k < |rs| {
        assert (rs + [r])[k] == rs[k];
      }
    }
  }

  lemma PointwisePrefix<T, R>(P: (T, R) -> bool, ts: seq<T>, more: seq<T>, rs: seq<R>)
    requires Pointwise(P, ts, rs) && ts <= more
    ensures Pointwise(P, more, rs)
  {
    forall k | 0 <= k < |rs| ensures P(more[k], rs[k]) {
      assert more[k] == ts[k];
    }
  }

  lemma PointwiseConcat<T, R>(P: (T, R) -> bool, ts: seq<T>, more: seq<T>, rs: seq<R>, qs: seq<R>)
    requires Pointwise(P, ts, rs) && |rs| == |ts| && Pointwise(P, more, qs)
    ensures Pointwise(P, ts + more, rs + qs)
  {
    forall k | 0 <= k < |rs + qs| ensures P((ts + more)[k], (rs + qs)[k]) {
      if k < |rs| {
        assert (rs + qs)[k] == rs[k] && (ts + more)[k] == ts[k];
      } else {
        assert (rs + qs)[k] == qs[k - |rs|] && (ts + more)[k] == more[k - |rs|];
      }
    }
  }

  /** Only the last entry failed, and only if `failed`. */
  predicate StopsAtFailure(rs: seq<BlockResult>, failed: bool)
  {
    forall k :: 0 <= k < |rs| ==> (rs[k].Err? <==> failed && k == |rs| - 1)
  }

  /**
   * The inner loop of `analyze` over the blocks of one chapter: it stops at the first
   * failure and returns it, otherwise it returns every block's errors.
   */
  method AnalyzeBlocks(parse: string -> Option<SyntaxIssue>, llm: Task -> Option<string>,
                       decode: string -> Option<CodeReply>, tasks: seq<Task>)
    returns (r: Result<seq<CodeError>, Failure>, ghost perBlock: seq<BlockResult>)
    ensures Pointwise(BlockSpec(parse, llm, decode), tasks, perBlock) && StopsAtFailure(perBlock, r.Err?)
    ensures r.Ok? ==> |perBlock| == |tasks| && r.value == Oks(perBlock)
    ensures r.Err? ==> (|perBlock| > 0 && perBlock[|perBlock| - 1] == Err(r.error)
      && r.error in {LlmError, JsonError, IndexError})
  {
    ghost var P := BlockSpec(parse, llm, decode);
    var errors: seq<CodeError> := [];
    perBlock := [];
    var j := 0;
    while j < |tasks|
      invariant j <= |tasks| && |perBlock| == j
      invariant Pointwise(P, tasks, perBlock) && StopsAtFailure(perBlock, false)
      invariant errors == Oks(perBlock)
    {
      var res := AnalyzeBlock(parse, llm, decode, tasks[j]);
      assert P(tasks[j], res);
      PointwiseSnoc(P, tasks, perBlock, res);
      ghost var visited := perBlock;
      perBlock := perBlock + [res];
      assert perBlock[..j] == visited;
      if res.Err? {
        assert StopsAtFailure(perBlock, true) by {
          forall k | 0 <= k < |perBlock| ensures perBlock[k].Err? <==> k == j {
            if k < j {
              assert perBlock[k] == visited[k];
            }
          }
        }
        return Err(res.error), perBlock;
      }
      assert StopsAtFailure(perBlock, false) by {
        forall k | 0 <= k < |perBlock| ensures perBlock[k].Ok? {
          if k < j {
            assert perBlock[k] == visited[k];
          }
        }
      }
      errors := errors + res.value;
      j := j + 1;
    }
    r := Ok(errors);
  }

  /** The results of one more chapter, appended to those of the chapters before it. */
  lemma ChapterStep(P: (Task, BlockResult) -> bool, done: seq<Task>, tasks: seq<Task>,
                    visited: seq<BlockResult>, chunk: seq<BlockResult>, failed: bool)
    requires Pointwise(P, done, visited) && |visited| == |done| && StopsAtFailure(visited, false)
    requires Pointwise(P, tasks, chunk) && StopsAtFailure(chunk, failed) && (failed ==> |chunk| > 0)
    ensures Pointwise(P, done + tasks, visited + chunk) && StopsAtFailure(visited + chunk, failed)
    ensures Oks(visited + chunk) == Oks(visited) + Oks(chunk)
  {
    PointwiseConcat(P, done, tasks, visited, chunk);
    OksConcat(visited, chunk);
    forall k | 0 <= k < |visited + chunk| ensures (visited + chunk)[k].Err? <==> failed && k == |visited + chunk| - 1 {
      if k < |visited| {
        assert (visited + chunk)[k] == visited[k];
      } else {
        assert (visited + chunk)[k] == chunk[k - |visited|];
      }
    }
  }

  /** One pass of the outer loop of `analyze`: the blocks of a chapter, then their analysis. */
  method AnalyzeChapter(fencedOf: string -> seq<FencedMatch>, indentedOf: string -> seq<IndentedMatch>,
                        parse: string -> Option<SyntaxIssue>, llm: Task -> Option<string>,
                        decode: string -> Option<CodeReply>, c: Chapters.Chapter)
    returns (r: Result<seq<CodeError>, Failure>, ghost perBlock: seq<BlockResult>)
    ensures Pointwise(BlockSpec(parse, llm, decode), ChapterTasks(fencedOf, indentedOf, c), perBlock)
    ensures StopsAtFailure(perBlock, r.Err?)
    ensures r.Ok? ==> |perBlock| == |ChapterTasks(fencedOf, indentedOf, c)| && r.value == Oks(perBlock)
    ensures r.Err? ==> (|perBlock| > 0 && perBlock[|perBlock| - 1] == Err(r.error)
      && r.error in {LlmError, JsonError, IndexError})
  {
    var blocks := ExtractCodeBlocks(Chapters.GetId(c), fencedOf(c.text), indentedOf(c.text));
    var tasks := seq(|blocks|, k requires 0 <= k < |blocks| => Task(blocks[k], Take(c.text, 1000)));
    assert tasks == ChapterTasks(fencedOf, indentedOf, c);
    r, perBlock := AnalyzeBlocks(parse, llm, decode, tasks);
  }

  /**
   * `analyze`. `fencedOf` and `indentedOf` stand for the two block patterns, `parse` for
   * `ast.parse`, `llm` for the model's reply to the prompt for a block (`None` when the
   * call raises). `perBlock` is what each visited block yielded: the run stops at the
   * first failure and returns it; otherwise every block is visited and the result holds
   * all their errors.
   */
  method Analyze(fencedOf: string -> seq<FencedMatch>, indentedOf: string -> seq<IndentedMatch>,
                 parse: string -> Option<SyntaxIssue>, llm: Task -> Option<string>,
                 decode: string -> Option<CodeReply>, chapters: seq<Chapters.Chapter>)
    returns (r: Result<AnalysisResult, Failure>, ghost perBlock: seq<BlockResult>)
    ensures Pointwise(BlockSpec(parse, llm, decode), Tasks(fencedOf, indentedOf, chapters), perBlock)
    ensures StopsAtFailure(perBlock, r.Err?)
    ensures r.Ok? ==> |perBlock| == |Tasks(fencedOf, indentedOf, chapters)| && r.value == Summarize(Oks(perBlock))
    ensures r.Err? ==> (|perBlock| > 0 && perBlock[|perBlock| - 1] == Err(r.error)
      && r.error in {LlmError, JsonError, IndexError})
  {
    ghost var P := BlockSpec(parse, llm, decode);
    var errors: seq<CodeError> := [];
    perBlock := [];
    var i := 0;
    while i < |chapters|
      invariant i <= |chapters|
      invariant |perBlock| == |Tasks(fencedOf, indentedOf, chapters[..i])|
      invariant Pointwise(P, Tasks(fencedOf, indentedOf, chapters[..i]), perBlock) && StopsAtFailure(perBlock, false)
      invariant errors == Oks(perBlock)
    {
      var res, chunk := AnalyzeChapter(fencedOf, indentedOf, parse, llm, decode, chapters[i]);
      ghost var done := Tasks(fencedOf, indentedOf, chapters[..i]);
      ghost var tasks := ChapterTasks(fencedOf, indentedOf, chapters[i]);
      TasksNext(fencedOf, indentedOf, chapters, i);
      ChapterStep(P, done, tasks, perBlock, chunk, res.Err?);
      perBlock := perBlock + chunk;
      if res.Err? {
        TasksPrefix(fencedOf, indentedOf, chapters, i + 1);
        PointwisePrefix(P, done + tasks, Tasks(fencedOf, indentedOf, chapters), perBlock);
        r := Err(res.error);
        return;
      }
      errors := errors + res.value;
      i := i + 1;
    }
    assert chapters[..i] == chapters;
    r := Ok(Summarize(errors));
  }
}
