/**
 * Chapter extraction of the first pipeline (`PDFChapterExtractor` in rag_pdf_checker_v1.py).
 * Pages are numbered from 1 here. `re.search(CHAPTER_PATTERNS[p], line, re.IGNORECASE)` is
 * the parameter `search`: the text of the first group, or `None` when pattern `p` is absent
 * from `line`. Every one of the six patterns has a group, so the fallback numbering of the
 * source (used only when a match has no group) never applies and is not modelled.
 */
module ChaptersV1 {
  import opened Wrappers
  import opened Strings

  type Search = (nat, string) -> Option<string>

  /** Number of entries in `CHAPTER_PATTERNS`. */
  const StartPatterns: nat := 6
  const ScanLines: nat := 10
  /** The title is made of the first lines of the content, cut to a maximum length. */
  const TitleLines: nat := 3
  const TitleLength: nat := 100

  datatype Chapter = Chapter(
    pdfName: string,
    number: string,
    title: string,
    content: string,
    pageStart: nat,
    pageEnd: nat)

  /** `Chapter.get_id`: PDF name, chapter number and the first eight characters of the content's MD5 digest. */
  function GetId(c: Chapter, md5: string -> string): string
  {
    c.pdfName + "_" + c.number + "_" + Take(md5(c.content), 8)
  }

  /** A chapter start: 1-based page number and the captured chapter number. */
  datatype Start = Start(page: nat, number: string)

  /** The first pattern, from `p` on, that matches `line`. */
  function LineStart(line: string, search: Search, p: nat): Option<string>
    decreases StartPatterns - p
  {
    if p >= StartPatterns then None
    else match search(p, line)
      case Some(n) => Some(n)
      case None => LineStart(line, search, p + 1)
  }

  function FirstStart(lines: seq<string>, search: Search): Option<string>
  {
    if |lines| == 0 then None
    else match LineStart(lines[0], search, 0)
      case Some(n) => Some(n)
      case None => FirstStart(lines[1..], search)
  }

  /** The chapter number a page opens with, if any: the first hit in its first lines. */
  function PageStart(text: string, search: Search): Option<string>
  {
    FirstStart(Take(Split(text, '\n'), ScanLines), search)
  }

  predicate ValidStarts(starts: seq<Start>, pageCount: nat)
  {
    (forall a, b :: 0 <= a < b < |starts| ==> starts[a].page < starts[b].page)
    && forall c :: 0 <= c < |starts| ==> 1 <= starts[c].page <= pageCount
  }

  /** Every page that opens a chapter, in page order, at most one start per page. */
  function Starts(pages: seq<string>, search: Search): (r: seq<Start>)
    ensures ValidStarts(r, |pages|)
    ensures forall c :: 0 <= c < |r| ==> PageStart(pages[r[c].page - 1], search) == Some(r[c].number)
  {
    if |pages| == 0 then []
    else
      var n := |pages| - 1;
      var prev := Starts(pages[..n], search);
      assert forall c :: 0 <= c < |prev| ==> pages[..n][prev[c].page - 1] == pages[prev[c].page - 1];
      match PageStart(pages[n], search)
      case Some(num) => prev + [Start(n + 1, num)]
      case None => prev
  }

  /** Every page that carries a marker is listed. */
  lemma {:induction false} StartsIndex(pages: seq<string>, search: Search, k: nat) returns (c: nat)
    requires k < |pages| && PageStart(pages[k], search).Some?
    ensures c < |Starts(pages, search)| && Starts(pages, search)[c].page == k + 1
    decreases |pages|
  {
    var n := |pages| - 1;
    if k == n {
      c := |Starts(pages[..n], search)|;
    } else {
      assert pages[..n][k] == pages[k];
      c := StartsIndex(pages[..n], search, k);
    }
  }

  lemma {:induction false} StartsSnoc(pages: seq<string>, search: Search, k: nat)
    requires k < |pages|
    ensures Starts(pages[..k + 1], search) == Starts(pages[..k], search)
      + match PageStart(pages[k], search) case Some(num) => [Start(k + 1, num)] case None => []
  {
    assert pages[..k + 1][..k] == pages[..k];
  }

  /** `_find_chapter_starts`: each page's first lines against every pattern, stopping at the first hit. */
  method FindChapterStarts(pages: seq<string>, search: Search) returns (starts: seq<Start>)
    ensures starts == Starts(pages, search)
  {
    starts := [];
    var k := 0;
    while k < |pages|
      invariant 0 <= k <= |pages|
      invariant starts == Starts(pages[..k], search)
    {
      var lines := Take(Split(pages[k], '\n'), ScanLines);
      var hit: Option<string> := None;
      var i := 0;
      label scan: while i < |lines|
        invariant 0 <= i <= |lines|
        invariant hit.None?
        invariant FirstStart(lines[i..], search) == FirstStart(lines, search)
      {
        var p := 0;
        while p < StartPatterns
          invariant 0 <= p <= StartPatterns
          invariant hit.None?
          invariant LineStart(lines[i], search, p) == LineStart(lines[i], search, 0)
        {
          var m := search(p, lines[i]);
          if m.Some? {
            hit := m;
            assert hit == FirstStart(lines, search);
            break scan;
          }
          p := p + 1;
        }
        assert lines[i..][1..] == lines[i + 1..];
        i := i + 1;
      }
      assert hit == PageStart(pages[k], search);
      StartsSnoc(pages, search, k);
      if hit.Some? {
        starts := starts + [Start(k + 1, hit.value)];
      }
      k := k + 1;
    }
    assert pages[..k] == pages;
  }

  /** The title: the first three lines joined by spaces, stripped, cut to 100 characters. */
  function Title(content: string): (r: string)
    ensures |r| <= TitleLength
  {
    Take(Strip(Join(Take(Split(content, '\n'), TitleLines), " ")), TitleLength)
  }

  /** Chapter `i`: from its start page to the page before the next start, or to the last page. */
  function ChapterFrom(pdfName: string, pages: seq<string>, starts: seq<Start>, i: nat): Chapter
    requires ValidStarts(starts, |pages|) && i < |starts|
  {
    var page := starts[i].page;
    var end := if i + 1 < |starts| then starts[i + 1].page - 1 else |pages|;
    var content := Join(pages[page - 1..end], "\n");
    Chapter(pdfName, starts[i].number, Title(content), content, page, end)
  }

  /** One chapter per start, in order. */
  function Cut(pdfName: string, pages: seq<string>, starts: seq<Start>): (r: seq<Chapter>)
    requires ValidStarts(starts, |pages|)
    ensures |r| == |starts|
    ensures forall i :: 0 <= i < |starts| ==> r[i] == ChapterFrom(pdfName, pages, starts, i)
  {
    seq(|starts|, i requires 0 <= i < |starts| => ChapterFrom(pdfName, pages, starts, i))
  }

  /**
   * What `extract_chapters` returns: nothing when the PDF cannot be read (`None`),
   * otherwise one chapter per start.
   */
  function Extract(pdfName: string, pdf: Option<seq<string>>, search: Search): seq<Chapter>
  {
    match pdf
    case None => []
    case Some(pages) =>
      var starts := Starts(pages, search);
      Cut(pdfName, pages, starts)
  }

  /** `extract_chapters`: find the starts, then cut the pages at them. */
  method ExtractChapters(pdfName: string, pdf: Option<seq<string>>, search: Search) returns (chapters: seq<Chapter>)
    ensures chapters == Extract(pdfName, pdf, search)
  {
    chapters := [];
    if pdf.None? {
      return;
    }
    var pages := pdf.value;
    var starts := FindChapterStarts(pages, search);
    chapters := CutChapters(pdfName, pages, starts);
  }

  /** The inner loop of `extract_chapters`: the texts of the pages with 0-based index in [first, end). */
  method CollectPages(pages: seq<string>, first: nat, end: nat) returns (chapterContent: seq<string>)
    requires first <= end <= |pages|
    ensures chapterContent == pages[first..end]
  {
    chapterContent := [];
    var pageIdx := first;
    while pageIdx < end
      invariant first <= pageIdx <= end
      invariant chapterContent == pages[first..pageIdx]
    {
      assert pages[first..pageIdx + 1] == pages[first..pageIdx] + [pages[pageIdx]];
      if pageIdx < |pages| {
        chapterContent := chapterContent + [pages[pageIdx]];
      }
      pageIdx := pageIdx + 1;
    }
  }

  /** The loop of `extract_chapters` over the starts: each chapter's pages, content and title. */
  method CutChapters(pdfName: string, pages: seq<string>, starts: seq<Start>) returns (chapters: seq<Chapter>)
    requires ValidStarts(starts, |pages|)
    ensures chapters == Cut(pdfName, pages, starts)
  {
    chapters := [];
    var i := 0;
    while i < |starts|
      invariant 0 <= i <= |starts|
      invariant |chapters| == i
      invariant forall j :: 0 <= j < i ==> chapters[j] == ChapterFrom(pdfName, pages, starts, j)
    {
      var page := starts[i].page;
      var endPage := if i + 1 < |starts| then starts[i + 1].page - 1 else |pages|;
      var chapterContent := CollectPages(pages, page - 1, endPage);
      var content := Join(chapterContent, "\n");
      var title := Title(content);
      ghost var prev := chapters;
      chapters := chapters + [Chapter(pdfName, starts[i].number, title, content, page, endPage)];
      assert chapters[i] == ChapterFrom(pdfName, pages, starts, i);
      assert forall j :: 0 <= j < i ==> chapters[j] == prev[j];
      i := i + 1;
    }
    assert chapters == Cut(pdfName, pages, starts);
  }

  /** Unreadable PDFs yield no chapters. */
  lemma {:induction false} UnreadableIsEmpty(pdfName: string, search: Search)
    ensures Extract(pdfName, None, search) == []
  {
  }

  /** Chapter `i` spans its start page to the page before the next start, or to the last page. */
  lemma {:induction false} ChapterFromShape(pdfName: string, pages: seq<string>, starts: seq<Start>, i: nat)
    requires ValidStarts(starts, |pages|) && i < |starts|
    ensures var c := ChapterFrom(pdfName, pages, starts, i);
      c.pageStart == starts[i].page && c.number == starts[i].number && c.pdfName == pdfName
      && c.pageStart <= c.pageEnd <= |pages|
      && c.pageEnd == (if i + 1 < |starts| then starts[i + 1].page - 1 else |pages|)
      && c.content == Join(pages[c.pageStart - 1..c.pageEnd], "\n")
  {
  }

  /** Chapter c of the result: where it lies, what opens it, what it holds and what follows it. */
  lemma {:induction false} ExtractAt(pdfName: string, pages: seq<string>, search: Search, c: nat)
    requires c < |Extract(pdfName, Some(pages), search)|
    ensures var r := Extract(pdfName, Some(pages), search);
      1 <= r[c].pageStart <= r[c].pageEnd <= |pages|
      && PageStart(pages[r[c].pageStart - 1], search) == Some(r[c].number)
      && r[c].content == Join(pages[r[c].pageStart - 1..r[c].pageEnd], "\n")
      && r[c].pdfName == pdfName
      && (c < |r| - 1 ==> r[c].pageEnd + 1 == r[c + 1].pageStart)
      && (c == |r| - 1 ==> r[c].pageEnd == |pages|)
  {
    var starts := Starts(pages, search);
    ChapterFromShape(pdfName, pages, starts, c);
    if c + 1 < |starts| {
      ChapterFromShape(pdfName, pages, starts, c + 1);
    }
  }

  /**
   * The chapters tile the pages from the first start to the last page, each begins on a
   * page that carries its number, and its content is its pages joined by newlines.
   */
  lemma {:induction false} ExtractTiles(pdfName: string, pages: seq<string>, search: Search)
    ensures var r := Extract(pdfName, Some(pages), search);
      (forall c :: 0 <= c < |r| ==>
        1 <= r[c].pageStart <= r[c].pageEnd <= |pages|
        && PageStart(pages[r[c].pageStart - 1], search) == Some(r[c].number)
        && r[c].content == Join(pages[r[c].pageStart - 1..r[c].pageEnd], "\n")
        && r[c].pdfName == pdfName)
      && (forall c :: 0 <= c < |r| - 1 ==> r[c].pageEnd + 1 == r[c + 1].pageStart)
      && (|r| > 0 ==> r[|r| - 1].pageEnd == |pages|)
  {
    var r := Extract(pdfName, Some(pages), search);
    forall c | 0 <= c < |r|
      ensures 1 <= r[c].pageStart <= r[c].pageEnd <= |pages|
      ensures PageStart(pages[r[c].pageStart - 1], search) == Some(r[c].number)
      ensures r[c].content == Join(pages[r[c].pageStart - 1..r[c].pageEnd], "\n")
      ensures r[c].pdfName == pdfName
      ensures c < |r| - 1 ==> r[c].pageEnd + 1 == r[c + 1].pageStart
      ensures c == |r| - 1 ==> r[c].pageEnd == |pages|
    {
      ExtractAt(pdfName, pages, search, c);
    }
  }

  /** Every page that carries a chapter marker opens a chapter. */
  lemma {:induction false} MarkedPageOpensChapter(pdfName: string, pages: seq<string>, search: Search, k: nat)
    requires k < |pages| && PageStart(pages[k], search).Some?
    ensures exists c :: (0 <= c < |Extract(pdfName, Some(pages), search)|
      && Extract(pdfName, Some(pages), search)[c].pageStart == k + 1)
  {
    var starts := Starts(pages, search);
    var c := StartsIndex(pages, search, k);
    var r := Cut(pdfName, pages, starts);
    assert r == Extract(pdfName, Some(pages), search);
    assert r[c].pageStart == k + 1;
  }
}
