/**
 * Chapter extraction of the current pipeline (`PDFChapterExtractor` in
 * rag_pdf_checker.py). A PDF is the sequence of its page texts (page 0 first, a page
 * without text being ""); its file name and hash are given. `re.search` with the four
 * chapter patterns is the parameter `search`: `search(p, line)` is the integer the
 * first group of pattern `p` captures in `line`, or `None` when the pattern is absent.
 */
module Chapters {
  import opened Wrappers
  import opened Strings

  type Search = (nat, string) -> Option<nat>

  /** Number of entries in `CHAPTER_PATTERNS`. */
  const MarkerPatterns: nat := 4
  /** Only the first lines of a page are searched for a marker. */
  const ScanLines: nat := 10

  /** The `Chapter` record. */
  datatype Chapter = Chapter(
    fileName: string,
    fileHash: string,
    number: nat,
    title: string,
    text: string,
    pageStart: nat,
    pageEnd: nat)

  /** `Chapter.get_id`: the first eight characters of the file hash, "_", the chapter number. */
  function GetId(c: Chapter): string
  {
    Take(c.fileHash, 8) + "_" + NatToString(c.number)
  }

  /**
   * Distinct chapters get distinct IDs exactly when their hash prefixes or their numbers
   * differ: two chapters of one PDF with the same number share an ID.
   */
  lemma {:induction false} GetIdInjective(c1: Chapter, c2: Chapter)
    requires '_' !in Take(c1.fileHash, 8) && '_' !in Take(c2.fileHash, 8)
    ensures GetId(c1) == GetId(c2) <==>
      Take(c1.fileHash, 8) == Take(c2.fileHash, 8) && c1.number == c2.number
  {
    if GetId(c1) == GetId(c2) {
      var h1, h2 := Take(c1.fileHash, 8), Take(c2.fileHash, 8);
      var n1, n2 := NatToString(c1.number), NatToString(c2.number);
      assert GetId(c1) == h1 + ['_'] + n1 && GetId(c2) == h2 + ['_'] + n2;
      assert '_' !in n1 by { assert forall k :: 0 <= k < |n1| ==> IsDigit(n1[k]); }
      assert '_' !in n2 by { assert forall k :: 0 <= k < |n2| ==> IsDigit(n2[k]); }
      SplitConcat(h1, n1, '_');
      SplitConcat(h2, n2, '_');
      SplitNoSep(n1, '_');
      SplitNoSep(n2, '_');
      assert Split(GetId(c1), '_') == [h1, n1];
      assert Split(GetId(c2), '_') == [h2, n2];
      NatToStringInjective(c1.number, c2.number);
    }
  }

  /** What `_find_chapter_marker` returns: the chapter number and the stripped line. */
  datatype Marker = Marker(number: nat, title: string)

  /** The first pattern, from `p` on, that matches `line`. */
  function LineMarker(line: string, search: Search, p: nat): Option<Marker>
    decreases MarkerPatterns - p
  {
    if p >= MarkerPatterns then None
    else match search(p, line)
      case Some(n) => Some(Marker(n, Strip(line)))
      case None => LineMarker(line, search, p + 1)
  }

  /** Lines are tried in order, and within a line the patterns in order. */
  function FirstMarker(lines: seq<string>, search: Search): Option<Marker>
  {
    if |lines| == 0 then None
    else match LineMarker(lines[0], search, 0)
      case Some(m) => Some(m)
      case None => FirstMarker(lines[1..], search)
  }

  /** The lines of a page that are searched. */
  function ScannedLines(text: string): seq<string>
  {
    Take(Split(text, '\n'), ScanLines)
  }

  /** The marker of a page, if it has one. */
  function PageMarker(text: string, search: Search): Option<Marker>
  {
    FirstMarker(ScannedLines(text), search)
  }

  predicate Hit(search: Search, p: nat, line: string)
  {
    search(p, line).Some?
  }

  /** Pattern `p` on line `i` is the first hit in line-major, pattern-minor order. */
  predicate EarliestHit(lines: seq<string>, search: Search, i: nat, p: nat)
  {
    i < |lines| && p < MarkerPatterns && Hit(search, p, lines[i])
    && (forall i', p' :: 0 <= i' < i && 0 <= p' < MarkerPatterns ==> !Hit(search, p', lines[i']))
    && (forall p' :: 0 <= p' < p ==> !Hit(search, p', lines[i]))
  }

  /** A line on which none of the remaining patterns matches yields no marker. */
  lemma {:induction false} NoHitNoMarker(line: string, search: Search, p: nat)
    requires forall q :: p <= q < MarkerPatterns ==> !Hit(search, q, line)
    ensures LineMarker(line, search, p).None?
    decreases MarkerPatterns - p
  {
    if p < MarkerPatterns {
      assert !Hit(search, p, line);
      NoHitNoMarker(line, search, p + 1);
    }
  }

  /** A line that yields no marker is matched by none of the remaining patterns. */
  lemma {:induction false} NoMarkerNoHit(line: string, search: Search, p: nat, q: nat)
    requires LineMarker(line, search, p).None? && p <= q < MarkerPatterns
    ensures !Hit(search, q, line)
    decreases q - p
  {
    assert search(p, line).None?;
    if p < q {
      NoMarkerNoHit(line, search, p + 1, q);
    }
  }

  /** A line yields no marker iff none of the remaining patterns matches it. */
  lemma {:induction false} LineMarkerNone(line: string, search: Search, p: nat)
    ensures LineMarker(line, search, p).None? <==>
      forall q :: p <= q < MarkerPatterns ==> !Hit(search, q, line)
  {
    if LineMarker(line, search, p).None? {
      forall q | p <= q < MarkerPatterns ensures !Hit(search, q, line) {
        NoMarkerNoHit(line, search, p, q);
      }
    } else if forall q :: p <= q < MarkerPatterns ==> !Hit(search, q, line) {
      NoHitNoMarker(line, search, p);
    }
  }

  /** When a line yields a marker, it comes from the first matching pattern. */
  lemma {:induction false} LineMarkerEarliest(line: string, search: Search, p: nat) returns (q: nat)
    requires LineMarker(line, search, p).Some?
    ensures p <= q < MarkerPatterns && Hit(search, q, line)
    ensures forall q' :: p <= q' < q ==> !Hit(search, q', line)
    ensures LineMarker(line, search, p) == Some(Marker(search(q, line).value, Strip(line)))
    decreases MarkerPatterns - p
  {
    if search(p, line).Some? {
      q := p;
    } else {
      q := LineMarkerEarliest(line, search, p + 1);
    }
  }

  /** A page has no marker iff no pattern matches any scanned line. */
  lemma {:induction false} FirstMarkerNone(lines: seq<string>, search: Search)
    ensures FirstMarker(lines, search).None? <==>
      forall i: nat, p: nat :: i < |lines| && p < MarkerPatterns ==> !Hit(search, p, lines[i])
    decreases |lines|
  {
    if |lines| > 0 {
      LineMarkerNone(lines[0], search, 0);
      FirstMarkerNone(lines[1..], search);
      if LineMarker(lines[0], search, 0).None? {
        forall i: nat, p: nat | 1 <= i < |lines| && p < MarkerPatterns
          ensures Hit(search, p, lines[i]) == Hit(search, p, lines[1..][i - 1])
        {
          assert lines[i] == lines[1..][i - 1];
        }
        if FirstMarker(lines, search).Some? {
          var i: nat, p: nat :| i < |lines[1..]| && p < MarkerPatterns && Hit(search, p, lines[1..][i]);
          assert Hit(search, p, lines[i + 1]);
        }
      }
    }
  }

  /** Otherwise the marker is the number captured by the earliest hit and that line, stripped. */
  lemma {:induction false} FirstMarkerIsEarliest(lines: seq<string>, search: Search) returns (i: nat, p: nat)
    requires FirstMarker(lines, search).Some?
    ensures EarliestHit(lines, search, i, p)
    ensures FirstMarker(lines, search) == Some(Marker(search(p, lines[i]).value, Strip(lines[i])))
    decreases |lines|
  {
    if LineMarker(lines[0], search, 0).Some? {
      i := 0;
      p := LineMarkerEarliest(lines[0], search, 0);
    } else {
      LineMarkerNone(lines[0], search, 0);
      var rest := lines[1..];
      var j;
      j, p := FirstMarkerIsEarliest(rest, search);
      i := j + 1;
      assert lines[i] == rest[j];
      forall i': nat, p': nat | i' < i && p' < MarkerPatterns ensures !Hit(search, p', lines[i']) {
        if i' > 0 {
          assert lines[i'] == rest[i' - 1];
        }
      }
    }
  }

  /** `_find_chapter_marker`: scan the first lines of a page, each against every pattern. */
  method FindChapterMarker(text: string, search: Search) returns (r: Option<Marker>)
    ensures r == PageMarker(text, search)
  {
    var lines := ScannedLines(text);
    var i := 0;
    while i < |lines|
      invariant 0 <= i <= |lines|
      invariant FirstMarker(lines[i..], search) == FirstMarker(lines, search)
    {
      var p := 0;
      while p < MarkerPatterns
        invariant 0 <= p <= MarkerPatterns
        invariant LineMarker(lines[i], search, p) == LineMarker(lines[i], search, 0)
      {
        var hit := search(p, lines[i]);
        if hit.Some? {
          return Some(Marker(hit.value, Strip(lines[i])));
        }
        p := p + 1;
      }
      assert lines[i..][1..] == lines[i + 1..];
      i := i + 1;
    }
    return None;
  }

  /** The marker of every page. */
  function Marks(pages: seq<string>, search: Search): (r: seq<Option<Marker>>)
    ensures |r| == |pages|
  {
    seq(|pages|, k requires 0 <= k < |pages| => PageMarker(pages[k], search))
  }

  /** Strictly ascending, one neighbour pair at a time; `IncreasingAt` gives any two positions. */
  predicate Increasing(s: seq<nat>)
    decreases |s|
  {
    |s| <= 1 || (Increasing(s[..|s| - 1]) && s[|s| - 2] < s[|s| - 1])
  }

  lemma {:induction false} IncreasingAt(s: seq<nat>, a: nat, b: nat)
    requires Increasing(s) && a < b < |s|
    ensures s[a] < s[b]
    decreases |s|
  {
    var n := |s| - 1;
    if b < n {
      IncreasingAt(s[..n], a, b);
    } else if a < n - 1 {
      IncreasingAt(s[..n], a, n - 1);
    }
  }

  lemma {:induction false} IncreasingSnoc(s: seq<nat>, k: nat)
    requires Increasing(s) && (|s| > 0 ==> s[|s| - 1] < k)
    ensures Increasing(s + [k])
  {
    assert (s + [k])[..|s|] == s;
  }

  /** The pages that carry a marker, ascending: where chapters start. */
  function MarkedPages(marks: seq<Option<Marker>>): (r: seq<nat>)
    ensures Increasing(r)
    ensures forall c :: 0 <= c < |r| ==> r[c] < |marks| && marks[r[c]].Some?
  {
    if |marks| == 0 then []
    else
      var k := |marks| - 1;
      var prev := MarkedPages(marks[..k]);
      assert forall c :: 0 <= c < |prev| ==> marks[prev[c]] == marks[..k][prev[c]];
      if marks[k].Some? then IncreasingSnoc(prev, k); prev + [k] else prev
  }

  /** Every marked page is listed: the position where it is. */
  lemma {:induction false} MarkedPagesIndex(marks: seq<Option<Marker>>, k: nat) returns (c: nat)
    requires k < |marks| && marks[k].Some?
    ensures c < |MarkedPages(marks)| && MarkedPages(marks)[c] == k
    decreases |marks|
  {
    var n := |marks| - 1;
    var prev := MarkedPages(marks[..n]);
    if k == n {
      c := |prev|;
    } else {
      c := MarkedPagesIndex(marks[..n], k);
    }
  }

  lemma {:induction false} MarkedPagesSnoc(marks: seq<Option<Marker>>, k: nat)
    requires k < |marks|
    ensures MarkedPages(marks[..k + 1])
      == MarkedPages(marks[..k]) + (if marks[k].Some? then [k] else [])
  {
    assert marks[..k + 1][..k] == marks[..k];
  }

  /** The chapter that starts at page `start` with `marker` and ends at page `end`. */
  function MakeChapter(fileName: string, fileHash: string, pages: seq<string>, marker: Marker,
                       start: nat, end: nat): Chapter
    requires start <= end < |pages|
  {
    Chapter(fileName, fileHash, marker.number, marker.title, Join(pages[start..end + 1], "\n"), start, end)
  }

  predicate ValidStarts(marks: seq<Option<Marker>>, starts: seq<nat>)
  {
    Increasing(starts) && forall c :: 0 <= c < |starts| ==> starts[c] < |marks| && marks[starts[c]].Some?
  }

  /** The chapters that a later start has closed: each ends on the page before the next start. */
  function Closed(fileName: string, fileHash: string, pages: seq<string>,
                  marks: seq<Option<Marker>>, starts: seq<nat>): (r: seq<Chapter>)
    requires |marks| == |pages| && ValidStarts(marks, starts)
    ensures |r| == if |starts| == 0 then 0 else |starts| - 1
  {
    seq(if |starts| == 0 then 0 else |starts| - 1,
        c requires 0 <= c < |starts| - 1 =>
          IncreasingAt(starts, c, c + 1);
          MakeChapter(fileName, fileHash, pages, marks[starts[c]].value, starts[c], starts[c + 1] - 1))
  }

  /** Closed chapter `c` runs from start `c` to the page before start `c + 1`. */
  lemma {:induction false} ClosedAt(fileName: string, fileHash: string, pages: seq<string>,
                                    marks: seq<Option<Marker>>, starts: seq<nat>, c: nat)
    requires |marks| == |pages| && ValidStarts(marks, starts) && c + 1 < |starts|
    ensures starts[c] < starts[c + 1] <= |pages|
    ensures Closed(fileName, fileHash, pages, marks, starts)[c]
      == MakeChapter(fileName, fileHash, pages, marks[starts[c]].value, starts[c], starts[c + 1] - 1)
  {
    IncreasingAt(starts, c, c + 1);
  }

  /**
   * What `extract_chapters` returns for pages with the given markers: one chapter per
   * marked page, in page order, running to the page before the next marked page, the
   * last one to the last page.
   */
  function ExtractFrom(fileName: string, fileHash: string, pages: seq<string>,
                       marks: seq<Option<Marker>>): (r: seq<Chapter>)
    requires |marks| == |pages|
    ensures |r| == |MarkedPages(marks)|
  {
    var starts := MarkedPages(marks);
    seq(|starts|, c requires 0 <= c < |starts| =>
      MakeChapter(fileName, fileHash, pages, marks[starts[c]].value, starts[c], ChapterEnd(starts, c, |pages|)))
  }

  /** The last page of chapter `c`: the page before the next start, or the last page. */
  function ChapterEnd(starts: seq<nat>, c: nat, pageCount: nat): (end: nat)
    requires Increasing(starts) && c < |starts| && starts[|starts| - 1] < pageCount
    ensures starts[c] <= end < pageCount
    ensures c + 1 < |starts| ==> end + 1 == starts[c + 1]
    ensures c + 1 == |starts| ==> end + 1 == pageCount
  {
    if c + 1 < |starts| then
      IncreasingAt(starts, c, c + 1);
      if c + 1 < |starts| - 1 then IncreasingAt(starts, c + 1, |starts| - 1); starts[c + 1] - 1
      else starts[c + 1] - 1
    else pageCount - 1
  }

  /** The extracted chapters are the closed ones and the last one, which runs to the last page. */
  lemma {:induction false} ExtractFromClosed(fileName: string, fileHash: string, pages: seq<string>, marks: seq<Option<Marker>>)
    requires |marks| == |pages| && |MarkedPages(marks)| > 0
    ensures var starts := MarkedPages(marks);
      var last := starts[|starts| - 1];
      ExtractFrom(fileName, fileHash, pages, marks)
        == Closed(fileName, fileHash, pages, marks, starts)
          + [MakeChapter(fileName, fileHash, pages, marks[last].value, last, |pages| - 1)]
  {
    var starts := MarkedPages(marks);
    var last := starts[|starts| - 1];
    var r := ExtractFrom(fileName, fileHash, pages, marks);
    var closed := Closed(fileName, fileHash, pages, marks, starts);
    var t := closed + [MakeChapter(fileName, fileHash, pages, marks[last].value, last, |pages| - 1)];
    forall c | 0 <= c < |r| ensures r[c] == t[c] {
      if c + 1 < |starts| {
        ClosedAt(fileName, fileHash, pages, marks, starts, c);
      }
    }
  }

  /** `extract_chapters`: the chapters of the pages whose markers `Marks` finds. */
  function Extract(fileName: string, fileHash: string, pages: seq<string>, search: Search): seq<Chapter>
  {
    ExtractFrom(fileName, fileHash, pages, Marks(pages, search))
  }

  lemma {:induction false} ValidStartsSnoc(marks: seq<Option<Marker>>, starts: seq<nat>, k: nat)
    requires ValidStarts(marks, starts) && |starts| > 0
    requires k < |marks| && marks[k].Some? && starts[|starts| - 1] < k
    ensures ValidStarts(marks, starts + [k])
  {
    IncreasingSnoc(starts, k);
  }

  lemma {:induction false} ClosedSnoc(fileName: string, fileHash: string, pages: seq<string>,
                   marks: seq<Option<Marker>>, starts: seq<nat>, k: nat)
    requires |marks| == |pages| && ValidStarts(marks, starts) && |starts| > 0
    requires k < |pages| && marks[k].Some? && starts[|starts| - 1] < k
    ensures ValidStarts(marks, starts + [k])
    ensures Closed(fileName, fileHash, pages, marks, starts + [k])
      == Closed(fileName, fileHash, pages, marks, starts)
        + [MakeChapter(fileName, fileHash, pages, marks[starts[|starts| - 1]].value, starts[|starts| - 1], k - 1)]
  {
    ValidStartsSnoc(marks, starts, k);
    assert (starts + [k])[..|starts|] == starts;
  }

  /** Chapter `c` runs from the `c`-th marked page to the page before the next one (or the last page). */
  lemma {:induction false} ExtractFromAt(fileName: string, fileHash: string, pages: seq<string>, marks: seq<Option<Marker>>, c: nat)
    requires |marks| == |pages| && c < |MarkedPages(marks)|
    ensures var starts := MarkedPages(marks);
      ExtractFrom(fileName, fileHash, pages, marks)[c]
        == MakeChapter(fileName, fileHash, pages, marks[starts[c]].value, starts[c], ChapterEnd(starts, c, |pages|))
  {
  }

  /** Chapter `c` runs from a marked page `start` to some page `end`. */
  lemma {:induction false} ExtractFromSpan(fileName: string, fileHash: string, pages: seq<string>, marks: seq<Option<Marker>>, c: nat)
    returns (start: nat, end: nat)
    requires |marks| == |pages| && c < |ExtractFrom(fileName, fileHash, pages, marks)|
    ensures start <= end < |pages| && marks[start].Some?
    ensures ExtractFrom(fileName, fileHash, pages, marks)[c]
      == MakeChapter(fileName, fileHash, pages, marks[start].value, start, end)
  {
    var starts := MarkedPages(marks);
    start, end := starts[c], ChapterEnd(starts, c, |pages|);
    ExtractFromAt(fileName, fileHash, pages, marks, c);
  }

  /** A page strictly between two consecutive marked pages, or after the last one, is not among them. */
  lemma {:induction false} NotAStart(marks: seq<Option<Marker>>, c: nat, k: nat)
    requires c < |MarkedPages(marks)| && MarkedPages(marks)[c] < k
    requires c + 1 < |MarkedPages(marks)| ==> k < MarkedPages(marks)[c + 1]
    ensures forall c' :: 0 <= c' < |MarkedPages(marks)| ==> MarkedPages(marks)[c'] != k
  {
    var starts := MarkedPages(marks);
    forall c' | 0 <= c' < |starts| ensures starts[c'] != k {
      if c' < c {
        IncreasingAt(starts, c', c);
      } else if c + 1 < c' {
        IncreasingAt(starts, c + 1, c');
      }
    }
  }

  /** No page strictly inside a chapter carries a marker. */
  lemma {:induction false} UnmarkedInside(marks: seq<Option<Marker>>, c: nat, k: nat)
    requires c < |MarkedPages(marks)| && MarkedPages(marks)[c] < k < |marks|
    requires c + 1 < |MarkedPages(marks)| ==> k < MarkedPages(marks)[c + 1]
    ensures marks[k].None?
  {
    NotAStart(marks, c, k);
    if marks[k].Some? {
      var c' := MarkedPagesIndex(marks, k);
      assert false;
    }
  }

  /**
   * Each extracted chapter belongs to the PDF it was read from, starts on a page whose
   * marker gives its number and title, and its text is its pages joined by newlines.
   */
  lemma {:induction false} ExtractFromPages(fileName: string, fileHash: string, pages: seq<string>, marks: seq<Option<Marker>>, c: nat)
    requires |marks| == |pages| && c < |ExtractFrom(fileName, fileHash, pages, marks)|
    ensures var ch := ExtractFrom(fileName, fileHash, pages, marks)[c];
      ch.fileName == fileName && ch.fileHash == fileHash
      && ch.pageStart <= ch.pageEnd < |pages|
      && marks[ch.pageStart] == Some(Marker(ch.number, ch.title))
      && ch.text == Join(pages[ch.pageStart..ch.pageEnd + 1], "\n")
  {
    var start, end := ExtractFromSpan(fileName, fileHash, pages, marks, c);
    ChapterFields(fileName, fileHash, pages, marks, ExtractFrom(fileName, fileHash, pages, marks)[c], start, end);
  }

  /** No page after the first page of a chapter, up to its last, carries a marker. */
  lemma {:induction false} ExtractFromUnmarked(fileName: string, fileHash: string, pages: seq<string>, marks: seq<Option<Marker>>, c: nat)
    requires |marks| == |pages| && c < |ExtractFrom(fileName, fileHash, pages, marks)|
    ensures var ch := ExtractFrom(fileName, fileHash, pages, marks)[c];
      forall k :: ch.pageStart < k <= ch.pageEnd ==> marks[k].None?
  {
    var starts := MarkedPages(marks);
    ExtractFromAt(fileName, fileHash, pages, marks, c);
    UnmarkedChapter(marks, c, ChapterEnd(starts, c, |pages|));
  }

  /** The fields of the chapter running from a marked page `start` to page `end`. */
  lemma {:induction false} ChapterFields(fileName: string, fileHash: string, pages: seq<string>, marks: seq<Option<Marker>>,
                                         ch: Chapter, start: nat, end: nat)
    requires start <= end < |pages| && start < |marks| && marks[start].Some?
    requires ch == MakeChapter(fileName, fileHash, pages, marks[start].value, start, end)
    ensures ch.fileName == fileName && ch.fileHash == fileHash
      && ch.pageStart == start && ch.pageEnd == end
      && marks[ch.pageStart] == Some(Marker(ch.number, ch.title))
      && ch.text == Join(pages[ch.pageStart..ch.pageEnd + 1], "\n")
  {
  }

  /** No page after the `c`-th marked page, up to the page before the next one, carries a marker. */
  lemma {:induction false} UnmarkedChapter(marks: seq<Option<Marker>>, c: nat, end: nat)
    requires c < |MarkedPages(marks)| && end < |marks|
    requires c + 1 < |MarkedPages(marks)| ==> end < MarkedPages(marks)[c + 1]
    ensures forall k :: MarkedPages(marks)[c] < k <= end ==> marks[k].None?
  {
    forall k | MarkedPages(marks)[c] < k <= end ensures marks[k].None? {
      UnmarkedInside(marks, c, k);
    }
  }

  /** No page before the first marked page carries a marker. */
  lemma {:induction false} UnmarkedBefore(marks: seq<Option<Marker>>, k: nat)
    requires 0 < |MarkedPages(marks)| && k < MarkedPages(marks)[0]
    ensures marks[k].None?
  {
    var starts := MarkedPages(marks);
    forall c' | 0 < c' < |starts| ensures starts[c'] != k {
      IncreasingAt(starts, 0, c');
    }
    if marks[k].Some? {
      var c' := MarkedPagesIndex(marks, k);
      assert false;
    }
  }

  /** Chapter c ends on the page before chapter c + 1 starts. */
  lemma {:induction false} ExtractFromAdjacent(fileName: string, fileHash: string, pages: seq<string>, marks: seq<Option<Marker>>, c: nat)
    requires |marks| == |pages| && c + 1 < |ExtractFrom(fileName, fileHash, pages, marks)|
    ensures var r := ExtractFrom(fileName, fileHash, pages, marks);
      r[c].pageEnd + 1 == r[c + 1].pageStart
  {
    ExtractFromAt(fileName, fileHash, pages, marks, c);
    ExtractFromAt(fileName, fileHash, pages, marks, c + 1);
  }

  /**
   * Chapters follow each other without gap or overlap, the last one runs to the last
   * page, and the pages before the first marker belong to no chapter.
   */
  lemma {:induction false} ExtractFromTiles(fileName: string, fileHash: string, pages: seq<string>, marks: seq<Option<Marker>>)
    requires |marks| == |pages|
    ensures var r := ExtractFrom(fileName, fileHash, pages, marks);
      (forall c :: 0 <= c < |r| - 1 ==> r[c].pageEnd + 1 == r[c + 1].pageStart)
      && (|r| > 0 ==> r[|r| - 1].pageEnd == |pages| - 1 && r[0].pageStart < |pages|)
      && (|r| > 0 ==> forall k :: 0 <= k < r[0].pageStart ==> marks[k].None?)
  {
    var r := ExtractFrom(fileName, fileHash, pages, marks);
    forall c | 0 <= c < |r| - 1 ensures r[c].pageEnd + 1 == r[c + 1].pageStart {
      ExtractFromAdjacent(fileName, fileHash, pages, marks, c);
    }
    if |r| > 0 {
      ExtractFromAt(fileName, fileHash, pages, marks, |r| - 1);
      ExtractFromAt(fileName, fileHash, pages, marks, 0);
      forall k | 0 <= k < r[0].pageStart ensures marks[k].None? {
        UnmarkedBefore(marks, k);
      }
    }
  }

  /** A PDF yields no chapter iff none of its pages carries a marker. */
  lemma {:induction false} ExtractFromEmpty(fileName: string, fileHash: string, pages: seq<string>, marks: seq<Option<Marker>>)
    requires |marks| == |pages|
    ensures |ExtractFrom(fileName, fileHash, pages, marks)| == 0 <==> forall k :: 0 <= k < |marks| ==> marks[k].None?
  {
    var starts := MarkedPages(marks);
    if |starts| == 0 {
      forall k | 0 <= k < |marks| ensures marks[k].None? {
        if marks[k].Some? {
          var c := MarkedPagesIndex(marks, k);
          assert false;
        }
      }
    } else {
      assert marks[starts[0]].Some?;
    }
  }

  /** The local variables of `extract_chapters` between two pages. */
  datatype Scan = Scan(current: Option<Marker>, chapterText: seq<string>, chapterStart: nat, chapters: seq<Chapter>)

  /** The open chapter, closed on page `end`. */
  function Closing(fileName: string, fileHash: string, s: Scan, end: nat): Chapter
    requires s.current.Some?
  {
    Chapter(fileName, fileHash, s.current.value.number, s.current.value.title,
            Join(s.chapterText, "\n"), s.chapterStart, end)
  }

  /**
   * One turn of the page loop on page `k`: a marker closes the open chapter (if any)
   * on the page before and opens a new one; any other page joins the open chapter.
   */
  function ScanStep(fileName: string, fileHash: string, s: Scan, k: nat, page: string, found: Option<Marker>): Scan
    requires s.current.Some? ==> s.chapterStart < k
  {
    if found.Some? then
      Scan(found, [page], k,
           if s.current.Some? then s.chapters + [Closing(fileName, fileHash, s, k - 1)] else s.chapters)
    else s.(chapterText := s.chapterText + [page])
  }

  /** After the loop: the open chapter, if any, is closed on the last page. */
  function Finish(fileName: string, fileHash: string, s: Scan, n: nat): seq<Chapter>
    requires s.current.Some? ==> s.chapterStart < n
  {
    if s.current.Some? then s.chapters + [Closing(fileName, fileHash, s, n - 1)] else s.chapters
  }

  /** The loop's variables after the first `k` pages. */
  function ScanTo(fileName: string, fileHash: string, pages: seq<string>, marks: seq<Option<Marker>>, k: nat): (r: Scan)
    requires |marks| == |pages| && k <= |pages|
    ensures r.current.Some? ==> r.chapterStart < k
  {
    if k == 0 then Scan(None, [], 0, [])
    else ScanStep(fileName, fileHash, ScanTo(fileName, fileHash, pages, marks, k - 1), k - 1, pages[k - 1], marks[k - 1])
  }

  /** Where `extract_chapters` stands after the first `k` pages, in terms of the marked pages. */
  ghost predicate Progress(fileName: string, fileHash: string, pages: seq<string>, marks: seq<Option<Marker>>,
                           k: nat, starts: seq<nat>, s: Scan)
  {
    k <= |pages| && |marks| == |pages|
    && starts == MarkedPages(marks[..k])
    && ValidStarts(marks, starts)
    && (forall c :: 0 <= c < |starts| ==> starts[c] < k)
    && s.chapterStart <= k
    && (|starts| == 0 ==> s.current.None? && s.chapters == [] && s.chapterText == pages[..k])
    && (|starts| > 0 ==>
      s.chapterStart == starts[|starts| - 1] && s.current == marks[s.chapterStart]
      && s.chapterText == pages[s.chapterStart..k]
      && s.chapters == Closed(fileName, fileHash, pages, marks, starts))
  }

  /** A page with a marker closes the open chapter, if any, and opens a new one. */
  lemma {:induction false} StepMarked(fileName: string, fileHash: string, pages: seq<string>, marks: seq<Option<Marker>>,
                                      k: nat, starts: seq<nat>, s: Scan)
    requires Progress(fileName, fileHash, pages, marks, k, starts, s)
    requires k < |pages| && marks[k].Some?
    ensures s.current.Some? ==> s.chapterStart < k
    ensures Progress(fileName, fileHash, pages, marks, k + 1, starts + [k],
                     ScanStep(fileName, fileHash, s, k, pages[k], marks[k]))
  {
    MarkedPagesSnoc(marks, k);
    assert pages[k..k + 1] == [pages[k]];
    var t := ScanStep(fileName, fileHash, s, k, pages[k], marks[k]);
    if s.current.Some? {
      ClosedSnoc(fileName, fileHash, pages, marks, starts, k);
    } else {
      assert starts + [k] == [k];
    }
    assert t.chapters == Closed(fileName, fileHash, pages, marks, starts + [k]);
  }

  /** A page without a marker is added to the open chapter (or to the discarded front matter). */
  lemma {:induction false} StepUnmarked(fileName: string, fileHash: string, pages: seq<string>, marks: seq<Option<Marker>>,
                                        k: nat, starts: seq<nat>, s: Scan)
    requires Progress(fileName, fileHash, pages, marks, k, starts, s)
    requires k < |pages| && marks[k].None?
    ensures s.current.Some? ==> s.chapterStart < k
    ensures Progress(fileName, fileHash, pages, marks, k + 1, starts,
                     ScanStep(fileName, fileHash, s, k, pages[k], marks[k]))
  {
    MarkedPagesSnoc(marks, k);
    SliceSnoc(pages, 0, k);
    SliceSnoc(pages, s.chapterStart, k);
  }

  /** One more page keeps the loop's variables where `Progress` says. */
  lemma {:induction false} ScanNext(fileName: string, fileHash: string, pages: seq<string>, marks: seq<Option<Marker>>, k: nat)
    requires |marks| == |pages| && k < |pages|
    requires Progress(fileName, fileHash, pages, marks, k, MarkedPages(marks[..k]), ScanTo(fileName, fileHash, pages, marks, k))
    ensures Progress(fileName, fileHash, pages, marks, k + 1, MarkedPages(marks[..k + 1]), ScanTo(fileName, fileHash, pages, marks, k + 1))
  {
    var starts := MarkedPages(marks[..k]);
    var s := ScanTo(fileName, fileHash, pages, marks, k);
    MarkedPagesSnoc(marks, k);
    if marks[k].Some? {
      StepMarked(fileName, fileHash, pages, marks, k, starts, s);
    } else {
      StepUnmarked(fileName, fileHash, pages, marks, k, starts, s);
    }
  }

  /** The loop's variables after `k` pages stand where `Progress` says. */
  lemma {:induction false} ScanProgress(fileName: string, fileHash: string, pages: seq<string>, marks: seq<Option<Marker>>, k: nat)
    requires |marks| == |pages| && k <= |pages|
    ensures Progress(fileName, fileHash, pages, marks, k, MarkedPages(marks[..k]), ScanTo(fileName, fileHash, pages, marks, k))
  {
    if k == 0 {
      assert marks[..0] == [];
    } else {
      ScanProgress(fileName, fileHash, pages, marks, k - 1);
      ScanNext(fileName, fileHash, pages, marks, k - 1);
    }
  }

  /** After the last page, closing the open chapter (if any) gives the extracted chapters. */
  lemma {:induction false} ScanToExtract(fileName: string, fileHash: string, pages: seq<string>, marks: seq<Option<Marker>>)
    requires |marks| == |pages|
    ensures Finish(fileName, fileHash, ScanTo(fileName, fileHash, pages, marks, |pages|), |pages|)
      == ExtractFrom(fileName, fileHash, pages, marks)
  {
    ScanProgress(fileName, fileHash, pages, marks, |pages|);
    assert marks[..|pages|] == marks;
    if |MarkedPages(marks)| > 0 {
      ExtractFromClosed(fileName, fileHash, pages, marks);
    }
  }

  /** `extract_chapters` over the page texts of one PDF. */
  method ExtractChapters(fileName: string, fileHash: string, pages: seq<string>, search: Search)
    returns (chapters: seq<Chapter>)
    ensures chapters == Extract(fileName, fileHash, pages, search)
  {
    ghost var marks := Marks(pages, search);
    chapters := [];
    var current: Option<Marker> := None;
    var chapterText: seq<string> := [];
    var chapterStart: nat := 0;
    var k := 0;
    while k < |pages|
      invariant k <= |pages|
      invariant Scan(current, chapterText, chapterStart, chapters) == ScanTo(fileName, fileHash, pages, marks, k)
    {
      var text := pages[k];
      var found := FindChapterMarker(text, search);
      assert found == marks[k];
      if found.Some? {
        if current.Some? {
          chapters := chapters + [Chapter(fileName, fileHash, current.value.number, current.value.title,
                                          Join(chapterText, "\n"), chapterStart, k - 1)];
        }
        current := found;
        chapterText := [text];
        chapterStart := k;
      } else {
        chapterText := chapterText + [text];
      }
      k := k + 1;
    }
    ScanToExtract(fileName, fileHash, pages, marks);
    if current.Some? {
      chapters := chapters + [Chapter(fileName, fileHash, current.value.number, current.value.title,
                                      Join(chapterText, "\n"), chapterStart, |pages| - 1)];
    }
  }
}
