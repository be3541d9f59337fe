/**
 * The chapter-ID survey (analyze_chapters.py): the distinct chapter IDs named by the
 * saved contradictions, each split into its PDF name, chapter title and content hash,
 * grouped by PDF, and summarised as the number of sections per title.
 */
module AnalyzeChapters {
  import opened Wrappers
  import opened Strings
  import ShowResults
  import Contradictions

  // ---------------------------------------------------------------------------
  // Python's ordering of texts, and `sorted` of a set
  // ---------------------------------------------------------------------------

  /** Python's `a < b` on strings: character by character, a proper prefix first. */
  predicate Less(a: string, b: string)
    decreases |a|
  {
    |b| > 0 && (|a| == 0 || a[0] < b[0] || (a[0] == b[0] && Less(a[1..], b[1..])))
  }

  lemma {:induction false} LessIrreflexive(a: string)
    ensures !Less(a, a)
    decreases |a|
  {
    if |a| > 0 {
      LessIrreflexive(a[1..]);
    }
  }

  lemma {:induction false} LessTotal(a: string, b: string)
    ensures a == b || Less(a, b) || Less(b, a)
    decreases |a|
  {
    if |a| > 0 && |b| > 0 && a[0] == b[0] {
      LessTotal(a[1..], b[1..]);
      if a[1..] == b[1..] {
        assert a == [a[0]] + a[1..] && b == [b[0]] + b[1..];
      }
    }
  }

  lemma {:induction false} LessTransitive(a: string, b: string, c: string)
    requires Less(a, b) && Less(b, c)
    ensures Less(a, c)
    decreases |a|
  {
    if |a| > 0 && a[0] == b[0] && b[0] == c[0] {
      LessTransitive(a[1..], b[1..], c[1..]);
    }
  }

  predicate StrictlySorted(xs: seq<string>)
  {
    forall i, j :: 0 <= i < j < |xs| ==> Less(xs[i], xs[j])
  }

  /** The least member of a non-empty set of texts. */
  ghost function Least(s: set<string>): (m: string)
    requires s != {}
    ensures m in s && forall y :: y in s && y != m ==> Less(m, y)
    decreases |s|
  {
    var y :| y in s;
    var rest := s - {y};
    if rest == {} then
      assert forall z :: z in s ==> z in rest || z == y;
      y
    else
      var m := Least(rest);
      LessTotal(y, m);
      if Less(y, m) then
        BelowAll(y, m, rest);
        y
      else m
  }

  /** Below the least member of a set is below all of it. */
  lemma BelowAll(y: string, m: string, s: set<string>)
    requires Less(y, m) && forall z :: z in s && z != m ==> Less(m, z)
    ensures forall z :: z in s ==> Less(y, z)
  {
    forall z | z in s ensures Less(y, z) {
      if z != m {
        LessTransitive(y, m, z);
      }
    }
  }

  /** `sorted(s)`: the members of the set, each once, in increasing order. */
  method Sorted(s: set<string>) returns (xs: seq<string>)
    ensures StrictlySorted(xs)
    ensures Enumerates(xs, s)
  {
    xs := [];
    var rest := s;
    while rest != {}
      invariant rest <= s
      invariant |xs| + |rest| == |s|
      invariant forall x :: x in xs <==> x in s && x !in rest
      invariant StrictlySorted(xs)
      invariant forall x, y :: x in xs && y in rest ==> Less(x, y)
      decreases |rest|
    {
      ghost var least := Least(rest);
      var m :| m in rest && forall y :: y in rest && y != m ==> Less(m, y);
      xs := xs + [m];
      rest := rest - {m};
    }
  }

  // ---------------------------------------------------------------------------
  // Splitting one chapter ID
  // ---------------------------------------------------------------------------

  /** The three pieces of a chapter ID. */
  datatype Parsed = Parsed(pdf: string, title: string, hash: string)

  /**
   * `cid.split('_')`: with three parts or more, the first is the PDF name, the last the
   * hash and the ones between, joined again by "_", the title; shorter IDs are skipped.
   */
  function Decompose(id: string): (r: Option<Parsed>)
    ensures r.None? <==> |Split(id, '_')| < 3
    ensures r.Some? ==> '_' !in r.value.pdf && '_' !in r.value.hash
    ensures r.Some? ==> r.value.pdf + "_" + r.value.title + "_" + r.value.hash == id
  {
    var parts := Split(id, '_');
    if |parts| < 3 then None
    else
      var n := |parts| - 1;
      JoinSplit(id, '_');
      JoinAround(parts, "_");
      Some(Parsed(parts[0], Join(parts[1..n], "_"), parts[n]))
  }

  /** A join of three parts or more, with its first and last part taken apart. */
  lemma JoinAround(parts: seq<string>, sep: string)
    requires |parts| >= 3
    ensures Join(parts, sep) == parts[0] + sep + Join(parts[1..|parts| - 1], sep) + sep + parts[|parts| - 1]
  {
    var n := |parts| - 1;
    assert parts[1..] == parts[1..n] + [parts[n]];
    JoinSnoc(parts[1..n], parts[n], sep);
  }

  /**
   * An ID built as `{pdf_name}_{chapter}_{hash}` splits back into the same three
   * pieces when the PDF name and the hash hold no "_"; the chapter part may.
   */
  lemma ComposeDecompose(pdf: string, title: string, hash: string)
    requires '_' !in pdf && '_' !in hash
    ensures Decompose(pdf + "_" + title + "_" + hash) == Some(Parsed(pdf, title, hash))
  {
    var middle := Split(title, '_');
    var parts := [pdf] + middle + [hash];
    JoinSplit(title, '_');
    JoinAround(parts, "_");
    assert parts[1..|parts| - 1] == middle;
    SplitJoin(parts, '_');
  }

  // ---------------------------------------------------------------------------
  // Collecting the distinct IDs
  // ---------------------------------------------------------------------------

  /** A saved contradiction record, with its text fields by name. */
  type Record = map<string, string>

  /**
   * The IDs named by the records under the two keys, or the first key found missing:
   * Python raises `KeyError` at the first record that lacks the first key, or else
   * the second.
   */
  function IdsOf(records: seq<Record>, k1: string, k2: string): (r: Result<set<string>, string>)
    ensures r.Err? ==> r.error == k1 || r.error == k2
    decreases |records|
  {
    if |records| == 0 then Ok({})
    else
      var c := records[|records| - 1];
      match IdsOf(records[..|records| - 1], k1, k2)
      case Err(key) => Err(key)
      case Ok(ids) =>
        if k1 !in c then Err(k1)
        else if k2 !in c then Err(k2)
        else Ok(ids + {c[k1], c[k2]})
  }

  /** The IDs are collected exactly when every record has both keys, and then they are the values under those keys. */
  lemma {:induction false} IdsOfContents(records: seq<Record>, k1: string, k2: string)
    ensures IdsOf(records, k1, k2).Ok? <==> forall i :: 0 <= i < |records| ==> k1 in records[i] && k2 in records[i]
    ensures IdsOf(records, k1, k2).Ok? ==> forall id :: id in IdsOf(records, k1, k2).value <==>
      exists i :: 0 <= i < |records| && (records[i][k1] == id || records[i][k2] == id)
    decreases |records|
  {
    if |records| > 0 {
      var n := |records| - 1;
      var p := records[..n];
      IdsOfContents(p, k1, k2);
      assert forall i :: 0 <= i < n ==> p[i] == records[i];
      if IdsOf(records, k1, k2).Ok? {
        var ids := IdsOf(records, k1, k2).value;
        forall id | id in ids ensures exists i :: 0 <= i < |records| && (records[i][k1] == id || records[i][k2] == id) {
          if id !in IdsOf(p, k1, k2).value {
            assert records[n][k1] == id || records[n][k2] == id;
          }
        }
      }
    }
  }

  /** The first loop: the set of IDs under the two keys of every record. */
  method CollectIds(records: seq<Record>, k1: string, k2: string) returns (r: Result<set<string>, string>)
    ensures r == IdsOf(records, k1, k2)
  {
    var ids: set<string> := {};
    var i := 0;
    while i < |records|
      invariant i <= |records|
      invariant IdsOf(records[..i], k1, k2) == Ok(ids)
    {
      var c := records[i];
      ghost var before := ids;
      assert records[..i + 1][..i] == records[..i] && records[..i + 1][i] == c;
      if k1 !in c {
        KeepsError(records, i + 1, k1, k2);
        return Err(k1);
      }
      ids := ids + {c[k1]};
      if k2 !in c {
        KeepsError(records, i + 1, k1, k2);
        return Err(k2);
      }
      ids := ids + {c[k2]};
      assert ids == before + {c[k1], c[k2]};
      assert IdsOf(records[..i + 1], k1, k2) == Ok(ids);
      i := i + 1;
    }
    assert records[..i] == records;
    r := Ok(ids);
  }

  /** Once a prefix of the records fails, all of them fail with the same key. */
  lemma {:induction false} KeepsError(records: seq<Record>, i: nat, k1: string, k2: string)
    requires i <= |records| && IdsOf(records[..i], k1, k2).Err?
    ensures IdsOf(records, k1, k2) == IdsOf(records[..i], k1, k2)
    decreases |records| - i
  {
    if i < |records| {
      assert records[..i + 1][..i] == records[..i];
      KeepsError(records, i + 1, k1, k2);
    } else {
      assert records[..i] == records;
    }
  }

  /** The keys this script reads. */
  const ChapterKeys := ("chapter1_id", "chapter2_id")

  /** The keys the interim results file is written with. */
  const DocKeys := ("doc1_id", "doc2_id")

  /**
   * One entry of the interim results file as this script sees it: the text fields of
   * the saved dictionary (the numeric confidence is left out).
   */
  function SavedRecord(c: Contradictions.Contradiction): (r: Record)
    ensures DocKeys.0 in r && DocKeys.1 in r && r[DocKeys.0] == c.doc1Id && r[DocKeys.1] == c.doc2Id
    ensures ChapterKeys.0 !in r && ChapterKeys.1 !in r
  {
    var d := Contradictions.ToDict(c);
    map k | k in d && d[k].Str? :: d[k].s
  }

  function SavedRecords(cs: seq<Contradictions.Contradiction>): (r: seq<Record>)
    ensures |r| == |cs| && forall i :: 0 <= i < |cs| ==> r[i] == SavedRecord(cs[i])
  {
    seq(|cs|, i requires 0 <= i < |cs| => SavedRecord(cs[i]))
  }

  /** Reading the saved contradictions under the script's own keys fails on the first one. */
  lemma SavedRecordsAsWritten(cs: seq<Contradictions.Contradiction>)
    requires |cs| > 0
    ensures IdsOf(SavedRecords(cs), ChapterKeys.0, ChapterKeys.1) == Err(ChapterKeys.0)
  {
    var rs := SavedRecords(cs);
    assert rs[..1][..0] == [];
    KeepsError(rs, 1, ChapterKeys.0, ChapterKeys.1);
  }

  /** Under the keys they are saved with, the IDs are the two chapters of every contradiction. */
  lemma SavedRecordsCorrected(cs: seq<Contradictions.Contradiction>)
    ensures IdsOf(SavedRecords(cs), DocKeys.0, DocKeys.1).Ok?
    ensures forall id :: id in IdsOf(SavedRecords(cs), DocKeys.0, DocKeys.1).value <==>
      exists i :: 0 <= i < |cs| && (cs[i].doc1Id == id || cs[i].doc2Id == id)
  {
    var rs := SavedRecords(cs);
    IdsOfContents(rs, DocKeys.0, DocKeys.1);
  }

  // ---------------------------------------------------------------------------
  // Grouping by PDF
  // ---------------------------------------------------------------------------

  /** What is appended for one ID: `{'title', 'hash', 'full_id'}`. */
  datatype Entry = Entry(title: string, hash: string, fullId: string)

  /** The PDF an entry is filed under: the first "_" part of its ID. */
  function EntryPdf(e: Entry): string
  {
    Split(e.fullId, '_')[0]
  }

  /** The entries made for the IDs, in order; IDs with fewer than three parts make none. */
  function Refs(ids: seq<string>): seq<Entry>
    decreases |ids|
  {
    if |ids| == 0 then []
    else
      var n := |ids| - 1;
      var prev := Refs(ids[..n]);
      match EntryOf(ids[n])
      case None => prev
      case Some(e) => prev + [e]
  }

  /** The entry one more ID adds, if any. */
  function EntryOf(id: string): (r: Option<Entry>)
    ensures r.Some? <==> Decompose(id).Some?
    ensures r.Some? ==> r.value.fullId == id && r.value.title == Decompose(id).value.title
    ensures r.Some? ==> EntryPdf(r.value) == Decompose(id).value.pdf
  {
    var parts := Split(id, '_');
    if |parts| < 3 then None
    else
      var n := |parts| - 1;
      Some(Entry(Join(parts[1..n], "_"), parts[n], id))
  }

  lemma RefsNext(ids: seq<string>, i: nat)
    requires i < |ids|
    ensures Refs(ids[..i + 1]) == Refs(ids[..i]) + (if EntryOf(ids[i]).Some? then [EntryOf(ids[i]).value] else [])
  {
    assert ids[..i + 1][..i] == ids[..i] && ids[..i + 1][i] == ids[i];
  }

  /** One more item: its key is appended, and it joins the end of its key's group. */
  lemma GroupStep<T>(xs: seq<T>, key: T -> string, x: T)
    ensures ShowResults.KeysOf(xs + [x], key) == ShowResults.KeysOf(xs, key) + [key(x)]
    ensures var ks := ShowResults.KeysOf(xs, key);
      ShowResults.FirstSeen(ks + [key(x)]) ==
        if key(x) in ShowResults.FirstSeen(ks) then ShowResults.FirstSeen(ks) else ShowResults.FirstSeen(ks) + [key(x)]
    ensures forall k ::
      ShowResults.WithKey(xs + [x], key, k) == ShowResults.WithKey(xs, key, k) + (if key(x) == k then [x] else [])
  {
    var ks := ShowResults.KeysOf(xs, key);
    assert ShowResults.KeysOf(xs + [x], key) == ks + [key(x)];
    assert (ks + [key(x)])[..|ks|] == ks;
    assert (xs + [x])[..|xs|] == xs;
  }

  /** `keys` and `groups` file the items `xs` by key, keys in first-filed order. */
  ghost predicate Filed<T>(xs: seq<T>, key: T -> string, keys: seq<string>, groups: map<string, seq<T>>)
  {
    && keys == ShowResults.FirstSeen(ShowResults.KeysOf(xs, key))
    && (forall k :: k in groups <==> k in keys)
    && (forall k :: k in groups ==> groups[k] == ShowResults.WithKey(xs, key, k))
    && (forall k :: k !in groups ==> ShowResults.WithKey(xs, key, k) == [])
  }

  /** Appending an item to its key's list, adding the key when new, files one more item. */
  lemma FileStep<T>(xs: seq<T>, key: T -> string, keys: seq<string>, groups: map<string, seq<T>>, x: T)
    requires Filed(xs, key, keys, groups)
    ensures var k := key(x);
      Filed(xs + [x], key, if k in groups then keys else keys + [k],
            groups[k := (if k in groups then groups[k] else []) + [x]])
  {
    GroupStep(xs, key, x);
  }

  /** `groups[key(x)].append(x)` on a `defaultdict(list)`, whose keys stay in insertion order. */
  method Append<T>(ghost xs: seq<T>, key: T -> string, keys: seq<string>, groups: map<string, seq<T>>, x: T)
      returns (keys': seq<string>, groups': map<string, seq<T>>)
    requires Filed(xs, key, keys, groups)
    ensures Filed(xs + [x], key, keys', groups')
  {
    var k := key(x);
    FileStep(xs, key, keys, groups, x);
    var group := if k in groups then groups[k] else [];
    keys' := if k in groups then keys else keys + [k];
    groups' := groups[k := group + [x]];
  }

  /**
   * The second loop: `chapter_info[pdf_name].append(...)` for every ID with three parts
   * or more. PDFs are kept in the order they are first filed, as a dictionary does.
   */
  method GroupByPdf(ids: seq<string>) returns (pdfs: seq<string>, info: map<string, seq<Entry>>)
    ensures Filed(Refs(ids), EntryPdf, pdfs, info)
  {
    pdfs := [];
    info := map[];
    ghost var refs: seq<Entry> := [];
    var i := 0;
    assert ids[..0] == [];
    while i < |ids|
      invariant i <= |ids| && refs == Refs(ids[..i])
      invariant Filed(refs, EntryPdf, pdfs, info)
    {
      RefsNext(ids, i);
      var entry := EntryOf(ids[i]);
      if entry.Some? {
        pdfs, info := Append(refs, EntryPdf, pdfs, info, entry.value);
        refs := refs + [entry.value];
      }
      assert refs == Refs(ids[..i + 1]);
      i := i + 1;
    }
    assert ids[..i] == ids;
  }

  // ---------------------------------------------------------------------------
  // The summary by PDF
  // ---------------------------------------------------------------------------

  /** `sum(1 for ch in chapters if ch['title'] == title)` */
  function TitleCount(chapters: seq<Entry>, title: string): nat
    decreases |chapters|
  {
    if |chapters| == 0 then 0
    else
      var n := |chapters| - 1;
      TitleCount(chapters[..n], title) + (if chapters[n].title == title then 1 else 0)
  }

  /** `set(ch['title'] for ch in chapters)` */
  function Titles(chapters: seq<Entry>): set<string>
  {
    set e | e in chapters :: e.title
  }

  /** `id` splits into the given PDF name and chapter title. */
  predicate Names(id: string, pdf: string, title: string)
  {
    Decompose(id).Some? && Decompose(id).value.pdf == pdf && Decompose(id).value.title == title
  }

  /** The IDs that split into the given PDF name and chapter title. */
  function IdsNaming(ids: seq<string>, pdf: string, title: string): set<string>
  {
    set id | id in ids && Names(id, pdf, title)
  }

  /**
   * Counting a title among a PDF's entries counts the distinct IDs with that PDF and
   * title: each ID makes at most one entry, filed under its own PDF.
   */
  lemma {:induction false} TitleCountIsIds(ids: seq<string>, pdf: string, title: string)
    requires forall i, j :: 0 <= i < j < |ids| ==> ids[i] != ids[j]
    ensures TitleCount(ShowResults.WithKey(Refs(ids), EntryPdf, pdf), title) == |IdsNaming(ids, pdf, title)|
    decreases |ids|
  {
    if |ids| > 0 {
      var n := |ids| - 1;
      var p := ids[..n];
      var x := ids[n];
      TitleCountIsIds(p, pdf, title);
      assert x !in p by {
        forall i | 0 <= i < n ensures p[i] != x {
          assert p[i] == ids[i];
        }
      }
      IdsNamingSnoc(ids, pdf, title);
      GroupSnoc(ids, pdf);
      var group := ShowResults.WithKey(Refs(p), EntryPdf, pdf);
      var entry := EntryOf(x);
      if entry.Some? && EntryPdf(entry.value) == pdf {
        TitleCountSnoc(group, entry.value, title);
        assert ShowResults.WithKey(Refs(ids), EntryPdf, pdf) == group + [entry.value];
      } else {
        assert ShowResults.WithKey(Refs(ids), EntryPdf, pdf) == group;
        assert |IdsNaming(ids, pdf, title)| == |IdsNaming(p, pdf, title)|;
      }
    }
  }

  lemma TitleCountSnoc(chapters: seq<Entry>, e: Entry, title: string)
    ensures TitleCount(chapters + [e], title) == TitleCount(chapters, title) + (if e.title == title then 1 else 0)
  {
    assert (chapters + [e])[..|chapters|] == chapters;
  }

  /** The last ID joins its PDF's group, if it makes an entry at all. */
  lemma GroupSnoc(ids: seq<string>, pdf: string)
    requires |ids| > 0
    ensures var n := |ids| - 1; var entry := EntryOf(ids[n]);
      ShowResults.WithKey(Refs(ids), EntryPdf, pdf) ==
        ShowResults.WithKey(Refs(ids[..n]), EntryPdf, pdf) +
        (if entry.Some? && EntryPdf(entry.value) == pdf then [entry.value] else [])
  {
    var n := |ids| - 1;
    RefsNext(ids, n);
    assert ids[..n + 1] == ids;
    var entry := EntryOf(ids[n]);
    if entry.Some? {
      GroupStep(Refs(ids[..n]), EntryPdf, entry.value);
    }
  }

  /** The last ID, not seen before, adds one to the IDs it names. */
  lemma IdsNamingSnoc(ids: seq<string>, pdf: string, title: string)
    requires |ids| > 0 && ids[|ids| - 1] !in ids[..|ids| - 1]
    ensures var n := |ids| - 1; var entry := EntryOf(ids[n]);
      |IdsNaming(ids, pdf, title)| == |IdsNaming(ids[..n], pdf, title)| +
        (if entry.Some? && EntryPdf(entry.value) == pdf && entry.value.title == title then 1 else 0)
  {
    var n := |ids| - 1;
    var x := ids[n];
    assert forall id :: id in ids <==> id in ids[..n] || id == x;
    if Names(x, pdf, title) {
      assert IdsNaming(ids, pdf, title) == IdsNaming(ids[..n], pdf, title) + {x};
    } else {
      assert IdsNaming(ids, pdf, title) == IdsNaming(ids[..n], pdf, title);
    }
  }

  /** One line of a PDF's summary: a title and its number of sections. */
  datatype TitleRow = TitleRow(title: string, count: nat)

  datatype PdfSummary = PdfSummary(pdf: string, rows: seq<TitleRow>)

  function RowTitles(rows: seq<TitleRow>): (r: seq<string>)
    ensures |r| == |rows| && forall k :: 0 <= k < |rows| ==> r[k] == rows[k].title
  {
    seq(|rows|, k requires 0 <= k < |rows| => rows[k].title)
  }

  /** The rows list every title of the chapters once, in sorted order, with its count. */
  ghost predicate Tallies(rows: seq<TitleRow>, chapters: seq<Entry>)
  {
    && StrictlySorted(RowTitles(rows))
    && Enumerates(RowTitles(rows), Titles(chapters))
    && forall k :: 0 <= k < |rows| ==> rows[k].count == TitleCount(chapters, rows[k].title)
  }

  /** The inner loop: `for title in sorted(unique_titles)` with each title's count. */
  method TitleRows(chapters: seq<Entry>) returns (rows: seq<TitleRow>)
    ensures Tallies(rows, chapters)
  {
    var titles := Sorted(Titles(chapters));
    rows := seq(|titles|, k requires 0 <= k < |titles| => TitleRow(titles[k], TitleCount(chapters, titles[k])));
    assert RowTitles(rows) == titles;
  }

  /** The summary loop: `for pdf, chapters in chapter_info.items()`, in insertion order. */
  method Summarize(pdfs: seq<string>, info: map<string, seq<Entry>>) returns (summary: seq<PdfSummary>)
    requires forall p :: p in pdfs ==> p in info
    ensures |summary| == |pdfs|
    ensures forall j :: 0 <= j < |pdfs| ==> summary[j].pdf == pdfs[j] && Tallies(summary[j].rows, info[pdfs[j]])
  {
    summary := [];
    var j := 0;
    while j < |pdfs|
      invariant j <= |pdfs| && |summary| == j
      invariant forall k :: 0 <= k < j ==> summary[k].pdf == pdfs[k] && Tallies(summary[k].rows, info[pdfs[k]])
    {
      var rows := TitleRows(info[pdfs[j]]);
      summary := summary + [PdfSummary(pdfs[j], rows)];
      j := j + 1;
    }
  }

  // ---------------------------------------------------------------------------
  // The whole survey
  // ---------------------------------------------------------------------------

  /** What the script prints: the sorted IDs, their entries by PDF, and the summary. */
  datatype Survey = Survey(
    ids: seq<string>,
    pdfs: seq<string>,
    info: map<string, seq<Entry>>,
    summary: seq<PdfSummary>)

  /**
   * A survey of the IDs `named`: each once, in sorted order; their entries filed by PDF;
   * and for each PDF, each title with the number of distinct IDs of that PDF and title.
   */
  ghost predicate Surveys(s: Survey, named: set<string>)
  {
    && StrictlySorted(s.ids)
    && Enumerates(s.ids, named)
    && Filed(Refs(s.ids), EntryPdf, s.pdfs, s.info)
    && |s.summary| == |s.pdfs|
    && (forall j :: 0 <= j < |s.pdfs| ==>
          s.summary[j].pdf == s.pdfs[j] && Tallies(s.summary[j].rows, s.info[s.pdfs[j]]))
    && (forall j, k :: 0 <= j < |s.pdfs| && 0 <= k < |s.summary[j].rows| ==>
          s.summary[j].rows[k].count == |set id | id in named && Names(id, s.pdfs[j], s.summary[j].rows[k].title)|)
  }

  /**
   * `analyze_chapters`, reading the saved records (`None` when there is no results
   * file) under the keys they are written with.
   */
  method Analyze(saved: Option<seq<Record>>) returns (r: Result<Option<Survey>, string>)
    ensures saved.None? ==> r == Ok(None)
    ensures saved.Some? ==> match IdsOf(saved.value, DocKeys.0, DocKeys.1)
      case Err(key) => r == Err(key)
      case Ok(named) => r.Ok? && r.value.Some? && Surveys(r.value.value, named)
  {
    if saved.None? {
      return Ok(None);
    }
    var collected := CollectIds(saved.value, DocKeys.0, DocKeys.1);
    if collected.Err? {
      return Err(collected.error);
    }
    var named := collected.value;
    var ids := Sorted(named);
    var pdfs, info := GroupByPdf(ids);
    var summary := Summarize(pdfs, info);
    var s := Survey(ids, pdfs, info, summary);
    Counts(s, named);
    r := Ok(Some(s));
  }

  /** The summary's counts are the numbers of distinct IDs, once the IDs are sorted and filed. */
  lemma Counts(s: Survey, named: set<string>)
    requires StrictlySorted(s.ids) && Enumerates(s.ids, named)
    requires Filed(Refs(s.ids), EntryPdf, s.pdfs, s.info)
    requires |s.summary| == |s.pdfs|
    requires forall j :: 0 <= j < |s.pdfs| ==> s.summary[j].pdf == s.pdfs[j] && Tallies(s.summary[j].rows, s.info[s.pdfs[j]])
    ensures Surveys(s, named)
  {
    forall i, j | 0 <= i < j < |s.ids| ensures s.ids[i] != s.ids[j] {
      LessIrreflexive(s.ids[i]);
    }
    forall j, k | 0 <= j < |s.pdfs| && 0 <= k < |s.summary[j].rows|
      ensures s.summary[j].rows[k].count == |set id | id in named && Names(id, s.pdfs[j], s.summary[j].rows[k].title)|
    {
      var t := s.summary[j].rows[k].title;
      TitleCountIsIds(s.ids, s.pdfs[j], t);
      assert IdsNaming(s.ids, s.pdfs[j], t) == set id | id in named && Names(id, s.pdfs[j], t);
    }
  }
}
