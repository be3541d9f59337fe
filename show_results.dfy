/**
 * show_results.py: reading back the contradictions a checker run saved, grouping them by
 * the pair of chapters they involve, counting them by type and finding the highest
 * confidence, for the console listing and the markdown report.
 */
module ShowResults {
  import opened Wrappers
  import opened Strings

  /** One saved contradiction record. */
  datatype Contradiction = Contradiction(
    doc1Id: string,
    doc2Id: string,
    kind: string,
    confidence: real,
    doc1Excerpt: string,
    doc2Excerpt: string,
    explanation: string)

  // ---------------------------------------------------------------------------
  // Chapter labels
  // ---------------------------------------------------------------------------

  /**
   * The label of a chapter ID: with three or more "_" parts, the second part with ". "
   * for each "." and, when the next-to-last part is all digits, " (Section <it>)";
   * otherwise the middle parts joined by spaces, of which there are none.
   */
  function Label(id: string): string
  {
    var parts := Split(id, '_');
    if |parts| >= 3 then
      var main := ReplaceAll(parts[1], ".", ". ");
      var section := if IsDigits(parts[|parts| - 2]) then parts[|parts| - 2] else "";
      main + (if section != "" then " (Section " + section + ")" else "")
    else ""
  }

  /** Digits hold no ".". */
  lemma DigitsHaveNoDot(s: string)
    requires IsDigits(s)
    ensures forall k :: 0 <= k ==> !OccursAt(s, ".", k)
  {
    forall k | 0 <= k ensures !OccursAt(s, ".", k) {
      if k + 1 <= |s| {
        assert s[k..k + 1][0] == s[k];
      }
    }
  }

  /**
   * An ID of the form `<pdf>_<number>_<hash>` (the shape the checker gives chapter IDs),
   * with no "_" in the PDF name or the hash, is labelled by its number twice over.
   */
  lemma LabelOfChapterId(pdf: string, number: nat, hash: string)
    requires '_' !in pdf && '_' !in hash
    ensures Label(pdf + "_" + NatToString(number) + "_" + hash)
      == NatToString(number) + " (Section " + NatToString(number) + ")"
  {
    var n := NatToString(number);
    var parts := [pdf, n, hash];
    forall k | 0 <= k < |n| ensures n[k] != '_' {
      assert IsDigit(n[k]);
    }
    assert Join(parts, "_") == pdf + "_" + n + "_" + hash by {
      assert Join(parts[2..], "_") == hash;
      assert Join(parts[1..], "_") == n + "_" + hash;
    }
    SplitJoin(parts, '_');
    DigitsHaveNoDot(n);
    ReplaceAbsent(n, ".", ". ");
  }

  /** An ID with fewer than three "_" parts has an empty label. */
  lemma LabelOfTwoParts(a: string, b: string)
    requires '_' !in a && '_' !in b
    ensures Label(a + "_" + b) == ""
  {
    SplitJoin([a, b], '_');
    assert Join([a, b], "_") == a + "_" + b by {
      assert Join([a, b][1..], "_") == b;
    }
  }

  // ---------------------------------------------------------------------------
  // First-seen order
  // ---------------------------------------------------------------------------

  /** The distinct values of `xs`, each where it first appears: a Python dictionary's key order. */
  function FirstSeen(xs: seq<string>): (r: seq<string>)
    ensures forall x :: x in r <==> x in xs
    decreases |xs|
  {
    if |xs| == 0 then []
    else
      var prev := FirstSeen(xs[..|xs| - 1]);
      var x := xs[|xs| - 1];
      assert forall y :: y in xs <==> y in xs[..|xs| - 1] || y == x;
      if x in prev then prev else prev + [x]
  }

  /** Where `x` first appears in `xs`. */
  function FirstIndex(xs: seq<string>, x: string): (i: nat)
    requires x in xs
    ensures i < |xs| && xs[i] == x && x !in xs[..i]
    decreases |xs|
  {
    var n := |xs| - 1;
    if x in xs[..n] then
      var i := FirstIndex(xs[..n], x);
      assert xs[..i] == xs[..n][..i];
      i
    else
      assert xs[..n] + [xs[n]] == xs;
      n
  }

  /** The first-seen values are distinct and listed in the order they first appear. */
  lemma {:induction false} FirstSeenOrder(xs: seq<string>)
    ensures var r := FirstSeen(xs);
      forall i, j :: 0 <= i < j < |r| ==> FirstIndex(xs, r[i]) < FirstIndex(xs, r[j])
    decreases |xs|
  {
    if |xs| > 0 {
      var n := |xs| - 1;
      var p := xs[..n];
      FirstSeenOrder(p);
      var r := FirstSeen(xs);
      forall y | y in p ensures FirstIndex(xs, y) == FirstIndex(p, y) {
        FirstIndexPrefix(xs, n, y);
      }
      forall i, j | 0 <= i < j < |r| ensures FirstIndex(xs, r[i]) < FirstIndex(xs, r[j]) {
        if j < |FirstSeen(p)| {
          assert r[i] == FirstSeen(p)[i] && r[j] == FirstSeen(p)[j];
        } else {
          assert r[j] == xs[n] && xs[n] !in p;
          assert r[i] == FirstSeen(p)[i] && r[i] in p;
        }
      }
    }
  }

  lemma {:induction false} FirstIndexPrefix(xs: seq<string>, n: nat, y: string)
    requires n == |xs| - 1 && y in xs[..n]
    ensures FirstIndex(xs, y) == FirstIndex(xs[..n], y)
  {
  }

  /** The first-seen values are distinct. */
  lemma {:induction false} FirstSeenDistinct(xs: seq<string>)
    ensures var r := FirstSeen(xs); forall i, j :: 0 <= i < j < |r| ==> r[i] != r[j]
  {
    FirstSeenOrder(xs);
  }

  // ---------------------------------------------------------------------------
  // Grouping by chapter pair
  // ---------------------------------------------------------------------------

  /** The key of each item, in order. */
  function KeysOf<T>(xs: seq<T>, key: T -> string): (r: seq<string>)
    ensures |r| == |xs| && forall i :: 0 <= i < |xs| ==> r[i] == key(xs[i])
  {
    seq(|xs|, i requires 0 <= i < |xs| => key(xs[i]))
  }

  /** The items with key `k`, in input order. */
  function WithKey<T>(xs: seq<T>, key: T -> string, k: string): seq<T>
    decreases |xs|
  {
    if |xs| == 0 then []
    else WithKey(xs[..|xs| - 1], key, k) + (if key(xs[|xs| - 1]) == k then [xs[|xs| - 1]] else [])
  }

  /** A group holds exactly the items with its key, so each item lands in exactly one group. */
  lemma {:induction false} WithKeyMembers<T>(xs: seq<T>, key: T -> string, k: string)
    ensures forall x :: x in WithKey(xs, key, k) <==> x in xs && key(x) == k
    decreases |xs|
  {
    if |xs| > 0 {
      var n := |xs| - 1;
      WithKeyMembers(xs[..n], key, k);
      assert forall x :: x in xs <==> x in xs[..n] || x == xs[n];
    }
  }

  lemma FirstSeenNext(xs: seq<string>, i: nat)
    requires i < |xs|
    ensures FirstSeen(xs[..i + 1]) ==
      if xs[i] in FirstSeen(xs[..i]) then FirstSeen(xs[..i]) else FirstSeen(xs[..i]) + [xs[i]]
  {
    assert xs[..i + 1][..i] == xs[..i];
  }

  lemma WithKeyNext<T>(xs: seq<T>, key: T -> string, i: nat)
    requires i < |xs|
    ensures forall k :: WithKey(xs[..i + 1], key, k) == WithKey(xs[..i], key, k) + (if key(xs[i]) == k then [xs[i]] else [])
  {
    assert xs[..i + 1][..i] == xs[..i];
  }

  /** A grouping loop: groups in first-seen key order, each in input order. */
  method GroupBy<T>(xs: seq<T>, key: T -> string) returns (keys: seq<string>, groups: map<string, seq<T>>)
    ensures keys == FirstSeen(KeysOf(xs, key))
    ensures forall k :: k in groups <==> k in keys
    ensures forall k :: k in groups ==> groups[k] == WithKey(xs, key, k)
  {
    keys := [];
    groups := map[];
    var i := 0;
    while i < |xs|
      invariant i <= |xs|
      invariant keys == FirstSeen(KeysOf(xs, key)[..i])
      invariant forall k :: k in groups <==> k in keys
      invariant forall k :: k in groups ==> groups[k] == WithKey(xs[..i], key, k)
      invariant forall k :: k !in groups ==> WithKey(xs[..i], key, k) == []
    {
      var x := xs[i];
      var k := key(x);
      FirstSeenNext(KeysOf(xs, key), i);
      WithKeyNext(xs, key, i);
      var group := if k in groups then groups[k] else [];
      if k !in groups {
        keys := keys + [k];
      }
      groups := groups[k := group + [x]];
      i := i + 1;
    }
    assert xs[..i] == xs;
    assert KeysOf(xs, key)[..i] == KeysOf(xs, key);
  }

  /** `f"{ch1} <-> {ch2}"` */
  function PairKey(c: Contradiction): string
  {
    Label(c.doc1Id) + " <-> " + Label(c.doc2Id)
  }

  /** The `chapter_pairs` loop, grouping by chapter pair. */
  method GroupByPair(cs: seq<Contradiction>) returns (keys: seq<string>, groups: map<string, seq<Contradiction>>)
    ensures keys == FirstSeen(KeysOf(cs, PairKey))
    ensures forall k :: k in groups <==> k in keys
    ensures forall k :: k in groups ==> groups[k] == WithKey(cs, PairKey, k)
  {
    keys, groups := GroupBy(cs, PairKey);
  }

  // ---------------------------------------------------------------------------
  // Counting by type
  // ---------------------------------------------------------------------------

  function KindOf(c: Contradiction): string
  {
    c.kind
  }

  /** How many times `x` occurs in `xs`. */
  function Occurrences(xs: seq<string>, x: string): nat
    decreases |xs|
  {
    if |xs| == 0 then 0
    else Occurrences(xs[..|xs| - 1], x) + (if xs[|xs| - 1] == x then 1 else 0)
  }

  lemma {:induction false} OccurrencesAbsent(xs: seq<string>, x: string)
    requires x !in xs
    ensures Occurrences(xs, x) == 0
    decreases |xs|
  {
    if |xs| > 0 {
      assert x !in xs[..|xs| - 1];
      OccurrencesAbsent(xs[..|xs| - 1], x);
    }
  }

  /** The total of the counts of the given keys. */
  function CountOf(keys: seq<string>, xs: seq<string>): nat
    decreases |keys|
  {
    if |keys| == 0 then 0 else CountOf(keys[..|keys| - 1], xs) + Occurrences(xs, keys[|keys| - 1])
  }

  /** One more value adds one to the total of the keys exactly when it is one of them (keys distinct). */
  lemma {:induction false} CountOfSnoc(keys: seq<string>, xs: seq<string>, x: string)
    requires forall i, j :: 0 <= i < j < |keys| ==> keys[i] != keys[j]
    ensures CountOf(keys, xs + [x]) == CountOf(keys, xs) + (if x in keys then 1 else 0)
    decreases |keys|
  {
    var ys := xs + [x];
    assert ys[..|xs|] == xs;
    if |keys| > 0 {
      var n := |keys| - 1;
      CountOfSnoc(keys[..n], xs, x);
      assert x in keys <==> x in keys[..n] || x == keys[n];
      assert x == keys[n] ==> x !in keys[..n];
    }
  }

  /** The counts of the distinct types add up to the number of contradictions. */
  lemma {:induction false} CountsTotal(xs: seq<string>)
    ensures CountOf(FirstSeen(xs), xs) == |xs|
    decreases |xs|
  {
    if |xs| > 0 {
      var n := |xs| - 1;
      var p := xs[..n];
      var x := xs[n];
      assert p + [x] == xs;
      CountsTotal(p);
      FirstSeenDistinct(p);
      CountOfSnoc(FirstSeen(p), p, x);
      if x !in p {
        OccurrencesAbsent(p, x);
        assert Occurrences(xs, x) == 1;
      }
    }
  }

  /** One more key adds one to its own count and leaves the others alone. */
  lemma CountStep(seen: seq<string>, counts: map<string, nat>, k: string)
    requires forall t :: Occurrences(seen, t) == if t in counts then counts[t] else 0
    ensures var after := counts[k := (if k in counts then counts[k] else 0) + 1];
      forall t :: Occurrences(seen + [k], t) == if t in after then after[t] else 0
  {
    assert (seen + [k])[..|seen|] == seen;
  }

  /** A counting loop: keys in first-seen order, each with its number of items. */
  method CountBy<T>(xs: seq<T>, key: T -> string) returns (keys: seq<string>, counts: map<string, nat>)
    ensures keys == FirstSeen(KeysOf(xs, key))
    ensures forall k :: k in counts <==> k in keys
    ensures forall k :: k in counts ==> counts[k] == Occurrences(KeysOf(xs, key), k)
  {
    keys := [];
    counts := map[];
    ghost var ks := KeysOf(xs, key);
    ghost var seen: seq<string> := [];
    var i := 0;
    while i < |xs|
      invariant i <= |xs| && seen == ks[..i]
      invariant keys == FirstSeen(seen)
      invariant forall k :: k in counts <==> k in keys
      invariant forall k :: Occurrences(seen, k) == if k in counts then counts[k] else 0
    {
      var k := key(xs[i]);
      assert ks[..i + 1] == seen + [k];
      FirstSeenNext(ks, i);
      CountStep(seen, counts, k);
      var count := if k in counts then counts[k] else 0;
      if k !in counts {
        keys := keys + [k];
      }
      counts := counts[k := count + 1];
      seen := seen + [k];
      i := i + 1;
    }
    assert ks[..i] == ks;
  }

  /** The `by_type` loop, counting by type. */
  method CountTypes(cs: seq<Contradiction>) returns (types: seq<string>, counts: map<string, nat>)
    ensures types == FirstSeen(KeysOf(cs, KindOf))
    ensures forall t :: t in counts <==> t in types
    ensures forall t :: t in counts ==> counts[t] == Occurrences(KeysOf(cs, KindOf), t)
  {
    types, counts := CountBy(cs, KindOf);
  }

  // ---------------------------------------------------------------------------
  // Ordering by count
  // ---------------------------------------------------------------------------

  /** A type with its count and its first-seen position. */
  datatype Entry = Entry(kind: string, count: nat, rank: nat)

  /** `x` is listed before `y`: a higher count, or the same count and seen first. */
  predicate Before(x: Entry, y: Entry)
  {
    x.count > y.count || (x.count == y.count && x.rank < y.rank)
  }

  predicate Ordered(es: seq<Entry>)
  {
    forall i :: 0 < i < |es| ==> Before(es[i - 1], es[i])
  }

  /** Places `e` after every entry with a count at least its own. */
  function InsertByCount(sorted: seq<Entry>, e: Entry): (r: seq<Entry>)
    ensures multiset(r) == multiset(sorted) + multiset{e}
    ensures |r| == |sorted| + 1
    ensures r[|r| - 1] == e || (|sorted| > 0 && r[|r| - 1] == sorted[|sorted| - 1])
    decreases |sorted|
  {
    if |sorted| == 0 then [e]
    else
      var last := sorted[|sorted| - 1];
      if last.count >= e.count then sorted + [e]
      else
        assert sorted == sorted[..|sorted| - 1] + [last];
        InsertByCount(sorted[..|sorted| - 1], e) + [last]
  }

  /** Inserting an entry seen after all the others keeps the list ordered. */
  lemma {:induction false} InsertOrdered(sorted: seq<Entry>, e: Entry)
    requires Ordered(sorted)
    requires forall i :: 0 <= i < |sorted| ==> sorted[i].rank < e.rank
    ensures Ordered(InsertByCount(sorted, e))
    decreases |sorted|
  {
    if |sorted| > 0 {
      var n := |sorted| - 1;
      var last := sorted[n];
      if last.count < e.count {
        var p := sorted[..n];
        assert Ordered(p);
        InsertOrdered(p, e);
        var q := InsertByCount(p, e);
        if q[|q| - 1] != e {
          assert q[|q| - 1] == sorted[n - 1];
        }
        SnocOrdered(q, last);
      } else {
        SnocOrdered(sorted, e);
      }
    }
  }

  /** Appending an entry listed after the current last one keeps the list ordered. */
  lemma SnocOrdered(es: seq<Entry>, e: Entry)
    requires Ordered(es) && |es| > 0 && Before(es[|es| - 1], e)
    ensures Ordered(es + [e])
  {
    var r := es + [e];
    forall i | 0 < i < |r| ensures Before(r[i - 1], r[i]) {
      if i < |es| {
        assert r[i - 1] == es[i - 1] && r[i] == es[i];
      }
    }
  }

  /**
   * `sorted(by_type.items(), key=count, reverse=True)`: by descending count, and, as
   * Python's sort is stable, equal counts in first-seen order.
   */
  function ByCount(es: seq<Entry>): (r: seq<Entry>)
    ensures multiset(r) == multiset(es)
    decreases |es|
  {
    if |es| == 0 then []
    else
      assert es == es[..|es| - 1] + [es[|es| - 1]];
      InsertByCount(ByCount(es[..|es| - 1]), es[|es| - 1])
  }

  /** Entries given in first-seen order come out ordered by count, ties by first sight. */
  lemma {:induction false} ByCountOrdered(es: seq<Entry>)
    requires forall i, j :: 0 <= i < j < |es| ==> es[i].rank < es[j].rank
    ensures Ordered(ByCount(es))
    decreases |es|
  {
    if |es| > 0 {
      var n := |es| - 1;
      var p := es[..n];
      ByCountOrdered(p);
      var s := ByCount(p);
      forall i | 0 <= i < |s| ensures s[i].rank < es[n].rank {
        assert s[i] in multiset(p);
        var k :| 0 <= k < n && p[k] == s[i];
      }
      InsertOrdered(s, es[n]);
    }
  }

  /** The `by_type` entries: each type with its count and its position. */
  function Entries(types: seq<string>, counts: map<string, nat>): (r: seq<Entry>)
    ensures |r| == |types| && forall i :: 0 <= i < |r| ==> r[i].rank == i && r[i].kind == types[i]
  {
    seq(|types|, i requires 0 <= i < |types| =>
      Entry(types[i], if types[i] in counts then counts[types[i]] else 0, i))
  }

  /** Ranking keeps one entry per type, each with the type's count. */
  lemma RankedCounts(types: seq<string>, counts: map<string, nat>, ks: seq<string>)
    requires types == FirstSeen(ks)
    requires forall t :: t in counts ==> counts[t] == Occurrences(ks, t)
    requires forall t :: t in counts <==> t in types
    ensures |ByCount(Entries(types, counts))| == |types|
    ensures forall e :: e in ByCount(Entries(types, counts)) ==> e.kind in ks && e.count == Occurrences(ks, e.kind)
    ensures forall e :: e in ByCount(Entries(types, counts)) ==> e.rank < |types| && types[e.rank] == e.kind
  {
    var entries := Entries(types, counts);
    var ranked := ByCount(entries);
    forall e | e in ranked ensures e.kind in ks && e.count == Occurrences(ks, e.kind) {
      assert e in multiset(entries);
      var k :| 0 <= k < |entries| && entries[k] == e;
      assert types[k] in types;
    }
    forall e | e in ranked ensures e.rank < |types| && types[e.rank] == e.kind {
      assert e in multiset(entries);
    }
    assert |ranked| == |multiset(ranked)| == |multiset(entries)| == |entries|;
  }

  /** In an ordered list every entry is listed before every later one, not just the next. */
  lemma {:induction false} OrderedAll(es: seq<Entry>)
    requires Ordered(es)
    ensures forall i, j :: 0 <= i < j < |es| ==> Before(es[i], es[j])
    decreases |es|
  {
    if |es| > 1 {
      var n := |es| - 1;
      var p := es[..n];
      assert Ordered(p) by {
        forall i | 0 < i < |p| ensures Before(p[i - 1], p[i]) {
          assert p[i - 1] == es[i - 1] && p[i] == es[i];
        }
      }
      OrderedAll(p);
      forall i, j | 0 <= i < j < |es| ensures Before(es[i], es[j]) {
        if j < n {
          assert es[i] == p[i] && es[j] == p[j];
        } else if i < n - 1 {
          assert Before(p[i], p[n - 1]);
          assert Before(es[n - 1], es[n]);
        }
      }
    }
  }

  /**
   * The ranked list names each type once, and of two types with the same count the one
   * that appears first in the saved list comes first.
   */
  lemma RankedOrder(types: seq<string>, ranked: seq<Entry>, ks: seq<string>)
    requires types == FirstSeen(ks) && Ordered(ranked)
    requires forall e :: e in ranked ==> e.rank < |types| && types[e.rank] == e.kind
    requires forall e :: e in ranked ==> e.count == Occurrences(ks, e.kind)
    ensures forall i, j :: 0 <= i < j < |ranked| ==> ranked[i].kind != ranked[j].kind
    ensures forall i, j :: 0 <= i < j < |ranked| && ranked[i].count == ranked[j].count ==>
      ranked[i].kind in ks && ranked[j].kind in ks && FirstIndex(ks, ranked[i].kind) < FirstIndex(ks, ranked[j].kind)
  {
    OrderedAll(ranked);
    FirstSeenOrder(ks);
    FirstSeenDistinct(ks);
    forall i, j | 0 <= i < j < |ranked| ensures ranked[i].kind != ranked[j].kind {
      assert ranked[i] in ranked && ranked[j] in ranked;
      assert Before(ranked[i], ranked[j]);
      var x, y := ranked[i], ranked[j];
      assert x.kind == y.kind ==> x.rank == y.rank;
    }
    forall i, j | 0 <= i < j < |ranked| && ranked[i].count == ranked[j].count
      ensures ranked[i].kind in ks && ranked[j].kind in ks && FirstIndex(ks, ranked[i].kind) < FirstIndex(ks, ranked[j].kind)
    {
      assert ranked[i] in ranked && ranked[j] in ranked;
      assert Before(ranked[i], ranked[j]);
      assert types[ranked[i].rank] in types && types[ranked[j].rank] in types;
    }
  }

  // ---------------------------------------------------------------------------
  // Highest confidence
  // ---------------------------------------------------------------------------

  /** `max(contradictions, key=confidence)`: the first contradiction with the highest confidence. */
  function Highest(cs: seq<Contradiction>): (i: nat)
    requires |cs| > 0
    ensures i < |cs|
    ensures forall j :: 0 <= j < |cs| ==> cs[j].confidence <= cs[i].confidence
    ensures forall j :: 0 <= j < i ==> cs[j].confidence < cs[i].confidence
    decreases |cs|
  {
    if |cs| == 1 then 0
    else
      var n := |cs| - 1;
      var m := Highest(cs[..n]);
      assert cs[..n][m] == cs[m];
      assert forall j :: 0 <= j < n ==> cs[..n][j] == cs[j];
      if cs[n].confidence > cs[m].confidence then n else m
  }

  // ---------------------------------------------------------------------------
  // The listing
  // ---------------------------------------------------------------------------

  /** The Korean name of a known type; other types are shown as they are. */
  function TypeName(kind: string): (r: string)
    ensures kind !in {"definition", "recommendation", "fact", "principle"} ==> r == kind
    ensures kind in {"definition", "recommendation", "fact", "principle"} ==> r != kind
  {
    if kind == "definition" then "정의"
    else if kind == "recommendation" then "권장사항"
    else if kind == "fact" then "사실"
    else if kind == "principle" then "원칙"
    else kind
  }

  /** Which saved file is read: the interim one when it exists, else the final one. */
  function ResultFile(interimExists: bool, finalExists: bool): (r: Option<string>)
    ensures interimExists ==> r == Some("contradictions_interim.json")
    ensures !interimExists && finalExists ==> r == Some("contradictions.json")
    ensures r.None? <==> !interimExists && !finalExists
  {
    if interimExists then Some("contradictions_interim.json")
    else if finalExists then Some("contradictions.json")
    else None
  }

  /** What the listing and the markdown report show. */
  datatype Listing = Listing(
    total: nat,
    pairs: seq<string>,
    groups: map<string, seq<Contradiction>>,
    byType: seq<Entry>,
    highest: Option<real>)

  /**
   * `generate_markdown_report` / `show_results`: with no contradictions only the total;
   * otherwise the pair groups, the type counts by descending count and the highest
   * confidence.
   */
  method Show(cs: seq<Contradiction>) returns (r: Listing)
    ensures r.total == |cs|
    ensures |cs| == 0 ==> r.pairs == [] && r.groups == map[] && r.byType == [] && r.highest.None?
    ensures |cs| > 0 ==>
      && r.pairs == FirstSeen(KeysOf(cs, PairKey))
      && (forall k :: k in r.groups <==> k in r.pairs)
      && (forall k :: k in r.groups ==> r.groups[k] == WithKey(cs, PairKey, k))
      && Ordered(r.byType)
      && |r.byType| == |FirstSeen(KeysOf(cs, KindOf))|
      && (forall e :: e in r.byType ==> e.kind in KeysOf(cs, KindOf) && e.count == Occurrences(KeysOf(cs, KindOf), e.kind))
      && (forall e :: e in r.byType ==> e.rank < |r.byType| && FirstSeen(KeysOf(cs, KindOf))[e.rank] == e.kind)
      && (forall i, j :: 0 <= i < j < |r.byType| ==> r.byType[i].kind != r.byType[j].kind)
      && (forall i, j :: 0 <= i < j < |r.byType| && r.byType[i].count == r.byType[j].count ==>
            FirstIndex(KeysOf(cs, KindOf), r.byType[i].kind) < FirstIndex(KeysOf(cs, KindOf), r.byType[j].kind))
      && r.highest == Some(cs[Highest(cs)].confidence)
  {
    if |cs| == 0 {
      return Listing(0, [], map[], [], None);
    }
    var keys, groups := GroupByPair(cs);
    var types, counts := CountTypes(cs);
    var entries := Entries(types, counts);
    var ranked := ByCount(entries);
    ByCountOrdered(entries);
    RankedCounts(types, counts, KeysOf(cs, KindOf));
    RankedOrder(types, ranked, KeysOf(cs, KindOf));
    r := Listing(|cs|, keys, groups, ranked, Some(cs[Highest(cs)].confidence));
  }
}
