/**
 * A `collections.Counter` of strings: counts kept in first-insertion order, and
 * `most_common(k)`, which lists the k largest counts, largest first, ties in insertion
 * order.
 */
module Counter {
  import opened Strings
  import opened Dicts

  /** The entries of a counter, in the order their keys were first added. */
  type Counts = Assoc<nat>

  /** `counter[key]`: 0 for a key never added. */
  function Count(c: Counts, key: string): nat
  {
    Find(c, key, 0)
  }

  /** `counter[key] += n` */
  function Add(c: Counts, key: string, n: nat): Counts
  {
    Put<nat>(c, key, Count(c, key) + n)
  }

  /** Descending by count. */
  predicate Descending(s: Counts)
  {
    forall a, b :: 0 <= a < b < |s| ==> s[a].1 >= s[b].1
  }

  /** Puts `x` after every entry whose count is at least its own. */
  function Insert(x: (string, nat), s: Counts): (r: Counts)
    ensures |r| == |s| + 1
    decreases |s|
  {
    if |s| == 0 then [x]
    else if s[0].1 >= x.1 then [s[0]] + Insert(x, s[1..])
    else [x] + s
  }

  /** Every count in `s` is at most `v`. */
  predicate AtMost(s: Counts, v: nat)
  {
    forall e :: e in s ==> e.1 <= v
  }

  lemma {:induction false} InsertAtMost(x: (string, nat), s: Counts, v: nat)
    requires x.1 <= v && AtMost(s, v)
    ensures AtMost(Insert(x, s), v)
    decreases |s|
  {
    if |s| > 0 && s[0].1 >= x.1 {
      InsertAtMost(x, s[1..], v);
      assert forall e :: e in s[1..] ==> e in s;
    }
  }

  lemma {:induction false} DescendingCons(h: (string, nat), t: Counts)
    requires AtMost(t, h.1) && Descending(t)
    ensures Descending([h] + t)
  {
    var r := [h] + t;
    forall a, b | 0 <= a < b < |r| ensures r[a].1 >= r[b].1 {
      assert r[b] == t[b - 1];
      if a > 0 {
        assert r[a] == t[a - 1];
      } else {
        assert t[b - 1] in t;
      }
    }
  }

  lemma {:induction false} DescendingTail(s: Counts)
    requires |s| > 0 && Descending(s)
    ensures Descending(s[1..]) && AtMost(s[1..], s[0].1)
  {
    forall e | e in s[1..] ensures e.1 <= s[0].1 {
      var j :| 0 <= j < |s[1..]| && s[1..][j] == e;
      assert s[j + 1] == e;
    }
  }

  lemma {:induction false} InsertSorted(x: (string, nat), s: Counts)
    requires Descending(s)
    ensures Descending(Insert(x, s))
    decreases |s|
  {
    if |s| > 0 {
      DescendingTail(s);
      if s[0].1 >= x.1 {
        InsertSorted(x, s[1..]);
        InsertAtMost(x, s[1..], s[0].1);
        DescendingCons(s[0], Insert(x, s[1..]));
      } else {
        assert AtMost(s, x.1) by {
          forall e | e in s ensures e.1 <= x.1 {
            var j :| 0 <= j < |s| && s[j] == e;
            assert j == 0 || s[0].1 >= s[j].1;
          }
        }
        DescendingCons(x, s);
      }
    }
  }

  lemma {:induction false} InsertPerm(x: (string, nat), s: Counts)
    ensures multiset(Insert(x, s)) == multiset(s) + multiset{x}
    decreases |s|
  {
    if |s| > 0 {
      assert s == [s[0]] + s[1..];
      if s[0].1 >= x.1 {
        InsertPerm(x, s[1..]);
      }
    }
  }

  /** A stable sort by descending count. */
  function SortDesc(c: Counts): (r: Counts)
    ensures |r| == |c|
    decreases |c|
  {
    if |c| == 0 then [] else Insert(c[|c| - 1], SortDesc(c[..|c| - 1]))
  }

  /** Sorting orders the entries by count and neither loses nor adds one. */
  lemma {:induction false} SortDescSpec(c: Counts)
    ensures Descending(SortDesc(c))
    ensures multiset(SortDesc(c)) == multiset(c)
    decreases |c|
  {
    if |c| > 0 {
      var n := |c| - 1;
      SortDescSpec(c[..n]);
      InsertSorted(c[n], SortDesc(c[..n]));
      InsertPerm(c[n], SortDesc(c[..n]));
      assert c == c[..n] + [c[n]];
    }
  }

  /** `[k for k, _ in counter.most_common(k)]` */
  function MostCommon(c: Counts, k: nat): (r: seq<string>)
    ensures |r| <= k && |r| <= |c|
  {
    var s := Take(SortDesc(c), k);
    seq(|s|, x requires 0 <= x < |s| => s[x].0)
  }

  /** Where `key` was first added to the counter; `|c|` for a key never added. */
  function Position(c: Counts, key: string): (p: nat)
    ensures p <= |c|
    ensures p < |c| ==> c[p].0 == key
    decreases |c|
  {
    if |c| == 0 then 0
    else if c[0].0 == key then 0
    else 1 + Position(c[1..], key)
  }

  /** With distinct keys, an entry's key is found at the entry's own index. */
  lemma {:induction false} PositionOfEntry(c: Counts, i: nat)
    requires DistinctKeys(c) && i < |c|
    ensures Position(c, c[i].0) == i
    decreases i
  {
    if i > 0 {
      assert c[0].0 != c[i].0;
      assert c[1..][i - 1] == c[i];
      HeadNotInTail(c);
      PositionOfEntry(c[1..], i - 1);
    }
  }

  /** A key is found before the end exactly when it was added. */
  lemma {:induction false} PositionKeys(c: Counts, key: string)
    ensures Position(c, key) < |c| <==> key in Keys(c)
    decreases |c|
  {
    if |c| > 0 {
      KeysCons(c);
      PositionKeys(c[1..], key);
    }
  }

  /** `counter[key] += n` keeps where every known key was added, and adds a new key last. */
  lemma {:induction false} AddPosition(c: Counts, key: string, n: nat, other: string)
    ensures other in Keys(c) ==> Position(Add(c, key, n), other) == Position(c, other)
    ensures key !in Keys(c) ==> Position(Add(c, key, n), key) == |c|
  {
    PutPosition(c, key, Count(c, key) + n, other);
  }

  lemma {:induction false} PutPosition(c: Counts, key: string, v: nat, other: string)
    ensures other in Keys(c) ==> Position(Put(c, key, v), other) == Position(c, other)
    ensures key !in Keys(c) ==> Position(Put(c, key, v), key) == |c|
    decreases |c|
  {
    if |c| > 0 {
      KeysCons(c);
      var t := Put(c, key, v);
      if c[0].0 == key {
        assert t[1..] == c[1..];
      } else {
        assert t[1..] == Put(c[1..], key, v);
        PutPosition(c[1..], key, v, other);
      }
    }
  }

  /** Entries of equal count keep the order in which their keys were added to `c`. */
  predicate Stable(s: Counts, c: Counts)
  {
    forall a, b :: 0 <= a < b < |s| && s[a].1 == s[b].1 ==> Position(c, s[a].0) < Position(c, s[b].0)
  }

  lemma {:induction false} StableTail(s: Counts, c: Counts)
    requires |s| > 0 && Stable(s, c)
    ensures Stable(s[1..], c)
    ensures forall e :: e in s[1..] && e.1 == s[0].1 ==> Position(c, s[0].0) < Position(c, e.0)
  {
    var t := s[1..];
    forall a, b | 0 <= a < b < |t| && t[a].1 == t[b].1 ensures Position(c, t[a].0) < Position(c, t[b].0) {
      assert t[a] == s[a + 1] && t[b] == s[b + 1];
    }
    forall e | e in t && e.1 == s[0].1 ensures Position(c, s[0].0) < Position(c, e.0) {
      var j :| 0 <= j < |t| && t[j] == e;
      assert s[j + 1] == e;
    }
  }

  lemma {:induction false} StableCons(h: (string, nat), t: Counts, c: Counts)
    requires Stable(t, c)
    requires forall e :: e in t && e.1 == h.1 ==> Position(c, h.0) < Position(c, e.0)
    ensures Stable([h] + t, c)
  {
    var r := [h] + t;
    forall a, b | 0 <= a < b < |r| && r[a].1 == r[b].1 ensures Position(c, r[a].0) < Position(c, r[b].0) {
      assert r[b] == t[b - 1];
      if a > 0 {
        assert r[a] == t[a - 1];
      } else {
        assert t[b - 1] in t;
      }
    }
  }

  /** Inserting an entry added after every entry of `s` keeps ties in insertion order. */
  lemma {:induction false} InsertStable(x: (string, nat), s: Counts, c: Counts)
    requires Descending(s) && Stable(s, c)
    requires forall e :: e in s ==> Position(c, e.0) < Position(c, x.0)
    ensures Stable(Insert(x, s), c)
    decreases |s|
  {
    if |s| == 0 {
    } else if s[0].1 >= x.1 {
      DescendingTail(s);
      StableTail(s, c);
      assert forall e :: e in s[1..] ==> e in s;
      InsertStable(x, s[1..], c);
      InsertPerm(x, s[1..]);
      var t := Insert(x, s[1..]);
      forall e | e in t && e.1 == s[0].1 ensures Position(c, s[0].0) < Position(c, e.0) {
        assert e in multiset(t);
      }
      StableCons(s[0], t, c);
    } else {
      DescendingTail(s);
      forall e | e in s ensures e.1 < x.1 {
        assert e == s[0] || e in s[1..];
      }
      StableCons(x, s, c);
    }
  }

  /** Sorting a prefix of a counter with distinct keys keeps ties in insertion order. */
  lemma {:induction false} SortDescStable(c: Counts, full: Counts)
    requires DistinctKeys(full) && |c| <= |full| && c == full[..|c|]
    ensures Stable(SortDesc(c), full)
    ensures forall e :: e in SortDesc(c) ==> Position(full, e.0) < |c|
    decreases |c|
  {
    if |c| > 0 {
      var n := |c| - 1;
      var s := SortDesc(c[..n]);
      assert c[..n] == full[..n];
      SortDescStable(c[..n], full);
      SortDescSpec(c[..n]);
      PositionOfEntry(full, n);
      assert c[n] == full[n];
      InsertStable(c[n], s, full);
      InsertPerm(c[n], s);
      forall e | e in SortDesc(c) ensures Position(full, e.0) < |c| {
        assert e in multiset(s) + multiset{c[n]};
      }
    }
  }

  /** Every sorted entry is an entry of the counter: its key counts its count. */
  lemma {:induction false} SortedEntries(c: Counts)
    requires DistinctKeys(c)
    ensures forall x :: 0 <= x < |SortDesc(c)| ==>
      SortDesc(c)[x].0 in Keys(c) && Count(c, SortDesc(c)[x].0) == SortDesc(c)[x].1
  {
    var s := SortDesc(c);
    SortDescSpec(c);
    forall x | 0 <= x < |s| ensures s[x].0 in Keys(c) && Count(c, s[x].0) == s[x].1 {
      assert s[x] in multiset(c);
      var i :| 0 <= i < |c| && c[i] == s[x];
      EntryFind(c, i, 0);
    }
  }

  /** The keys listed are keys of the counter, by descending count, and none left out counts more. */
  lemma {:induction false} MostCommonRanked(c: Counts, k: nat)
    requires DistinctKeys(c)
    ensures var r := MostCommon(c, k);
      (forall x :: 0 <= x < |r| ==> r[x] in Keys(c) && Count(c, r[x]) == SortDesc(c)[x].1)
      && (forall a, b :: 0 <= a < b < |r| ==> Count(c, r[a]) >= Count(c, r[b]))
      && (forall key, x :: key in Keys(c) && key !in r && 0 <= x < |r| ==> Count(c, key) <= Count(c, r[x]))
  {
    var s := SortDesc(c);
    SortDescSpec(c);
    SortedEntries(c);
    var r := MostCommon(c, k);
    forall x | 0 <= x < |r| ensures r[x] in Keys(c) && Count(c, r[x]) == s[x].1 {
      assert r[x] == s[x].0;
    }
    forall key, x | key in Keys(c) && key !in r && 0 <= x < |r| ensures Count(c, key) <= Count(c, r[x]) {
      var i :| 0 <= i < |c| && c[i].0 == key;
      assert c[i] in multiset(s);
      var p :| 0 <= p < |s| && s[p] == c[i];
      assert p >= |r|;
      EntryFind(c, i, 0);
    }
  }

  /** The keys listed are distinct, and keys of equal count come in the order they were first added. */
  lemma {:induction false} MostCommonOrder(c: Counts, k: nat)
    requires DistinctKeys(c)
    ensures var r := MostCommon(c, k);
      (forall a, b :: 0 <= a < b < |r| ==> r[a] != r[b])
      && (forall a, b :: 0 <= a < b < |r| && Count(c, r[a]) == Count(c, r[b]) ==>
            Position(c, r[a]) < Position(c, r[b]))
  {
    var s := SortDesc(c);
    var r := MostCommon(c, k);
    assert c[..|c|] == c;
    SortDescStable(c, c);
    SortedEntries(c);
    forall a, b | 0 <= a < b < |r| && Count(c, r[a]) == Count(c, r[b]) ensures Position(c, r[a]) < Position(c, r[b]) {
      assert r[a] == s[a].0 && r[b] == s[b].0;
    }
    forall a, b | 0 <= a < b < |r| ensures r[a] != r[b] {
      assert r[a] == s[a].0 && r[b] == s[b].0;
    }
  }

  /**
   * `most_common(k)` lists min(k, number of keys) distinct keys of the counter, by
   * descending count, keys of equal count in the order they were first added, and every
   * key left out counts no more than any key listed.
   */
  lemma {:induction false} MostCommonSpec(c: Counts, k: nat)
    requires DistinctKeys(c)
    ensures var r := MostCommon(c, k);
      (forall x :: 0 <= x < |r| ==> r[x] in Keys(c))
      && (forall a, b :: 0 <= a < b < |r| ==> Count(c, r[a]) >= Count(c, r[b]))
      && (forall key, x :: key in Keys(c) && key !in r && 0 <= x < |r| ==> Count(c, key) <= Count(c, r[x]))
      && (|r| == Min(k, |c|))
      && (forall a, b :: 0 <= a < b < |r| ==> r[a] != r[b])
      && (forall a, b :: 0 <= a < b < |r| && Count(c, r[a]) == Count(c, r[b]) ==>
            Position(c, r[a]) < Position(c, r[b]))
  {
    MostCommonRanked(c, k);
    MostCommonOrder(c, k);
  }
}
