/**
 * The pair enumeration shared by every relational analysis:
 *   for i in range(n):
 *     for j in range(i + 1, n): visit (i, j)
 * and the trace events (sleeps, model calls, checkpoint writes) the
 * schedulers emit in place of `time.sleep`, the model call and the file write.
 */
module Pairs {

  type Pair = (nat, nat)

  /** What a scheduler does, in order: a blocking pause, a model call on a pair, a checkpoint rewrite. */
  datatype Event<+S> = Sleep(seconds: nat) | Call(first: nat, second: nat) | Save(snapshot: S)

  /** (i, i+1), (i, i+2), ..., (i, j-1): the first pairs of row `i` up to column `j`. */
  function RowPrefix(i: nat, j: nat): (r: seq<Pair>)
    ensures |r| == if j > i + 1 then j - i - 1 else 0
    decreases j
  {
    if j <= i + 1 then [] else RowPrefix(i, j - 1) + [(i, j - 1)]
  }

  /** Rows 0 .. i-1 of the enumeration over `n` items. */
  function Rows(n: nat, i: nat): seq<Pair>
    decreases i
  {
    if i == 0 then [] else Rows(n, i - 1) + RowPrefix(i - 1, n)
  }

  /** Every pair the nested loops over `n` items visit, in visiting order. */
  function AllPairs(n: nat): seq<Pair>
  {
    Rows(n, n)
  }

  predicate LexLess(p: Pair, q: Pair)
  {
    p.0 < q.0 || (p.0 == q.0 && p.1 < q.1)
  }

  /** Strictly ascending in the (i, j) order, hence without repetitions. */
  predicate Ascending(s: seq<Pair>)
  {
    forall a, b :: 0 <= a < b < |s| ==> LexLess(s[a], s[b])
  }

  lemma {:induction false} RowPrefixShape(i: nat, j: nat)
    ensures forall k :: 0 <= k < |RowPrefix(i, j)| ==> RowPrefix(i, j)[k] == (i, i + 1 + k)
    decreases j
  {
    if j > i + 1 {
      RowPrefixShape(i, j - 1);
    }
  }

  lemma {:induction false} RowsCount(n: nat, i: nat)
    requires i <= n
    ensures 2 * |Rows(n, i)| == i * (2 * n - i - 1)
    decreases i
  {
    if i > 0 {
      RowsCount(n, i - 1);
      assert |RowPrefix(i - 1, n)| == n - i;
      calc {
        2 * |Rows(n, i)|;
        2 * |Rows(n, i - 1)| + 2 * (n - i);
        (i - 1) * (2 * n - i) + 2 * (n - i);
        { assert (i - 1) * (2 * n - i) == i * (2 * n - i) - (2 * n - i); }
        i * (2 * n - i) - (2 * n - i) + 2 * (n - i);
        i * (2 * n - i - 1);
      }
    }
  }

  /** The loops visit n(n-1)/2 pairs. */
  lemma {:induction false} PairCount(n: nat)
    ensures |AllPairs(n)| == n * (n - 1) / 2
  {
    RowsCount(n, n);
    assert n * (2 * n - n - 1) == n * (n - 1);
  }

  /** Rows 0 .. i-1 hold exactly the pairs (a, b) with a < i and a < b < n. */
  lemma {:induction false} RowsMembers(n: nat, i: nat)
    requires i <= n
    ensures forall p: Pair :: p in Rows(n, i) <==> p.0 < i && p.0 < p.1 < n
    decreases i
  {
    if i > 0 {
      RowsMembers(n, i - 1);
      RowPrefixShape(i - 1, n);
      forall p: Pair | p.0 == i - 1 && p.0 < p.1 < n ensures p in RowPrefix(i - 1, n) {
        assert RowPrefix(i - 1, n)[p.1 - i] == p;
      }
    }
  }

  /** A pair is visited iff i < j < n. */
  lemma {:induction false} AllPairsMembers(n: nat)
    ensures forall p: Pair :: p in AllPairs(n) <==> p.0 < p.1 < n
  {
    RowsMembers(n, n);
  }

  lemma {:induction false} RowsAscending(n: nat, i: nat)
    requires i <= n
    ensures Ascending(Rows(n, i))
    decreases i
  {
    if i > 0 {
      RowsAscending(n, i - 1);
      RowsMembers(n, i - 1);
      RowPrefixShape(i - 1, n);
      var l, r := Rows(n, i - 1), RowPrefix(i - 1, n);
      forall a, b | 0 <= a < b < |l + r| ensures LexLess((l + r)[a], (l + r)[b]) {
        if b < |l| {
        } else if a < |l| {
          assert l[a] in l;
        } else {
          assert (l + r)[a] == r[a - |l|] && (l + r)[b] == r[b - |l|];
        }
      }
    }
  }

  /** The visiting order is strictly ascending, so no pair is visited twice. */
  lemma {:induction false} AllPairsAscending(n: nat)
    ensures Ascending(AllPairs(n))
  {
    RowsAscending(n, n);
  }

  lemma {:induction false} RowsIsPrefix(n: nat, i: nat, k: nat)
    requires i <= k
    ensures Rows(n, i) <= Rows(n, k)
    decreases k
  {
    if i < k {
      RowsIsPrefix(n, i, k - 1);
    }
  }

  /** Row `i` ends where row `i + 1` starts: it holds n - i - 1 pairs. */
  lemma {:induction false} RowEnd(n: nat, i: nat)
    requires i < n
    ensures |Rows(n, i + 1)| == |Rows(n, i)| + (n - i - 1)
    ensures |Rows(n, i + 1)| <= |AllPairs(n)|
  {
    RowsIsPrefix(n, i + 1, n);
  }

  /** The nested loops visit (i, j) as visit number |Rows(n, i)| + (j - i - 1), counting from 0. */
  lemma {:induction false} PairAt(n: nat, i: nat, j: nat)
    requires i < j < n
    ensures |Rows(n, i)| + (j - i - 1) < |AllPairs(n)|
    ensures AllPairs(n)[|Rows(n, i)| + (j - i - 1)] == (i, j)
  {
    RowsIsPrefix(n, i + 1, n);
    RowPrefixShape(i, n);
    var row := Rows(n, i + 1);
    assert row == Rows(n, i) + RowPrefix(i, n);
    assert row[|Rows(n, i)| + (j - i - 1)] == RowPrefix(i, n)[j - i - 1];
  }

  /** The pairs a trace calls the model on, in order. */
  function Calls<S>(trace: seq<Event<S>>): seq<Pair>
  {
    if |trace| == 0 then []
    else
      var last := match trace[|trace| - 1] case Call(i, j) => [(i, j)] case _ => [];
      Calls(trace[..|trace| - 1]) + last
  }

  lemma {:induction false} CallsAppend<S>(a: seq<Event<S>>, b: seq<Event<S>>)
    ensures Calls(a + b) == Calls(a) + Calls(b)
    decreases |b|
  {
    if |b| > 0 {
      CallsAppend(a, b[..|b| - 1]);
      assert (a + b)[..|a + b| - 1] == a + b[..|b| - 1];
    } else {
      assert a + b == a;
    }
  }

  /** The snapshots a trace writes, in order. */
  function Saves<S>(trace: seq<Event<S>>): seq<S>
  {
    if |trace| == 0 then []
    else
      var last := match trace[|trace| - 1] case Save(s) => [s] case _ => [];
      Saves(trace[..|trace| - 1]) + last
  }

  lemma {:induction false} SavesAppend<S>(a: seq<Event<S>>, b: seq<Event<S>>)
    ensures Saves(a + b) == Saves(a) + Saves(b)
    decreases |b|
  {
    if |b| > 0 {
      SavesAppend(a, b[..|b| - 1]);
      assert (a + b)[..|a + b| - 1] == a + b[..|b| - 1];
    } else {
      assert a + b == a;
    }
  }

  /** How many pauses of `seconds` a trace holds. */
  function Sleeps<S>(trace: seq<Event<S>>, seconds: nat): nat
  {
    if |trace| == 0 then 0
    else Sleeps(trace[..|trace| - 1], seconds) + if trace[|trace| - 1] == Sleep(seconds) then 1 else 0
  }

  lemma {:induction false} SleepsAppend<S>(a: seq<Event<S>>, b: seq<Event<S>>, seconds: nat)
    ensures Sleeps(a + b, seconds) == Sleeps(a, seconds) + Sleeps(b, seconds)
    decreases |b|
  {
    if |b| > 0 {
      SleepsAppend(a, b[..|b| - 1], seconds);
      assert (a + b)[..|a + b| - 1] == a + b[..|b| - 1];
    } else {
      assert a + b == a;
    }
  }

  /** Both items of every pair index a list of `n` items. */
  predicate InRange(pairs: seq<Pair>, n: nat)
  {
    forall k :: 0 <= k < |pairs| ==> pairs[k].0 < n && pairs[k].1 < n
  }

  lemma {:induction false} AllPairsInRange(n: nat)
    ensures InRange(AllPairs(n), n)
  {
    AllPairsMembers(n);
    forall k | 0 <= k < |AllPairs(n)| ensures AllPairs(n)[k].0 < n && AllPairs(n)[k].1 < n {
      assert AllPairs(n)[k] in AllPairs(n);
    }
  }
}
