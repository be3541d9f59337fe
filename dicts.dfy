/**
 * A Python `dict` with string keys, as an association list in insertion order: storing
 * under a known key replaces its value in place, storing under a new key appends it.
 */
module Dicts {

  type Assoc<V> = seq<(string, V)>

  predicate DistinctKeys<V>(d: Assoc<V>)
  {
    forall a, b :: 0 <= a < b < |d| ==> d[a].0 != d[b].0
  }

  function Keys<V>(d: Assoc<V>): set<string>
  {
    set i | 0 <= i < |d| :: d[i].0
  }

  /** `d.get(key, default)` */
  function Find<V>(d: Assoc<V>, key: string, default: V): V
    decreases |d|
  {
    if |d| == 0 then default
    else if d[0].0 == key then d[0].1
    else Find(d[1..], key, default)
  }

  /** `d[key] = v` */
  function Put<V>(d: Assoc<V>, key: string, v: V): (r: Assoc<V>)
    decreases |d|
  {
    if |d| == 0 then [(key, v)]
    else if d[0].0 == key then [(key, v)] + d[1..]
    else [d[0]] + Put(d[1..], key, v)
  }

  /** After storing, the key holds the new value and every other key its old one. */
  lemma {:induction false} PutFind<V>(d: Assoc<V>, key: string, v: V, other: string, default: V)
    ensures Find(Put(d, key, v), key, default) == v
    ensures other != key ==> Find(Put(d, key, v), other, default) == Find(d, other, default)
    decreases |d|
  {
    if |d| > 0 && d[0].0 != key {
      PutFind(d[1..], key, v, other, default);
      assert Put(d, key, v)[1..] == Put(d[1..], key, v);
    }
  }

  lemma {:induction false} KeysCons<V>(d: Assoc<V>)
    requires |d| > 0
    ensures Keys(d) == {d[0].0} + Keys(d[1..])
  {
    var t := d[1..];
    forall k | k in Keys(d) ensures k in {d[0].0} + Keys(t) {
      var i :| 0 <= i < |d| && d[i].0 == k;
      if i > 0 {
        assert t[i - 1] == d[i];
      }
    }
    forall k | k in Keys(t) ensures k in Keys(d) {
      var i :| 0 <= i < |t| && t[i].0 == k;
      assert d[i + 1] == t[i];
    }
  }

  /** Storing adds the key, if new, to the keys; a known key keeps its place and the length. */
  lemma {:induction false} PutKeys<V>(d: Assoc<V>, key: string, v: V)
    ensures Keys(Put(d, key, v)) == Keys(d) + {key}
    ensures |Put(d, key, v)| == if key in Keys(d) then |d| else |d| + 1
    decreases |d|
  {
    if |d| > 0 {
      var t := Put(d, key, v);
      KeysCons(d);
      KeysCons(t);
      if d[0].0 == key {
        assert t[1..] == d[1..];
      } else {
        PutKeys(d[1..], key, v);
        assert t[1..] == Put(d[1..], key, v);
      }
    } else {
      assert Put(d, key, v)[0].0 == key;
    }
  }

  /** The first key does not occur again in a dict with distinct keys. */
  lemma {:induction false} HeadNotInTail<V>(d: Assoc<V>)
    requires |d| > 0 && DistinctKeys(d)
    ensures d[0].0 !in Keys(d[1..]) && DistinctKeys(d[1..])
  {
    forall i | 0 <= i < |d[1..]| ensures d[1..][i].0 != d[0].0 {
      assert d[i + 1] == d[1..][i];
    }
  }

  /** A first key not among the distinct keys of the rest makes all keys distinct. */
  lemma {:induction false} DistinctCons<V>(d: Assoc<V>)
    requires |d| > 0 && d[0].0 !in Keys(d[1..]) && DistinctKeys(d[1..])
    ensures DistinctKeys(d)
  {
    forall a, b | 0 <= a < b < |d| ensures d[a].0 != d[b].0 {
      if a == 0 {
        assert d[b] == d[1..][b - 1];
      } else {
        assert d[a] == d[1..][a - 1] && d[b] == d[1..][b - 1];
      }
    }
  }

  /** Storing keeps the keys distinct. */
  lemma {:induction false} PutDistinct<V>(d: Assoc<V>, key: string, v: V)
    requires DistinctKeys(d)
    ensures DistinctKeys(Put(d, key, v))
    decreases |d|
  {
    if |d| > 0 {
      HeadNotInTail(d);
      var t := Put(d, key, v);
      if d[0].0 == key {
        assert t[1..] == d[1..];
      } else {
        PutDistinct(d[1..], key, v);
        PutKeys(d[1..], key, v);
        assert t[1..] == Put(d[1..], key, v);
        DistinctCons(t);
      }
    }
  }

  /** With distinct keys, an entry's value is what its key finds. */
  lemma {:induction false} EntryFind<V>(d: Assoc<V>, i: nat, default: V)
    requires DistinctKeys(d) && i < |d|
    ensures Find(d, d[i].0, default) == d[i].1
    decreases i
  {
    if i > 0 {
      assert d[0].0 != d[i].0;
      assert d[1..][i - 1] == d[i];
      HeadNotInTail(d);
      EntryFind(d[1..], i - 1, default);
    }
  }
}
