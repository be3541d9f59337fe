/**
 * The handful of Python `str` operations the analysed code relies on, with their
 * Python meaning: `split(sep)`, `sep.join`, `strip()`, `split()`, `find`, `in`,
 * `startswith`/`endswith`, slicing `s[:n]`, `replace`, `isdigit()`, `lower()` and
 * `str(n)` for natural numbers.
 */
module Strings {
  import opened Wrappers

  // ---------------------------------------------------------------------------
  // split(sep) and sep.join(parts)
  // ---------------------------------------------------------------------------

  /** `sep.join(parts)` */
  function Join(parts: seq<string>, sep: string): string
  {
    if |parts| == 0 then ""
    else if |parts| == 1 then parts[0]
    else parts[0] + sep + Join(parts[1..], sep)
  }

  /** `s.split(sep)` for a one-character separator: never empty, and no part holds `sep`. */
  function Split(s: string, sep: char): (r: seq<string>)
    ensures |r| >= 1
    ensures forall k :: 0 <= k < |r| ==> sep !in r[k]
    decreases |s|
  {
    if |s| == 0 then [""]
    else
      var rest := Split(s[1..], sep);
      if s[0] == sep then [""] + rest
      else [[s[0]] + rest[0]] + rest[1..]
  }

  /** Joining the parts of a split with the separator gives the text back. */
  lemma {:induction false} JoinSplit(s: string, sep: char)
    ensures Join(Split(s, sep), [sep]) == s
    decreases |s|
  {
    if |s| > 0 {
      var rest := Split(s[1..], sep);
      JoinSplit(s[1..], sep);
      if s[0] == sep {
        assert Split(s, sep) == [""] + rest;
        assert ([""] + rest)[1..] == rest;
      } else {
        var r := Split(s, sep);
        assert r == [[s[0]] + rest[0]] + rest[1..];
        if |rest| == 1 {
          assert Join(rest, [sep]) == rest[0];
        } else {
          assert r[1..] == rest[1..];
          assert Join(rest, [sep]) == rest[0] + [sep] + Join(rest[1..], [sep]);
        }
      }
    }
  }

  /** A text without the separator splits into itself alone. */
  lemma {:induction false} SplitNoSep(a: string, sep: char)
    requires sep !in a
    ensures Split(a, sep) == [a]
    decreases |a|
  {
    if |a| > 0 {
      SplitNoSep(a[1..], sep);
      assert [a[0]] + a[1..] == a;
    }
  }

  /** Splitting `a + sep + b` where `a` has no separator yields `a` then the split of `b`. */
  lemma {:induction false} SplitConcat(a: string, b: string, sep: char)
    requires sep !in a
    ensures Split(a + [sep] + b, sep) == [a] + Split(b, sep)
    decreases |a|
  {
    if |a| == 0 {
      assert a + [sep] + b == [sep] + b;
      assert ([sep] + b)[1..] == b;
    } else {
      var s := a + [sep] + b;
      assert s[1..] == a[1..] + [sep] + b;
      SplitConcat(a[1..], b, sep);
      assert [a[0]] + a[1..] == a;
    }
  }

  /** Splitting a join of separator-free parts gives the parts back. */
  lemma {:induction false} SplitJoin(parts: seq<string>, sep: char)
    requires |parts| >= 1
    requires forall k :: 0 <= k < |parts| ==> sep !in parts[k]
    ensures Split(Join(parts, [sep]), sep) == parts
    decreases |parts|
  {
    if |parts| == 1 {
      SplitNoSep(parts[0], sep);
    } else {
      SplitJoin(parts[1..], sep);
      SplitConcat(parts[0], Join(parts[1..], [sep]), sep);
      assert [parts[0]] + parts[1..] == parts;
    }
  }

  /** `'\n'.join` of one more part. */
  lemma {:induction false} JoinSnoc(parts: seq<string>, last: string, sep: string)
    requires |parts| >= 1
    ensures Join(parts + [last], sep) == Join(parts, sep) + sep + last
    decreases |parts|
  {
    if |parts| == 1 {
      assert parts + [last] == [parts[0], last];
    } else {
      assert (parts + [last])[1..] == parts[1..] + [last];
      JoinSnoc(parts[1..], last, sep);
    }
  }

  // ---------------------------------------------------------------------------
  // Whitespace: strip() and split()
  // ---------------------------------------------------------------------------

  /** The characters Python's `str.isspace()` accepts, which `strip()` and `split()` remove. */
  predicate IsSpace(c: char)
  {
    c == ' ' || c == '\t' || c == '\n' || c == '\r' || c == '\U{000B}' || c == '\U{000C}'
    || ('\U{001C}' <= c <= '\U{001F}') || c == '\U{0085}' || c == '\U{00A0}' || c == '\U{1680}'
    || ('\U{2000}' <= c <= '\U{200A}') || c == '\U{2028}' || c == '\U{2029}' || c == '\U{202F}'
    || c == '\U{205F}' || c == '\U{3000}'
  }

  function StripLeft(s: string): (r: string)
    ensures |r| <= |s| && r == s[|s| - |r|..]
    ensures |r| > 0 ==> !IsSpace(r[0])
    ensures forall k :: 0 <= k < |s| - |r| ==> IsSpace(s[k])
  {
    if |s| > 0 && IsSpace(s[0]) then StripLeft(s[1..]) else s
  }

  function StripRight(s: string): (r: string)
    ensures |r| <= |s| && r == s[..|r|]
    ensures |r| > 0 ==> !IsSpace(r[|r| - 1])
    ensures forall k :: |r| <= k < |s| ==> IsSpace(s[k])
  {
    if |s| > 0 && IsSpace(s[|s| - 1]) then StripRight(s[..|s| - 1]) else s
  }

  /** `s.strip()` */
  function Strip(s: string): string
  {
    StripRight(StripLeft(s))
  }

  /** `r` is the part of `s` that starts at index `i`. */
  predicate SliceAt(s: string, r: string, i: int)
  {
    0 <= i <= |s| - |r| && r == s[i..i + |r|]
  }

  /** `strip()` leaves a text with no whitespace at either end, cut out of the original. */
  lemma {:induction false} StripIsTrimmed(s: string)
    ensures var r := Strip(s);
      (|r| > 0 ==> !IsSpace(r[0]) && !IsSpace(r[|r| - 1]))
      && exists i :: SliceAt(s, r, i)
  {
    var l := StripLeft(s);
    var r := StripRight(l);
    var i := |s| - |l|;
    assert SliceAt(s, r, i);
  }

  /** A text that starts and ends with non-space characters is its own strip. */
  lemma {:induction false} StripNoEdgeSpace(s: string)
    requires |s| > 0 ==> !IsSpace(s[0]) && !IsSpace(s[|s| - 1])
    ensures Strip(s) == s
  {
  }

  /** `strip()` removes one space on each side of a text with no space at its edges. */
  lemma {:induction false} StripPadded(s: string)
    requires |s| > 0 && !IsSpace(s[0]) && !IsSpace(s[|s| - 1])
    ensures Strip([' '] + s + [' ']) == s
  {
    var padded := [' '] + s + [' '];
    assert padded[1..] == s + [' '];
    assert StripLeft(padded) == s + [' '];
    var t := s + [' '];
    assert t[..|t| - 1] == s;
    assert StripRight(t) == s;
  }

  /** `s.split()`: the maximal runs of non-space characters, left to right. */
  function Words(s: string): (r: seq<string>)
    ensures forall k :: 0 <= k < |r| ==> |r[k]| > 0
    decreases |s|
  {
    if |s| == 0 then []
    else if IsSpace(s[0]) then Words(s[1..])
    else
      var w := FirstWord(s);
      [w] + Words(s[|w|..])
  }

  function FirstWord(s: string): (r: string)
    ensures |r| <= |s| && r == s[..|r|]
    ensures |s| > 0 && !IsSpace(s[0]) ==> |r| > 0
    ensures forall k :: 0 <= k < |r| ==> !IsSpace(r[k])
  {
    if |s| == 0 || IsSpace(s[0]) then "" else [s[0]] + FirstWord(s[1..])
  }

  // ---------------------------------------------------------------------------
  // Searching: find, in, startswith, endswith
  // ---------------------------------------------------------------------------

  /** `p` occurs in `s` at index `i`. */
  predicate OccursAt(s: string, p: string, i: nat)
  {
    i + |p| <= |s| && s[i..i + |p|] == p
  }

  /**
   * `s.find(p, from)`, with `None` for Python's -1. What the index means is stated by
   * `FindFromSpec` and `FindFirst`.
   */
  function FindFrom(s: string, p: string, from: nat): (r: Option<nat>)
    ensures r.Some? ==> from <= r.value && r.value + |p| <= |s|
    decreases |s| - from
  {
    if from + |p| > |s| then None
    else if OccursAt(s, p, from) then Some(from)
    else FindFrom(s, p, from + 1)
  }

  /**
   * `find` reports the first occurrence at or after `from`, and reports none only when
   * there is none.
   */
  lemma {:induction false} FindFromSpec(s: string, p: string, from: nat)
    ensures var r := FindFrom(s, p, from);
      (r.Some? ==> OccursAt(s, p, r.value) && forall k :: from <= k < r.value ==> !OccursAt(s, p, k))
      && (r.None? ==> forall k :: from <= k ==> !OccursAt(s, p, k))
    decreases |s| - from
  {
    if from + |p| <= |s| && !OccursAt(s, p, from) {
      FindFromSpec(s, p, from + 1);
    }
  }

  /** An occurrence with none before it (from `from` on) is the one `find` reports. */
  lemma {:induction false} FindFirst(s: string, p: string, from: nat, i: nat)
    requires from <= i && OccursAt(s, p, i)
    requires forall k :: from <= k < i ==> !OccursAt(s, p, k)
    ensures FindFrom(s, p, from) == Some(i)
    decreases i - from
  {
    if from < i {
      assert !OccursAt(s, p, from);
      FindFirst(s, p, from + 1, i);
    }
  }

  /** `p in s` */
  predicate Contains(s: string, p: string)
  {
    FindFrom(s, p, 0).Some?
  }

  predicate StartsWith(s: string, p: string)
  {
    |p| <= |s| && s[..|p|] == p
  }

  predicate EndsWith(s: string, p: string)
  {
    |p| <= |s| && s[|s| - |p|..] == p
  }

  /** `min(a, b)` */
  function Min(a: int, b: int): int
  {
    if a < b then a else b
  }

  /** `s[:n]` */
  function Take<T>(s: seq<T>, n: nat): (r: seq<T>)
    ensures |r| == if n < |s| then n else |s|
    ensures r == s[..|r|]
  {
    if n < |s| then s[..n] else s
  }

  /** A slice grows by the element at its end. */
  lemma {:induction false} SliceSnoc<T>(s: seq<T>, i: nat, k: nat)
    requires i <= k < |s|
    ensures s[i..k + 1] == s[i..k] + [s[k]]
  {
  }

  /** A non-empty sequence is its prefix and its last element. */
  lemma LastSplit<T>(s: seq<T>)
    requires |s| > 0
    ensures s[..|s| - 1] + [s[|s| - 1]] == s && s[..|s|] == s
  {
  }

  /** `s.replace(p, q)`: every non-overlapping occurrence, left to right. */
  function ReplaceAll(s: string, p: string, q: string): string
    requires |p| > 0
    decreases |s|
  {
    if |s| < |p| then s
    else if s[..|p|] == p then q + ReplaceAll(s[|p|..], p, q)
    else [s[0]] + ReplaceAll(s[1..], p, q)
  }

  /** A text in which the pattern does not occur is left as it is by `replace`. */
  lemma {:induction false} ReplaceAbsent(s: string, p: string, q: string)
    requires |p| > 0
    requires forall k :: 0 <= k ==> !OccursAt(s, p, k)
    ensures ReplaceAll(s, p, q) == s
    decreases |s|
  {
    if |s| >= |p| {
      assert !OccursAt(s, p, 0);
      forall k | 0 <= k ensures !OccursAt(s[1..], p, k) {
        assert !OccursAt(s, p, k + 1);
        if k + |p| <= |s[1..]| {
          assert s[1..][k..k + |p|] == s[k + 1..k + 1 + |p|];
        }
      }
      ReplaceAbsent(s[1..], p, q);
      assert [s[0]] + s[1..] == s;
    }
  }

  // ---------------------------------------------------------------------------
  // Characters and numbers
  // ---------------------------------------------------------------------------

  predicate IsDigit(c: char)
  {
    '0' <= c <= '9'
  }

  /** `s.isdigit()`: non-empty and digits only. */
  predicate IsDigits(s: string)
  {
    |s| > 0 && forall k :: 0 <= k < |s| ==> IsDigit(s[k])
  }

  function LowerChar(c: char): char
  {
    if 'A' <= c <= 'Z' then (c as int + 32) as char else c
  }

  /** `s.lower()` */
  function Lower(s: string): (r: string)
    ensures |r| == |s|
  {
    seq(|s|, k requires 0 <= k < |s| => LowerChar(s[k]))
  }

  function DigitChar(d: nat): (c: char)
    requires d < 10
    ensures IsDigit(c)
  {
    ('0' as int + d) as char
  }

  /** `str(n)` for a natural number: its decimal digits. */
  function NatToString(n: nat): (r: string)
    ensures IsDigits(r)
    decreases n
  {
    if n < 10 then [DigitChar(n)] else NatToString(n / 10) + [DigitChar(n % 10)]
  }

  /** Different numbers print differently, so a number is recovered from its text. */
  lemma {:induction false} NatToStringInjective(a: nat, b: nat)
    requires NatToString(a) == NatToString(b)
    ensures a == b
    decreases a
  {
    var sa, sb := NatToString(a), NatToString(b);
    if a < 10 && b < 10 {
      assert DigitChar(a) == sa[0] == sb[0] == DigitChar(b);
    } else if a >= 10 && b >= 10 {
      assert sa[..|sa| - 1] == NatToString(a / 10);
      assert sb[..|sb| - 1] == NatToString(b / 10);
      NatToStringInjective(a / 10, b / 10);
      assert DigitChar(a % 10) == sa[|sa| - 1] == sb[|sb| - 1] == DigitChar(b % 10);
    }
  }

  // ---------------------------------------------------------------------------
  // Set iteration
  // ---------------------------------------------------------------------------

  /** `xs` lists the members of `s`, each once, in some order (Python's set order). */
  ghost predicate Enumerates(xs: seq<string>, s: set<string>)
  {
    |xs| == |s| && forall x :: x in xs <==> x in s
  }

  /** `list(s)`: the members of a set in the order iteration happens to give. */
  method Enumerate(s: set<string>) returns (xs: seq<string>)
    ensures Enumerates(xs, s)
  {
    xs := [];
    var rest := s;
    while rest != {}
      invariant rest <= s
      invariant |xs| + |rest| == |s|
      invariant forall x :: x in xs <==> x in s - rest
      decreases |rest|
    {
      var x :| x in rest;
      xs := xs + [x];
      rest := rest - {x};
    }
  }
}
