/**
 * Python's ordering of strings (lexicographic by code point) and `sorted`
 * over a list of distinct strings, written as an insertion sort.
 */
module Ordering {

  /**
   * `a < b` on Python strings: the first differing code point decides, and a
   * proper prefix sorts first.
   */
  predicate StringLess(a: string, b: string): (r: bool)
    ensures r ==> a != b
    ensures |a| < |b| && a == b[..|a|] ==> r
  {
    if a == [] then b != []
    else if b == [] then false
    else if a[0] != b[0] then a[0] < b[0]
    else StringLess(a[1..], b[1..])
  }

  lemma {:induction false} StringLessIrreflexive(a: string)
    ensures !StringLess(a, a)
  {
    if a != [] {
      StringLessIrreflexive(a[1..]);
    }
  }

  lemma {:induction false} StringLessTransitive(a: string, b: string, c: string)
    requires StringLess(a, b) && StringLess(b, c)
    ensures StringLess(a, c)
  {
    if a != [] && b != [] && c != [] && a[0] == b[0] && b[0] == c[0] {
      StringLessTransitive(a[1..], b[1..], c[1..]);
    }
  }

  lemma {:induction false} StringLessTotal(a: string, b: string)
    requires a != b
    ensures StringLess(a, b) || StringLess(b, a)
  {
    if a != [] && b != [] && a[0] == b[0] {
      assert a == [a[0]] + a[1..] && b == [b[0]] + b[1..];
      StringLessTotal(a[1..], b[1..]);
    }
  }

  /** Every earlier element is smaller than every later one. */
  predicate StrictlySorted(s: seq<string>) {
    forall i, j | 0 <= i < j < |s| :: StringLess(s[i], s[j])
  }

  /** `x` placed before the first element of `s` that is larger than it. */
  function Insert(x: string, s: seq<string>): (r: seq<string>)
    ensures multiset(r) == multiset(s) + multiset{x}
  {
    if s == [] then [x]
    else if StringLess(x, s[0]) then [x] + s
    else
      assert s == [s[0]] + s[1..];
      [s[0]] + Insert(x, s[1..])
  }

  lemma {:induction false} InsertSorted(x: string, s: seq<string>)
    requires StrictlySorted(s) && x !in s
    ensures StrictlySorted(Insert(x, s))
  {
    if s == [] {
    } else if StringLess(x, s[0]) {
      forall j | 0 <= j < |s| ensures StringLess(x, s[j]) {
        if j > 0 {
          StringLessTransitive(x, s[0], s[j]);
        }
      }
      var r := [x] + s;
      forall i, j | 0 <= i < j < |r| ensures StringLess(r[i], r[j]) {
        assert r[j] == s[j - 1];
      }
    } else {
      StringLessTotal(x, s[0]);
      InsertSorted(x, s[1..]);
      var r := Insert(x, s);
      var t := Insert(x, s[1..]);
      forall j | 0 <= j < |t| ensures StringLess(s[0], t[j]) {
        assert t[j] in multiset(t);
        assert t[j] == x || t[j] in s[1..];
      }
      assert r == [s[0]] + t;
    }
  }

  /** `sorted(keys)`. */
  function SortedKeys(keys: seq<string>): (r: seq<string>)
    ensures multiset(r) == multiset(keys)
    ensures |r| == |keys|
  {
    if keys == [] then []
    else
      assert keys == [keys[0]] + keys[1..];
      Insert(keys[0], SortedKeys(keys[1..]))
  }

  /** No string occurs twice. */
  predicate Distinct(s: seq<string>) {
    forall i, j | 0 <= i < j < |s| :: s[i] != s[j]
  }

  /** Sorting distinct keys lists each of them once, in strictly increasing order. */
  lemma {:induction false} SortedKeysSorted(keys: seq<string>)
    requires Distinct(keys)
    ensures StrictlySorted(SortedKeys(keys))
    ensures |SortedKeys(keys)| == |keys|
    ensures forall k :: k in SortedKeys(keys) <==> k in keys
  {
    var r := SortedKeys(keys);
    assert |r| == |multiset(r)| == |multiset(keys)| == |keys|;
    forall k ensures k in r <==> k in keys {
      assert k in r <==> k in multiset(r);
      assert k in keys <==> k in multiset(keys);
    }
    if keys != [] {
      var rest := keys[1..];
      SortedKeysSorted(rest);
      assert keys[0] !in rest;
      assert keys[0] !in SortedKeys(rest);
      InsertSorted(keys[0], SortedKeys(rest));
    }
  }

  /** A strictly sorted sequence has no repeated element. */
  lemma StrictlySortedDistinct(s: seq<string>)
    requires StrictlySorted(s)
    ensures Distinct(s)
  {
    forall i, j | 0 <= i < j < |s| ensures s[i] != s[j] {
      StringLessIrreflexive(s[i]);
    }
  }
}
