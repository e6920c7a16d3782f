/**
 * `sort.Strings`: Go orders strings by their bytes, which for UTF-8 text is
 * the order of the code points, character by character, a proper prefix
 * coming first.
 */
module Sorting {

  /**
   * Go's `a < b` on strings: never true of equal strings, and true whenever
   * `a` is a proper prefix of `b`.
   */
  function LexLess(a: string, b: string): (r: bool)
    ensures r ==> a != b
    ensures a < b ==> r
    decreases |a|
  {
    if |a| == 0 then |b| > 0
    else if |b| == 0 then false
    else if a[0] == b[0] then
      assert a == [a[0]] + a[1..] && b == [b[0]] + b[1..];
      LexLess(a[1..], b[1..])
    else a[0] < b[0]
  }

  lemma {:induction false} LexLessTransitive(a: string, b: string, c: string)
    requires LexLess(a, b) && LexLess(b, c)
    ensures LexLess(a, c)
    decreases |a|
  {
    if |a| > 0 && a[0] == b[0] && b[0] == c[0] {
      LexLessTransitive(a[1..], b[1..], c[1..]);
    }
  }

  /** Of two different strings one comes first, and never both. */
  lemma {:induction false} LexLessTotal(a: string, b: string)
    ensures a != b <==> LexLess(a, b) || LexLess(b, a)
    ensures !(LexLess(a, b) && LexLess(b, a))
    decreases |a|
  {
    if |a| == 0 {
    } else if |b| == 0 {
    } else if a[0] == b[0] {
      LexLessTotal(a[1..], b[1..]);
      assert a == [a[0]] + a[1..] && b == [b[0]] + b[1..];
    }
  }

  /** Ascending, equal strings allowed next to each other. */
  predicate Sorted(s: seq<string>)
  {
    forall i, j :: 0 <= i < j < |s| ==> !LexLess(s[j], s[i])
  }

  /** Ascending with no repeats. */
  predicate StrictlySorted(s: seq<string>)
  {
    forall i, j :: 0 <= i < j < |s| ==> LexLess(s[i], s[j])
  }

  /** `x` put in front of the first element not below it. */
  function Insert(x: string, s: seq<string>): (r: seq<string>)
    ensures multiset(r) == multiset(s) + multiset{x}
  {
    if |s| == 0 || !LexLess(s[0], x) then [x] + s
    else
      assert s == [s[0]] + s[1..];
      [s[0]] + Insert(x, s[1..])
  }

  lemma {:induction false} InsertSorted(x: string, s: seq<string>)
    requires Sorted(s)
    ensures Sorted(Insert(x, s))
  {
    if |s| == 0 || !LexLess(s[0], x) {
      var r := [x] + s;
      forall j | 0 < j < |r|
        ensures !LexLess(r[j], x)
      {
        if j > 1 {
          LexLessTotal(s[0], s[j - 1]);
          if LexLess(s[0], s[j - 1]) && LexLess(s[j - 1], x) {
            LexLessTransitive(s[0], s[j - 1], x);
          }
        }
      }
    } else {
      InsertSorted(x, s[1..]);
      var r := Insert(x, s);
      forall j | 0 < j < |r|
        ensures !LexLess(r[j], s[0])
      {
        assert r[j] in multiset(s[1..]) + multiset{x};
        if r[j] == x {
          LexLessTotal(s[0], x);
        } else {
          var k :| 0 <= k < |s[1..]| && s[1..][k] == r[j];
          assert s[k + 1] == r[j];
        }
      }
    }
  }

  /** `sort.Strings` on a copy: an insertion sort. */
  function SortStrings(s: seq<string>): (r: seq<string>)
    ensures multiset(r) == multiset(s)
  {
    if |s| == 0 then []
    else
      assert s == [s[0]] + s[1..];
      Insert(s[0], SortStrings(s[1..]))
  }

  lemma {:induction false} SortStringsSorted(s: seq<string>)
    ensures Sorted(SortStrings(s))
  {
    if |s| > 0 {
      SortStringsSorted(s[1..]);
      InsertSorted(s[0], SortStrings(s[1..]));
    }
  }

  /** Sorting strings that are pairwise different leaves them strictly ascending. */
  lemma SortDistinct(s: seq<string>)
    requires forall i, j :: 0 <= i < j < |s| ==> s[i] != s[j]
    ensures StrictlySorted(SortStrings(s))
  {
    var r := SortStrings(s);
    SortStringsSorted(s);
    forall i, j | 0 <= i < j < |r|
      ensures LexLess(r[i], r[j])
    {
      DistinctAfterPermutation(s, r, i, j);
      LexLessTotal(r[i], r[j]);
    }
  }

  /** Two places of a rearrangement of pairwise different strings hold different strings. */
  lemma DistinctAfterPermutation(s: seq<string>, r: seq<string>, i: nat, j: nat)
    requires forall a, b :: 0 <= a < b < |s| ==> s[a] != s[b]
    requires multiset(r) == multiset(s)
    requires i < j < |r|
    ensures r[i] != r[j]
  {
    DistinctCountAtMostOne(s, r[i]);
    TwoPlaces(r, i, j);
  }

  /** A string found at two places of a sequence occurs in it at least twice. */
  lemma TwoPlaces(r: seq<string>, i: nat, j: nat)
    requires i < j < |r|
    ensures r[i] == r[j] ==> multiset(r)[r[i]] >= 2
  {
    assert r == r[..i] + [r[i]] + r[i + 1..j] + [r[j]] + r[j + 1..];
  }

  lemma {:induction false} DistinctCountAtMostOne(s: seq<string>, x: string)
    requires forall a, b :: 0 <= a < b < |s| ==> s[a] != s[b]
    ensures multiset(s)[x] <= 1
  {
    if |s| > 0 {
      DistinctCountAtMostOne(s[1..], x);
      assert s == [s[0]] + s[1..];
      if s[0] == x {
        assert x !in s[1..];
      }
    }
  }
}
