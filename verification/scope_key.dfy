/**
 Canonical cache keys for scope lists (lib/googleapi.rb:49, `scopes.sort.to_json`).

 Ruby compares strings by their bytes; for text, UTF-8 byte order is code point
 order, so the comparison is modelled as the lexicographic order on `char`s with a
 proper prefix sorting first. `to_json` of an array of strings is injective, so the
 model keys the cache by the sorted list itself: two keys are equal exactly when
 their JSON strings are.
 */
module ScopeKey {

  /**
   `a` sorts at or before `b` under Ruby's `String#<=>`: the first differing
   character decides, and a proper prefix sorts first.
   */
  predicate Below(a: string, b: string)
    ensures |a| <= |b| && a == b[..|a|] ==> Below(a, b)
    ensures |b| < |a| && b == a[..|b|] ==> !Below(a, b)
    decreases |a|
  {
    if |a| == 0 then true
    else if |b| == 0 then false
    else if a[0] != b[0] then a[0] < b[0]
    else Below(a[1..], b[1..])
  }

  lemma BelowReflexive(a: string)
    ensures Below(a, a)
  {
  }

  lemma {:induction false} BelowTotal(a: string, b: string)
    ensures Below(a, b) || Below(b, a)
    decreases |a|
  {
    if |a| > 0 && |b| > 0 && a[0] == b[0] {
      BelowTotal(a[1..], b[1..]);
    }
  }

  lemma {:induction false} BelowAntisymmetric(a: string, b: string)
    requires Below(a, b) && Below(b, a)
    ensures a == b
    decreases |a|
  {
    if |a| > 0 {
      BelowAntisymmetric(a[1..], b[1..]);
      assert a == [a[0]] + a[1..] && b == [b[0]] + b[1..];
    }
  }

  lemma {:induction false} BelowTransitive(a: string, b: string, c: string)
    requires Below(a, b) && Below(b, c)
    ensures Below(a, c)
    decreases |a|
  {
    if |a| > 0 && a[0] == b[0] && b[0] == c[0] {
      BelowTransitive(a[1..], b[1..], c[1..]);
    }
  }

  /** Every element is at or before every later one. */
  ghost predicate Sorted(s: seq<string>) {
    forall i, j :: 0 <= i < j < |s| ==> Below(s[i], s[j])
  }

  /** Inserts `x` before the first element it sorts at or before. */
  function Insert(x: string, s: seq<string>): (r: seq<string>)
    requires Sorted(s)
    ensures Sorted(r)
    ensures multiset(r) == multiset(s) + multiset{x}
  {
    if |s| == 0 then [x]
    else if Below(x, s[0]) then
      assert forall j :: 0 <= j < |s| ==> Below(x, s[j]) by {
        forall j | 0 <= j < |s| ensures Below(x, s[j]) {
          if j > 0 { BelowTransitive(x, s[0], s[j]); }
        }
      }
      [x] + s
    else
      var t := Insert(x, s[1..]);
      assert s == [s[0]] + s[1..];
      assert forall j :: 0 <= j < |t| ==> Below(s[0], t[j]) by {
        forall j | 0 <= j < |t| ensures Below(s[0], t[j]) {
          assert t[j] in multiset(t);
          if t[j] == x {
            BelowTotal(x, s[0]);
          } else {
            assert t[j] in multiset(s[1..]);
            var k :| 0 <= k < |s[1..]| && s[1..][k] == t[j];
            assert s[k + 1] == t[j];
          }
        }
      }
      [s[0]] + t
  }

  /** Ruby's `Array#sort` on strings: the sorted permutation of `s`. */
  function Sort(s: seq<string>): (r: seq<string>)
    ensures Sorted(r)
    ensures multiset(r) == multiset(s)
  {
    if |s| == 0 then []
    else
      assert s == [s[0]] + s[1..];
      Insert(s[0], Sort(s[1..]))
  }

  /** The head of a sorted list sorts at or before everything in the list. */
  lemma SortedHeadLeast(a: seq<string>, x: string)
    requires Sorted(a) && |a| > 0
    requires x in multiset(a)
    ensures Below(a[0], x)
  {
  }

  /** Dropping the head removes exactly one occurrence of it. */
  lemma MultisetOfTail(a: seq<string>)
    requires |a| > 0
    ensures multiset(a[1..]) == multiset(a) - multiset{a[0]}
  {
    assert a == [a[0]] + a[1..];
  }

  /** A sorted list is determined by its multiset of elements. */
  lemma {:induction false} SortedUnique(a: seq<string>, b: seq<string>)
    requires Sorted(a) && Sorted(b)
    requires multiset(a) == multiset(b)
    ensures a == b
    decreases |a|
  {
    if |a| == 0 {
      assert |multiset(b)| == 0;
    } else {
      assert |b| == |multiset(b)| == |multiset(a)| == |a|;
      SortedHeadLeast(b, a[0]);
      SortedHeadLeast(a, b[0]);
      BelowAntisymmetric(a[0], b[0]);
      MultisetOfTail(a);
      MultisetOfTail(b);
      SortedUnique(a[1..], b[1..]);
    }
  }

  /** The cache key of a scope list (lib/googleapi.rb:49). */
  function Key(scopes: seq<string>): (k: seq<string>)
    ensures Sorted(k)
    ensures multiset(k) == multiset(scopes)
  {
    Sort(scopes)
  }

  /**
   Two scope lists share a cache entry exactly when they hold the same scopes
   the same number of times: order is irrelevant, duplicates are not removed.
   */
  lemma KeyDeterminedByMultiset(a: seq<string>, b: seq<string>)
    ensures Key(a) == Key(b) <==> multiset(a) == multiset(b)
  {
    if multiset(a) == multiset(b) {
      SortedUnique(Key(a), Key(b));
    }
  }

  /** A list that is already sorted is its own key. */
  lemma KeyOfSorted(s: seq<string>)
    requires Sorted(s)
    ensures Key(s) == s
  {
    SortedUnique(Key(s), s);
  }

  /** Repeating a scope gives a different cache entry: `[a, a]` is not `[a]`. */
  lemma DuplicatesAreDistinctKeys(a: string)
    ensures Key([a, a]) != Key([a])
  {
  }
}
