/** Order-preserving sequence operations behind Swift's `filter`,
    `compactMap` and `first(where:)`. */
module Sequences {
  import opened Wrappers

  /** `a` can be obtained from `b` by deleting elements: relative order kept. */
  predicate IsSubsequence<T(==)>(a: seq<T>, b: seq<T>)
    decreases |b|
  {
    if |a| == 0 then true
    else if |b| == 0 then false
    else (a[0] == b[0] && IsSubsequence(a[1..], b[1..])) || IsSubsequence(a, b[1..])
  }

  /** Every sequence is a subsequence of itself. */
  lemma {:induction false} SubsequenceReflexive<T>(s: seq<T>)
    ensures IsSubsequence(s, s)
    decreases |s|
  {
    if |s| > 0 {
      SubsequenceReflexive(s[1..]);
    }
  }

  /** `filter`: keeps, in order, the elements satisfying `p`; every kept
      element satisfies `p`. */
  function Filter<T>(s: seq<T>, p: T -> bool): (r: seq<T>)
    ensures |r| <= |s|
    ensures forall k :: 0 <= k < |r| ==> p(r[k])
    decreases |s|
  {
    if |s| == 0 then []
    else (if p(s[0]) then [s[0]] else []) + Filter(s[1..], p)
  }

  /** Counting: the result holds nothing `s` does not, and each element of
      `s` that satisfies `p` is kept exactly as often as it occurs in `s`. */
  lemma {:induction false} FilterCounts<T>(s: seq<T>, p: T -> bool)
    ensures multiset(Filter(s, p)) <= multiset(s)
    ensures forall i :: 0 <= i < |s| && p(s[i]) ==> multiset(Filter(s, p))[s[i]] == multiset(s)[s[i]]
    decreases |s|
  {
    if |s| > 0 {
      FilterCounts(s[1..], p);
      assert s == [s[0]] + s[1..];
      var r := Filter(s, p);
      var rest := Filter(s[1..], p);
      assert multiset(s) == multiset{s[0]} + multiset(s[1..]);
      if p(s[0]) {
        assert multiset(r) == multiset{s[0]} + multiset(rest);
      } else {
        assert r == rest;
      }
      forall i | 0 <= i < |s| && p(s[i])
        ensures multiset(r)[s[i]] == multiset(s)[s[i]]
      {
        if s[i] == s[0] {
          if s[i] !in multiset(s[1..]) {
            assert s[i] !in multiset(rest);
          } else {
            var j :| 0 <= j < |s[1..]| && s[1..][j] == s[i];
            assert s[1..][j] == s[j + 1];
          }
        } else {
          assert i > 0 && s[1..][i - 1] == s[i];
        }
      }
    }
  }

  /** The filter's result keeps the relative order of `s`. */
  lemma {:induction false} FilterIsSubsequence<T>(s: seq<T>, p: T -> bool)
    ensures IsSubsequence(Filter(s, p), s)
    decreases |s|
  {
    if |s| > 0 {
      FilterIsSubsequence(s[1..], p);
      var r := Filter(s, p);
      if p(s[0]) {
        assert r[0] == s[0] && r[1..] == Filter(s[1..], p);
      } else {
        assert r == Filter(s[1..], p);
        if |r| > 0 {
          assert IsSubsequence(r, s[1..]);
        }
      }
    }
  }

  /** Every element of `s` satisfying `p` shows up in the result. */
  lemma FilterComplete<T>(s: seq<T>, p: T -> bool, i: nat)
    requires i < |s| && p(s[i])
    ensures s[i] in Filter(s, p)
  {
    FilterCounts(s, p);
    assert s[i] in multiset(s);
  }

  /** Filtering with the same predicate a second time changes nothing. */
  lemma {:induction false} FilterIdempotent<T>(s: seq<T>, p: T -> bool)
    ensures Filter(Filter(s, p), p) == Filter(s, p)
  {
    FilterKeepsAll(Filter(s, p), p);
  }

  /** A filter that every element passes returns the sequence unchanged. */
  lemma {:induction false} FilterKeepsAll<T>(s: seq<T>, p: T -> bool)
    requires forall k :: 0 <= k < |s| ==> p(s[k])
    ensures Filter(s, p) == s
    decreases |s|
  {
    if |s| > 0 {
      FilterKeepsAll(s[1..], p);
      assert s == [s[0]] + s[1..];
    }
  }

  /** Filtering distributes over concatenation. */
  lemma {:induction false} FilterAppend<T>(a: seq<T>, b: seq<T>, p: T -> bool)
    ensures Filter(a + b, p) == Filter(a, p) + Filter(b, p)
    decreases |a|
  {
    if |a| > 0 {
      FilterAppend(a[1..], b, p);
      assert (a + b)[0] == a[0];
      assert (a + b)[1..] == a[1..] + b;
      var head := if p(a[0]) then [a[0]] else [];
      calc {
        Filter(a + b, p);
        head + Filter(a[1..] + b, p);
        head + (Filter(a[1..], p) + Filter(b, p));
        (head + Filter(a[1..], p)) + Filter(b, p);
      }
    } else {
      assert a + b == b;
    }
  }

  /** Filters with predicates that agree on every element of `s` agree. */
  lemma {:induction false} FilterCongruent<T>(s: seq<T>, p: T -> bool, q: T -> bool)
    requires forall k :: 0 <= k < |s| ==> p(s[k]) == q(s[k])
    ensures Filter(s, p) == Filter(s, q)
    decreases |s|
  {
    if |s| > 0 {
      FilterCongruent(s[1..], p, q);
    }
  }

  /** `compactMap`: applies `f` and keeps, in order, the values it produced. */
  function CompactMap<A, B>(s: seq<A>, f: A -> Option<B>): (r: seq<B>)
    ensures |r| <= |s|
    ensures forall k :: 0 <= k < |r| ==> exists i :: 0 <= i < |s| && f(s[i]) == Some(r[k])
    decreases |s|
  {
    if |s| == 0 then []
    else
      var rest := CompactMap(s[1..], f);
      assert forall k :: 0 <= k < |rest| ==> exists i :: 0 <= i < |s| && f(s[i]) == Some(rest[k]) by {
        forall k | 0 <= k < |rest|
          ensures exists i :: 0 <= i < |s| && f(s[i]) == Some(rest[k])
        {
          var i :| 0 <= i < |s[1..]| && f(s[1..][i]) == Some(rest[k]);
          assert f(s[i + 1]) == Some(rest[k]);
        }
      }
      match f(s[0])
      case Some(v) => [v] + rest
      case None => rest
  }

  /** The inputs on which `f` produces a value. */
  function Succeeds<A, B>(f: A -> Option<B>): A -> bool
  {
    x => f(x).Some?
  }

  /** Independent description of `compactMap`: first keep the inputs for
      which `f` succeeds, then unwrap `f` on each, position by position. */
  lemma {:induction false} CompactMapIsFilterThenMap<A, B>(s: seq<A>, f: A -> Option<B>)
    ensures var kept := Filter(s, Succeeds(f));
            && |CompactMap(s, f)| == |kept|
            && forall k :: 0 <= k < |kept| ==> Some(CompactMap(s, f)[k]) == f(kept[k])
    decreases |s|
  {
    if |s| > 0 {
      CompactMapIsFilterThenMap(s[1..], f);
      var kept := Filter(s, Succeeds(f));
      var keptRest := Filter(s[1..], Succeeds(f));
      var r := CompactMap(s, f);
      var rRest := CompactMap(s[1..], f);
      if f(s[0]).Some? {
        assert kept == [s[0]] + keptRest;
        assert r == [f(s[0]).value] + rRest;
        forall k | 0 <= k < |kept|
          ensures Some(r[k]) == f(kept[k])
        {
          if k > 0 {
            assert r[k] == rRest[k - 1] && kept[k] == keptRest[k - 1];
          }
        }
      } else {
        assert kept == keptRest;
        assert r == rRest;
      }
    }
  }

  /** `compactMap` distributes over concatenation. */
  lemma {:induction false} CompactMapAppend<A, B>(a: seq<A>, b: seq<A>, f: A -> Option<B>)
    ensures CompactMap(a + b, f) == CompactMap(a, f) + CompactMap(b, f)
    decreases |a|
  {
    if |a| == 0 {
      assert a + b == b;
    } else {
      CompactMapAppend(a[1..], b, f);
      assert (a + b)[0] == a[0];
      assert (a + b)[1..] == a[1..] + b;
    }
  }

  /** Index of the first element satisfying `p`, if any (`firstIndex(where:)`). */
  function FirstIndex<T>(s: seq<T>, p: T -> bool): (r: Option<nat>)
    ensures r.Some? ==> r.value < |s| && p(s[r.value])
    ensures r.Some? ==> forall j :: 0 <= j < r.value ==> !p(s[j])
    ensures r.None? <==> forall j :: 0 <= j < |s| ==> !p(s[j])
    decreases |s|
  {
    if |s| == 0 then None
    else if p(s[0]) then Some(0)
    else match FirstIndex(s[1..], p)
      case None => None
      case Some(i) => Some(i + 1)
  }
}
