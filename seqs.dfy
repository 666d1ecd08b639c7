/**
 * Order-preserving filtering of sequences, the model of `Array.prototype.filter`
 * with a side-effect-free callback, and the laws the stores and the catalog
 * engine rely on.
 */
module Seqs {

  /** The elements of `s` that `keep` accepts, in their order in `s`. */
  function Filter<T>(s: seq<T>, keep: T -> bool): (r: seq<T>)
    ensures |r| <= |s|
    ensures forall i :: 0 <= i < |r| ==> keep(r[i])
  {
    if s == [] then []
    else (if keep(s[0]) then [s[0]] else []) + Filter(s[1..], keep)
  }

  /** The result holds exactly the accepted elements of the input. */
  lemma {:induction false} FilterMembers<T>(s: seq<T>, keep: T -> bool)
    ensures forall i :: 0 <= i < |Filter(s, keep)| ==> Filter(s, keep)[i] in s
    ensures forall i :: 0 <= i < |s| && keep(s[i]) ==> s[i] in Filter(s, keep)
  {
    if s != [] {
      var tail := s[1..];
      FilterMembers(tail, keep);
      var r := Filter(s, keep);
      var rest := Filter(tail, keep);
      assert r == (if keep(s[0]) then [s[0]] else []) + rest;
      forall i | 0 <= i < |s| && keep(s[i])
        ensures s[i] in r
      {
        if i > 0 {
          assert s[i] == tail[i - 1];
        }
      }
    }
  }

  /** Every accepted value is kept as often as it occurs in the input; every rejected one is dropped. */
  lemma {:induction false} FilterCount<T>(s: seq<T>, keep: T -> bool)
    ensures forall x :: multiset(Filter(s, keep))[x] == if keep(x) then multiset(s)[x] else 0
  {
    if s != [] {
      var tail := s[1..];
      FilterCount(tail, keep);
      assert s == [s[0]] + tail;
      assert Filter(s, keep) == (if keep(s[0]) then [s[0]] else []) + Filter(tail, keep);
    }
  }

  /** `r` can be obtained from `s` by deleting elements, keeping the rest in order. */
  predicate IsSubsequence<T(==)>(r: seq<T>, s: seq<T>)
  {
    r == [] ||
    (s != [] && ((r[0] == s[0] && IsSubsequence(r[1..], s[1..])) || IsSubsequence(r, s[1..])))
  }

  /** Filtering never reorders: the result is a subsequence of the input. */
  lemma {:induction false} FilterIsSubsequence<T>(s: seq<T>, keep: T -> bool)
    ensures IsSubsequence(Filter(s, keep), s)
  {
    if s != [] {
      FilterIsSubsequence(s[1..], keep);
      var rest := Filter(s[1..], keep);
      if keep(s[0]) {
        var r := Filter(s, keep);
        assert r == [s[0]] + rest;
        assert r[0] == s[0] && r[1..] == rest;
      } else {
        assert Filter(s, keep) == rest;
      }
    }
  }

  /** Filtering distributes over concatenation. */
  lemma {:induction false} FilterAppend<T>(a: seq<T>, b: seq<T>, keep: T -> bool)
    ensures Filter(a + b, keep) == Filter(a, keep) + Filter(b, keep)
  {
    if a == [] {
      assert a + b == b;
    } else {
      assert (a + b)[0] == a[0];
      assert (a + b)[1..] == a[1..] + b;
      FilterAppend(a[1..], b, keep);
    }
  }

  lemma FilterSingleton<T>(x: T, keep: T -> bool)
    ensures Filter([x], keep) == if keep(x) then [x] else []
  {
    assert [x][1..] == [];
  }

  /** Filters whose conditions agree on every element of `s` select the same elements. */
  lemma {:induction false} FilterCongruent<T>(s: seq<T>, keep: T -> bool, keep': T -> bool)
    requires forall i :: 0 <= i < |s| ==> keep(s[i]) == keep'(s[i])
    ensures Filter(s, keep) == Filter(s, keep')
  {
    if s != [] {
      FilterCongruent(s[1..], keep, keep');
    }
  }

  /** A filter that accepts every element returns its input unchanged. */
  lemma {:induction false} FilterKeepsAll<T>(s: seq<T>, keep: T -> bool)
    requires forall i :: 0 <= i < |s| ==> keep(s[i])
    ensures Filter(s, keep) == s
  {
    if s != [] {
      FilterKeepsAll(s[1..], keep);
    }
  }

  /** A filter that rejects exactly the element at index `k` deletes that element and nothing else. */
  lemma {:induction false} FilterDropsOne<T>(s: seq<T>, keep: T -> bool, k: nat)
    requires k < |s| && !keep(s[k])
    requires forall i :: 0 <= i < |s| && i != k ==> keep(s[i])
    ensures Filter(s, keep) == s[..k] + s[k+1..]
  {
    var tail := s[1..];
    if k == 0 {
      forall i | 0 <= i < |tail|
        ensures keep(tail[i])
      {
        assert tail[i] == s[i + 1];
      }
      FilterKeepsAll(tail, keep);
    } else {
      forall i | 0 <= i < |tail| && i != k - 1
        ensures keep(tail[i])
      {
        assert tail[i] == s[i + 1];
      }
      FilterDropsOne(tail, keep, k - 1);
      assert s[..k] == [s[0]] + tail[..k - 1];
      assert s[k + 1..] == tail[k..];
    }
  }

  /** Two filters in a row are one filter by the conjunction of their conditions. */
  lemma {:induction false} FilterFilter<T>(s: seq<T>, first: T -> bool, second: T -> bool, both: T -> bool)
    requires forall i :: 0 <= i < |s| ==> both(s[i]) == (first(s[i]) && second(s[i]))
    ensures Filter(Filter(s, first), second) == Filter(s, both)
  {
    if s != [] {
      FilterFilter(s[1..], first, second, both);
      var rest := Filter(s[1..], first);
      var fs := Filter(s, first);
      if first(s[0]) {
        assert fs == [s[0]] + rest;
        assert fs[0] == s[0] && fs[1..] == rest;
      } else {
        assert fs == rest;
      }
    }
  }

  /**
   * If `inserted` filters to `init`'s result followed by `x`'s, then appending
   * `last` keeps that shape, provided `x` and `last` are not both accepted.
   */
  lemma FilterPastLast<T>(inserted: seq<T>, init: seq<T>, last: T, x: T, keep: T -> bool)
    requires !(keep(x) && keep(last))
    requires Filter(inserted, keep) == Filter(init, keep) + Filter([x], keep)
    ensures Filter(inserted + [last], keep) == Filter(init + [last], keep) + Filter([x], keep)
  {
    FilterAppend(inserted, [last], keep);
    FilterAppend(init, [last], keep);
    FilterSingleton(last, keep);
    FilterSingleton(x, keep);
    var fi := Filter(init, keep);
    if keep(x) {
      // `last` is dropped, so appending it changes neither side
      assert Filter(inserted + [last], keep) == Filter(inserted, keep) + [];
      assert Filter(init + [last], keep) == fi + [];
    } else {
      // `x` is dropped, so both sides are `fi` followed by `last`'s result
      assert Filter(inserted, keep) == fi + [];
      assert Filter([x], keep) == [];
    }
  }
}
