/**
 * The catalog's pagination step: `Math.ceil(total / limit)` pages, and the
 * page `slice((page - 1) * limit, (page - 1) * limit + limit)`.
 */
module Pagination {

  function Min(a: int, b: int): int
  {
    if a <= b then a else b
  }

  /**
   * `Math.ceil(total / limit)`: the least number of pages of `limit` items
   * that hold `total` items.
   */
  function TotalPages(total: nat, limit: int): (n: nat)
    requires limit >= 1
    ensures n * limit >= total
    ensures n == 0 || (n - 1) * limit < total
  {
    var n := (total + limit - 1) / limit;
    DivisionBounds(total + limit - 1, limit, n);
    n
  }

  lemma DivisionBounds(t: nat, limit: int, n: int)
    requires limit >= 1 && n == t / limit
    ensures n * limit <= t < n * limit + limit
    ensures n >= 0
  {
  }

  /**
   * `s.slice(start, end)` for `0 <= start <= end`: the elements from index
   * `start` up to but excluding `end`, both clamped to the length of `s`.
   */
  function Slice<T>(s: seq<T>, start: nat, end: nat): (r: seq<T>)
    requires start <= end
    ensures |r| <= end - start
  {
    if start >= |s| then [] else s[start..Min(end, |s|)]
  }

  /** The items of page `page` (1-based) when `limit` items go on each page. */
  function Paginate<T>(s: seq<T>, page: int, limit: int): seq<T>
    requires page >= 1 && limit >= 1
  {
    var start := (page - 1) * limit;
    Slice(s, start, start + limit)
  }

  /**
   * A page holds at most `limit` items: the consecutive run of `s` starting
   * at `(page - 1) * limit` and ending at `min(|s|, page * limit)`.
   */
  lemma PageIsSlice<T>(s: seq<T>, page: int, limit: int)
    requires page >= 1 && limit >= 1
    ensures |Paginate(s, page, limit)| <= limit
    ensures (page - 1) * limit <= |s| ==>
      Paginate(s, page, limit) == s[(page - 1) * limit..Min(|s|, page * limit)]
  {
    assert (page - 1) * limit + limit == page * limit;
  }

  /** A page past the last page is empty; every page up to the last one holds at least one item. */
  lemma PageEmptyIffPastLast<T>(s: seq<T>, page: int, limit: int)
    requires page >= 1 && limit >= 1
    ensures Paginate(s, page, limit) == [] <==> page > TotalPages(|s|, limit)
  {
    var n := TotalPages(|s|, limit);
    if page > n {
      MulMonotone(n, page - 1, limit);
    } else {
      MulMonotone(page - 1, n - 1, limit);
    }
  }

  lemma MulMonotone(a: int, b: int, c: int)
    requires 0 <= a <= b && c >= 0
    ensures a * c <= b * c
  {
  }

  /** Every page before the last one is full. */
  lemma PageFullBeforeLast<T>(s: seq<T>, page: int, limit: int)
    requires limit >= 1 && 1 <= page < TotalPages(|s|, limit)
    ensures |Paginate(s, page, limit)| == limit
  {
    var n := TotalPages(|s|, limit);
    MulMonotone(page, n - 1, limit);
    assert (page - 1) * limit + limit == page * limit;
  }

  /** Item `i` of `s` is item `i % limit` of page `i / limit + 1`: the pages together cover `s`. */
  lemma PageCovers<T>(s: seq<T>, limit: int, i: int)
    requires limit >= 1 && 0 <= i < |s|
    ensures var page := Paginate(s, i / limit + 1, limit);
      i % limit < |page| && page[i % limit] == s[i]
  {
    var q, r := i / limit, i % limit;
    assert i == q * limit + r;
    assert (q + 1 - 1) * limit == q * limit;
  }
}
