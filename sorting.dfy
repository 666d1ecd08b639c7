/**
 * The catalog's sort step: the comparator built from `sortBy` / `sortOrder`,
 * the stable sort it is handed to (section 23.1.3.30 of ECMA-262, 2023
 * edition, requires `Array.prototype.sort` to be stable), a specification of
 * that sort as a function, and an in-place insertion sort proved against it.
 */
module Sorting {
  import opened Products
  import opened Seqs

  datatype SortKey = ByTitle | ByPrice | ByRating

  /** The comparator the catalog sorts with: a key and a direction. */
  datatype Ordering = Ordering(key: SortKey, desc: bool)

  /** The `switch (sortBy)`: "price" and "rating" select those keys; anything else falls back to title. */
  function KeyOf(sortBy: string): (k: SortKey)
    ensures k == ByPrice <==> sortBy == "price"
    ensures k == ByRating <==> sortBy == "rating"
  {
    if sortBy == "price" then ByPrice
    else if sortBy == "rating" then ByRating
    else ByTitle
  }

  /** Only the exact string "desc" reverses the comparison. */
  function OrderingOf(sortBy: string, sortOrder: string): (o: Ordering)
    ensures o.key == ByTitle <==> sortBy != "price" && sortBy != "rating"
    ensures o.desc <==> sortOrder == "desc"
  {
    Ordering(KeyOf(sortBy), sortOrder == "desc")
  }

  /**
   * Title comparison: negative, zero or positive as `a` sorts before, with or
   * after `b`. The source's `localeCompare` is locale dependent; the model
   * uses lexicographic order on characters as a fixed total order.
   */
  function TitleCompare(a: string, b: string): (c: int)
    ensures -1 <= c <= 1
  {
    if a == [] && b == [] then 0
    else if a == [] then -1
    else if b == [] then 1
    else if a[0] < b[0] then -1
    else if a[0] > b[0] then 1
    else TitleCompare(a[1..], b[1..])
  }

  lemma {:induction false} TitleCompareAntisymmetric(a: string, b: string)
    ensures TitleCompare(a, b) == -TitleCompare(b, a)
  {
    if a != [] && b != [] && a[0] == b[0] {
      TitleCompareAntisymmetric(a[1..], b[1..]);
    }
  }

  /** Titles compare equal exactly when they are the same string. */
  lemma {:induction false} TitleCompareZero(a: string, b: string)
    ensures TitleCompare(a, b) == 0 <==> a == b
  {
    if a != [] && b != [] && a[0] == b[0] {
      TitleCompareZero(a[1..], b[1..]);
      assert a == [a[0]] + a[1..] && b == [b[0]] + b[1..];
    }
  }

  lemma {:induction false} TitleCompareTransitive(a: string, b: string, c: string)
    requires TitleCompare(a, b) <= 0 && TitleCompare(b, c) <= 0
    ensures TitleCompare(a, c) <= 0
  {
    if a != [] && b != [] && c != [] && a[0] == b[0] == c[0] {
      TitleCompareTransitive(a[1..], b[1..], c[1..]);
    }
  }

  /** The comparison of the `switch`, before the direction is applied. */
  function Compare(a: Product, b: Product, key: SortKey): int
  {
    match key
    case ByPrice => a.price - b.price
    case ByRating => a.rating - b.rating
    case ByTitle => TitleCompare(a.title, b.title)
  }

  /** `a` and `b` carry the same value of the sort key. */
  predicate SameKey(a: Product, b: Product, key: SortKey)
  {
    match key
    case ByPrice => a.price == b.price
    case ByRating => a.rating == b.rating
    case ByTitle => a.title == b.title
  }

  /** The callback passed to `sort`: the key comparison, negated for "desc". */
  function Comparator(a: Product, b: Product, o: Ordering): int
  {
    var c := Compare(a, b, o.key);
    if o.desc then -c else c
  }

  /** The callback reports a tie exactly when the two products carry the same key, in either direction. */
  lemma ComparatorTieIffSameKey(a: Product, b: Product, o: Ordering)
    ensures Comparator(a, b, o) == 0 <==> SameKey(a, b, o.key)
  {
    TitleCompareZero(a.title, b.title);
  }

  lemma ComparatorAntisymmetric(a: Product, b: Product, o: Ordering)
    ensures Comparator(a, b, o) == -Comparator(b, a, o)
  {
    TitleCompareAntisymmetric(a.title, b.title);
  }

  /** "Sorts no later than" is transitive, in either direction. */
  lemma ComparatorTransitive(a: Product, b: Product, c: Product, o: Ordering)
    requires Comparator(a, b, o) <= 0 && Comparator(b, c, o) <= 0
    ensures Comparator(a, c, o) <= 0
  {
    if o.key == ByTitle {
      if o.desc {
        TitleCompareAntisymmetric(a.title, b.title);
        TitleCompareAntisymmetric(b.title, c.title);
        TitleCompareAntisymmetric(a.title, c.title);
        TitleCompareTransitive(c.title, b.title, a.title);
      } else {
        TitleCompareTransitive(a.title, b.title, c.title);
      }
    }
  }

  /** Ties of the comparator form an equivalence: two products tied with a third are tied. */
  lemma ComparatorTieTransitive(a: Product, b: Product, c: Product, o: Ordering)
    requires Comparator(a, b, o) == 0 && Comparator(b, c, o) == 0
    ensures Comparator(a, c, o) == 0
  {
    ComparatorAntisymmetric(a, b, o);
    ComparatorAntisymmetric(b, c, o);
    ComparatorAntisymmetric(a, c, o);
    ComparatorTransitive(a, b, c, o);
    ComparatorTransitive(c, b, a, o);
  }

  /** Every earlier element sorts no later than every later one. */
  predicate Sorted(s: seq<Product>, o: Ordering)
  {
    forall i, j :: 0 <= i < j < |s| ==> Comparator(s[i], s[j], o) <= 0
  }

  /**
   * Insert `x` into sorted `s` after every element that does not sort
   * strictly after it: the step of a stable insertion sort.
   */
  function Insert(s: seq<Product>, x: Product, o: Ordering): (r: seq<Product>)
    ensures |r| == |s| + 1
  {
    if s == [] then [x]
    else if Comparator(s[|s| - 1], x, o) > 0 then Insert(s[..|s| - 1], x, o) + [s[|s| - 1]]
    else s + [x]
  }

  /** The stable sort, specified as insertion of each element in turn, left to right. */
  function StableSort(s: seq<Product>, o: Ordering): (r: seq<Product>)
    ensures |r| == |s|
  {
    if s == [] then []
    else Insert(StableSort(s[..|s| - 1], o), s[|s| - 1], o)
  }

  /** Inserting adds exactly one occurrence of `x` and loses nothing. */
  lemma {:induction false} InsertPermutes(s: seq<Product>, x: Product, o: Ordering)
    ensures multiset(Insert(s, x, o)) == multiset(s) + multiset{x}
  {
    if s != [] {
      var init, last := s[..|s| - 1], s[|s| - 1];
      assert s == init + [last];
      if Comparator(last, x, o) > 0 {
        InsertPermutes(init, x, o);
      }
    }
  }

  /** The sorted output is a permutation of the input. */
  lemma {:induction false} StableSortPermutes(s: seq<Product>, o: Ordering)
    ensures multiset(StableSort(s, o)) == multiset(s)
  {
    if s != [] {
      var init, last := s[..|s| - 1], s[|s| - 1];
      assert s == init + [last];
      StableSortPermutes(init, o);
      InsertPermutes(StableSort(init, o), last, o);
    }
  }

  /** Appending an element that no element sorts after keeps a sorted list sorted. */
  lemma SortedAppend(r: seq<Product>, y: Product, o: Ordering)
    requires Sorted(r, o)
    requires forall i :: 0 <= i < |r| ==> Comparator(r[i], y, o) <= 0
    ensures Sorted(r + [y], o)
  {
    forall i, j | 0 <= i < j < |r| + 1
      ensures Comparator((r + [y])[i], (r + [y])[j], o) <= 0
    {
      if j == |r| {
        assert (r + [y])[j] == y;
      }
    }
  }

  lemma {:induction false} InsertSorted(s: seq<Product>, x: Product, o: Ordering)
    requires Sorted(s, o)
    ensures Sorted(Insert(s, x, o), o)
  {
    if s != [] {
      var init, last := s[..|s| - 1], s[|s| - 1];
      if Comparator(last, x, o) > 0 {
        InsertSorted(init, x, o);
        var r := Insert(init, x, o);
        InsertPermutes(init, x, o);
        ComparatorAntisymmetric(last, x, o);
        forall i | 0 <= i < |r|
          ensures Comparator(r[i], last, o) <= 0
        {
          assert r[i] in multiset(r);
          if r[i] != x {
            assert r[i] in init;
          }
        }
        SortedAppend(r, last, o);
      } else {
        forall i | 0 <= i < |s|
          ensures Comparator(s[i], x, o) <= 0
        {
          if i < |s| - 1 {
            ComparatorTransitive(s[i], last, x, o);
          }
        }
        SortedAppend(s, x, o);
      }
    }
  }


  /** The stable sort orders its output by the comparator. */
  lemma {:induction false} StableSortSorted(s: seq<Product>, o: Ordering)
    ensures Sorted(StableSort(s, o), o)
  {
    if s != [] {
      StableSortSorted(s[..|s| - 1], o);
      InsertSorted(StableSort(s[..|s| - 1], o), s[|s| - 1], o);
    }
  }

  /** The sorted catalog is in ascending or descending order of the chosen key. */
  lemma StableSortOrdersByKey(s: seq<Product>, o: Ordering, i: int, j: int)
    requires 0 <= i < j < |s|
    ensures var r := StableSort(s, o);
      && (o.key == ByPrice && !o.desc ==> r[i].price <= r[j].price)
      && (o.key == ByPrice && o.desc ==> r[i].price >= r[j].price)
      && (o.key == ByRating && !o.desc ==> r[i].rating <= r[j].rating)
      && (o.key == ByRating && o.desc ==> r[i].rating >= r[j].rating)
      && (o.key == ByTitle && !o.desc ==> TitleCompare(r[i].title, r[j].title) <= 0)
      && (o.key == ByTitle && o.desc ==> TitleCompare(r[i].title, r[j].title) >= 0)
  {
    StableSortSorted(s, o);
  }

  /** The test "ties with `p`" used to state stability. */
  function TiesWith(p: Product, o: Ordering): Product -> bool
  {
    (y: Product) => Comparator(y, p, o) == 0
  }

  /** Two products, one sorting strictly after the other, cannot both tie with `p`. */
  lemma NotBothTie(last: Product, x: Product, p: Product, o: Ordering)
    requires Comparator(last, x, o) > 0
    ensures !(TiesWith(p, o)(x) && TiesWith(p, o)(last))
  {
    if TiesWith(p, o)(x) && TiesWith(p, o)(last) {
      ComparatorAntisymmetric(x, p, o);
      ComparatorTieTransitive(last, p, x, o);
      assert false;
    }
  }

  /** Insertion puts `x` at the end of the products tied with `p`, if it ties with `p` itself. */
  lemma {:induction false} InsertTies(s: seq<Product>, x: Product, p: Product, o: Ordering)
    ensures Filter(Insert(s, x, o), TiesWith(p, o))
         == Filter(s, TiesWith(p, o)) + Filter([x], TiesWith(p, o))
  {
    var t := TiesWith(p, o);
    if s == [] {
      assert Insert(s, x, o) == [x];
    } else {
      var init, last := s[..|s| - 1], s[|s| - 1];
      assert s == init + [last];
      if Comparator(last, x, o) > 0 {
        assert Insert(s, x, o) == Insert(init, x, o) + [last];
        InsertTies(init, x, p, o);
        NotBothTie(last, x, p, o);
        FilterPastLast(Insert(init, x, o), init, last, x, t);
      } else {
        assert Insert(s, x, o) == s + [x];
        FilterAppend(s, [x], t);
      }
    }
  }

  /**
   * Stability: for every product `p`, the products tied with `p` appear in
   * the sorted output in the same relative order as in the input.
   */
  lemma {:induction false} StableSortKeepsTieOrder(s: seq<Product>, p: Product, o: Ordering)
    ensures Filter(StableSort(s, o), TiesWith(p, o)) == Filter(s, TiesWith(p, o))
  {
    if s != [] {
      var init, last := s[..|s| - 1], s[|s| - 1];
      assert s == init + [last];
      StableSortKeepsTieOrder(init, p, o);
      InsertTies(StableSort(init, o), last, p, o);
      FilterAppend(init, [last], TiesWith(p, o));
    }
  }

  /**
   * `Insert` places `x` right after the elements that do not sort after it,
   * when those are exactly the ones before index `j`.
   */
  lemma {:induction false} InsertAt(prefix: seq<Product>, j: nat, x: Product, o: Ordering)
    requires j <= |prefix|
    requires j == 0 || Comparator(prefix[j - 1], x, o) <= 0
    requires forall k :: j <= k < |prefix| ==> Comparator(prefix[k], x, o) > 0
    ensures Insert(prefix, x, o) == prefix[..j] + [x] + prefix[j..]
    decreases |prefix|
  {
    if |prefix| == j {
      assert prefix[..j] == prefix && prefix[j..] == [];
    } else {
      var init, last := prefix[..|prefix| - 1], prefix[|prefix| - 1];
      assert forall k :: 0 <= k < |init| ==> init[k] == prefix[k];
      InsertAt(init, j, x, o);
      assert init[..j] == prefix[..j];
      assert prefix[j..] == init[j..] + [last];
    }
  }

  /**
   * One step of the insertion sort: moves `a[i]` leftwards past every element
   * of the sorted prefix `a[..i]` that sorts strictly after it.
   */
  method InsertLast(a: array<Product>, i: nat, o: Ordering)
    requires i < a.Length
    modifies a
    ensures a[..i + 1] == Insert(old(a[..i]), old(a[i]), o)
    ensures a[i + 1..] == old(a[i + 1..])
  {
    ghost var before := a[..];
    var x := a[i];
    var j := ShiftGap(a, i, x, o);
    ghost var mid := a[..];
    a[j] := x;
    assert a[..] == mid[j := x];
    PlaceInGap(mid, before, j, i, x);
    InsertAt(before[..i], j, x, o);
    assert before[..i][..j] == before[..j] && before[..i][j..] == before[j..i];
  }

  /**
   * `cur` is `before` with the elements `before[j..i]` moved one place right:
   * positions below `j` and above `i` untouched, `cur[k] == before[k - 1]`
   * for `j < k <= i`.
   */
  ghost predicate Shifted(cur: seq<Product>, before: seq<Product>, j: int, i: int)
  {
    |cur| == |before| && 0 <= j <= i < |before| &&
    (forall k :: 0 <= k < j ==> cur[k] == before[k]) &&
    (forall k :: j < k <= i ==> cur[k] == before[k - 1]) &&
    (forall k :: i < k < |cur| ==> cur[k] == before[k])
  }

  /** Copying `cur[j - 1]` into the gap at `j` moves the gap one place left. */
  lemma ShiftStep(cur: seq<Product>, before: seq<Product>, j: int, i: int)
    requires Shifted(cur, before, j, i) && j > 0
    ensures Shifted(cur[j := cur[j - 1]], before, j - 1, i)
  {
  }

  /** Filling the gap at `j` with `x` inserts `x` at `j` into `before[..i]`, leaving the rest of the array as it was. */
  lemma PlaceInGap(mid: seq<Product>, before: seq<Product>, j: int, i: int, x: Product)
    requires Shifted(mid, before, j, i)
    ensures mid[j := x][..i + 1] == before[..j] + [x] + before[j..i]
    ensures mid[j := x][i + 1..] == before[i + 1..]
  {
    var b := mid[j := x];
    assert |b[..i + 1]| == |before[..j] + [x] + before[j..i]|;
    forall k | 0 <= k <= i
      ensures b[..i + 1][k] == (before[..j] + [x] + before[j..i])[k]
    {
      if k > j {
        assert (before[..j] + [x] + before[j..i])[k] == before[k - 1];
      }
    }
  }

  /**
   * The inner loop of the insertion step: shifts one place right every
   * element of `a[..i]`, from the right, that sorts strictly after `x`, and
   * returns the index of the gap left behind.
   */
  method ShiftGap(a: array<Product>, i: nat, x: Product, o: Ordering) returns (j: nat)
    requires i < a.Length
    modifies a
    ensures Shifted(a[..], old(a[..]), j, i)
    ensures j == 0 || Comparator(old(a[..])[j - 1], x, o) <= 0
    ensures forall k :: j <= k < i ==> Comparator(old(a[..])[k], x, o) > 0
  {
    ghost var before := a[..];
    j := i;
    while j > 0 && Comparator(a[j - 1], x, o) > 0
      invariant Shifted(a[..], before, j, i)
      invariant forall k :: j <= k < i ==> Comparator(before[k], x, o) > 0
    {
      assert a[j - 1] == before[j - 1];
      ShiftStep(a[..], before, j, i);
      a[j] := a[j - 1];
      j := j - 1;
    }
  }

  /** `filtered.sort(comparator)`: sorts the array in place, as `StableSort` specifies. */
  method SortInPlace(a: array<Product>, o: Ordering)
    modifies a
    ensures a[..] == StableSort(old(a[..]), o)
  {
    ghost var input := a[..];
    var i := 0;
    while i < a.Length
      invariant 0 <= i <= a.Length
      invariant a[..i] == StableSort(input[..i], o)
      invariant a[i..] == input[i..]
    {
      InsertLast(a, i, o);
      assert input[..i + 1][..i] == input[..i];
      i := i + 1;
    }
    assert input[..a.Length] == input;
  }
}
