/**
 * The catalog service: id lookups, the category list, reviews of a product,
 * and the search / category / price filter followed by a stable sort and one
 * page of results. The catalog and the reviews are parameters (the source
 * imports them as fixed data) and the simulated network delay is dropped.
 */
module ProductService {
  import opened Wrappers
  import opened Seqs
  import opened Products
  import opened Text
  import opened Sorting
  import opened Pagination

  // ---------------------------------------------------------------- lookups

  /** `products.filter(p => numericIds.includes(p.id))`. */
  function GetProductsByIds(catalog: seq<Product>, ids: seq<int>): (r: seq<Product>)
    ensures forall i :: 0 <= i < |r| ==> r[i] in catalog && r[i].id in ids
    ensures forall i :: 0 <= i < |catalog| && catalog[i].id in ids ==> catalog[i] in r
    ensures IsSubsequence(r, catalog)
    ensures forall p :: multiset(r)[p] == if p.id in ids then multiset(catalog)[p] else 0
  {
    FilterIsSubsequence(catalog, IdIn(ids));
    FilterMembers(catalog, IdIn(ids));
    FilterCount(catalog, IdIn(ids));
    Filter(catalog, IdIn(ids))
  }

  function IdIn(ids: seq<int>): Product -> bool
  {
    (p: Product) => p.id in ids
  }

  /** `reviews.filter(r => r.productId === productId)`. */
  function GetReviewsByProductId(reviews: seq<Review>, productId: int): (r: seq<Review>)
    ensures forall i :: 0 <= i < |r| ==> r[i] in reviews && r[i].productId == productId
    ensures forall i :: 0 <= i < |reviews| && reviews[i].productId == productId ==> reviews[i] in r
    ensures IsSubsequence(r, reviews)
    ensures forall v :: multiset(r)[v] == if v.productId == productId then multiset(reviews)[v] else 0
  {
    FilterIsSubsequence(reviews, ReviewOf(productId));
    FilterMembers(reviews, ReviewOf(productId));
    FilterCount(reviews, ReviewOf(productId));
    Filter(reviews, ReviewOf(productId))
  }

  function ReviewOf(productId: int): Review -> bool
  {
    (r: Review) => r.productId == productId
  }

  // ------------------------------------------------------------- categories

  /** `products.map(p => p.category)`. */
  function CategoryColumn(catalog: seq<Product>): (r: seq<string>)
    ensures |r| == |catalog|
    ensures forall i :: 0 <= i < |catalog| ==> r[i] == catalog[i].category
  {
    if catalog == [] then []
    else CategoryColumn(catalog[..|catalog| - 1]) + [catalog[|catalog| - 1].category]
  }

  /** `[...new Set(s)]`: each value once, where it first occurs. */
  function Distinct(s: seq<string>): (r: seq<string>)
    ensures forall i, j :: 0 <= i < j < |r| ==> r[i] != r[j]
    ensures forall i :: 0 <= i < |r| ==> r[i] in s
    ensures forall i :: 0 <= i < |s| ==> s[i] in r
  {
    if s == [] then []
    else
      var init, last := s[..|s| - 1], s[|s| - 1];
      var r := Distinct(init);
      assert forall i :: 0 <= i < |init| ==> s[i] == init[i];
      if last in r then r else r + [last]
  }

  /** The index of the first occurrence of `x` in `s`. */
  function FirstIndex(s: seq<string>, x: string): (k: nat)
    requires x in s
    ensures k < |s| && s[k] == x
    ensures forall j :: 0 <= j < k ==> s[j] != x
  {
    var init := s[..|s| - 1];
    if x in init then FirstIndex(init, x) else |s| - 1
  }

  /** `getCategories`: the catalog's categories, each once. */
  function GetCategories(catalog: seq<Product>): (r: seq<string>)
    ensures forall i, j :: 0 <= i < j < |r| ==> r[i] != r[j]
    ensures forall i :: 0 <= i < |catalog| ==> catalog[i].category in r
  {
    Distinct(CategoryColumn(catalog))
  }

  /** `Distinct` keeps first-seen order: earlier entries first occur earlier. */
  lemma {:induction false} DistinctFirstSeenOrder(s: seq<string>)
    ensures forall i, j :: 0 <= i < j < |Distinct(s)| ==>
      FirstIndex(s, Distinct(s)[i]) < FirstIndex(s, Distinct(s)[j])
  {
    if s != [] {
      var init, last := s[..|s| - 1], s[|s| - 1];
      DistinctFirstSeenOrder(init);
      var r0 := Distinct(init);
      forall y | y in r0
        ensures FirstIndex(s, y) == FirstIndex(init, y) < |init|
      {
      }
    }
  }

  /**
   * The category list holds every catalog category exactly once, and lists
   * them in the order in which they first appear in the catalog.
   */
  lemma GetCategoriesSpec(catalog: seq<Product>)
    ensures var r := GetCategories(catalog);
      && (forall i, j :: 0 <= i < j < |r| ==> r[i] != r[j])
      && (forall i :: 0 <= i < |catalog| ==> catalog[i].category in r)
      && (forall c :: c in r ==> exists k :: 0 <= k < |catalog| && catalog[k].category == c)
      && (forall i, j :: 0 <= i < j < |r| ==>
            FirstIndex(CategoryColumn(catalog), r[i]) < FirstIndex(CategoryColumn(catalog), r[j]))
  {
    var column := CategoryColumn(catalog);
    DistinctFirstSeenOrder(column);
    forall c | c in GetCategories(catalog)
      ensures exists k :: 0 <= k < |catalog| && catalog[k].category == c
    {
      var k := FirstIndex(column, c);
      assert catalog[k].category == c;
    }
  }

  // ----------------------------------------------------------------- query

  /** The `filterProducts` argument with its defaults applied; `maxPrice: None` stands for `Infinity`. */
  datatype Query = Query(
    search: string,
    category: string,
    minPrice: int,
    maxPrice: Option<int>,
    sortBy: string,
    sortOrder: string,
    page: int,
    limit: int)

  /** The defaults of the destructuring parameter. */
  const DefaultQuery := Query("", "", 0, None, "title", "asc", 1, 8)

  datatype PageResult = PageResult(data: seq<Product>, total: nat, page: int, totalPages: nat, limit: int)

  /** Empty search text, or a case-insensitive substring of the title or of the description. */
  predicate SearchOk(p: Product, search: string)
  {
    search == "" || Includes(Lower(p.title), Lower(search)) || Includes(Lower(p.description), Lower(search))
  }

  /** No category selected, or exactly the selected one. */
  predicate CategoryOk(p: Product, category: string)
  {
    category == "" || p.category == category
  }

  /** `minPrice <= price <= maxPrice`, with no upper bound when `maxPrice` is absent. */
  predicate PriceOk(p: Product, minPrice: int, maxPrice: Option<int>)
  {
    p.price >= minPrice && (maxPrice.None? || p.price <= maxPrice.value)
  }

  /** All three filters of the query accept the product. */
  predicate Matches(p: Product, q: Query)
  {
    SearchOk(p, q.search) && CategoryOk(p, q.category) && PriceOk(p, q.minPrice, q.maxPrice)
  }

  function MatchesQuery(q: Query): Product -> bool
  {
    (p: Product) => Matches(p, q)
  }

  /** The products of the catalog that match the query, in catalog order. */
  function Matching(catalog: seq<Product>, q: Query): seq<Product>
  {
    Filter(catalog, MatchesQuery(q))
  }

  /** The sort order a query asks for. */
  function QueryOrdering(q: Query): Ordering
  {
    OrderingOf(q.sortBy, q.sortOrder)
  }

  // The three filter callbacks, as the source writes them.

  function SearchStage(searchLower: string): Product -> bool
  {
    (p: Product) => Includes(Lower(p.title), searchLower) || Includes(Lower(p.description), searchLower)
  }

  function CategoryStage(category: string): Product -> bool
  {
    (p: Product) => p.category == category
  }

  function PriceStage(minPrice: int, maxPrice: Option<int>): Product -> bool
  {
    (p: Product) => p.price >= minPrice && (maxPrice.None? || p.price <= maxPrice.value)
  }

  function SearchOnly(q: Query): Product -> bool
  {
    (p: Product) => SearchOk(p, q.search)
  }

  function SearchAndCategory(q: Query): Product -> bool
  {
    (p: Product) => SearchOk(p, q.search) && CategoryOk(p, q.category)
  }

  /** The three filter steps of `filterProducts`: search text, then category, then price. */
  method ApplyFilters(catalog: seq<Product>, q: Query) returns (filtered: seq<Product>)
    ensures filtered == Matching(catalog, q)
  {
    filtered := catalog;

    if q.search != "" {
      var searchLower := Lower(q.search);
      filtered := Filter(filtered, SearchStage(searchLower));
      FilterCongruent(catalog, SearchStage(searchLower), SearchOnly(q));
    } else {
      FilterKeepsAll(catalog, SearchOnly(q));
    }
    assert filtered == Filter(catalog, SearchOnly(q));

    if q.category != "" {
      FilterFilter(catalog, SearchOnly(q), CategoryStage(q.category), SearchAndCategory(q));
      filtered := Filter(filtered, CategoryStage(q.category));
    } else {
      FilterCongruent(catalog, SearchOnly(q), SearchAndCategory(q));
    }
    assert filtered == Filter(catalog, SearchAndCategory(q));

    FilterFilter(catalog, SearchAndCategory(q), PriceStage(q.minPrice, q.maxPrice), MatchesQuery(q));
    filtered := Filter(filtered, PriceStage(q.minPrice, q.maxPrice));
  }

  /** Sorts the filtered products in place, in an array of their own. */
  method SortedCopy(filtered: seq<Product>, o: Ordering) returns (sorted: seq<Product>)
    ensures sorted == StableSort(filtered, o)
  {
    var a := new Product[|filtered|](i requires 0 <= i < |filtered| => filtered[i]);
    assert a[..] == filtered;
    SortInPlace(a, o);
    sorted := a[..];
  }

  /**
   * `filterProducts`: filter, sort a copy in place, and cut out the
   * requested page with its pagination metadata.
   */
  method FilterProducts(catalog: seq<Product>, q: Query) returns (r: PageResult)
    requires q.page >= 1 && q.limit >= 1
    ensures r.page == q.page && r.limit == q.limit
    ensures r.total == |Matching(catalog, q)|
    ensures r.totalPages == TotalPages(r.total, q.limit)
    ensures r.data == Paginate(StableSort(Matching(catalog, q), QueryOrdering(q)), q.page, q.limit)
  {
    var filtered := ApplyFilters(catalog, q);

    var sorted := SortedCopy(filtered, QueryOrdering(q));

    var total := |sorted|;
    var totalPages := TotalPages(total, q.limit);
    var data := Paginate(sorted, q.page, q.limit);
    r := PageResult(data, total, q.page, totalPages, q.limit);
  }

  // -------------------------------------------------- properties of a query

  /**
   * The filtered set is exactly the catalog products that pass all three
   * filters, kept in catalog order.
   */
  lemma MatchingSpec(catalog: seq<Product>, q: Query)
    ensures forall i :: 0 <= i < |Matching(catalog, q)| ==>
      Matching(catalog, q)[i] in catalog && Matches(Matching(catalog, q)[i], q)
    ensures forall i :: 0 <= i < |catalog| && Matches(catalog[i], q) ==> catalog[i] in Matching(catalog, q)
    ensures IsSubsequence(Matching(catalog, q), catalog)
    ensures forall p :: multiset(Matching(catalog, q))[p] == if Matches(p, q) then multiset(catalog)[p] else 0
  {
    FilterIsSubsequence(catalog, MatchesQuery(q));
    FilterMembers(catalog, MatchesQuery(q));
    FilterCount(catalog, MatchesQuery(q));
  }

  /** The search text, lower-cased, occurs somewhere in the lower-cased `text`. */
  ghost predicate Mentions(text: string, search: string)
  {
    exists i :: OccursAt(Lower(text), Lower(search), i)
  }

  /**
   * The search filter is a case-insensitive substring test: the lower-cased
   * search text occurs in the lower-cased title or description.
   */
  lemma SearchOkSpec(p: Product, search: string)
    ensures SearchOk(p, search) <==> search == "" || Mentions(p.title, search) || Mentions(p.description, search)
  {
    IncludesIffOccurs(Lower(p.title), Lower(search));
    IncludesIffOccurs(Lower(p.description), Lower(search));
  }

  /** Searching for a lower-cased term finds the same products as the term itself. */
  lemma SearchIgnoresCase(p: Product, search: string)
    ensures SearchOk(p, Lower(search)) == SearchOk(p, search)
  {
    LowerIdempotent(search);
  }

  /** Every product on a result page is a catalog product that passes all three filters. */
  lemma PageProductsMatch(catalog: seq<Product>, q: Query)
    requires q.page >= 1 && q.limit >= 1
    ensures forall p :: p in Paginate(StableSort(Matching(catalog, q), QueryOrdering(q)), q.page, q.limit) ==>
      p in catalog && Matches(p, q)
  {
    var m := Matching(catalog, q);
    var sorted := StableSort(m, QueryOrdering(q));
    StableSortPermutes(m, QueryOrdering(q));
    FilterMembers(catalog, MatchesQuery(q));
    PageIsSlice(sorted, q.page, q.limit);
    forall p | p in Paginate(sorted, q.page, q.limit)
      ensures p in catalog && Matches(p, q)
    {
      assert p in multiset(sorted);
      assert p in m;
    }
  }

  /**
   * Called with no arguments, `filterProducts` filters nothing out of a
   * catalog whose prices are not negative, and sorts by title ascending.
   */
  lemma DefaultQueryKeepsAll(catalog: seq<Product>)
    requires forall i :: 0 <= i < |catalog| ==> catalog[i].price >= 0
    ensures Matching(catalog, DefaultQuery) == catalog
    ensures QueryOrdering(DefaultQuery) == Ordering(ByTitle, false)
  {
    FilterKeepsAll(catalog, MatchesQuery(DefaultQuery));
  }
}
