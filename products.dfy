/**
 * Catalog records and the id lookups shared by the catalog service and the
 * three client-side stores. Prices are whole cents and ratings whole tenths of
 * a star, so that no floating point enters the model.
 */
module Products {
  import opened Wrappers
  import opened Seqs

  /** A catalog product: immutable reference data, only read and copied. */
  datatype Product = Product(
    id: int,
    title: string,
    description: string,
    category: string,
    price: int,       // cents
    rating: int,      // tenths of a star
    stock: int,
    thumbnail: string)

  /** A customer review, linked to its product by `productId`. */
  datatype Review = Review(
    id: int,
    productId: int,
    author: string,
    rating: int,      // tenths of a star
    comment: string,
    date: string)

  /** Some product in `s` carries identifier `id`. */
  predicate HasId(s: seq<Product>, id: int)
  {
    exists i :: 0 <= i < |s| && s[i].id == id
  }

  /** No two products in `s` share an identifier. */
  predicate UniqueIds(s: seq<Product>)
  {
    forall i, j :: 0 <= i < j < |s| ==> s[i].id != s[j].id
  }

  /**
   * `s.find(p => p.id === id)`: the first product with identifier `id`, or
   * `None` (the source's `null` / `undefined`) when there is none.
   */
  function FindById(s: seq<Product>, id: int): (r: Option<Product>)
    ensures r.None? <==> !HasId(s, id)
    ensures r.Some? ==> r.value.id == id
    ensures r.Some? ==> exists k :: 0 <= k < |s| && s[k] == r.value && forall j :: 0 <= j < k ==> s[j].id != id
  {
    if s == [] then None
    else if s[0].id == id then Some(s[0])
    else
      var r := FindById(s[1..], id);
      assert forall i :: 1 <= i < |s| ==> s[i] == s[1..][i-1];
      r
  }

  /** With unique identifiers, the product found is the one at the index carrying the id. */
  lemma FindByIdUnique(s: seq<Product>, id: int, k: nat)
    requires UniqueIds(s)
    requires k < |s| && s[k].id == id
    ensures FindById(s, id) == Some(s[k])
  {
    var r := FindById(s, id);
    var k' :| 0 <= k' < |s| && s[k'] == r.value && forall j :: 0 <= j < k' ==> s[j].id != id;
    assert k' == k;
  }

  /** `p => p.id !== id`: the filter the stores use to drop a product. */
  function NotId(id: int): Product -> bool
  {
    (p: Product) => p.id != id
  }

  /** With unique identifiers, dropping the products with id `id` deletes the one at index `k` and keeps the rest in order. */
  lemma RemoveUnique(s: seq<Product>, id: int, k: nat)
    requires UniqueIds(s)
    requires k < |s| && s[k].id == id
    ensures Filter(s, NotId(id)) == s[..k] + s[k + 1..]
  {
    FilterDropsOne(s, NotId(id), k);
  }

  /** Filtering keeps identifiers unique. */
  lemma {:induction false} FilterKeepsUniqueIds(s: seq<Product>, keep: Product -> bool)
    requires UniqueIds(s)
    ensures UniqueIds(Filter(s, keep))
  {
    if s != [] {
      var tail := s[1..];
      assert forall i :: 0 <= i < |tail| ==> tail[i] == s[i + 1];
      FilterKeepsUniqueIds(tail, keep);
      FilterMembers(tail, keep);
      var rest := Filter(tail, keep);
      if keep(s[0]) {
        forall j | 0 <= j < |rest|
          ensures rest[j].id != s[0].id
        {
          var k :| 0 <= k < |tail| && tail[k] == rest[j];
          assert s[k + 1] == rest[j];
        }
        var r := Filter(s, keep);
        assert r == [s[0]] + rest;
        assert forall j :: 0 < j < |r| ==> r[j] == rest[j - 1];
      } else {
        assert Filter(s, keep) == rest;
      }
    }
  }
}
