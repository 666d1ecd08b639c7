/**
 * The compare store: at most two products side by side, distinct by id. A
 * third product pushes out the older of the two.
 */
module Compare {
  import opened Seqs
  import opened Products

  class CompareStore {
    var compareProducts: seq<Product>

    /** At most two products, no id twice. */
    ghost predicate Valid()
      reads this
    {
      |compareProducts| <= 2 && UniqueIds(compareProducts)
    }

    constructor ()
      ensures Valid() && compareProducts == []
    {
      compareProducts := [];
    }

    /**
     * `addToCompare(product)`: a product already shown is ignored; with
     * fewer than two shown it is appended; otherwise the first is dropped
     * and the new one placed after the second.
     */
    method AddToCompare(product: Product)
      requires Valid()
      modifies this
      ensures Valid()
      ensures HasId(old(compareProducts), product.id) ==> compareProducts == old(compareProducts)
      ensures !HasId(old(compareProducts), product.id) && |old(compareProducts)| < 2 ==>
        compareProducts == old(compareProducts) + [product]
      ensures !HasId(old(compareProducts), product.id) && |old(compareProducts)| == 2 ==>
        compareProducts == [old(compareProducts)[1], product]
      ensures !HasId(old(compareProducts), product.id) ==>
        |compareProducts| >= 1 && compareProducts[|compareProducts| - 1] == product
    {
      if FindById(compareProducts, product.id).Some? {
        return;
      }
      if |compareProducts| < 2 {
        compareProducts := compareProducts + [product];
      } else {
        compareProducts := [compareProducts[1], product];
      }
    }

    /** `removeFromCompare(id)`: drop the product with that id, keeping the other. */
    method RemoveFromCompare(id: int)
      requires Valid()
      modifies this
      ensures Valid()
      ensures !HasId(old(compareProducts), id) ==> compareProducts == old(compareProducts)
      ensures forall k :: 0 <= k < |old(compareProducts)| && old(compareProducts)[k].id == id ==>
        compareProducts == old(compareProducts)[..k] + old(compareProducts)[k + 1..]
      ensures !HasId(compareProducts, id)
    {
      var found := FindById(compareProducts, id);
      if found.Some? {
        var k :| 0 <= k < |compareProducts| && compareProducts[k] == found.value;
        RemoveUnique(compareProducts, id, k);
      } else {
        FilterKeepsAll(compareProducts, NotId(id));
      }
      compareProducts := Filter(compareProducts, NotId(id));
    }

    /** `clearCompare()`. */
    method ClearCompare()
      modifies this
      ensures Valid() && compareProducts == []
    {
      compareProducts := [];
    }
  }

  /** Three distinct products added in turn to an empty store leave the last two, in order. */
  method AddThree(store: CompareStore, a: Product, b: Product, c: Product)
    requires store.Valid() && store.compareProducts == []
    requires a.id != b.id && b.id != c.id && a.id != c.id
    modifies store
    ensures store.Valid() && store.compareProducts == [b, c]
  {
    store.AddToCompare(a);
    store.AddToCompare(b);
    store.AddToCompare(c);
  }
}
