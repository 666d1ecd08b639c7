/**
 * The wishlist store: saved products, distinct by id, in the order saved.
 * Its removal operation is an empty stub, and the model keeps it so.
 */
module Wishlist {
  import opened Seqs
  import opened Products

  class WishlistStore {
    var items: seq<Product>

    /** No id is saved twice. */
    ghost predicate Valid()
      reads this
    {
      UniqueIds(items)
    }

    constructor ()
      ensures Valid() && items == []
    {
      items := [];
    }

    /** `addToWishlist(product)`: append the product unless its id is already saved. */
    method AddToWishlist(product: Product)
      requires Valid()
      modifies this
      ensures Valid()
      ensures HasId(old(items), product.id) ==> items == old(items)
      ensures !HasId(old(items), product.id) ==> items == old(items) + [product]
      ensures IsInWishlist(product.id)
    {
      if FindById(items, product.id).Some? {
        return;
      }
      items := items + [product];
      assert items[|items| - 1].id == product.id;
    }

    /** `removeFromWishlist(productId)`: an empty stub, so the list is left as it was. */
    method RemoveFromWishlist(productId: int)
      requires Valid()
      modifies this
      ensures Valid() && items == old(items)
    {
    }

    /**
     * What `removeFromWishlist` is evidently meant to do, like the cart's and
     * the compare list's removals: drop the product with that id.
     */
    method RemoveFromWishlistIntended(productId: int)
      requires Valid()
      modifies this
      ensures Valid()
      ensures items == Filter(old(items), NotId(productId))
      ensures !IsInWishlist(productId)
      ensures forall id :: id != productId ==> (IsInWishlist(id) <==> old(IsInWishlist(id)))
    {
      FilterKeepsUniqueIds(items, NotId(productId));
      FilterMembers(items, NotId(productId));
      items := Filter(items, NotId(productId));
    }

    /** `isInWishlist(productId)`: whether some saved product has that id. */
    function IsInWishlist(productId: int): (r: bool)
      reads this
      ensures r <==> HasId(items, productId)
    {
      FindById(items, productId).Some?
    }
  }

  /** As written: saving a product and then "removing" it leaves it saved. */
  method StubKeepsProduct(store: WishlistStore, product: Product)
    requires store.Valid()
    modifies store
    ensures store.IsInWishlist(product.id)
  {
    store.AddToWishlist(product);
    store.RemoveFromWishlist(product.id);
  }

  /** As intended: removing a product just saved restores the list it was saved into. */
  method RemoveUndoesAdd(store: WishlistStore, product: Product)
    requires store.Valid() && !store.IsInWishlist(product.id)
    modifies store
    ensures store.Valid() && store.items == old(store.items)
  {
    ghost var before := store.items;
    store.AddToWishlist(product);
    FilterAppend(before, [product], NotId(product.id));
    FilterKeepsAll(before, NotId(product.id));
    FilterSingleton(product, NotId(product.id));
    store.RemoveFromWishlistIntended(product.id);
  }
}
