/**
 * The cart store: a list of entries, each a copy of a product's fields plus a
 * quantity, with at most one entry per product id. The store's `items` field
 * is replaced wholesale by every operation.
 */
module Cart {
  import opened Wrappers
  import opened Seqs
  import opened Products

  /** A cart entry: `{ ...product, quantity }`. */
  datatype CartItem = CartItem(product: Product, quantity: int)

  // The lookups below mirror `HasId`, `FindById` and `NotId` of `Products` for
  // cart entries, whose id sits inside the copied product; `FindItem` returns
  // the entry's index rather than the entry, since the store rewrites it there.

  predicate HasItem(items: seq<CartItem>, id: int)
  {
    exists i :: 0 <= i < |items| && items[i].product.id == id
  }

  predicate UniqueItemIds(items: seq<CartItem>)
  {
    forall i, j :: 0 <= i < j < |items| ==> items[i].product.id != items[j].product.id
  }

  predicate QuantitiesPositive(items: seq<CartItem>)
  {
    forall i :: 0 <= i < |items| ==> items[i].quantity >= 1
  }

  /** `items.find(item => item.id === id)`, as the index of the first entry with that id. */
  function FindItem(items: seq<CartItem>, id: int): (r: Option<nat>)
    ensures r.None? <==> !HasItem(items, id)
    ensures r.Some? ==> r.value < |items| && items[r.value].product.id == id
    ensures r.Some? ==> forall j :: 0 <= j < r.value ==> items[j].product.id != id
  {
    if items == [] then None
    else if items[0].product.id == id then Some(0)
    else match FindItem(items[1..], id)
      case None =>
        assert forall i :: 1 <= i < |items| ==> items[i] == items[1..][i - 1];
        None
      case Some(k) => Some(k + 1)
  }

  /**
   * `items.map(item => item.id === id ? update(item) : item)`: a cart without
   * the id comes back unchanged, and in a cart with unique ids exactly the
   * one entry with the id is rewritten.
   */
  function MapMatching(items: seq<CartItem>, id: int, update: CartItem -> CartItem): (r: seq<CartItem>)
    ensures |r| == |items|
    ensures !HasItem(items, id) ==> r == items
    ensures UniqueItemIds(items) ==>
      forall k :: 0 <= k < |items| && items[k].product.id == id ==> r == items[k := update(items[k])]
  {
    seq(|items|, i requires 0 <= i < |items| =>
      if items[i].product.id == id then update(items[i]) else items[i])
  }

  function Incremented(item: CartItem): CartItem
  {
    item.(quantity := item.quantity + 1)
  }

  function OtherThan(id: int): CartItem -> bool
  {
    (item: CartItem) => item.product.id != id
  }

  /** With unique ids, dropping the entries with id `id` deletes the one at index `k` and keeps the rest in order. */
  lemma RemoveUniqueItem(items: seq<CartItem>, id: int, k: nat)
    requires UniqueItemIds(items)
    requires k < |items| && items[k].product.id == id
    ensures Filter(items, OtherThan(id)) == items[..k] + items[k + 1..]
  {
    FilterDropsOne(items, OtherThan(id), k);
  }

  /** Deleting one entry keeps ids unique and quantities positive. */
  lemma DeleteKeepsValid(items: seq<CartItem>, k: nat)
    requires UniqueItemIds(items) && QuantitiesPositive(items) && k < |items|
    ensures UniqueItemIds(items[..k] + items[k + 1..]) && QuantitiesPositive(items[..k] + items[k + 1..])
  {
    var r := items[..k] + items[k + 1..];
    assert forall i :: 0 <= i < |r| ==> r[i] == items[if i < k then i else i + 1];
  }

  // ------------------------------------------------------------------ totals

  /** `items.reduce((sum, item) => sum + term(item), 0)`. */
  function SumOf(items: seq<CartItem>, term: CartItem -> int): int
  {
    if items == [] then 0 else SumOf(items[..|items| - 1], term) + term(items[|items| - 1])
  }

  function LineQuantity(item: CartItem): int
  {
    item.quantity
  }

  function LineTotal(item: CartItem): int
  {
    item.product.price * item.quantity
  }

  /** Replacing one entry changes a total by the difference of the two entries' terms. */
  lemma {:induction false} SumOfUpdate(items: seq<CartItem>, term: CartItem -> int, k: nat, x: CartItem)
    requires k < |items|
    ensures SumOf(items[k := x], term) == SumOf(items, term) - term(items[k]) + term(x)
    decreases |items|
  {
    var n := |items| - 1;
    var u := items[k := x];
    if k == n {
      assert u[..n] == items[..n];
    } else {
      assert u[..n] == items[..n][k := x];
      SumOfUpdate(items[..n], term, k, x);
    }
  }

  /** Deleting one entry lowers a total by that entry's term. */
  lemma {:induction false} SumOfRemove(items: seq<CartItem>, term: CartItem -> int, k: nat)
    requires k < |items|
    ensures SumOf(items[..k] + items[k + 1..], term) == SumOf(items, term) - term(items[k])
    decreases |items|
  {
    var n := |items| - 1;
    var r := items[..k] + items[k + 1..];
    if k == n {
      assert r == items[..n];
    } else {
      var init := items[..n];
      assert r[..|r| - 1] == init[..k] + init[k + 1..];
      assert r[|r| - 1] == items[n];
      SumOfRemove(init, term, k);
    }
  }

  /** With every quantity at least 1, the item count is at least the number of entries. */
  lemma {:induction false} TotalItemsAtLeastEntries(items: seq<CartItem>)
    requires QuantitiesPositive(items)
    ensures SumOf(items, LineQuantity) >= |items|
  {
    if items != [] {
      TotalItemsAtLeastEntries(items[..|items| - 1]);
    }
  }

  /** With no negative prices and no negative quantities, the total price is not negative. */
  lemma {:induction false} TotalPriceNonNegative(items: seq<CartItem>)
    ensures (forall i :: 0 <= i < |items| ==> items[i].product.price >= 0 && items[i].quantity >= 0) ==>
      SumOf(items, LineTotal) >= 0
  {
    if items != [] {
      TotalPriceNonNegative(items[..|items| - 1]);
      assert forall i :: 0 <= i < |items| - 1 ==> items[..|items| - 1][i] == items[i];
    }
  }

  /** Setting the quantity of one entry to a positive value keeps ids unique and quantities positive. */
  lemma UpdateKeepsValid(items: seq<CartItem>, k: nat, x: CartItem)
    requires UniqueItemIds(items) && QuantitiesPositive(items) && k < |items|
    requires x.product.id == items[k].product.id && x.quantity >= 1
    ensures UniqueItemIds(items[k := x]) && QuantitiesPositive(items[k := x])
  {
  }

  /** One more unit adds the unit price to the line total. */
  lemma LineTotalIncrement(item: CartItem)
    ensures LineTotal(Incremented(item)) == LineTotal(item) + item.product.price
  {
  }

  /** `item => ({ ...item, quantity })`. */
  function WithQuantity(quantity: int): CartItem -> CartItem
  {
    (item: CartItem) => item.(quantity := quantity)
  }

  /** Setting the quantity of the entry at `k` to a positive value keeps the cart valid and moves the totals by the change. */
  lemma SetQuantityEffect(items: seq<CartItem>, id: int, k: nat, quantity: int)
    requires UniqueItemIds(items) && QuantitiesPositive(items)
    requires k < |items| && items[k].product.id == id && quantity >= 1
    ensures var r := MapMatching(items, id, WithQuantity(quantity));
      r == items[k := items[k].(quantity := quantity)] &&
      UniqueItemIds(r) && QuantitiesPositive(r) &&
      SumOf(r, LineQuantity) == SumOf(items, LineQuantity) - items[k].quantity + quantity &&
      SumOf(r, LineTotal) == SumOf(items, LineTotal) - LineTotal(items[k]) + LineTotal(items[k].(quantity := quantity))
  {
    var x := items[k].(quantity := quantity);
    UpdateKeepsValid(items, k, x);
    SumOfUpdate(items, LineQuantity, k, x);
    SumOfUpdate(items, LineTotal, k, x);
  }

  /** Raising the quantity of the entry at `k` keeps the cart valid and adds one unit of its price. */
  lemma IncrementEffect(items: seq<CartItem>, id: int, k: nat)
    requires UniqueItemIds(items) && QuantitiesPositive(items)
    requires k < |items| && items[k].product.id == id
    ensures var r := MapMatching(items, id, Incremented);
      r == items[k := Incremented(items[k])] &&
      UniqueItemIds(r) && QuantitiesPositive(r) &&
      SumOf(r, LineQuantity) == SumOf(items, LineQuantity) + 1 &&
      SumOf(r, LineTotal) == SumOf(items, LineTotal) + items[k].product.price
  {
    var x := Incremented(items[k]);
    UpdateKeepsValid(items, k, x);
    SumOfUpdate(items, LineQuantity, k, x);
    SumOfUpdate(items, LineTotal, k, x);
    LineTotalIncrement(items[k]);
  }

  /** Appending a new product with quantity 1 keeps the cart valid and adds one unit of its price. */
  lemma AppendEffect(items: seq<CartItem>, product: Product)
    requires UniqueItemIds(items) && QuantitiesPositive(items) && !HasItem(items, product.id)
    ensures var r := items + [CartItem(product, 1)];
      UniqueItemIds(r) && QuantitiesPositive(r) &&
      SumOf(r, LineQuantity) == SumOf(items, LineQuantity) + 1 &&
      SumOf(r, LineTotal) == SumOf(items, LineTotal) + product.price
  {
    var r := items + [CartItem(product, 1)];
    assert r[..|r| - 1] == items;
  }

  /** Deleting the entry with id `id`, found at `k`, keeps the cart valid and lowers the totals by that entry's share. */
  lemma RemoveEffect(items: seq<CartItem>, id: int, k: nat)
    requires UniqueItemIds(items) && QuantitiesPositive(items)
    requires k < |items| && items[k].product.id == id
    ensures var r := Filter(items, OtherThan(id));
      r == items[..k] + items[k + 1..] &&
      UniqueItemIds(r) && QuantitiesPositive(r) &&
      SumOf(r, LineQuantity) == SumOf(items, LineQuantity) - items[k].quantity &&
      SumOf(r, LineTotal) == SumOf(items, LineTotal) - LineTotal(items[k])
  {
    RemoveUniqueItem(items, id, k);
    DeleteKeepsValid(items, k);
    SumOfRemove(items, LineQuantity, k);
    SumOfRemove(items, LineTotal, k);
  }

  // ------------------------------------------------------------------- store

  class CartStore {
    var items: seq<CartItem>

    /** Entry ids are unique and every quantity is at least 1. */
    ghost predicate Valid()
      reads this
    {
      UniqueItemIds(items) && QuantitiesPositive(items)
    }

    constructor ()
      ensures Valid() && items == []
    {
      items := [];
    }

    /** `totalItems` / `getTotalItems()`: the sum of the quantities, read fresh from `items`. */
    function TotalItems(): (n: int)
      reads this
      requires Valid()
      ensures n >= |items|
    {
      TotalItemsAtLeastEntries(items);
      SumOf(items, LineQuantity)
    }

    /** `totalPrice` / `getTotalPrice()`: the sum of price times quantity, read fresh from `items`. */
    function TotalPrice(): (p: int)
      reads this
      requires Valid()
      ensures (forall i :: 0 <= i < |items| ==> items[i].product.price >= 0) ==> p >= 0
    {
      TotalPriceNonNegative(items);
      SumOf(items, LineTotal)
    }

    /**
     * `addToCart(product)`: a new id gets an entry with quantity 1; an id
     * already present has its quantity raised by 1 unless that quantity has
     * reached the stock of the product passed in.
     */
    method AddToCart(product: Product)
      requires Valid()
      modifies this
      ensures Valid()
      ensures !HasItem(old(items), product.id) ==> items == old(items) + [CartItem(product, 1)]
      ensures forall k :: 0 <= k < |old(items)| && old(items)[k].product.id == product.id ==>
        items == if old(items)[k].quantity >= product.stock then old(items)
                 else old(items)[k := Incremented(old(items)[k])]
      ensures TotalItems() == old(TotalItems()) + (if items == old(items) then 0 else 1)
      ensures !HasItem(old(items), product.id) ==> TotalPrice() == old(TotalPrice()) + product.price
      ensures forall k :: 0 <= k < |old(items)| && old(items)[k].product.id == product.id ==>
        TotalPrice() == old(TotalPrice()) +
          if old(items)[k].quantity >= product.stock then 0 else old(items)[k].product.price
    {
      var found := FindItem(items, product.id);
      if found.Some? {
        var k := found.value;
        if items[k].quantity >= product.stock {
          return;
        }
        IncrementEffect(items, product.id, k);
        items := MapMatching(items, product.id, Incremented);
      } else {
        AppendEffect(items, product);
        items := items + [CartItem(product, 1)];
      }
    }

    /** `removeFromCart(productId)`: drop the entry with that id, keeping the others in order. */
    method RemoveFromCart(productId: int)
      requires Valid()
      modifies this
      ensures Valid()
      ensures !HasItem(old(items), productId) ==> items == old(items)
      ensures forall k :: 0 <= k < |old(items)| && old(items)[k].product.id == productId ==>
        items == old(items)[..k] + old(items)[k + 1..] &&
        TotalItems() == old(TotalItems()) - old(items)[k].quantity &&
        TotalPrice() == old(TotalPrice()) - LineTotal(old(items)[k])
    {
      var found := FindItem(items, productId);
      if found.Some? {
        var k := found.value;
        assert forall j :: 0 <= j < |items| && items[j].product.id == productId ==> j == k;
        RemoveEffect(items, productId, k);
        items := Filter(items, OtherThan(productId));
      } else {
        assert forall i :: 0 <= i < |items| ==> OtherThan(productId)(items[i]);
        FilterKeepsAll(items, OtherThan(productId));
        items := Filter(items, OtherThan(productId));
      }
    }

    /**
     * `updateQuantity(productId, newQuantity)`: ignored when no entry has the
     * id, when the new quantity exceeds the entry's stored stock, or when it
     * is below 1; otherwise sets that entry's quantity and nothing else.
     */
    method UpdateQuantity(productId: int, newQuantity: int)
      requires Valid()
      modifies this
      ensures Valid()
      ensures !HasItem(old(items), productId) ==> items == old(items)
      ensures FindItem(old(items), productId).Some? ==>
        var k := FindItem(old(items), productId).value;
        var item := old(items)[k];
        if newQuantity > item.product.stock || newQuantity < 1 then items == old(items)
        else
          items == old(items)[k := item.(quantity := newQuantity)] &&
          TotalItems() == old(TotalItems()) - item.quantity + newQuantity &&
          TotalPrice() == old(TotalPrice()) - LineTotal(item) + LineTotal(item.(quantity := newQuantity))
    {
      var found := FindItem(items, productId);
      if found.None? {
        return;
      }
      var item := items[found.value];
      if newQuantity > item.product.stock {
        return;
      }
      if newQuantity < 1 {
        return;
      }
      SetQuantityEffect(items, productId, found.value, newQuantity);
      items := MapMatching(items, productId, WithQuantity(newQuantity));
    }

    /** `clearCart()`. */
    method ClearCart()
      modifies this
      ensures Valid() && items == []
    {
      items := [];
    }
  }

  /** The quantity after `n >= 1` adds of one product: `n`, capped at the stock, and never below 1. */
  function QuantityAfter(n: nat, stock: int): int
  {
    if stock <= 1 then 1 else if n <= stock then n else stock
  }

  /**
   * Adding the same new product `n` times: the entry's quantity climbs to the
   * product's stock and stays there (a product with no stock still gets its
   * first entry, with quantity 1).
   */
  method AddRepeatedly(cart: CartStore, product: Product, n: nat)
    requires cart.Valid() && !HasItem(cart.items, product.id)
    modifies cart
    ensures cart.Valid()
    ensures n == 0 ==> cart.items == old(cart.items)
    ensures n > 0 ==> cart.items == old(cart.items) + [CartItem(product, QuantityAfter(n, product.stock))]
  {
    ghost var before := cart.items;
    var added := 0;
    while added < n
      invariant 0 <= added <= n
      invariant cart.Valid()
      invariant added == 0 ==> cart.items == before
      invariant added > 0 ==> cart.items == before + [CartItem(product, QuantityAfter(added, product.stock))]
    {
      if added > 0 {
        assert cart.items[|before|].product.id == product.id;
      }
      cart.AddToCart(product);
      added := added + 1;
    }
  }
}
