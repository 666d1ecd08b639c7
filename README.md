# Storefront core, modelled in Dafny

This project models the logic core of a single-page storefront:

- **The catalog service** (`productService.js`):
  - lookups by id, by a list of ids, and by product for reviews;
  - the list of distinct categories;
  - `filterProducts`, the listing engine. It filters by search text, category and price range. It then sorts stably by title, price or rating, ascending or descending. Finally it cuts one page out of the result and reports the totals.
- **Three client-side stores** (zustand):
  - the **cart**: entries with quantities, capped by stock and floored at 1, plus the two derived totals;
  - the **compare list**: at most two products, where a third pushes out the older one;
  - the **wishlist**: saved products, distinct by id.
- **The flash-sale countdown formatter** of the product details page.

How the pieces are modelled:

- **Pure code** is written as Dafny functions over datatypes: lookups, category list, predicates, pagination and countdown.
- **Each store** is a `class` with one `seq` field. The methods reassign that field and state the whole new state in terms of the old one. A ghost `Valid()` invariant is preserved by every method: unique ids, plus positive quantities for the cart and at most two entries for the compare list.
- **`filterProducts`** is a method.
  - It runs the three filter passes in order.
  - It copies the result into an array and sorts it in place with an insertion sort whose loop is proved against a functional stable sort, `Sorting.StableSort`.
  - It then slices out the page.
- **The properties the listing promises** are lemmas about the specification functions:
  - sorted;
  - a permutation;
  - ties kept in catalog order;
  - every product on a page matches the query;
  - page `p` is empty exactly when `p` exceeds the page count.

Conventions:

- Prices are whole cents and ratings whole tenths of a star, so no floating point enters the model.
- Strings are `seq<char>`.
- JavaScript's `null`/`undefined` and the `Infinity` default of `maxPrice` are `Option.None`.

Files, one module each:
- `wrappers.dfy`: Option.
- `seqs.dfy`: order-preserving `Filter` and its laws.
- `products.dfy`: records and id lookup.
- `text.dfy`: lower-casing and substring search.
- `sorting.dfy`: the comparator, the stable sort and the in-place array sort.
- `pagination.dfy`.
- `product_service.dfy`.
- `cart_store.dfy`.
- `compare_store.dfy`.
- `wishlist_store.dfy`.
- `countdown.dfy`.

## Model

| member | source | states |
|---|---|---|
| Products.FindById | src/features/products/services/productService.js:11-15 | `getProductById`: `None` exactly when no product has the id; otherwise a product with that id, the first one in catalog order |
| Products.FindByIdUnique | src/features/products/services/productService.js:13 | with unique ids, the lookup returns precisely the product at the index holding the id |
| Products.RemoveUnique | src/features/compare/hooks/useCompareStore.js:20-23 | with unique ids, filtering out an id deletes exactly that one product and keeps the rest in order |
| Products.FilterKeepsUniqueIds | src/features/compare/hooks/useCompareStore.js:20-23 | filtering a list with unique ids leaves the ids unique, so a removal keeps the store valid |
| Seqs.Filter | src/features/products/services/productService.js:20 | `Array.prototype.filter`: never longer than the input, and every kept element is accepted by the callback |
| Seqs.FilterMembers | src/features/products/services/productService.js:20 | every kept element comes from the input, and every accepted input element is kept |
| Seqs.FilterCount | src/features/products/services/productService.js:20 | every accepted value occurs in the result as often as in the input; rejected values not at all |
| Seqs.FilterSingleton | src/features/products/services/productService.js:20 | a one-element list is kept whole exactly when the callback accepts its element, otherwise emptied |
| Seqs.FilterPastLast | src/features/products/services/productService.js:70 | when at most one of two elements passes, appending one behind the other does not change which passes or their order |
| Seqs.FilterIsSubsequence | src/features/products/services/productService.js:20 | filtering keeps the input order: the result is a subsequence of the input |
| Seqs.FilterAppend | src/features/products/services/productService.js:54-67 | filtering distributes over concatenation |
| Seqs.FilterCongruent | src/features/products/services/productService.js:54-67 | two callbacks that agree on every element filter alike |
| Seqs.FilterKeepsAll | src/features/cart/hooks/useCartStore.js:29 | a callback that accepts every element returns the list unchanged (removal of an absent id is a no-op) |
| Seqs.FilterDropsOne | src/features/cart/hooks/useCartStore.js:29 | a callback rejecting exactly one position deletes exactly that position |
| Seqs.FilterFilter | src/features/products/services/productService.js:54-67 | two filter passes in a row equal one pass with the conjunction of the callbacks |
| Text.Lower | src/features/products/services/productService.js:53 | `toLowerCase`: same length, each character lowered |
| Text.Includes | src/features/products/services/productService.js:56-57 | `includes`, as a left-to-right scan of start positions; `Text.IncludesIffOccurs` proves what it decides |
| Text.OccursShift | src/features/products/services/productService.js:56-57 | dropping the first character of the haystack moves every occurrence after position 0 one place left |
| Text.LowerIdempotent | src/features/products/services/productService.js:56-57 | lowering twice is lowering once |
| Text.IncludesIffOccurs | src/features/products/services/productService.js:56-57 | `includes` holds exactly when the needle occurs at some index of the haystack |
| Sorting.KeyOf | src/features/products/services/productService.js:72-83 | `"price"` selects price, `"rating"` selects rating, anything else (including `"title"`) selects title |
| Sorting.OrderingOf | src/features/products/services/productService.js:72-84 | the sort order of a query: title for any `sortBy` other than `"price"` and `"rating"`, descending only for the exact string `"desc"` |
| Sorting.TitleCompare | src/features/products/services/productService.js:81 | the title comparison returns -1, 0 or 1 |
| Sorting.TitleCompareAntisymmetric | src/features/products/services/productService.js:81 | swapping the titles negates the comparison |
| Sorting.TitleCompareZero | src/features/products/services/productService.js:81 | titles compare equal exactly when they are equal |
| Sorting.TitleCompareTransitive | src/features/products/services/productService.js:81 | the title order is transitive |
| Sorting.Compare | src/features/products/services/productService.js:72-83 | the `switch`: price difference, rating difference or title comparison; `Sorting.ComparatorTieIffSameKey` states that it is zero exactly on equal keys |
| Sorting.Comparator | src/features/products/services/productService.js:70-85 | the sort callback: the key comparison, negated exactly when `sortOrder` is `"desc"`; its order properties are the lemmas below |
| Sorting.ComparatorTieIffSameKey | src/features/products/services/productService.js:70-85 | the callback reports a tie exactly when both products carry the same key, whichever the direction |
| Sorting.ComparatorAntisymmetric | src/features/products/services/productService.js:70-85 | the sort callback (any key, either direction) is antisymmetric |
| Sorting.ComparatorTransitive | src/features/products/services/productService.js:70-85 | the sort callback's "not after" relation is transitive |
| Sorting.ComparatorTieTransitive | src/features/products/services/productService.js:70-85 | ties under the callback are transitive |
| Sorting.Insert | src/features/products/services/productService.js:70 | inserting one product lengthens the list by one |
| Sorting.StableSort | src/features/products/services/productService.js:70 | sorting keeps the length |
| Sorting.InsertPermutes | src/features/products/services/productService.js:70 | insertion adds exactly the new product to the multiset |
| Sorting.StableSortPermutes | src/features/products/services/productService.js:70 | the sorted list is a permutation of the input |
| Sorting.SortedAppend | src/features/products/services/productService.js:70-85 | appending a product that no element sorts after keeps a sorted list sorted |
| Sorting.InsertSorted | src/features/products/services/productService.js:70-85 | inserting into a sorted list keeps it sorted |
| Sorting.StableSortSorted | src/features/products/services/productService.js:70-85 | the result is sorted under the callback |
| Sorting.StableSortOrdersByKey | src/features/products/services/productService.js:72-84 | in the result, earlier products have price (or rating, or title) not above the later ones ascending, not below descending |
| Sorting.InsertTies | src/features/products/services/productService.js:70 | insertion adds the new product to the end of its tie class, if it belongs to it |
| Sorting.StableSortKeepsTieOrder | src/features/products/services/productService.js:70 | stability: products that compare equal keep their catalog order |
| Sorting.NotBothTie | src/features/products/services/productService.js:70-85 | two products the callback puts in strict order never both tie with a third |
| Sorting.InsertAt | src/features/products/services/productService.js:70 | insertion places the new product right after the last element not after it, when every later element is after it |
| Sorting.ShiftStep | src/features/products/services/productService.js:70 | copying the element before the gap into it moves the gap one place left and keeps every other element where the shift put it |
| Sorting.PlaceInGap | src/features/products/services/productService.js:70 | writing the new product into the gap yields the insertion of it at the gap's index into the prefix, the rest of the array untouched |
| Sorting.ShiftGap | src/features/products/services/productService.js:70 | in place: the array becomes its old contents with the run from the returned index up to `i` moved one place right, nothing else changed; the element before that index is not after the new product, and every element of the run sorts strictly after it |
| Sorting.InsertLast | src/features/products/services/productService.js:70 | in place: the prefix `a[..i+1]` becomes the insertion of `a[i]` into the sorted `a[..i]`; the rest is untouched |
| Sorting.SortInPlace | src/features/products/services/productService.js:70-85 | in place: the array becomes the stable sort of its old contents |
| Pagination.TotalPages | src/features/products/services/productService.js:89 | `Math.ceil(total / limit)`: the smallest count of pages of `limit` that holds `total` |
| Pagination.Slice | src/features/products/services/productService.js:91 | `slice` never yields more than `end - start` items |
| Pagination.Paginate | src/features/products/services/productService.js:90-91 | `filtered.slice(startIndex, startIndex + limit)` with `startIndex = (page - 1) * limit`; `Pagination.PageIsSlice` and `Pagination.PageCovers` state which items it holds |
| Pagination.PageIsSlice | src/features/products/services/productService.js:90-91 | a page has at most `limit` items and is the run of the list from `(page-1)*limit` |
| Pagination.PageEmptyIffPastLast | src/features/products/services/productService.js:89-91 | a page is empty exactly when its number exceeds `totalPages` |
| Pagination.PageFullBeforeLast | src/features/products/services/productService.js:89-91 | every page before the last holds exactly `limit` items |
| Pagination.PageCovers | src/features/products/services/productService.js:90-91 | item `i` shows on page `i / limit + 1` at offset `i % limit` |
| ProductService.GetProductsByIds | src/features/products/services/productService.js:17-22 | the catalog products whose id is listed, in catalog order, each kept as many times as it occurs in the catalog; none other |
| ProductService.GetReviewsByProductId | src/features/products/services/productService.js:30-36 | the reviews of that product, in their stored order, each kept as many times as it is stored; none other |
| ProductService.CategoryColumn | src/features/products/services/productService.js:26 | `products.map(p => p.category)` |
| ProductService.Distinct | src/features/products/services/productService.js:26 | `[...new Set(s)]`: no duplicates, and the same members as `s` |
| ProductService.FirstIndex | src/features/products/services/productService.js:26 | the first position at which a value occurs |
| ProductService.GetCategories | src/features/products/services/productService.js:24-28 | `getCategories`: no category twice, and every catalog product's category present |
| ProductService.DistinctFirstSeenOrder | src/features/products/services/productService.js:26 | the distinct values come in the order of their first occurrence |
| ProductService.GetCategoriesSpec | src/features/products/services/productService.js:24-28 | `getCategories`: each category once, every product's category present, nothing else, in order of first appearance |
| ProductService.ApplyFilters | src/features/products/services/productService.js:49-67 | the three filter passes (search, category, price) yield the catalog products matching the whole query, in catalog order |
| ProductService.SearchStage | src/features/products/services/productService.js:54-58 | the search callback: the lowered search text is included in the lowered title or description; `ProductService.ApplyFilters` proves the staged passes equal the combined query filter |
| ProductService.CategoryStage | src/features/products/services/productService.js:63 | the category callback: the product's category is the selected one |
| ProductService.PriceStage | src/features/products/services/productService.js:67 | the price callback: at least `minPrice` and, when `maxPrice` is given, at most it |
| ProductService.SortedCopy | src/features/products/services/productService.js:70-85 | the in-place sort of a copy equals the stable sort of the filtered list |
| ProductService.FilterProducts | src/features/products/services/productService.js:38-100 | `data` is page `page` of the sorted matching products, `total` counts all matches, `totalPages` is the ceiling, `page` and `limit` are echoed |
| ProductService.MatchingSpec | src/features/products/services/productService.js:49-67 | a product is in the filtered list exactly when it is in the catalog and matches; each match is kept as many times as it occurs; order is catalog order |
| ProductService.SearchOkSpec | src/features/products/services/productService.js:52-59 | the search keeps a product exactly when the search is empty or the lowered text occurs in the lowered title or description |
| ProductService.SearchIgnoresCase | src/features/products/services/productService.js:53-57 | the search result does not depend on the case of the search text |
| ProductService.PageProductsMatch | src/features/products/services/productService.js:87-91 | every product on the returned page is a catalog product matching the query |
| ProductService.DefaultQueryKeepsAll | src/features/products/services/productService.js:38-47 | with every parameter defaulted, no product of non-negative price is filtered out and the order is by title ascending |
| Cart.FindItem | src/features/cart/hooks/useCartStore.js:8 | `items.find`: absent exactly when no entry has the id, else the first entry with the id |
| Cart.MapMatching | src/features/cart/hooks/useCartStore.js:14-18 | `items.map`: same length; a cart without the id comes back unchanged; in a cart with unique ids exactly the entry holding the id is rewritten, every other entry kept |
| Cart.RemoveUniqueItem | src/features/cart/hooks/useCartStore.js:29 | with unique ids, the removal filter deletes exactly that entry, keeping the order |
| Cart.DeleteKeepsValid | src/features/cart/hooks/useCartStore.js:27-31 | deleting an entry keeps ids unique and quantities at least 1 |
| Cart.SumOfUpdate | src/features/cart/hooks/useCartStore.js:55-64 | replacing one entry changes a total by the difference of that entry's terms |
| Cart.SumOfRemove | src/features/cart/hooks/useCartStore.js:55-64 | deleting one entry lowers a total by that entry's term |
| Cart.SumOf | src/features/cart/hooks/useCartStore.js:66-75 | the `reduce` from 0 adding one term per entry; `Cart.SumOfUpdate` and `Cart.SumOfRemove` state how it moves |
| Cart.TotalItemsAtLeastEntries | src/features/cart/hooks/useCartStore.js:55-57 | with quantities at least 1, the item count is at least the number of entries |
| Cart.TotalPriceNonNegative | src/features/cart/hooks/useCartStore.js:59-64 | with non-negative prices and quantities, the total price is not negative |
| Cart.UpdateKeepsValid | src/features/cart/hooks/useCartStore.js:14-18 | rewriting an entry without changing its id and with quantity at least 1 keeps the cart valid |
| Cart.IncrementEffect | src/features/cart/hooks/useCartStore.js:13-19 | raising one entry's quantity keeps the cart valid, adds one item and one unit price to the totals |
| Cart.AppendEffect | src/features/cart/hooks/useCartStore.js:21-23 | appending a new entry of quantity 1 keeps the cart valid, adds one item and the product's price |
| Cart.RemoveEffect | src/features/cart/hooks/useCartStore.js:27-31 | the removal filter deletes exactly the entry at the id's index, keeps the cart valid and lowers both totals by that entry's share |
| Cart.SetQuantityEffect | src/features/cart/hooks/useCartStore.js:46-50 | setting one entry's quantity to at least 1 rewrites exactly that entry, keeps the cart valid and replaces its share of both totals |
| Cart.CartStore.TotalItems | src/features/cart/hooks/useCartStore.js:66-68 | `getTotalItems()`: the sum of the quantities of the current entries; at least the number of entries |
| Cart.CartStore.TotalPrice | src/features/cart/hooks/useCartStore.js:70-75 | `getTotalPrice()`: the sum of price times quantity over the current entries; not negative when no price is |
| Cart.CartStore.constructor | src/features/cart/hooks/useCartStore.js:4 | the cart starts empty |
| Cart.CartStore.AddToCart | src/features/cart/hooks/useCartStore.js:6-25 | new id: appended with quantity 1; quantity already at the passed product's stock: unchanged; otherwise that entry's quantity + 1, nothing else; how both totals change |
| Cart.CartStore.RemoveFromCart | src/features/cart/hooks/useCartStore.js:27-31 | the entry with the id is deleted, the others kept in order; absent id: unchanged; both totals drop by that entry's share |
| Cart.CartStore.UpdateQuantity | src/features/cart/hooks/useCartStore.js:35-51 | unchanged when the id is absent, the quantity exceeds the stored stock, or is below 1; otherwise the first entry with the id takes the new quantity and nothing else changes; the item count moves by the change and the price total swaps that entry's old line total for the new one |
| Cart.CartStore.ClearCart | src/features/cart/hooks/useCartStore.js:53 | the cart becomes empty |
| Cart.AddRepeatedly | src/features/cart/hooks/useCartStore.js:6-25 | `n` adds of a new product leave one entry whose quantity is `n` capped at the stock, and never below 1 |
| Compare.CompareStore.constructor | src/features/compare/hooks/useCompareStore.js:4 | the compare list starts empty |
| Compare.CompareStore.AddToCompare | src/features/compare/hooks/useCompareStore.js:6-18 | duplicate id: unchanged; fewer than two: appended; two: `[second, new]`; a new product always ends up last |
| Compare.CompareStore.RemoveFromCompare | src/features/compare/hooks/useCompareStore.js:20-23 | the product with the id is deleted, the other keeps its order; absent id: unchanged; the id is gone afterwards |
| Compare.CompareStore.ClearCompare | src/features/compare/hooks/useCompareStore.js:25 | the compare list becomes empty |
| Compare.AddThree | src/features/compare/hooks/useCompareStore.js:6-18 | three distinct adds to an empty list leave the last two, in order |
| Wishlist.WishlistStore.constructor | src/features/wishlist/hooks/useWishlistStore.js:4 | the wishlist starts empty |
| Wishlist.WishlistStore.AddToWishlist | src/features/wishlist/hooks/useWishlistStore.js:6-11 | appended unless the id is already saved; afterwards the id is saved |
| Wishlist.WishlistStore.RemoveFromWishlist | src/features/wishlist/hooks/useWishlistStore.js:14-16 | the empty stub, as written: the list is unchanged |
| Wishlist.WishlistStore.RemoveFromWishlistIntended | src/features/wishlist/hooks/useWishlistStore.js:14-16 | the evidently intended removal: filter out the id; afterwards it is not saved, and every other id's status is unchanged |
| Wishlist.WishlistStore.IsInWishlist | src/features/wishlist/hooks/useWishlistStore.js:18-20 | `items.some`: true exactly when some saved product has the id |
| Wishlist.StubKeepsProduct | src/features/wishlist/hooks/useWishlistStore.js:14-16 | as written, save then remove leaves the product saved |
| Wishlist.RemoveUndoesAdd | src/features/wishlist/hooks/useWishlistStore.js:6-16 | with the intended removal, removing a product just saved restores the earlier list |
| Countdown.FormatCountdown | src/pages/ProductDetailsPage.jsx:53-60 | nothing when the input is `null` or not positive; otherwise days, hours < 24, minutes < 60, seconds < 60 that add back up to the input, with days = input div 86400 |
| Countdown.SplitAdds | src/pages/ProductDetailsPage.jsx:55-58 | the four computed fields add back up to the number of seconds |
| Countdown.ReadingUnique | src/pages/ProductDetailsPage.jsx:55-58 | two in-range readings of the same number of seconds are equal |
| Countdown.FormatInvertsSeconds | src/pages/ProductDetailsPage.jsx:53-60 | formatting inverts counting: any in-range, non-zero reading formats back to itself |

## Left out

- Asynchrony: the 500 ms `wait` before every service call and the `Promise` wrapping are left out. Each service call is a plain function of the catalog and the review list, which are parameters.
- `getProducts` returns the catalog as it is. It is the identity on the catalog parameter and has no member.
- `Number(id)` parsing of string ids in `getProductById`, `getProductsByIds` and `getReviewsByProductId` is left out. Ids are integers throughout.
- Products.FindById: does not model the `Number(...)` conversion of its argument. A numeric string such as `'2'` has to be converted by the caller.
- Floating point is left out. Prices are integer cents and ratings integer tenths, so the price and rating differences in the sort callback are exact.
- Sorting.TitleCompare: `localeCompare` is modelled as plain lexicographic order on characters. Locale collation rules (accents, case-insensitive first pass) are not modelled.
- Text.Lower: `toLowerCase` is modelled for ASCII letters only. Other Unicode case mappings are not modelled.
- ProductService.FilterProducts: requires `page >= 1` and `limit >= 1`. JavaScript's behaviour for a zero or negative limit (an `Infinity`/`NaN` page count, and `slice` with negative indices counted from the end) and for `page < 1` is not modelled.
- ProductService.FilterProducts: the `search` and `category` parameters are compared with `""` for the JavaScript truthiness tests. Other falsy values (`null`, `undefined`) are represented by the defaults. `minPrice`/`maxPrice` are integers, and `maxPrice` is absent for `Infinity`.
- Zustand wiring is left out: `create`, `set`/`get` and React subscriptions. Each store is a class whose methods replace its one field.
- Cart.CartStore.TotalItems: models `getTotalItems()` (useCartStore.js:66-68), which reads the current entries. The `totalItems` getter at 55-57 is not modelled: zustand's merging `set` is not part of this model, and it copies the state with `Object.assign`, which reads the getter once and stores a plain number computed from the entries before the update, so the field does not follow the cart.
- Cart.CartStore.TotalPrice: models `getTotalPrice()` (useCartStore.js:70-75); the `totalPrice` getter at 59-64 is left out for the same reason as `totalItems`.
- Persistence to client storage is not part of this model. The store sources create plain in-memory stores.
- Wishlist.WishlistStore.RemoveFromWishlist: models the code as written, an empty stub. The evidently intended removal is modelled beside it (see Findings).
- The rest of the product details page is not part of this model: the interval timer that counts the countdown down, rendering, stars and reviews. Only `formatCountdown` is modelled. The JavaScript `%` and `Math.floor` agree with Dafny's `%` and `/` for the positive inputs that reach them.

## Findings

| source | as written | input that shows it | evidently intended | confidence | as-written member | corrected member |
|---|---|---|---|---|---|---|
| src/features/wishlist/hooks/useWishlistStore.js:14-16 | `removeFromWishlist` has an empty body, so nothing is ever removed | `addToWishlist(p)`, then `removeFromWishlist(p.id)`: `isInWishlist(p.id)` is still true | drop the saved product with that id, as `removeFromCart` and `removeFromCompare` do | high (not executed) | Wishlist.StubKeepsProduct | Wishlist.WishlistStore.RemoveFromWishlistIntended |
