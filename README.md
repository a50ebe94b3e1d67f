# Storefront catalogue and cart, in Dafny

This project models the core of a single-page phone storefront (`static/script/app.js`). The page keeps two lists in the browser's local storage:

- the **product catalogue**, held by `ProductRepository`: `getAll`, `getById`, `add` and `clear`;
- the **cart**, held by `CartRepository`: `getAll`, `getByProductId`, `add` and `remove`. The cart is a list of `{productId, amount}` entries.

`render` then does three things this model covers:

- it filters the catalogue by the query's constraints (name search, price/RAM/storage ranges, manufacturers, and optionally "discounted only");
- it sorts the result by price;
- it shows each product at its displayed price (the discounted price, rounded with `Math.round`) and totals the cart.

Modules:

- `Catalog`: the `Product` and `CartEntry` records, and the first-match lookups behind `getById` and `getByProductId`.
- `ProductStore`: the `ProductRepository` class, whose `products` field the methods reassign. Also holds `WithProduct`, the function that specifies `add`, and the lemmas about it: idempotence, and ids staying distinct over any sequence of adds.
- `CartStore`: the `CartRepository` class and the functions that specify `add` and `remove` (`Added`, `Removed`). Also holds:
  - the cart invariant `CartValid`: one entry per product, every amount at least 1;
  - lemmas on the effect of each operation, on preserving the invariant, and on add-then-remove and n adds / n removes.
- `Pricing`: the displayed price, `Math.round(price * (1 - discount / 100))` in exact integer arithmetic.
- `Listing`: the filter/sort pipeline.
  - `Filter` models `Array.prototype.filter`.
  - `SortByPrice` is a stable insertion sort on the base price.
  - `VisibleSpec` states that the shown list is a permutation of the catalogue products that pass every filter, and that it is sorted.
- `Checkout`: the loop in `render` that accumulates `totalPrice`, proved against a recursive sum `Total`, plus how `add` and `remove` move the total.
- `SeedData`: the four demo products of `seed()`, and what the page computes for them.

Two consequences of the code are worth noting:

- **Sort key.** The comparator in `render` (`static/script/app.js:282-284`) compares the base `price`, not the displayed (discounted) price. On a reload with no query, once the seed is stored, the page shows products 2, 4, 3, 1. Product 4 (base 34999, displayed 32899) therefore comes before product 3 (32999), although 4's displayed price is lower (`SeedUnconstrainedOrder`).
- **Product 4's displayed price.** 34999 × 0.94 = 32899.06, which rounds to 32899 (`SeedDisplayedPrices`).

## Model

| member | source | states |
|---|---|---|
| Catalog.ProductIndex | static/script/app.js:33-35 | the index of the first product with the id, -1 exactly when no product has it; no earlier product has the id |
| Catalog.FindProduct | static/script/app.js:33-35 | `getById`: none exactly when no product has the id; otherwise a stored product with that id, and the first one |
| Catalog.EntryIndex | static/script/app.js:80 | `findIndex`: the first entry for the product, -1 exactly when there is none |
| Catalog.FindEntry | static/script/app.js:71-73 | `getByProductId`: none exactly when the cart has no entry for the product; otherwise a stored entry for it, and the first one |
| ProductStore.AddIdempotent | static/script/app.js:44-54 | a second `add` of the same product changes nothing |
| ProductStore.AddKeepsAndContains | static/script/app.js:44-54 | after `add` the id is present, the old list is a prefix, and at most one product was added |
| ProductStore.AddPreservesDistinct | static/script/app.js:47-51 | `add` on a list with distinct ids keeps the ids distinct |
| ProductStore.AddAllPreservesDistinct | static/script/app.js:44-54 | any sequence of `add` calls keeps the ids distinct |
| ProductStore.AddAllContains | static/script/app.js:44-54 | after a sequence of `add` calls every added id is stored, and the old list is a prefix |
| ProductStore.ProductRepository.constructor | static/script/app.js:25-27 | the repository holds the stored list |
| ProductStore.ProductRepository.Clear | static/script/app.js:37-39 | after `clear` the list is empty |
| ProductStore.ProductRepository.Add | static/script/app.js:44-54 | a no-op when the id is taken, otherwise appends; the id is present afterwards; distinct ids stay distinct |
| CartStore.Quantity | static/script/app.js:299 | definition: the amount of the product's entry, or 0 when the cart has none |
| CartStore.EntryIndexAt | static/script/app.js:80 | a position holding the product with no earlier one holding it is the index `findIndex` returns |
| CartStore.OthersAppend | static/script/app.js:78-104 | the entries for other products in a concatenation are those of each part |
| CartStore.OthersAround | static/script/app.js:98 | deleting an entry for the product leaves the other products' entries unchanged |
| CartStore.OthersReplace | static/script/app.js:84 | replacing an entry for the product with another entry for it leaves the other products' entries unchanged |
| CartStore.OthersAbsent | static/script/app.js:78-104 | in a cart with no entry for the product, every entry belongs to another product |
| CartStore.AddedEffect | static/script/app.js:78-87 | `add` raises the product's quantity by exactly 1 and leaves the other products' entries and their order unchanged |
| CartStore.AddedOtherQuantity | static/script/app.js:78-87 | `add` leaves every other product's quantity unchanged |
| CartStore.AddedValid | static/script/app.js:78-87 | `add` preserves the cart invariant |
| CartStore.AddedAbsent | static/script/app.js:81-82 | `add` of an absent product appends an entry with amount 1 |
| CartStore.AddedPresent | static/script/app.js:83-84 | `add` of a present product keeps the length and product order, and changes no other entry |
| CartStore.RemovedOthers | static/script/app.js:92-104 | `remove` leaves the other products' entries and their order unchanged |
| CartStore.RemovedAbsent | static/script/app.js:95 | `remove` of an absent product is a no-op |
| CartStore.RemovedQuantity | static/script/app.js:95-101 | under the invariant, `remove` of a present product lowers its quantity by 1; at amount 1 it removes the entry and the cart gets one shorter |
| CartStore.RemovedValid | static/script/app.js:92-104 | `remove` preserves the cart invariant |
| CartStore.RemoveAfterAdd | static/script/app.js:78-104 | under the invariant, `add` then `remove` of the same product restores the cart exactly |
| CartStore.AddedToTail | static/script/app.js:80-84 | when the product's only entry is last, `add` increments that entry |
| CartStore.AddedTimesFromAbsent | static/script/app.js:78-87 | n ≥ 1 adds of an absent product append a single entry with amount n |
| CartStore.AddedTimesQuantity | static/script/app.js:78-87 | n adds of an absent product give it quantity n |
| CartStore.QuantityAtTail | static/script/app.js:71-73 | an entry appended after entries for other products is the one `getByProductId` finds |
| CartStore.RemovedFromTail | static/script/app.js:95-101 | `remove` on a last entry of amount k decrements it, or deletes it when k ≤ 1 |
| CartStore.RemovedTimesFromTail | static/script/app.js:92-104 | n removes of a last entry with amount n delete it |
| CartStore.RemoveTimesUndoesAdds | static/script/app.js:78-104 | from a cart without the product, n adds followed by n removes restore the cart |
| CartStore.CartRepository.constructor | static/script/app.js:63-65 | the repository holds the stored entries |
| CartStore.CartRepository.Add | static/script/app.js:78-87 | the new entries are `Added` of the old; the quantity rises by 1; other entries are unchanged; the invariant is kept |
| CartStore.CartRepository.Remove | static/script/app.js:92-104 | the new entries are `Removed` of the old; a no-op when absent; other entries are unchanged; the invariant is kept; under the invariant the quantity of a present product drops by 1 |
| Pricing.HasDiscount | static/script/app.js:280 | definition: the discount is truthy, that is present and not 0 |
| Pricing.DiscountedPrice | static/script/app.js:287-289 | the integer nearest to price × (100 − discount) / 100, halves rounding up |
| Pricing.DisplayedPrice | static/script/app.js:287-289 | the base price when the discount is null or 0; otherwise the rounded discounted price |
| Pricing.DisplayedPriceBounds | static/script/app.js:287-289 | for a non-negative price and a discount in 0..100, the displayed price lies between 0 and the base price |
| Listing.Matches | static/script/app.js:272-278 | definition: the first filter's name, inclusive range and manufacturer tests |
| Listing.Selected | static/script/app.js:272-281 | definition: the first filter, and a truthy discount when the discounts flag is set |
| Listing.Filter | static/script/app.js:272-281 | `filter` keeps exactly the elements the predicate accepts, every copy of each, in their input order (a subsequence whose count of each element is its input count when accepted, 0 otherwise) |
| Listing.FilterTwice | static/script/app.js:272-281 | two filters in a row equal one filter on their conjunction |
| Listing.FilterSame | static/script/app.js:272-281 | filters with the same predicate values give the same result |
| Listing.FilteredIsSelected | static/script/app.js:272-281 | the two `filter` calls, with or without the discounts flag, keep exactly the products satisfying every constraint |
| Listing.SortedCons | static/script/app.js:282-284 | an element that may precede every element of a sorted list may head it |
| Listing.Insert | static/script/app.js:282-284 | inserting into a price-sorted list keeps it sorted and adds exactly that element |
| Listing.InsertHeadPrecedes | static/script/app.js:282-284 | the head of a sorted list still precedes everything after an insertion into its tail |
| Listing.SortByPrice | static/script/app.js:282-284 | `sort` with the price comparator gives a permutation sorted by base price, ascending or descending |
| Listing.Visible | static/script/app.js:272-284 | definition: the list `render` shows, the two filters followed by the price sort |
| Listing.VisibleSpec | static/script/app.js:272-284 | the shown list: the selected products form a subsequence of the catalogue; the shown list is a permutation of them; a product is shown iff it is in the catalogue and passes every filter; the list is sorted by base price |
| Listing.EmptySearchMatchesAll | static/script/app.js:272-273 | the default empty search matches every name |
| Checkout.CartTotal | static/script/app.js:307-328 | the loop's `totalPrice` is the sum over the cart of displayed price times amount; 0 for an empty cart |
| Checkout.TotalAppend | static/script/app.js:309-328 | the total of a concatenation is the sum of the totals |
| Checkout.TotalNonNegative | static/script/app.js:309-328 | with no negative unit price, the total of a valid cart is never negative |
| Checkout.CatalogPricesNonNegative | static/script/app.js:287-289 | with non-negative prices and discounts in 0..100, no displayed unit price is negative |
| Checkout.TotalAfterAdd | static/script/app.js:78-87 | `add` raises the total by the product's unit price |
| Checkout.TotalAfterRemove | static/script/app.js:92-104 | under the invariant, `remove` lowers the total by the unit price of a product in the cart, and keeps it otherwise |
| Checkout.TotalAfterRemovePresent | static/script/app.js:95-101 | removing one unit of a present entry lowers the total by its unit price |
| Checkout.TotalDeleteUnit | static/script/app.js:97-98 | deleting an entry of amount 1 lowers the total by its unit price |
| Checkout.TotalDecrement | static/script/app.js:99-100 | decrementing an entry lowers the total by its unit price |
| Checkout.TotalAround | static/script/app.js:309-328 | the total splits around any position |
| Checkout.TotalReplace | static/script/app.js:309-328 | replacing one entry changes the total by the difference of the two line totals |
| Checkout.TotalDelete | static/script/app.js:309-328 | deleting one entry removes its line total |
| SeedData.SeedAddSteps | static/script/app.js:197-200 | each of the four seed `add` calls appends its product |
| SeedData.SeedStored | static/script/app.js:148-201 | seeding an empty catalogue stores the four products in order, with distinct ids |
| SeedData.SeedDisplayedPrices | static/script/app.js:148-195 | the displayed prices are 3200, 39359, 32999 and 32899 |
| SeedData.SeedAllMatch | static/script/app.js:203-227 | with the default query every seed product passes the first filter |
| SeedData.SeedUnconstrainedOrder | static/script/app.js:272-284 | on a reload with the default query all four are shown in the order 2, 4, 3, 1, and the displayed prices are then out of order |
| SeedData.SeedSortedDescending | static/script/app.js:282-284 | the descending sort of the seed is 2, 4, 3, 1 |
| SeedData.SeedSortTail | static/script/app.js:282-284 | the descending sort of products 3 and 4 is 4, 3 |
| SeedData.InsertSecond | static/script/app.js:282-284 | product 2 goes first in the descending list 4, 3 |
| SeedData.InsertFirst | static/script/app.js:282-284 | product 1 goes last in the descending list 2, 4, 3 |
| SeedData.SeedDiscountedOnly | static/script/app.js:279-284 | with the discounts flag only products 2 and 4 are shown, in that order |
| SeedData.SortPairDescending | static/script/app.js:282-284 | a pair already in descending price order is left as it is |
| SeedData.SeedDiscountFilter | static/script/app.js:279-281 | the truthy-discount filter keeps products 2 and 4 |
| SeedData.FilterAllKept | static/script/app.js:272-278 | a filter that accepts every element returns its input |
| SeedData.SeedCartScenario | static/script/app.js:78-104 | adding product "1" twice and removing it once leaves one entry with amount 1, and a total of 3200 |
| SeedData.SeedScenario | static/script/app.js:148-201 | definition: the page's flow on the two repositories (seed the catalogue, add product "1" twice, remove it once, total the cart), with its intermediate states asserted |

## Left out

- Local storage and JSON: each repository keeps its list in a field. A missing storage key reads as the empty list. `JSON.parse` of corrupt data is not modelled.
- `getAll` is the field read. `ProductRepository.GetById` and `CartRepository.GetByProductId` are functions over the field; their contracts sit on `Catalog.FindProduct` and `Catalog.FindEntry`.
- Aliasing of returned lists is not modelled. `getAll` returns a fresh parse, so callers never share the stored list.
- The DOM, the HTML templates, the event handlers and `beforeRender` are not modelled. The cart summary is modelled only through its total.
- The query defaults on a first visit are not modelled. The top-level constants (`static/script/app.js:203-227`) are computed before `seed()` runs (`static/script/app.js:352`), so over an empty catalogue. This gives `minPrice` = Infinity, `maxPrice` = -Infinity and no manufacturers, and the first render shows no products. `SeedData.Unconstrained` and the seed scenarios hold the defaults of a reload, once the seed is stored.
- Query parsing (`URLSearchParams`, `parseInt`, the `isNaN` defaults from the catalogue's min/max) is not modelled. `FilterSpec` takes the already defaulted values; `SeedData.Unconstrained` holds the defaults over the stored seed.
- Numbers are integers. Fractional prices and discounts, and `NaN`, are not modelled. `Math.round` on floating point is modelled as exact rounding half up on integers. For integer inputs this matches except where the floating-point product lands just beside an exact half.
- Listing.Lower: `toLowerCase` maps only ASCII A–Z, Cyrillic А–Я and Ё; other characters are unchanged. The full Unicode case mapping is not modelled.
- Listing.SortByPrice: proved sorted and a permutation. Stability (the order of equal prices) is not stated, although the definition is a stable insertion sort.
- Checkout.CartTotal: requires every cart entry to refer to a catalogue product. For a missing product the source dereferences `null` and throws, which is not modelled. `Checkout.UnitPrice` counts such a product as 0 only for the lemmas.
- The totals, the counter and the price text are not formatted as strings (`price + " р."`).
