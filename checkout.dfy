/** The cart summary `render` shows: each entry joined to its product, and the grand total. */
module Checkout {
  import opened Catalog
  import opened Pricing
  import opened CartStore

  /** Every entry refers to a product in the catalogue, so the join never meets null. */
  predicate AllInCatalog(entries: seq<CartEntry>, products: seq<Product>)
  {
    forall i :: 0 <= i < |entries| ==> HasProductId(products, entries[i].productId)
  }

  /** The displayed price of the product an entry refers to (`productRepository.getById`).
      A missing product counts as 0 here; `CartTotal` never meets one. */
  function UnitPrice(products: seq<Product>, productId: string): int
  {
    match FindProduct(products, productId)
    case None => 0
    case Some(p) => DisplayedPrice(p)
  }

  /** The catalogue's displayed price of each product id. */
  function CatalogPrices(products: seq<Product>): string -> int
  {
    productId => UnitPrice(products, productId)
  }

  /** One line of the cart: unit price times quantity. */
  function LineTotal(priceOf: string -> int, e: CartEntry): int
  {
    priceOf(e.productId) * e.amount
  }

  /** The sum of the line totals, for a given unit price of each product id. */
  function Total(entries: seq<CartEntry>, priceOf: string -> int): int
    decreases |entries|
  {
    if entries == [] then 0
    else
      var last := |entries| - 1;
      Total(entries[..last], priceOf) + LineTotal(priceOf, entries[last])
  }

  /** The loop over the joined entries that accumulates `totalPrice`; the source dereferences
      the joined product, so every entry must refer to a catalogue product. */
  method CartTotal(entries: seq<CartEntry>, products: seq<Product>) returns (totalPrice: int)
    requires AllInCatalog(entries, products)
    ensures totalPrice == Total(entries, CatalogPrices(products))
    ensures entries == [] ==> totalPrice == 0
  {
    totalPrice := 0;
    for i := 0 to |entries|
      invariant totalPrice == Total(entries[..i], CatalogPrices(products))
    {
      var entry := entries[i];
      var product := FindProduct(products, entry.productId).value;
      var price := if HasDiscount(product) then DiscountedPrice(product.price, product.discount.value)
                   else product.price;
      totalPrice := totalPrice + price * entry.amount;
      assert entries[..i + 1][..i] == entries[..i];
    }
    assert entries[..|entries|] == entries;
  }

  /** The total of a concatenation is the sum of the totals. */
  lemma {:induction false} TotalAppend(a: seq<CartEntry>, b: seq<CartEntry>, priceOf: string -> int)
    ensures Total(a + b, priceOf) == Total(a, priceOf) + Total(b, priceOf)
    decreases |b|
  {
    if b == [] {
      assert a + b == a;
    } else {
      var last := |b| - 1;
      assert (a + b)[..|a + b| - 1] == a + b[..last];
      assert (a + b)[|a + b| - 1] == b[last];
      TotalAppend(a, b[..last], priceOf);
    }
  }

  /** With no negative unit price, the total of a cart that keeps its invariant is never
      negative. */
  lemma {:induction false} TotalNonNegative(entries: seq<CartEntry>, priceOf: string -> int)
    requires CartValid(entries)
    requires forall productId :: priceOf(productId) >= 0
    ensures Total(entries, priceOf) >= 0
    decreases |entries|
  {
    if entries != [] {
      var last := |entries| - 1;
      assert CartValid(entries[..last]) by {
        forall i | 0 <= i < last ensures entries[..last][i] == entries[i] { }
      }
      TotalNonNegative(entries[..last], priceOf);
      ScaleNonNegative(priceOf(entries[last].productId), entries[last].amount);
    }
  }

  /** With catalogue prices non-negative and discounts between 0 and 100, no displayed unit
      price is negative. */
  lemma CatalogPricesNonNegative(products: seq<Product>)
    requires forall k :: 0 <= k < |products| ==> products[k].price >= 0
    requires forall k :: 0 <= k < |products| ==>
               products[k].discount.Some? ==> 0 <= products[k].discount.value <= 100
    ensures forall productId :: CatalogPrices(products)(productId) >= 0
  {
    forall productId ensures CatalogPrices(products)(productId) >= 0 {
      var i := ProductIndex(products, productId);
      if i != -1 {
        DisplayedPriceBounds(products[i]);
      }
    }
  }

  /** `add` raises the total by the product's displayed price. */
  lemma TotalAfterAdd(entries: seq<CartEntry>, priceOf: string -> int, productId: string)
    ensures Total(Added(entries, productId), priceOf) ==
              Total(entries, priceOf) + priceOf(productId)
  {
    var index := EntryIndex(entries, productId);
    var price := priceOf(productId);
    if index == -1 {
      var added := CartEntry(productId, 1);
      assert Added(entries, productId) == entries + [added];
      TotalAppend(entries, [added], priceOf);
      assert [added][..0] == [];
      assert Total([added], priceOf) == price * 1;
    } else {
      var before := entries[index];
      var after := before.(amount := before.amount + 1);
      assert Added(entries, productId) == entries[index := after];
      TotalReplace(entries, index, after, priceOf);
      ScaleStep(price, before.amount);
    }
  }

  /** Under the cart invariant, `remove` of a product in the cart lowers the total by its
      displayed price; of a product not in the cart it keeps the total. */
  lemma TotalAfterRemove(entries: seq<CartEntry>, priceOf: string -> int, productId: string)
    requires CartValid(entries)
    ensures HasEntry(entries, productId) ==>
              Total(Removed(entries, productId), priceOf) ==
              Total(entries, priceOf) - priceOf(productId)
    ensures !HasEntry(entries, productId) ==>
              Total(Removed(entries, productId), priceOf) == Total(entries, priceOf)
  {
    var index := EntryIndex(entries, productId);
    if index != -1 {
      assert entries[index].amount >= 1;
      TotalAfterRemovePresent(entries, priceOf, productId, index);
    }
  }

  /** `remove` of an entry whose amount is at least 1 takes one unit off the total. */
  lemma TotalAfterRemovePresent(entries: seq<CartEntry>, priceOf: string -> int, productId: string,
                                index: int)
    requires index == EntryIndex(entries, productId) && index != -1
    requires entries[index].amount >= 1
    ensures Total(Removed(entries, productId), priceOf) ==
              Total(entries, priceOf) - priceOf(productId)
  {
    var before := entries[index];
    var r := Removed(entries, productId);
    if before.amount <= 1 {
      TotalDeleteUnit(entries, index, r, priceOf);
    } else {
      TotalDecrement(entries, index, r, priceOf);
    }
  }

  /** Deleting an entry of amount 1 takes its product's price off the total. */
  lemma TotalDeleteUnit(entries: seq<CartEntry>, index: int, r: seq<CartEntry>, priceOf: string -> int)
    requires 0 <= index < |entries| && entries[index].amount == 1
    requires r == entries[..index] + entries[index + 1..]
    ensures Total(r, priceOf) == Total(entries, priceOf) - priceOf(entries[index].productId)
  {
    TotalDelete(entries, index, priceOf);
  }

  /** Decrementing an entry takes its product's price off the total. */
  lemma TotalDecrement(entries: seq<CartEntry>, index: int, r: seq<CartEntry>, priceOf: string -> int)
    requires 0 <= index < |entries|
    requires r == entries[index := entries[index].(amount := entries[index].amount - 1)]
    ensures Total(r, priceOf) == Total(entries, priceOf) - priceOf(entries[index].productId)
  {
    var before := entries[index];
    var after := before.(amount := before.amount - 1);
    assert LineTotal(priceOf, before) == LineTotal(priceOf, after) + priceOf(before.productId) by {
      assert before == after.(amount := after.amount + 1);
      ScaleStep(priceOf(before.productId), after.amount);
    }
    TotalReplace(entries, index, after, priceOf);
  }

  /** Splitting a cart around one position. */
  lemma TotalAround(entries: seq<CartEntry>, index: int, priceOf: string -> int)
    requires 0 <= index < |entries|
    ensures Total(entries, priceOf) ==
              Total(entries[..index], priceOf) + LineTotal(priceOf, entries[index]) +
              Total(entries[index + 1..], priceOf)
  {
    var front, mid, back := entries[..index], [entries[index]], entries[index + 1..];
    assert entries == (front + mid) + back;
    TotalAppend(front, mid, priceOf);
    TotalAppend(front + mid, back, priceOf);
    assert mid[..0] == [];
  }

  /** Replacing one entry changes the total by the difference of the two lines. */
  lemma TotalReplace(entries: seq<CartEntry>, index: int, e: CartEntry, priceOf: string -> int)
    requires 0 <= index < |entries|
    ensures Total(entries[index := e], priceOf) ==
              Total(entries, priceOf) - LineTotal(priceOf, entries[index]) + LineTotal(priceOf, e)
  {
    var updated := entries[index := e];
    TotalAround(entries, index, priceOf);
    TotalAround(updated, index, priceOf);
    assert updated[..index] == entries[..index];
    assert updated[index + 1..] == entries[index + 1..];
  }

  /** Deleting one entry removes its line from the total. */
  lemma TotalDelete(entries: seq<CartEntry>, index: int, priceOf: string -> int)
    requires 0 <= index < |entries|
    ensures Total(entries[..index] + entries[index + 1..], priceOf) ==
              Total(entries, priceOf) - LineTotal(priceOf, entries[index])
  {
    TotalAround(entries, index, priceOf);
    TotalAppend(entries[..index], entries[index + 1..], priceOf);
  }
}
