/** The two records the storefront persists, and the linear lookups over them. */
module Catalog {

  datatype Option<T> = None | Some(value: T)

  /** A catalogue item. `discount` is a percentage, absent when the source stores null. */
  datatype Product = Product(
    id: string,
    thumbnailUrl: string,
    name: string,
    price: int,
    discount: Option<int>,
    ram: int,
    storage: int,
    manufacturer: string)

  /** A quantity of one product held in the cart. */
  datatype CartEntry = CartEntry(productId: string, amount: int)

  /** Some stored product carries this id (`products.some(p => p.id === id)`). */
  predicate HasProductId(products: seq<Product>, id: string)
  {
    exists i :: 0 <= i < |products| && products[i].id == id
  }

  /** No two stored products share an id. */
  predicate IdsDistinct(products: seq<Product>)
  {
    forall i, j :: 0 <= i < j < |products| ==> products[i].id != products[j].id
  }

  /** Index of the first product with this id, or -1 when there is none. */
  function ProductIndex(products: seq<Product>, id: string): (r: int)
    ensures -1 <= r < |products|
    ensures r == -1 <==> !HasProductId(products, id)
    ensures 0 <= r ==> products[r].id == id
    ensures 0 <= r ==> forall j :: 0 <= j < r ==> products[j].id != id
  {
    if |products| == 0 then -1
    else if products[0].id == id then 0
    else
      var k := ProductIndex(products[1..], id);
      if k == -1 then -1 else k + 1
  }

  /** `find(p => p.id === id) ?? null`: the first product with this id, if any. */
  function FindProduct(products: seq<Product>, id: string): (r: Option<Product>)
    ensures r.None? <==> !HasProductId(products, id)
    ensures r.Some? ==> r.value in products && r.value.id == id
    ensures r.Some? ==> exists i :: 0 <= i < |products| && products[i] == r.value &&
                                    forall j :: 0 <= j < i ==> products[j].id != id
  {
    var i := ProductIndex(products, id);
    if i == -1 then None else Some(products[i])
  }

  /** Some cart entry is for this product. */
  predicate HasEntry(entries: seq<CartEntry>, productId: string)
  {
    exists i :: 0 <= i < |entries| && entries[i].productId == productId
  }

  /** `findIndex(e => e.productId === productId)`: the first matching entry, or -1. */
  function EntryIndex(entries: seq<CartEntry>, productId: string): (r: int)
    ensures -1 <= r < |entries|
    ensures r == -1 <==> !HasEntry(entries, productId)
    ensures 0 <= r ==> entries[r].productId == productId
    ensures 0 <= r ==> forall j :: 0 <= j < r ==> entries[j].productId != productId
  {
    if |entries| == 0 then -1
    else if entries[0].productId == productId then 0
    else
      var k := EntryIndex(entries[1..], productId);
      if k == -1 then -1 else k + 1
  }

  /** `find(e => e.productId === productId) ?? null`: the first matching entry, if any. */
  function FindEntry(entries: seq<CartEntry>, productId: string): (r: Option<CartEntry>)
    ensures r.None? <==> !HasEntry(entries, productId)
    ensures r.Some? ==> r.value in entries && r.value.productId == productId
    ensures r.Some? ==> exists i :: 0 <= i < |entries| && entries[i] == r.value &&
                                    forall j :: 0 <= j < i ==> entries[j].productId != productId
  {
    var i := EntryIndex(entries, productId);
    if i == -1 then None else Some(entries[i])
  }
}
