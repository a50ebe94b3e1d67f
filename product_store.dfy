/** The product repository: an append-only list of products persisted under one storage key. */
module ProductStore {
  import opened Catalog

  /** The stored list after `add(p)`: unchanged when `p.id` is taken, else `p` appended. */
  function WithProduct(products: seq<Product>, p: Product): seq<Product>
  {
    if HasProductId(products, p.id) then products else products + [p]
  }

  /** The stored list after `add` is called on each of `ps` in turn. */
  function WithProducts(products: seq<Product>, ps: seq<Product>): seq<Product>
    decreases |ps|
  {
    if ps == [] then products else WithProducts(WithProduct(products, ps[0]), ps[1..])
  }

  /** Adding is idempotent: a second `add(p)` changes nothing. */
  lemma AddIdempotent(products: seq<Product>, p: Product)
    ensures WithProduct(WithProduct(products, p), p) == WithProduct(products, p)
  {
    if !HasProductId(products, p.id) {
      var r := products + [p];
      assert r[|products|].id == p.id;
    }
  }

  /** After `add(p)` the id of `p` is present, and every earlier product is kept in place. */
  lemma AddKeepsAndContains(products: seq<Product>, p: Product)
    ensures HasProductId(WithProduct(products, p), p.id)
    ensures products <= WithProduct(products, p)
    ensures |WithProduct(products, p)| <= |products| + 1
  {
    if !HasProductId(products, p.id) {
      assert (products + [p])[|products|].id == p.id;
    }
  }

  /** `add` never introduces a duplicate id. */
  lemma AddPreservesDistinct(products: seq<Product>, p: Product)
    requires IdsDistinct(products)
    ensures IdsDistinct(WithProduct(products, p))
  {
    if !HasProductId(products, p.id) {
      var r := products + [p];
      forall i, j | 0 <= i < j < |r|
        ensures r[i].id != r[j].id
      {
        if j == |products| {
          assert r[i] == products[i];
        }
      }
    }
  }

  /** Any sequence of `add` calls on an id-distinct list leaves it id-distinct. */
  lemma {:induction false} AddAllPreservesDistinct(products: seq<Product>, ps: seq<Product>)
    requires IdsDistinct(products)
    ensures IdsDistinct(WithProducts(products, ps))
    decreases |ps|
  {
    if ps != [] {
      AddPreservesDistinct(products, ps[0]);
      AddAllPreservesDistinct(WithProduct(products, ps[0]), ps[1..]);
    }
  }

  /** After a sequence of `add` calls every added id is stored, and the old list is a prefix. */
  lemma {:induction false} AddAllContains(products: seq<Product>, ps: seq<Product>)
    ensures products <= WithProducts(products, ps)
    ensures forall k :: 0 <= k < |ps| ==> HasProductId(WithProducts(products, ps), ps[k].id)
    decreases |ps|
  {
    if ps != [] {
      var next := WithProduct(products, ps[0]);
      AddKeepsAndContains(products, ps[0]);
      AddAllContains(next, ps[1..]);
      var r := WithProducts(products, ps);
      assert r == WithProducts(next, ps[1..]);
      forall k | 0 <= k < |ps|
        ensures HasProductId(r, ps[k].id)
      {
        if k == 0 {
          var i :| 0 <= i < |next| && next[i].id == ps[0].id;
          assert r[i] == next[i];
        } else {
          assert ps[k] == ps[1..][k - 1];
        }
      }
    }
  }

  /** The products stored under the "products" key; absent storage is the empty list. */
  class ProductRepository {
    var products: seq<Product>

    constructor (stored: seq<Product>)
      ensures products == stored
    {
      products := stored;
    }

    /** `getAll()`: the stored list. */
    function GetAll(): seq<Product>
      reads this
    {
      products
    }

    /** `getById(id)`: the first stored product with this id, or none. */
    function GetById(id: string): Option<Product>
      reads this
    {
      FindProduct(products, id)
    }

    /** `clear()`: the storage key is removed, so the list reads as empty. */
    method Clear()
      modifies this
      ensures products == []
    {
      products := [];
    }

    /** `add(product)`: a no-op when the id is taken, else appends; keeps ids distinct. */
    method Add(product: Product)
      modifies this
      ensures products == WithProduct(old(products), product)
      ensures HasProductId(old(products), product.id) ==> products == old(products)
      ensures !HasProductId(old(products), product.id) ==> products == old(products) + [product]
      ensures IdsDistinct(old(products)) ==> IdsDistinct(products)
      ensures HasProductId(products, product.id)
    {
      var stored := products;
      if !HasProductId(stored, product.id) {
        stored := stored + [product];
      }
      AddKeepsAndContains(products, product);
      if IdsDistinct(products) {
        AddPreservesDistinct(products, product);
      }
      products := stored;
    }
  }
}
