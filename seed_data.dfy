/** The four demo products the page seeds, and the scenarios they give. */
module SeedData {
  import opened Catalog
  import opened Pricing
  import opened ProductStore
  import opened CartStore
  import opened Listing
  import opened Checkout

  const First := Product("1", "./static/images/1.jpg", "Смартфон DEXP A440 8 ГБ розовый",
                         3200, None, 1, 8, "DEXP")
  const Second := Product("2", "./static/images/2.jpg", "Samsung Galaxy M52",
                          40999, Some(4), 6, 256, "Samsung")
  const Third := Product("3", "./static/images/3.jpg", "Смартфон POCO F3 Черный",
                         32999, None, 6, 128, "POCO")
  const Fourth := Product("4", "./static/images/4.jpg", "Смартфон POCO F3 Белый",
                          34999, Some(6), 6, 128, "POCO")

  const Seed := [First, Second, Third, Fourth]

  /** The query with no parameters on a reload, once the seed is stored: bounds from the
      catalogue's extremes, every manufacturer, no discount filter, descending sort. */
  const Unconstrained := FilterSpec("", 3200, 40999, 1, 6, 8, 256, ["DEXP", "Samsung", "POCO"],
                                    false, "descending")

  /** Each `add` of the seed appends: the four ids are distinct. */
  lemma SeedAddSteps()
    ensures WithProduct([], First) == [First]
    ensures WithProduct([First], Second) == [First, Second]
    ensures WithProduct([First, Second], Third) == [First, Second, Third]
    ensures WithProduct([First, Second, Third], Fourth) == Seed
  {
    assert [First][0].id != Second.id;
    assert [First, Second][0].id != Third.id && [First, Second][1].id != Third.id;
    var s := [First, Second, Third];
    assert s[0].id != Fourth.id && s[1].id != Fourth.id && s[2].id != Fourth.id;
  }

  /** Seeding an empty store stores the four products in order, with distinct ids. */
  lemma SeedStored()
    ensures WithProducts([], Seed) == Seed
    ensures IdsDistinct(WithProducts([], Seed))
  {
    SeedAddSteps();
    assert Seed[1..] == [Second, Third, Fourth];
    assert [Second, Third, Fourth][1..] == [Third, Fourth];
    assert [Third, Fourth][1..] == [Fourth];
    assert WithProducts(Seed, []) == Seed;
    assert WithProducts([First, Second, Third], [Fourth]) == Seed;
    assert WithProducts([First, Second], [Third, Fourth]) == Seed;
    assert WithProducts([First], [Second, Third, Fourth]) == Seed;
    AddAllPreservesDistinct([], Seed);
  }

  /** The displayed prices: 3200, 39359, 32999 and 32899. */
  lemma SeedDisplayedPrices()
    ensures DisplayedPrice(First) == 3200
    ensures DisplayedPrice(Second) == 39359
    ensures DisplayedPrice(Third) == 32999
    ensures DisplayedPrice(Fourth) == 32899
  {
  }

  /** Every seed product passes the first filter of the unconstrained query. */
  lemma SeedAllMatch(discounts: bool)
    ensures forall k :: 0 <= k < |Seed| ==> Matches(Unconstrained.(discounts := discounts), Seed[k])
  {
    EmptySearchMatchesAll(First.name);
    EmptySearchMatchesAll(Second.name);
    EmptySearchMatchesAll(Third.name);
    EmptySearchMatchesAll(Fourth.name);
  }

  /** With no constraints every product is shown, by descending base price: 2, 4, 3, 1.
      Their displayed prices, 39359, 32899, 32999, 3200, are not in order. */
  lemma SeedUnconstrainedOrder()
    ensures Visible(Seed, Unconstrained) == [Second, Fourth, Third, First]
    ensures DisplayedPrice(Visible(Seed, Unconstrained)[1]) < DisplayedPrice(Visible(Seed, Unconstrained)[2])
  {
    SeedAllMatch(false);
    assert Unconstrained.(discounts := false) == Unconstrained;
    var m := p => Matches(Unconstrained, p);
    FilterAllKept(Seed, m);
    SeedSortedDescending();
    SeedDisplayedPrices();
  }

  /** Descending insertion sort of the seed by base price, one insertion at a time. */
  lemma SeedSortedDescending()
    ensures SortByPrice(Seed, false) == [Second, Fourth, Third, First]
  {
    assert Seed[1..] == [Second, Third, Fourth];
    assert [Second, Third, Fourth][1..] == [Third, Fourth];
    SeedSortTail();
    InsertSecond();
    InsertFirst();
  }

  lemma SeedSortTail()
    ensures SortByPrice([Third, Fourth], false) == [Fourth, Third]
  {
    assert [Third, Fourth][1..] == [Fourth];
    assert [Fourth][1..] == [];
    assert SortByPrice([Fourth], false) == [Fourth];
    assert Insert(Third, [], false) == [Third];
    assert Insert(Third, [Fourth], false) == [Fourth] + [Third];
  }

  lemma InsertSecond()
    requires SortedBy([Fourth, Third], false)
    ensures Insert(Second, [Fourth, Third], false) == [Second, Fourth, Third]
  {
  }

  lemma InsertFirst()
    requires SortedBy([Second, Fourth, Third], false)
    ensures Insert(First, [Second, Fourth, Third], false) == [Second, Fourth, Third, First]
  {
    var s := [Second, Fourth, Third];
    assert s[1..] == [Fourth, Third];
    assert [Fourth, Third][1..] == [Third];
    assert [Third][1..] == [];
    assert Insert(First, [], false) == [First];
    assert Insert(First, [Third], false) == [Third, First];
    assert Insert(First, [Fourth, Third], false) == [Fourth, Third, First];
  }

  /** With the discounts flag only the two discounted products are shown: 2, then 4. */
  lemma SeedDiscountedOnly()
    ensures Visible(Seed, Unconstrained.(discounts := true)) == [Second, Fourth]
  {
    var spec := Unconstrained.(discounts := true);
    SeedAllMatch(true);
    var m := p => Matches(spec, p);
    FilterAllKept(Seed, m);
    SeedDiscountFilter();
    assert Visible(Seed, spec) == SortByPrice([Second, Fourth], false);
    SortPairDescending(Second, Fourth);
  }

  lemma SortPairDescending(a: Product, b: Product)
    requires a.price > b.price
    ensures SortByPrice([a, b], false) == [a, b]
  {
    assert [a, b][1..] == [b];
    assert [b][1..] == [];
    assert SortByPrice([b], false) == [b];
  }

  /** The truthy-discount filter keeps products 2 and 4. */
  lemma SeedDiscountFilter()
    ensures Filter(Seed, HasDiscount) == [Second, Fourth]
  {
    assert Seed[1..] == [Second, Third, Fourth];
    assert [Second, Third, Fourth][1..] == [Third, Fourth];
    assert [Third, Fourth][1..] == [Fourth];
    assert [Fourth][1..] == [];
    assert Filter([Fourth], HasDiscount) == [Fourth];
    assert Filter([Third, Fourth], HasDiscount) == [Fourth];
    assert Filter([Second, Third, Fourth], HasDiscount) == [Second, Fourth];
  }

  /** A filter that keeps every element is the identity. */
  lemma {:induction false} FilterAllKept(s: seq<Product>, keep: Product -> bool)
    requires forall k :: 0 <= k < |s| ==> keep(s[k])
    ensures Filter(s, keep) == s
    decreases |s|
  {
    if s != [] {
      FilterAllKept(s[1..], keep);
    }
  }

  /** Adding product "1" twice and removing it once leaves amount 1 and total 3200. */
  lemma SeedCartScenario()
    ensures Removed(Added(Added([], "1"), "1"), "1") == [CartEntry("1", 1)]
    ensures AllInCatalog([CartEntry("1", 1)], Seed)
    ensures Total([CartEntry("1", 1)], CatalogPrices(Seed)) == 3200
  {
    AddedAbsent([], "1");
    var once := [CartEntry("1", 1)];
    assert once[0].productId == "1";
    EntryIndexAt(once, "1", 0);
    var twice := Added(once, "1");
    assert twice == [CartEntry("1", 2)];
    EntryIndexAt(twice, "1", 0);
    assert Seed[0].id == "1";
    assert ProductIndex(Seed, "1") == 0;
    assert once[..0] == [];
  }

  /** The page's flow on the two repositories: seed, add product "1" twice, remove it once,
      and total the cart. */
  method SeedScenario()
  {
    SeedAddSteps();
    var products := new ProductRepository([]);
    products.Add(First);
    products.Add(Second);
    products.Add(Third);
    products.Add(Fourth);
    assert products.GetAll() == Seed;

    var cart := new CartRepository([]);
    var empty := CartTotal(cart.GetAll(), products.GetAll());
    assert empty == 0;

    SeedCartScenario();
    cart.Add("1");
    cart.Add("1");
    cart.Remove("1");
    assert cart.GetAll() == [CartEntry("1", 1)];
    var total := CartTotal(cart.GetAll(), products.GetAll());
    assert total == 3200;
  }
}
