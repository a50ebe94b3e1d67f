/** The price a product is displayed and charged at. */
module Pricing {
  import opened Catalog

  /** The discount is truthy: present and not zero. */
  predicate HasDiscount(p: Product)
  {
    p.discount.Some? && p.discount.value != 0
  }

  /** `Math.round(price * (1 - discount / 100))` in exact arithmetic: the integer nearest to
      price * (100 - discount) / 100, halves rounded up. */
  function DiscountedPrice(price: int, discount: int): (r: int)
    ensures 100 * r - 50 <= price * (100 - discount) < 100 * r + 50
  {
    (2 * (price * (100 - discount)) + 100) / 200
  }

  /** The displayed price: the base price without a discount, the rounded discounted one with. */
  function DisplayedPrice(p: Product): (r: int)
    ensures !HasDiscount(p) ==> r == p.price
    ensures HasDiscount(p) ==>
              100 * r - 50 <= p.price * (100 - p.discount.value) < 100 * r + 50
  {
    if HasDiscount(p) then DiscountedPrice(p.price, p.discount.value) else p.price
  }

  /** A discount between 0 and 100 percent never raises the price nor makes it negative. */
  lemma DisplayedPriceBounds(p: Product)
    requires p.price >= 0
    requires p.discount.Some? ==> 0 <= p.discount.value <= 100
    ensures 0 <= DisplayedPrice(p) <= p.price
  {
    if HasDiscount(p) {
      var d := p.discount.value;
      ScaleNonNegative(p.price, 100 - d);
      ScaleNonNegative(p.price, d);
      assert p.price * (100 - d) == 100 * p.price - p.price * d;
    }
  }

  /** A product of two non-negative factors is non-negative. */
  lemma ScaleNonNegative(a: int, b: int)
    requires a >= 0 && b >= 0
    ensures a * b >= 0
  {
  }

  /** One more unit adds one more price: multiplication distributes over `amount + 1`. */
  lemma ScaleStep(price: int, amount: int)
    ensures price * (amount + 1) == price * amount + price
  {
  }
}
