/**
 * The discount percentage shown on product cards (storefront), in the admin table and
 * in the admin form, all built on `Math.round(((original - sale) / original) * 100)`.
 */
module Pricing {
  import opened Wrappers
  import opened Products

  /** `Math.round`: the integer nearest to `x`, halves rounded up. */
  function Round(x: real): (n: int)
    ensures n as real - 0.5 <= x < n as real + 0.5
  {
    (x + 0.5).Floor
  }

  /** JavaScript truthiness of a number: neither NaN nor zero. */
  predicate Truthy(p: Price) {
    p.Some? && p.value != 0.0
  }

  /** `parseFloat(x) || 0`: NaN becomes 0. */
  function OrZero(p: Price): real {
    p.GetOr(0.0)
  }

  /** `((original - sale) / original) * 100` for a non-zero original. */
  function Percent(original: real, sale: real): real
    requires original != 0.0
  {
    (original - sale) / original * 100.0
  }

  /**
   * `product.originalPrice && product.salePrice ? Math.round(...) : 0`, the badge value on
   * storefront cards and in admin table rows; the badge is drawn only when it is positive.
   */
  function CardDiscount(original: Price, sale: Price): (d: int)
    ensures !Truthy(original) || !Truthy(sale) ==> d == 0
    ensures Truthy(original) && Truthy(sale) ==>
      d as real - 0.5 <= Percent(original.value, sale.value) < d as real + 0.5
  {
    if Truthy(original) && Truthy(sale) then Round(Percent(original.value, sale.value)) else 0
  }

  /** A card shows its sale badge exactly when its discount is positive. */
  predicate ShowsSaleBadge(original: Price, sale: Price) {
    CardDiscount(original, sale) > 0
  }

  /**
   * The discount the admin form fills in while prices are typed: a number when both prices are
   * positive and sale is below original, the empty field (`None`) otherwise.
   */
  function FormDiscount(original: Price, sale: Price): (d: Option<int>)
    ensures d.Some? <==> 0.0 < OrZero(sale) < OrZero(original)
  {
    var o := OrZero(original);
    var s := OrZero(sale);
    if o > 0.0 && s > 0.0 && s < o then Some(Round(Percent(o, s))) else None
  }

  /** With positive prices and sale below original, the card discount lies in 0..100. */
  lemma DiscountInRange(o: real, s: real)
    requires 0.0 < s < o
    ensures 0 <= CardDiscount(Some(o), Some(s)) <= 100
  {
    var q := (o - s) / o;
    assert q * o == o - s;
    if q >= 1.0 || q <= 0.0 {
      assert false;
    }
  }

  /** Equal prices give no discount. */
  lemma EqualPricesNoDiscount(p: Price)
    ensures CardDiscount(p, p) == 0
  {
  }

  /**
   * With positive prices a sale badge implies that the sale price is below the original;
   * a sale price at or above the original never shows one.
   */
  lemma BadgeOnlyWhenCheaper(o: real, s: real)
    requires 0.0 < o && 0.0 < s
    ensures ShowsSaleBadge(Some(o), Some(s)) ==> s < o
  {
    if s >= o {
      var q := (o - s) / o;
      assert q * o == o - s;
      assert q <= 0.0;
    }
  }

  /** Where the admin form shows a discount it is the value the cards and table rows show. */
  lemma FormAgreesWithCard(original: Price, sale: Price)
    requires FormDiscount(original, sale).Some?
    ensures FormDiscount(original, sale).value == CardDiscount(original, sale)
    ensures 0 <= CardDiscount(original, sale) <= 100
  {
    DiscountInRange(original.value, sale.value);
  }

  /** The worked values: 100/75 gives 25, 100/100 gives 0, 0/50 gives 0, and 100/150 gives -50 (no badge, no form value). */
  lemma DiscountExamples()
    ensures CardDiscount(Some(100.0), Some(75.0)) == 25
    ensures CardDiscount(Some(100.0), Some(100.0)) == 0
    ensures CardDiscount(Some(0.0), Some(50.0)) == 0
    ensures CardDiscount(Some(100.0), Some(150.0)) == -50
    ensures !ShowsSaleBadge(Some(100.0), Some(150.0)) && FormDiscount(Some(100.0), Some(150.0)) == None
  {
    assert Percent(100.0, 75.0) == 25.0;
    assert Percent(100.0, 150.0) == -50.0;
  }
}
