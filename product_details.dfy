/**
 * The product page frontend/src/pages/ProductDetails.jsx: the price verdict
 * shown under the GeM price, and the item handed to the cart.
 *
 * The product arrives as the endpoint serialises it, with the
 * `lowestMarketplacePrice` virtual included.
 */
module ProductDetails {
  import opened Wrappers
  import opened ProductModel

  /** `gemSavings`: the lowest marketplace price less the GeM price. */
  function GemSavings(p: Product): real {
    LowestPrice(p.marketplacePrices) - p.gemPrice
  }

  /** The two messages: "You save" an amount, or "Market price is lower by" an amount. */
  datatype Verdict = YouSave(amount: real) | MarketLower(difference: real)

  function Abs(x: real): real {
    if x < 0.0 then -x else x
  }

  function PriceVerdict(p: Product): Verdict {
    var gemSavings := GemSavings(p);
    var isGemCheaper := gemSavings > 0.0;
    if isGemCheaper then YouSave(gemSavings) else MarketLower(Abs(gemSavings))
  }

  /**
   * GeM is called cheaper exactly when the lowest marketplace price is above
   * the GeM price; equal prices read as "market lower" by 0; the amount shown
   * is never negative and is the gap between the two prices either way.
   */
  lemma VerdictMeaning(p: Product)
    ensures PriceVerdict(p).YouSave? <==> p.gemPrice < LowestPrice(p.marketplacePrices)
    ensures PriceVerdict(p).YouSave? ==>
      (PriceVerdict(p).amount > 0.0 && PriceVerdict(p).amount == LowestPrice(p.marketplacePrices) - p.gemPrice)
    ensures PriceVerdict(p).MarketLower? ==>
      (PriceVerdict(p).difference >= 0.0 && PriceVerdict(p).difference == p.gemPrice - LowestPrice(p.marketplacePrices))
    ensures p.gemPrice == LowestPrice(p.marketplacePrices) ==> PriceVerdict(p) == MarketLower(0.0)
  {
  }

  /**
   * Without an available offer the lowest price reads 0, so the savings are
   * minus the GeM price and a positive GeM price is never shown as cheaper.
   */
  lemma NoOfferNeverCheaper(p: Product)
    requires forall i :: 0 <= i < |p.marketplacePrices| ==> !p.marketplacePrices[i].isAvailable
    ensures GemSavings(p) == -p.gemPrice
    ensures p.gemPrice > 0.0 ==> PriceVerdict(p) == MarketLower(p.gemPrice)
  {
    SavingsMeaning(p);
  }

  /** With an available offer the page shows what `calculateSavings` computes. */
  lemma PageAgreesWithSavings(p: Product)
    requires exists i :: 0 <= i < |p.marketplacePrices| && p.marketplacePrices[i].isAvailable
    ensures GemSavings(p) == Savings(p)
  {
    SavingsMeaning(p);
  }

  /** The object dispatched to `addToCart`. */
  datatype CartItem = CartItem(
    product: string,
    name: string,
    image: Option<string>,
    price: real,
    countInStock: nat,
    qty: nat)

  /** `addToCartHandler`; `id` is the product's `_id`, and the image is `undefined` when there is none. */
  function CartItemFor(id: string, p: Product): CartItem {
    CartItem(id, p.name, if |p.images| > 0 then Some(p.images[0].url) else None, p.gemPrice, 10, 1)
  }

  /** The cart gets one unit at the GeM price, never a marketplace price, with the first image. */
  lemma CartItemMeaning(id: string, p: Product)
    ensures CartItemFor(id, p).qty == 1 && CartItemFor(id, p).countInStock == 10
    ensures CartItemFor(id, p).price == p.gemPrice
    ensures CartItemFor(id, p).product == id && CartItemFor(id, p).name == p.name
    ensures CartItemFor(id, p).image.Some? <==> |p.images| > 0
    ensures CartItemFor(id, p).image.Some? ==> CartItemFor(id, p).image.value == p.images[0].url
  {
  }
}
