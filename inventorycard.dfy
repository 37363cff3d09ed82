/** The availability rule and the display decisions of one product card. */
module InventoryCard {
  import opened Wrappers
  import opened Types
  import Seqs

  /** A store counts as stocked when it reports units on hand or flags
      inventory. */
  predicate StoreHasStock(loc: Location)
  {
    loc.quantityOnHand > 0 || loc.hasInventory
  }

  /** The stores listed under "Available Locations". */
  function StoresWithStock(locations: seq<Location>): (r: seq<Location>)
    ensures forall i :: 0 <= i < |r| ==> r[i] in locations && StoreHasStock(r[i])
    ensures forall i :: 0 <= i < |locations| && StoreHasStock(locations[i]) ==> locations[i] in r
    ensures |r| <= |locations|
  {
    Seqs.Filter(StoreHasStock, locations)
  }

  /** The stores keep their response order: the stocked stores of a longer
      list are those of its first part followed by those of the rest. */
  lemma StoresWithStockInOrder(a: seq<Location>, b: seq<Location>)
    ensures StoresWithStock(a + b) == StoresWithStock(a) + StoresWithStock(b)
  {
    Seqs.FilterAppend(StoreHasStock, a, b);
  }

  /** A single store is listed once when stocked and not at all otherwise;
      with `StoresWithStockInOrder` this fixes the list entry by entry. */
  lemma StoresWithStockOfOne(loc: Location)
    ensures StoresWithStock([loc]) == if StoreHasStock(loc) then [loc] else []
  {
    assert [loc][1..] == [];
  }

  predicate IsShippingAvailable(a: Availability)
  {
    a.shipping.purchasable || a.shipping.status == "InStock"
  }

  /** Pickup is available when the channel is purchasable or some store is
      stocked. */
  function IsPickupAvailable(a: Availability): (r: bool)
    ensures r <==> a.pickup.purchasable
                   || exists i :: 0 <= i < |a.pickup.locations| && StoreHasStock(a.pickup.locations[i])
  {
    var stores := StoresWithStock(a.pickup.locations);
    assert |stores| > 0 ==> stores[0] in a.pickup.locations;
    a.pickup.purchasable || |stores| > 0
  }

  predicate IsTotallyOutOfStock(a: Availability)
  {
    !IsShippingAvailable(a) && !IsPickupAvailable(a)
  }

  /** The "Buy Now" footer is rendered. */
  predicate ShowsBuyNow(a: Availability)
  {
    IsShippingAvailable(a) || IsPickupAvailable(a)
  }

  /** The highlighted border and the decorative glow are rendered. */
  predicate ShowsGlow(a: Availability)
  {
    !IsTotallyOutOfStock(a)
  }

  /** The footer and the glow appear together, exactly when the product is
      not totally out of stock. */
  lemma BuyNowAndGlowAgree(a: Availability)
    ensures ShowsBuyNow(a) == ShowsGlow(a)
    ensures ShowsGlow(a) <==> IsShippingAvailable(a) || IsPickupAvailable(a)
    ensures IsTotallyOutOfStock(a) <==> !IsShippingAvailable(a) && !IsPickupAvailable(a)
  {
  }

  /** The purchasable flag alone makes shipping available, whatever the status;
      so does the status "InStock" alone. */
  lemma ShippingAvailability(a: Availability)
    ensures a.shipping.purchasable ==> IsShippingAvailable(a)
    ensures a.shipping.status == "InStock" ==> IsShippingAvailable(a)
    ensures !a.shipping.purchasable && a.shipping.status != "InStock" ==> !IsShippingAvailable(a)
  {
  }

  lemma NoStoresNoPickup(a: Availability)
    requires |a.pickup.locations| == 0 && !a.pickup.purchasable
    ensures !IsPickupAvailable(a)
  {
  }

  /** A store with units on hand makes pickup available even when it does not
      flag inventory, and it is listed among the stocked stores. */
  lemma UnitsOnHandSuffice(a: Availability, i: nat)
    requires i < |a.pickup.locations| && a.pickup.locations[i].quantityOnHand > 0
    ensures IsPickupAvailable(a)
    ensures a.pickup.locations[i] in StoresWithStock(a.pickup.locations)
  {
  }

  /** The label under "Shipping". */
  function ShippingStatusLabel(status: string): (shown: string)
    ensures shown == "Sold Out" <==> status == "SoldOutOnline" || status == "Sold Out"
    ensures shown != "Sold Out" ==> shown == status
  {
    if status == "SoldOutOnline" then "Sold Out" else status
  }

  /** The label under "Store Pickup". */
  function PickupStatusLabel(status: string): (shown: string)
    ensures shown == "Out of Stock" <==> status == "OutOfStock" || status == "Out of Stock"
    ensures shown != "Out of Stock" ==> shown == status
  {
    if status == "OutOfStock" then "Out of Stock" else status
  }

  /** Only the two sold-out statuses are reworded; every other status,
      including those outside the named values, is shown as sent. */
  lemma StatusLabels(status: string)
    ensures ShippingStatusLabel("SoldOutOnline") == "Sold Out"
    ensures PickupStatusLabel("OutOfStock") == "Out of Stock"
    ensures status != "SoldOutOnline" ==> ShippingStatusLabel(status) == status
    ensures status != "OutOfStock" ==> PickupStatusLabel(status) == status
  {
  }

  /** The quantity badge is rendered. */
  predicate ShowsQuantityBadge(s: Shipping)
  {
    s.quantityRemaining > 0
  }

  /** The badge depends on the remaining quantity alone: it shows exactly for
      a positive count, whatever the status and the purchasable flag, so it
      can show beside an unavailable channel and be missing beside an
      available one. */
  lemma QuantityBadgeOnlyCounts(a: Availability)
    ensures a.shipping.quantityRemaining > 0 && !a.shipping.purchasable && a.shipping.status != "InStock" ==>
      ShowsQuantityBadge(a.shipping) && !IsShippingAvailable(a)
    ensures a.shipping.quantityRemaining <= 0 && (a.shipping.purchasable || a.shipping.status == "InStock") ==>
      !ShowsQuantityBadge(a.shipping) && IsShippingAvailable(a)
  {
  }

  /** Both mismatches occur: a badge beside a sold-out channel, and no badge
      beside a purchasable one. */
  lemma QuantityBadgeDisagrees()
    ensures exists a: Availability :: ShowsQuantityBadge(a.shipping) && !IsShippingAvailable(a)
    ensures exists a: Availability :: !ShowsQuantityBadge(a.shipping) && IsShippingAvailable(a)
  {
    var pickup := Pickup("OutOfStock", false, []);
    var soldOut := Availability("1", "seller", pickup, Shipping("SoldOutOnline", 3, false, false), None);
    var buyable := Availability("2", "seller", pickup, Shipping("InStock", 0, true, false), None);
    assert ShowsQuantityBadge(soldOut.shipping) && !IsShippingAvailable(soldOut);
    assert !ShowsQuantityBadge(buyable.shipping) && IsShippingAvailable(buyable);
  }

  /** A status outside the named values is neither relabelled nor consulted
      beyond the "InStock" comparison: availability then rests on the flags. */
  lemma OpenStatusesAreHarmless(a: Availability)
    requires a.shipping.status !in {"InStock", "SoldOutOnline", "BackOrder"}
    ensures ShippingStatusLabel(a.shipping.status) == a.shipping.status
    ensures IsShippingAvailable(a) <==> a.shipping.purchasable
  {
  }

  const ProductUrlPrefix: string := "https://www.bestbuy.ca/en-ca/product/"

  /** The product link of the card. */
  function ProductUrl(sku: string): (url: string)
    ensures |url| == |ProductUrlPrefix| + |sku|
    ensures url[..|ProductUrlPrefix|] == ProductUrlPrefix && url[|ProductUrlPrefix|..] == sku
  {
    ProductUrlPrefix + sku
  }
}
