/** The records of the inventory API's JSON response. Quantities are
    JavaScript numbers; the model takes them as integers. Status strings are
    open: the upstream names a few values but may send any string. */
module Types {
  import opened Wrappers

  /** One store of the pickup answer. */
  datatype Location = Location(
    name: string,
    locationKey: string,
    quantityOnHand: int,
    hasInventory: bool,
    isReservable: bool,
    fulfillmentKey: Option<string>,
    supportsFulfillment: Option<bool>)

  /** Pickup answer; `status` is one of "InStock", "OutOfStock",
      "ComingSoon" or any other string. */
  datatype Pickup = Pickup(status: string, purchasable: bool, locations: seq<Location>)

  /** Shipping answer; `status` is one of "InStock", "SoldOutOnline",
      "BackOrder" or any other string. */
  datatype Shipping = Shipping(
    status: string,
    quantityRemaining: int,
    purchasable: bool,
    isBackorderable: bool)

  /** The availability record of one SKU. */
  datatype Availability = Availability(
    sku: string,
    sellerId: string,
    pickup: Pickup,
    shipping: Shipping,
    saleChannelExclusivity: Option<string>)

  datatype BestBuyResponse = BestBuyResponse(availabilities: seq<Availability>)
}
