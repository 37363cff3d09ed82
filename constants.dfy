/** The fixed configuration strings of the tracker. */
module Constants {

  const DefaultSkus: seq<string> := ["18391208", "18391209", "18391210", "18391211"]

  const DefaultPostalCode: string := "V3M0B2"

  /** The store-location ids sent with every query, already joined with `|`. */
  const DefaultLocations: string :=
    "600|134|973|961|152|994|941|147|388|899|900|952|958|705|701|318|328|450|451|501|763|796|915|13|929|133|992"

  const BaseApiUrl: string := "https://www.bestbuy.ca/ecomm-api/availability/products"

  /** Prefix of the cross-origin proxy the browser sends its requests to. */
  const CorsProxyPrefix: string := "https://corsproxy.io/?"
}
