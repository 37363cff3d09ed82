# BestBuy Canada stock tracker, modelled in Dafny

The tracker watches a few Best Buy Canada SKUs. It has two front ends that call
the shop's availability API: a browser dashboard and a stock-check script that
runs on a schedule. Both decide from the API's answer whether each product can
be shipped or picked up in a store. The dashboard shows cards, a "Stock
Detected!" banner and an auto-refresh countdown. The script mails an alert when
something is in stock.

All files verify together; there is no `Main`. They model:

- the records of the API's answer (`types.dfy`) and the fixed configuration
  (`constants.dfy`);
- the availability rule of the product card and what the card displays
  (`inventorycard.dfy`);
- the browser's request (`bestbuyservice.dfy`):
  - the `|`-joined SKU list;
  - the five form-encoded query parameters;
  - the CORS proxy wrapping with `encodeURIComponent`;
  - the error message for a response that is not ok;
  - how the answer becomes the result;
- the scheduled check (`monitor.dfy`):
  - its copy of the availability rule;
  - the loop that collects the in-stock items;
  - its unproxied request;
  - the credential guard and the default recipient;
  - the alert subject and HTML body;
  - the isolation of send failures;
  - the exit status of a run;
- the dashboard (`app.dfy`):
  - the SKU-field parser and how it round-trips through the displayed value;
  - the banner's weaker stock test;
  - the one-second countdown;
  - a `Controller` class holding the dashboard state, whose methods make the
    state transitions of ticking, toggling, editing the settings and loading.

Support modules:

- `seqs.dfy`: `map` / `filter` / `join('')` over sequences.
- `strings.dfy`: JavaScript's `join`, `split` on one character, `trim`, and the
  decimal rendering of numbers.
- `urlencoding.dfy`: the `application/x-www-form-urlencoded` serializer of the
  WHATWG URL Standard (section 5.2), `encodeURIComponent` of ECMA-262
  (section 19.2.6.5), and the matching percent-decoding and form parsing used
  to state the round trips.

Both encoders are total: every character is encoded through its UTF-8 bytes.
The round trips are therefore stated on bytes.

Each outside collaborator is a function parameter:

- the network: `Server`, mapping a URL to a network failure or a received
  response;
- the mail transport: `Mailer`, mapping a mail to sent or a send error;
- the clock: `now`, an opaque integer.

Every result also records the URLs that were requested, so "no request was
made" is something the model can state.

Behaviour worth knowing before reading the proofs:

- The dashboard's banner (`hasAnyStock`) ignores `shipping.status` and
  `quantityOnHand`, which the card's rule consults. `App.BannerMisses` states
  exactly which records light a card but not the banner.
- An empty SKU list makes the browser service return `[]` without a request.
- The countdown fires when the previous value is 1 or less, so a load starts
  on the tick that would show 0, and the counter goes straight back to the
  interval.
- The alert mail lists only the in-stock items.
- The script has a single direct-execution entry point.

## Model

| member | source | states |
|---|---|---|
| InventoryCard.StoresWithStock | components/InventoryCard.tsx:13-15 | every listed store is a store of the answer with units on hand or flagging inventory, every such store is listed, and the list is no longer than the answer's |
| InventoryCard.StoresWithStockOfOne | components/InventoryCard.tsx:13-15 | a single store is listed once when stocked and not at all otherwise; with the order lemma this fixes the list entry by entry |
| InventoryCard.StoresWithStockInOrder | components/InventoryCard.tsx:13-15 | the stocked stores keep the answer's order: those of `a + b` are those of `a` followed by those of `b` |
| InventoryCard.IsPickupAvailable | components/InventoryCard.tsx:18 | pickup is available iff the channel is purchasable or some store has units on hand or flags inventory |
| InventoryCard.BuyNowAndGlowAgree | components/InventoryCard.tsx:117-134 | the Buy Now footer and the glow render together, exactly when shipping or pickup is available; totally out of stock means neither is |
| InventoryCard.ShippingAvailability | components/InventoryCard.tsx:17 | a purchasable channel makes shipping available whatever the status; status "InStock" alone does too; without either it is unavailable |
| InventoryCard.NoStoresNoPickup | components/InventoryCard.tsx:18 | with no store and pickup not purchasable, pickup is unavailable |
| InventoryCard.UnitsOnHandSuffice | components/InventoryCard.tsx:14 | a store with units on hand makes pickup available and is listed, even when it does not flag inventory |
| InventoryCard.StatusLabels | components/InventoryCard.tsx:69-88 | "SoldOutOnline" shows as "Sold Out", "OutOfStock" as "Out of Stock", and every other status is shown as sent |
| InventoryCard.ShippingStatusLabel | components/InventoryCard.tsx:69 | read back from the screen: "Sold Out" means the status was "SoldOutOnline" (or literally "Sold Out"), and any other label is the status itself |
| InventoryCard.PickupStatusLabel | components/InventoryCard.tsx:88 | read back from the screen: "Out of Stock" means the status was "OutOfStock" (or literally "Out of Stock"), and any other label is the status itself |
| InventoryCard.QuantityBadgeOnlyCounts | components/InventoryCard.tsx:17-73 | the badge and shipping availability can disagree: a positive remaining quantity on a channel that is neither purchasable nor "InStock" shows the badge while shipping is unavailable, and a quantity of 0 or less on a purchasable or "InStock" channel shows no badge while shipping is available |
| InventoryCard.QuantityBadgeDisagrees | components/InventoryCard.tsx:17-73 | concrete records exhibit both disagreements: a badge on a sold-out channel, and no badge on a purchasable one |
| InventoryCard.OpenStatusesAreHarmless | components/InventoryCard.tsx:17-19 | a shipping status outside the named values is shown as sent, and shipping then rests on the purchasable flag alone |
| InventoryCard.ProductUrl | components/InventoryCard.tsx:25 | the product link is the fixed product-page prefix followed by exactly the sku |
| BestBuyService.FetchFrom | services/bestBuyService.ts:29-47 | one request to the URL; a network failure is rethrown with its message, an ok answer yields its availabilities unchanged, any other status fails with the status message |
| BestBuyService.FetchInventory | services/bestBuyService.ts:4-27 | no SKU means no request and an empty list; otherwise exactly one request, to the proxied URL |
| BestBuyService.FetchInventorySettles | services/bestBuyService.ts:38-47 | with SKUs, the result is the rethrown network error, the unchanged availabilities of an ok answer, or the status error |
| BestBuyService.EmptySkusIssueNoRequest | services/bestBuyService.ts:9 | with no SKU, the result is the same whatever the network does, and no URL is requested |
| BestBuyService.SkuParamRoundTrip | services/bestBuyService.ts:11 | splitting the `skus` value on the pipe character gives back the SKUs when none of them contains a pipe |
| BestBuyService.QueryParameters | services/bestBuyService.ts:14-20 | exactly five parameters, each name once, in the order accept, accept-language, locations, postalCode, skus, with the given values |
| BestBuyService.QueryRoundTrip | services/bestBuyService.ts:14-23 | parsing the serialized query gives back the five name/value pairs in order, as UTF-8 bytes |
| BestBuyService.PostalCodeSentAsIs | services/bestBuyService.ts:18 | a postal code of letters and digits is the fourth parameter and is sent unchanged |
| BestBuyService.SkusSentPipeEncoded | services/bestBuyService.ts:11-19 | in the `skus` value each SKU is encoded on its own and every pipe between them is sent as `%7C` |
| BestBuyService.QueryIsAscii | services/bestBuyService.ts:14-23 | whatever the inputs, the query string is pure ASCII |
| BestBuyService.TargetIsNotProxied | services/bestBuyService.ts:23-27 | the proxied URL is never the upstream URL itself |
| BestBuyService.ProxiedSuffixHasNoDelimiters | services/bestBuyService.ts:26-27 | after the proxy prefix the URL holds no raw pipe, `&`, `=`, `?` or `/` |
| BestBuyService.ProxiedUrlDecodesToTarget | services/bestBuyService.ts:27 | percent-decoding what follows the proxy prefix gives back the upstream URL's UTF-8 bytes |
| BestBuyService.StatusErrorShowsStatus | services/bestBuyService.ts:39 | the message is "API returned status: ", the status in plain decimal that reads back as the status, a space, and the status text |
| BestBuyService.StatusErrorNamesStatus | services/bestBuyService.ts:38-40 | two status messages are equal only for the same status code and status text |
| UrlEncoding.FormParseSerialize | services/bestBuyService.ts:14-23 | form parsing undoes the form serializer on any list of pairs |
| UrlEncoding.DecodeEncodeUriComponent | services/bestBuyService.ts:27 | percent-decoding undoes `encodeURIComponent`, to the UTF-8 bytes of its input |
| UrlEncoding.EncodeUriComponentHasNoDelimiters | services/bestBuyService.ts:26-27 | `encodeURIComponent` leaves no pipe, `&`, `=`, `?` or `/` in its output |
| UrlEncoding.FormEncodeJoinPipe | services/bestBuyService.ts:11-19 | form-encoding a pipe-joined list encodes each element and turns each pipe into `%7C` |
| Monitor.SomeStoreStockedExists | scripts/monitor.mjs:47 | the script's `some` over the stores holds iff some store flags inventory or has units on hand |
| Monitor.SameRuleAsCard | scripts/monitor.mjs:47-48 | the script's pickup and shipping flags equal the card's availability on every record |
| Monitor.InStockItemsOfOne | scripts/monitor.mjs:45-58 | one record gives one entry with its sku and flags when in stock, and none otherwise; with the order lemma this fixes the list entry by entry |
| Monitor.InStockItemsExact | scripts/monitor.mjs:43-58 | every entry is an in-stock record of the answer with its own sku and flags, at least one flag true, every in-stock record has an entry, and there are no more entries than records |
| Monitor.InStockItemsInOrder | scripts/monitor.mjs:45-58 | the entries keep the answer's order: those of `a + b` are those of `a` followed by those of `b` |
| Monitor.NoStockNoItems | scripts/monitor.mjs:50-65 | there is no entry exactly when no record is in stock |
| Monitor.CollectInStockItems | scripts/monitor.mjs:43-58 | the `forEach` loop pushes exactly the entries of the in-stock selection, in order |
| Monitor.SameQueryAsBrowser | scripts/monitor.mjs:19-29 | the script's parameters and URL are those the browser builds for the same SKUs, postal code and locations |
| Monitor.NotProxied | scripts/monitor.mjs:28-29 | the script's URL is never the browser's proxied URL |
| Monitor.StatusErrorShowsStatus | scripts/monitor.mjs:39 | the message is "API returned ", the status in plain decimal that reads back as the status, ": ", and the status text |
| Monitor.StatusErrorNamesStatus | scripts/monitor.mjs:38-40 | two status messages are equal only for the same status code and status text |
| Monitor.Recipient | scripts/monitor.mjs:14 | the recipient is `EMAIL_TO` when it is set and non-empty, and `EMAIL_USER` otherwise |
| Monitor.RecipientWhenSending | scripts/monitor.mjs:75-78 | whenever the guard lets a mail through, the recipient is set and non-empty |
| Monitor.SubjectStatesCount | scripts/monitor.mjs:100 | different item counts give different subjects |
| Monitor.FlagLabel | scripts/monitor.mjs:91-92 | a true flag is labelled with the check mark and a false one with the cross |
| Monitor.MailLink | scripts/monitor.mjs:93 | the mail's link is the card's product link followed by `/` and the sku again |
| Monitor.BlockShowsShipping | scripts/monitor.mjs:89-91 | a block names the sku and shows the shipping flag as available or out of stock |
| Monitor.BlockShowsPickup | scripts/monitor.mjs:92 | a block shows the pickup flag as available or out of stock |
| Monitor.BlockLinks | scripts/monitor.mjs:93 | a block holds the product link with the sku in both path segments |
| Monitor.BlockDeterminesFlags | scripts/monitor.mjs:88-95 | two blocks for the same sku are equal only when both flags are equal |
| Monitor.ItemListInOrder | scripts/monitor.mjs:88-95 | one block per item, in order: the block of item `i` sits between the blocks before it and those after it |
| Monitor.ComposeMailContents | scripts/monitor.mjs:97-107 | the mail goes from the quoted user to the recipient, its subject states the count, and its HTML holds the item list between the fixed heading and footer |
| Monitor.SendEmail | scripts/monitor.mjs:74-115 | skipped iff a credential is missing; otherwise one composed mail is offered to the transport, whose failure is reported and never thrown |
| Monitor.CheckInventory | scripts/monitor.mjs:16-72 | one unproxied request; a network failure or non-ok answer ends the run with status 1 and no mail; otherwise the in-stock items are found, and a mail is attempted iff there is at least one; an attempted mail is recorded as delivered exactly when the transport reports it sent, and a failed delivery carries the transport's error |
| App.ParseSkus | App.tsx:85 | every parsed SKU is non-empty, has no white space at either end and holds no comma |
| App.ParseOnePiece | App.tsx:85 | a piece without a comma parses to its trimmed text, or to no entry when the trimmed text is empty |
| App.ParseSkusAppend | App.tsx:85 | the entries on the two sides of a comma are parsed separately and concatenated, keeping order and duplicates |
| App.ParseDisplayedSkus | App.tsx:213 | white space followed by the displayed list parses back to the list, when every SKU is non-empty, trimmed and comma-free |
| App.DisplayRoundTrip | App.tsx:213 | re-parsing the displayed value `skus.join(', ')` gives back the same list |
| App.ParseSkusIdempotent | App.tsx:85 | whatever was typed, the displayed result parses to the same list again |
| App.SomeStoreFlagsInventoryExists | App.tsx:106 | the banner's `some` over the stores holds iff some store flags inventory |
| App.HasAnyStockExists | App.tsx:103-107 | the banner shows iff some item passes the report's per-item test, and never for an empty list |
| App.HasStockLightsCard | App.tsx:91 | an item passing the banner's test is never shown as totally out of stock |
| App.BannerImpliesSomeCardLit | App.tsx:103-107 | when the banner shows, some card is not totally out of stock |
| App.BannerMisses | App.tsx:103-107 | an item's card glows while the banner's test fails exactly when neither channel is purchasable, no store flags inventory, and the shipping status is "InStock" or some store has units on hand |
| App.BannerConverseFails | App.tsx:103-107 | the status "InStock" alone, or units on hand without the inventory flag, light a card but not the banner |
| App.CountdownStep | App.tsx:71-77 | a tick starts a load exactly when the previous value is 1 or less |
| App.TicksAdd | App.tsx:70-78 | running `a` ticks and then `b` ticks is running `a + b` ticks, and the loads add up |
| App.CounterStaysInRange | App.tsx:68-77 | from a counter in [1, n], the counter stays in [1, n] |
| App.CountdownToLoad | App.tsx:68-77 | from `t`, the first `t - 1` ticks only count down; tick `t` starts one load and resets the counter to the interval |
| App.OneLoadPerInterval | App.tsx:68-77 | from `n`, `m` rounds of `n` ticks start exactly `m` loads and leave the counter at `n` |
| App.ErrorText | App.tsx:49 | the error shown is never empty: the failure's message, or "Failed to fetch data" when the message is empty |
| App.Controller.Valid | App.tsx:62-77 | the counter invariant: 0 while paused, within [1, interval] while running with an interval of at least 1; the methods that move the counter keep it, and the others leave the counter, switch and interval unchanged |
| App.Controller.constructor | App.tsx:27-68 | the state after mounting: defaults, the initial load started, auto-refresh on, counter at the 30-second interval |
| App.Controller.RestartCountdown | App.tsx:62-68 | re-running the auto-refresh effect sets the counter to the interval, or to 0 when paused, and changes nothing else |
| App.Controller.BeginLoad | App.tsx:42-43 | a load starts: loading on, error cleared, nothing else changed |
| App.Controller.Tick | App.tsx:70-78 | paused, nothing changes; running, the counter moves as the countdown step says and a load begins exactly when that step fires |
| App.Controller.ToggleAutoRefresh | App.tsx:62-68 | the switch flips; pausing sets the counter to 0; resuming sets it to the interval without starting a load |
| App.Controller.SetRefreshInterval | App.tsx:232-233 | a new interval restarts the counter at it, or at 0 when paused; the same value changes nothing |
| App.Controller.SetSkusText | App.tsx:83-86 | the SKUs become the parsed text and the counter restarts, since every edit renews `loadData` |
| App.Controller.SetPostalCode | App.tsx:222-223 | a new postal code restarts the counter; the same code changes nothing |
| App.Controller.RefreshNow | App.tsx:170-171 | the button starts a load exactly when none is running |
| App.Controller.CompleteLoad | App.tsx:44-52 | success replaces the list wholesale and stamps the time; failure keeps the list and shows the message or the fallback; loading ends |
| App.Controller.LoadData | App.tsx:41-53 | a load run to completion asks the service for the current SKUs and postal code, and its outcome sets the list, the time stamp and the error |

## Left out

- Network, JSON decoding and mail delivery:
  - `fetch` and `response.json()` are the `Server` parameter;
  - the answer's JSON shape is trusted, as the source trusts it by a cast, so
    there is no parse-error path;
  - the `nodemailer` transport is the `Mailer` parameter.
- Asynchrony: `setInterval`, React's effect scheduling and state batching, and
  the race between two concurrent `loadData` calls (whichever completes last
  wins) are not modelled. `Tick`, `BeginLoad` and `CompleteLoad` are discrete
  steps, and `LoadData` is one load run to completion with no event in between.
- Console logging, and `process.exit` beyond the run's exit status.
- Dates and locale: `new Date()`, `toLocaleTimeString` and `toLocaleString`. A
  time stamp is an opaque integer supplied by the caller.
- `handleSendEmail` (App.tsx:88-101): the mailto report's subject and body text
  and `window.open` are not modelled. Its per-item stock test is `App.HasStock`.
- `Number(e.target.value)` and a possible NaN interval: the interval is an
  integer. `Controller.Valid` covers an interval below 1 too, where the counter
  equals the interval.
- JSX markup, styling, icons, the settings panel, the cloud-monitoring modal.
- Unicode: `trim` uses the full ECMAScript white-space set. Lone surrogates,
  which make `encodeURIComponent` throw, cannot occur because a Dafny `char` is
  a Unicode scalar value. UTF-8 decoding is not modelled, so the round trips
  are stated on bytes.
- The script's own fixed strings (base URL, the `accept` and
  `accept-language` values, SKUs, postal code, locations) are the
  `Monitor.Configured` record. Its request is stated for any configuration.
- The script's `User-Agent` request header (scripts/monitor.mjs:32-36) is not
  modelled: the request is identified by its URL alone, and no header is
  sent or checked.
- BestBuyService.QueryIsAscii: ASCII-ness is proved for the query string only,
  not for the whole upstream URL. The base URL is a plain ASCII constant.
- `vite.config.ts` (build tooling) is not part of this model.
