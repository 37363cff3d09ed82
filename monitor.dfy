/** The scheduled stock check: one unproxied request for the fixed SKUs, the
    in-stock records picked out of the answer, and the alert mail composed
    and handed to the mail transport. */
module Monitor {
  import opened Wrappers
  import opened Strings
  import opened Types
  import opened Http
  import opened UrlEncoding
  import Constants
  import InventoryCard
  import BestBuyService
  import Seqs

  // ---------------------------------------------------------------------
  // The availability rule, as the script writes it

  /** `locations.some(l => l.hasInventory || l.quantityOnHand > 0)`. */
  predicate SomeStoreStocked(locs: seq<Location>)
  {
    |locs| > 0 && (locs[0].hasInventory || locs[0].quantityOnHand > 0 || SomeStoreStocked(locs[1..]))
  }

  predicate HasPickup(item: Availability)
  {
    item.pickup.purchasable || SomeStoreStocked(item.pickup.locations)
  }

  predicate HasShipping(item: Availability)
  {
    item.shipping.purchasable || item.shipping.status == "InStock"
  }

  lemma {:induction false} SomeStoreStockedExists(locs: seq<Location>)
    ensures SomeStoreStocked(locs)
        <==> exists i :: 0 <= i < |locs| && InventoryCard.StoreHasStock(locs[i])
  {
    if |locs| > 0 {
      SomeStoreStockedExists(locs[1..]);
      if SomeStoreStocked(locs[1..]) {
        var j :| 0 <= j < |locs[1..]| && InventoryCard.StoreHasStock(locs[1..][j]);
        assert InventoryCard.StoreHasStock(locs[j + 1]);
      }
      if exists i :: 0 <= i < |locs| && InventoryCard.StoreHasStock(locs[i]) {
        var i :| 0 <= i < |locs| && InventoryCard.StoreHasStock(locs[i]);
        if i > 0 {
          assert InventoryCard.StoreHasStock(locs[1..][i - 1]);
        }
      }
    }
  }

  /** The script's flags agree with the product card on every record. */
  lemma SameRuleAsCard(item: Availability)
    ensures HasPickup(item) == InventoryCard.IsPickupAvailable(item)
    ensures HasShipping(item) == InventoryCard.IsShippingAvailable(item)
  {
    SomeStoreStockedExists(item.pickup.locations);
  }

  // ---------------------------------------------------------------------
  // Picking the in-stock records

  /** An entry of `inStockItems`. */
  datatype InStockItem = InStockItem(sku: string, pickup: bool, shipping: bool, details: Availability)

  predicate IsInStock(item: Availability)
  {
    HasPickup(item) || HasShipping(item)
  }

  function ToItem(item: Availability): InStockItem
  {
    InStockItem(item.sku, HasPickup(item), HasShipping(item), item)
  }

  /** What the `forEach` loop collects. */
  function InStockItems(avs: seq<Availability>): seq<InStockItem>
  {
    Seqs.Map(ToItem, Seqs.Filter(IsInStock, avs))
  }

  /** Every entry is an in-stock record of the answer, carrying its own sku and
      its two flags, at least one of them true; and every in-stock record of
      the answer has an entry. */
  lemma InStockItemsExact(avs: seq<Availability>)
    ensures var r := InStockItems(avs);
      forall k :: 0 <= k < |r| ==>
        && r[k].details in avs
        && r[k].sku == r[k].details.sku
        && r[k].pickup == HasPickup(r[k].details)
        && r[k].shipping == HasShipping(r[k].details)
        && (r[k].pickup || r[k].shipping)
    ensures |InStockItems(avs)| <= |avs|
    ensures forall i :: 0 <= i < |avs| && IsInStock(avs[i]) ==>
      exists k :: 0 <= k < |InStockItems(avs)| && InStockItems(avs)[k].details == avs[i]
  {
    var kept := Seqs.Filter(IsInStock, avs);
    var r := InStockItems(avs);
    forall i | 0 <= i < |avs| && IsInStock(avs[i])
      ensures exists k :: 0 <= k < |r| && r[k].details == avs[i]
    {
      var k :| 0 <= k < |kept| && kept[k] == avs[i];
      assert r[k].details == avs[i];
    }
  }

  /** One record gives one entry when in stock and none otherwise; with
      `InStockItemsInOrder` this fixes the list entry by entry. */
  lemma InStockItemsOfOne(item: Availability)
    ensures InStockItems([item]) == if IsInStock(item) then [ToItem(item)] else []
  {
    assert [item][1..] == [];
  }

  /** The entries keep the order of the answer. */
  lemma InStockItemsInOrder(a: seq<Availability>, b: seq<Availability>)
    ensures InStockItems(a + b) == InStockItems(a) + InStockItems(b)
  {
    Seqs.FilterAppend(IsInStock, a, b);
    Seqs.MapAppend(ToItem, Seqs.Filter(IsInStock, a), Seqs.Filter(IsInStock, b));
  }

  /** No entry at all exactly when no record of the answer is in stock. */
  lemma NoStockNoItems(avs: seq<Availability>)
    ensures |InStockItems(avs)| == 0 <==> forall i :: 0 <= i < |avs| ==> !IsInStock(avs[i])
  {
    InStockItemsExact(avs);
    var r := InStockItems(avs);
    if |r| > 0 {
      assert IsInStock(r[0].details);
    }
  }

  /** The `forEach` loop that pushes one entry per in-stock record. */
  method CollectInStockItems(avs: seq<Availability>) returns (items: seq<InStockItem>)
    ensures items == InStockItems(avs)
  {
    items := [];
    var i := 0;
    while i < |avs|
      invariant 0 <= i <= |avs|
      invariant items == InStockItems(avs[..i])
    {
      var item := avs[i];
      assert avs[..i + 1] == avs[..i] + [item];
      InStockItemsInOrder(avs[..i], [item]);
      if HasPickup(item) || HasShipping(item) {
        items := items + [InStockItem(item.sku, HasPickup(item), HasShipping(item), item)];
      }
      i := i + 1;
    }
    assert avs[..i] == avs;
  }

  // ---------------------------------------------------------------------
  // The request

  /** The configuration section at the head of the script, with the base URL
      and the `accept` and `accept-language` values it puts in the query. */
  datatype Config = Config(baseUrl: string, accept: string, acceptLanguage: string,
                           skus: seq<string>, postalCode: string, locations: string)

  /** The values the script ships with. */
  const Configured: Config := Config(
    "https://www.bestbuy.ca/ecomm-api/availability/products",
    "application/vnd.bestbuy.standardproduct.v1+json",
    "en-CA",
    Constants.DefaultSkus, Constants.DefaultPostalCode, Constants.DefaultLocations)

  /** The query pairs the script writes out itself. */
  function MonitorQueryPairs(config: Config): seq<(string, string)>
  {
    [("accept", config.accept),
     ("accept-language", config.acceptLanguage),
     ("locations", config.locations),
     ("postalCode", config.postalCode),
     ("skus", Join(config.skus, "|"))]
  }

  /** The URL the script fetches. */
  function MonitorUrl(config: Config): string
  {
    config.baseUrl + "?" + FormSerialize(MonitorQueryPairs(config))
  }

  /** The script, configured as it ships but with any SKUs, postal code and
      locations. */
  function ScriptFor(skus: seq<string>, postalCode: string, locations: string): Config
  {
    Configured.(skus := skus, postalCode := postalCode, locations := locations)
  }

  /** The script asks for exactly the upstream URL the browser builds: same
      parameters in the same order, same `|` join. */
  lemma SameQueryAsBrowser(skus: seq<string>, postalCode: string, locations: string)
    ensures MonitorQueryPairs(ScriptFor(skus, postalCode, locations)) == BestBuyService.QueryPairs(skus, postalCode, locations)
    ensures MonitorUrl(ScriptFor(skus, postalCode, locations)) == BestBuyService.TargetUrl(skus, postalCode, locations)
  {
  }

  /** ... but it goes to the shop directly, not through the proxy. */
  lemma NotProxied(skus: seq<string>, postalCode: string, locations: string)
    ensures MonitorUrl(ScriptFor(skus, postalCode, locations)) != BestBuyService.ProxiedUrl(skus, postalCode, locations)
  {
    SameQueryAsBrowser(skus, postalCode, locations);
    BestBuyService.TargetIsNotProxied(skus, postalCode, locations);
  }

  /** The message of the error thrown for a response that is not ok. */
  const StatusPrefix: string := "API returned "

  function StatusErrorMessage(r: Response): string
  {
    StatusPrefix + NatToString(r.status) + ": " + r.statusText
  }

  /** The message shows the status in plain decimal, which reads back as the
      status, between the fixed prefix and the status text. */
  lemma StatusErrorShowsStatus(r: Response)
    ensures var d := NatToString(r.status);
      && StatusErrorMessage(r) == StatusPrefix + d + ": " + r.statusText
      && AllDigits(d) && DigitsValue(d) == r.status && (|d| > 1 ==> d[0] != '0')
  {
    DigitsValueOfNatToString(r.status);
  }

  /** The message names the status and the status text: two messages are
      equal only for the same status and status text. */
  lemma StatusErrorNamesStatus(r1: Response, r2: Response)
    requires StatusErrorMessage(r1) == StatusErrorMessage(r2)
    ensures r1.status == r2.status && r1.statusText == r2.statusText
  {
    var prefix := StatusPrefix;
    var d1, d2 := NatToString(r1.status), NatToString(r2.status);
    var t1, t2 := ": " + r1.statusText, ": " + r2.statusText;
    var m1, m2 := StatusErrorMessage(r1), StatusErrorMessage(r2);
    assert m1 == prefix + (d1 + t1);
    assert m2 == prefix + (d2 + t2);
    assert m1[|prefix|..] == d1 + t1;
    assert m2[|prefix|..] == d2 + t2;
    DigitsThenText(d1, t1, d2, t2);
    NatToStringInjective(r1.status, r2.status);
    assert t1[2..] == r1.statusText && t2[2..] == r2.statusText;
  }

  // ---------------------------------------------------------------------
  // The alert mail

  /** The environment variables the script reads; `None` when unset. */
  datatype Env = Env(emailUser: Option<string>, emailPass: Option<string>, emailTo: Option<string>)

  /** JavaScript truthiness of an environment variable: set and not empty. */
  predicate Truthy(v: Option<string>)
  {
    v.Some? && v.value != ""
  }

  /** `EMAIL_TO || EMAIL_USER`. */
  function Recipient(env: Env): (to: Option<string>)
    ensures Truthy(env.emailTo) ==> to == env.emailTo
    ensures !Truthy(env.emailTo) ==> to == env.emailUser
  {
    if Truthy(env.emailTo) then env.emailTo else env.emailUser
  }

  /** The guard of `sendEmail`. */
  predicate CanSend(env: Env)
  {
    Truthy(env.emailUser) && Truthy(env.emailPass)
  }

  /** Whenever the guard lets a mail through, it has a non-empty recipient. */
  lemma RecipientWhenSending(env: Env)
    requires CanSend(env)
    ensures Truthy(Recipient(env))
  {
  }

  datatype Mail = Mail(from: string, to: string, subject: string, html: string)

  function Sender(user: string): string
  {
    "\"BestBuy Tracker\" <" + user + ">"
  }

  const SubjectPrefix: string := "\U{1F6A8} STOCK ALERT: "
  const SubjectSuffix: string := " Item(s) Available!"

  function Subject(count: nat): string
  {
    SubjectPrefix + NatToString(count) + SubjectSuffix
  }

  /** The subject states the number of items: different numbers of items give
      different subjects. */
  lemma SubjectStatesCount(m: nat, n: nat)
    requires Subject(m) == Subject(n)
    ensures m == n
  {
    var p := SubjectPrefix;
    var t := SubjectSuffix;
    var d1, d2 := NatToString(m), NatToString(n);
    assert t[0] == ' ';
    assert Subject(m) == p + (d1 + t);
    assert Subject(n) == p + (d2 + t);
    assert Subject(m)[|p|..] == d1 + t;
    assert Subject(n)[|p|..] == d2 + t;
    DigitsThenText(d1, t, d2, t);
    NatToStringInjective(m, n);
  }

  const AvailableLabel: string := "\U{2705} Available"
  const OutOfStockLabel: string := "\U{274C} Out of Stock"

  function FlagLabel(flag: bool): (text: string)
    ensures |text| > 0 && text[0] == (if flag then '\U{2705}' else '\U{274C}')
  {
    if flag then AvailableLabel else OutOfStockLabel
  }

  /** The product link of the mail: the card's link followed by `/` and the
      sku again. */
  function MailLink(sku: string): (link: string)
    ensures link == InventoryCard.ProductUrl(sku) + "/" + sku
  {
    "https://www.bestbuy.ca/en-ca/product/" + sku + "/" + sku
  }

  /** The fixed text of an item block: what comes before the sku, between
      the sku and the shipping label, between the two labels, between the
      pickup label and the link, and after the link. */
  datatype BlockTemplate = BlockTemplate(open: string, shippingIntro: string, pickupIntro: string,
                                         linkIntro: string, close: string)

  /** The template literal of the script, piece by piece. */
  const ItemTemplate: BlockTemplate := BlockTemplate(
    "\n    <div style=\"border: 1px solid #ccc; padding: 10px; margin-bottom: 10px; border-radius: 5px;\">\n      <h3 style=\"margin: 0;\">SKU: ",
    "</h3>\n      <p><strong>Shipping:</strong> ",
    "</p>\n      <p><strong>Pickup:</strong> ",
    "</p>\n      <a href=\"",
    "\" style=\"background-color: #0046be; color: white; padding: 5px 10px; text-decoration: none; border-radius: 3px; display: inline-block; margin-top: 5px;\">Buy Now</a>\n    </div>\n  ")

  /** The block of one item, filled into a template. */
  function Block(t: BlockTemplate, item: InStockItem): string
  {
    t.open + item.sku + t.shippingIntro + FlagLabel(item.shipping) + t.pickupIntro
    + FlagLabel(item.pickup) + t.linkIntro + MailLink(item.sku) + t.close
  }

  /** The block of one item in the mail. */
  function ItemBlock(item: InStockItem): string
  {
    Block(ItemTemplate, item)
  }

  /** Where the shipping label of a block starts. */
  function ShippingAt(t: BlockTemplate, item: InStockItem): nat
  {
    |t.open| + |item.sku| + |t.shippingIntro|
  }

  /** Where the pickup label of a block starts. */
  function PickupAt(t: BlockTemplate, item: InStockItem): nat
  {
    ShippingAt(t, item) + |FlagLabel(item.shipping)| + |t.pickupIntro|
  }

  /** Where the link of a block starts. */
  function LinkAt(t: BlockTemplate, item: InStockItem): nat
  {
    PickupAt(t, item) + |FlagLabel(item.pickup)| + |t.linkIntro|
  }

  /** A block names the sku and shows the shipping flag as available or out
      of stock. */
  lemma BlockShowsShipping(t: BlockTemplate, item: InStockItem)
    ensures var b := Block(t, item);
      && ShippingAt(t, item) < |b|
      && b[|t.open|..|t.open| + |item.sku|] == item.sku
      && b[ShippingAt(t, item)] == (if item.shipping then '\U{2705}' else '\U{274C}')
  {
    Layout(t.open, item.sku, t.shippingIntro, FlagLabel(item.shipping), t.pickupIntro,
           FlagLabel(item.pickup), t.linkIntro, MailLink(item.sku), t.close);
  }

  /** A block shows the pickup flag as available or out of stock. */
  lemma BlockShowsPickup(t: BlockTemplate, item: InStockItem)
    ensures PickupAt(t, item) < |Block(t, item)|
    ensures Block(t, item)[PickupAt(t, item)] == (if item.pickup then '\U{2705}' else '\U{274C}')
  {
    Layout(t.open, item.sku, t.shippingIntro, FlagLabel(item.shipping), t.pickupIntro,
           FlagLabel(item.pickup), t.linkIntro, MailLink(item.sku), t.close);
  }

  /** A block links to the product with the sku in both path segments. */
  lemma BlockLinks(t: BlockTemplate, item: InStockItem)
    ensures LinkAt(t, item) + |MailLink(item.sku)| <= |Block(t, item)|
    ensures Block(t, item)[LinkAt(t, item)..LinkAt(t, item) + |MailLink(item.sku)|] == MailLink(item.sku)
  {
    Layout(t.open, item.sku, t.shippingIntro, FlagLabel(item.shipping), t.pickupIntro,
           FlagLabel(item.pickup), t.linkIntro, MailLink(item.sku), t.close);
  }

  /** Where each piece of a nine-piece concatenation sits. */
  lemma Layout(o: string, k: string, si: string, s: string, pi: string, p: string,
               li: string, l: string, c: string)
    requires |s| > 0 && |p| > 0
    ensures var b := o + k + si + s + pi + p + li + l + c;
      var at := |o| + |k| + |si| + |s| + |pi| + |p| + |li|;
      && at + |l| <= |b|
      && b[|o|..|o| + |k|] == k
      && b[|o| + |k| + |si|] == s[0]
      && b[|o| + |k| + |si| + |s| + |pi|] == p[0]
      && b[at..at + |l|] == l
  {
    var a1 := o + k;
    var a2 := a1 + si;
    var a3 := a2 + s;
    var a4 := a3 + pi;
    var a5 := a4 + p;
    var a6 := a5 + li;
    var a7 := a6 + l;
    var b := a7 + c;
    assert b[..|a7|] == a7;
    assert a7[..|a6|] == a6 && a6[..|a5|] == a5 && a5[..|a4|] == a4;
    assert a4[..|a3|] == a3 && a3[..|a2|] == a2 && a2[..|a1|] == a1;
    assert a1[|o|..] == k;
    assert a3[|a2|] == s[0];
    assert a5[|a4|] == p[0];
    assert a7[|a6|..] == l;
  }

  /** Two blocks for the same sku are equal only for the same flags: the mail
      tells the two channels apart. */
  lemma BlockDeterminesFlags(t: BlockTemplate, i1: InStockItem, i2: InStockItem)
    requires i1.sku == i2.sku && Block(t, i1) == Block(t, i2)
    ensures i1.shipping == i2.shipping && i1.pickup == i2.pickup
  {
    BlockShowsShipping(t, i1);
    BlockShowsShipping(t, i2);
    BlockShowsPickup(t, i1);
    BlockShowsPickup(t, i2);
    assert ShippingAt(t, i1) == ShippingAt(t, i2);
    if i1.shipping == i2.shipping {
      assert PickupAt(t, i1) == PickupAt(t, i2);
    }
  }

  /** `items.map(...).join('')`. */
  function ItemListHtml(items: seq<InStockItem>): string
  {
    Seqs.Concat(Seqs.Map(ItemBlock, items))
  }

  /** One block per item, in order: the block of item `i` sits between the
      blocks of the items before it and those of the items after it. */
  lemma ItemListInOrder(items: seq<InStockItem>, i: nat)
    requires i < |items|
    ensures ItemListHtml(items)
         == ItemListHtml(items[..i]) + ItemBlock(items[i]) + ItemListHtml(items[i + 1..])
  {
    Seqs.ConcatMapAt(ItemBlock, items, i);
  }

  const BodyOpen: string :=
    "\n      <h2>Stock Detected!</h2>\n      <p>The following items are now available:</p>\n      "
  const BodyClose: string :=
    "\n      <p style=\"font-size: 12px; color: #666;\">This check ran via GitHub Actions.</p>\n    "

  function HtmlBody(items: seq<InStockItem>): string
  {
    BodyOpen + ItemListHtml(items) + BodyClose
  }

  /** `mailOptions`. */
  function ComposeMail(items: seq<InStockItem>, user: string, to: string): Mail
  {
    Mail(Sender(user), to, Subject(|items|), HtmlBody(items))
  }

  lemma Between(a: string, x: string, b: string)
    ensures |a + x + b| == |a| + |x| + |b|
    ensures (a + x + b)[|a|..|a| + |x|] == x
  {
    assert (a + x + b)[..|a| + |x|] == a + x;
  }

  /** The mail goes from the user, quoted behind the tracker's name, to the
      recipient; its subject counts the items and its body holds the item
      list between the fixed heading and footer. */
  lemma ComposeMailContents(items: seq<InStockItem>, user: string, to: string)
    ensures var m := ComposeMail(items, user, to);
      && m.to == to
      && |m.from| == 20 + |user| && m.from[19..19 + |user|] == user
      && m.subject == Subject(|items|)
      && |m.html| == |BodyOpen| + |ItemListHtml(items)| + |BodyClose|
      && m.html[|BodyOpen|..|BodyOpen| + |ItemListHtml(items)|] == ItemListHtml(items)
  {
    var name := "\"BestBuy Tracker\" <";
    assert |name| == 19;
    Between(name, user, ">");
    Between(BodyOpen, ItemListHtml(items), BodyClose);
  }

  /** What the mail transport answers. */
  datatype SendResult = Sent | SendFailed(error: string)

  type Mailer = Mail -> SendResult

  /** How `sendEmail` ends; it never throws. */
  datatype EmailOutcome = Skipped | Delivered(mail: Mail) | DeliveryFailed(mail: Mail, error: string)

  /** `sendEmail`: skipped without credentials; otherwise one mail from the
      user to the recipient, whose failure is caught and reported, not
      thrown. */
  method SendEmail(items: seq<InStockItem>, env: Env, mailer: Mailer) returns (outcome: EmailOutcome)
    ensures outcome.Skipped? <==> !CanSend(env)
    ensures !outcome.Skipped? ==>
      outcome.mail == ComposeMail(items, env.emailUser.value, Recipient(env).value)
    ensures outcome.Delivered? <==> CanSend(env) && mailer(outcome.mail).Sent?
    ensures outcome.DeliveryFailed? ==> outcome.error == mailer(outcome.mail).error
  {
    if !Truthy(env.emailUser) || !Truthy(env.emailPass) {
      return Skipped;
    }
    var to := Recipient(env).value;
    var mail := Mail(Sender(env.emailUser.value), to, Subject(|items|), HtmlBody(items));
    var sent := mailer(mail);
    match sent {
      case Sent =>
        outcome := Delivered(mail);
      case SendFailed(error) =>
        outcome := DeliveryFailed(mail, error);
    }
  }

  // ---------------------------------------------------------------------
  // One run

  /** What a run of the script did: the URLs it requested, the error that
      ended it if any, its exit status, the in-stock entries it found and how
      the mail went, if one was attempted. */
  datatype Run = Run(requested: seq<string>, failure: Option<string>, exitCode: int,
                     found: seq<InStockItem>, email: Option<EmailOutcome>)

  /** `checkInventory`. */
  method CheckInventory(config: Config, server: Server, env: Env, mailer: Mailer) returns (run: Run)
    ensures run.requested == [MonitorUrl(config)]
    ensures run.exitCode == (if run.failure.Some? then 1 else 0)
    ensures server(MonitorUrl(config)).NetworkFailure? ==>
      run.failure == Some(server(MonitorUrl(config)).message)
    ensures server(MonitorUrl(config)).Received? && !server(MonitorUrl(config)).response.Ok() ==>
      run.failure == Some(StatusErrorMessage(server(MonitorUrl(config)).response))
    ensures run.failure.None? <==> server(MonitorUrl(config)).Received? && server(MonitorUrl(config)).response.Ok()
    ensures run.failure.None? ==>
      run.found == InStockItems(server(MonitorUrl(config)).response.body.availabilities)
    ensures run.failure.Some? ==> run.found == [] && run.email.None?
    ensures run.email.Some? <==> run.failure.None? && |run.found| > 0
    ensures run.email.Some? ==> (run.email.value.Skipped? <==> !CanSend(env))
    ensures run.email.Some? && !run.email.value.Skipped? ==>
      run.email.value.mail == ComposeMail(run.found, env.emailUser.value, Recipient(env).value)
    ensures run.email.Some? && !run.email.value.Skipped? ==>
      (run.email.value.Delivered? <==> mailer(run.email.value.mail).Sent?)
    ensures run.email.Some? && run.email.value.DeliveryFailed? ==>
      run.email.value.error == mailer(run.email.value.mail).error
  {
    var url := MonitorUrl(config);
    var outcome := server(url);
    match outcome {
      case NetworkFailure(message) =>
        return Run([url], Some(message), 1, [], None);
      case Received(response) =>
        if !response.Ok() {
          return Run([url], Some(StatusErrorMessage(response)), 1, [], None);
        }
        var items := CollectInStockItems(response.body.availabilities);
        if |items| > 0 {
          var sent := SendEmail(items, env, mailer);
          run := Run([url], None, 0, items, Some(sent));
        } else {
          run := Run([url], None, 0, items, None);
        }
    }
  }
}
