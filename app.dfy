/** The dashboard: the SKU field, the stock banner, the auto-refresh
    countdown and the state `loadData` moves through. */
module App {
  import opened Wrappers
  import opened Strings
  import opened Types
  import opened Http
  import Constants
  import InventoryCard
  import BestBuyService
  import Seqs

  // ---------------------------------------------------------------------
  // The SKU field

  predicate NonEmpty(s: string)
  {
    |s| > 0
  }

  /** `val.split(',').map(s => s.trim()).filter(s => s.length > 0)`. */
  function ParseSkus(text: string): (skus: seq<string>)
    ensures forall i :: 0 <= i < |skus| ==> |skus[i]| > 0 && IsTrimmed(skus[i]) && ',' !in skus[i]
  {
    var pieces := Split(text, ',');
    var trimmed := Seqs.Map(Trim, pieces);
    forall k | 0 <= k < |trimmed| ensures ',' !in trimmed[k] {
      TrimKeepsOut(pieces[k], ',');
    }
    Seqs.Filter(NonEmpty, trimmed)
  }

  /** The value shown in the field: `skus.join(', ')`. */
  function DisplaySkus(skus: seq<string>): string
  {
    Join(skus, ", ")
  }

  /** The entries of text on the two sides of a comma are parsed separately
      and kept in order, duplicates included. */
  lemma ParseSkusAppend(a: string, b: string)
    ensures ParseSkus(a + "," + b) == ParseSkus(a) + ParseSkus(b)
  {
    SplitAppend(a, b, ',');
    Seqs.MapAppend(Trim, Split(a, ','), Split(b, ','));
    Seqs.FilterAppend(NonEmpty, Seqs.Map(Trim, Split(a, ',')), Seqs.Map(Trim, Split(b, ',')));
  }

  /** A piece without a comma gives its trimmed text, or nothing when that is
      empty. */
  lemma ParseOnePiece(p: string)
    requires ',' !in p
    ensures ParseSkus(p) == if Trim(p) == "" then [] else [Trim(p)]
  {
    SplitWithoutSeparator(p, ',');
    assert Seqs.Map(Trim, [p]) == [Trim(p)];
    assert [Trim(p)][1..] == [];
  }

  /** One entry, possibly behind white space, parses to itself. */
  lemma ParseOneSku(w: string, sku: string)
    requires AllWhiteSpace(w)
    requires |sku| > 0 && IsTrimmed(sku) && ',' !in sku
    ensures ParseSkus(w + sku) == [sku]
  {
    assert ',' !in w + sku by {
      forall k | 0 <= k < |w + sku| ensures (w + sku)[k] != ',' {
        if k < |w| {
          assert (w + sku)[k] == w[k];
        } else {
          assert (w + sku)[k] == sku[k - |w|];
        }
      }
    }
    SplitWithoutSeparator(w + sku, ',');
    TrimPadded(w, sku);
    assert Seqs.Map(Trim, [w + sku]) == [sku];
  }

  /** Re-parsing the displayed list, behind any white space, gives the list
      back. */
  lemma {:induction false} ParseDisplayedSkus(w: string, skus: seq<string>)
    requires AllWhiteSpace(w)
    requires forall i :: 0 <= i < |skus| ==> |skus[i]| > 0 && IsTrimmed(skus[i]) && ',' !in skus[i]
    ensures ParseSkus(w + DisplaySkus(skus)) == skus
    decreases |skus|
  {
    if |skus| == 0 {
      assert w + DisplaySkus(skus) == w;
      assert ',' !in w;
      SplitWithoutSeparator(w, ',');
      TrimWhiteSpace(w);
      assert Seqs.Map(Trim, [w]) == [""];
    } else if |skus| == 1 {
      ParseOneSku(w, skus[0]);
    } else {
      var rest := DisplaySkus(skus[1..]);
      assert w + DisplaySkus(skus) == (w + skus[0]) + "," + (" " + rest);
      ParseSkusAppend(w + skus[0], " " + rest);
      ParseOneSku(w, skus[0]);
      ParseDisplayedSkus(" ", skus[1..]);
      assert [skus[0]] + skus[1..] == skus;
    }
  }

  /** Typing back what the field displays leaves the list unchanged. */
  lemma DisplayRoundTrip(skus: seq<string>)
    requires forall i :: 0 <= i < |skus| ==> |skus[i]| > 0 && IsTrimmed(skus[i]) && ',' !in skus[i]
    ensures ParseSkus(DisplaySkus(skus)) == skus
  {
    ParseDisplayedSkus("", skus);
    assert "" + DisplaySkus(skus) == DisplaySkus(skus);
  }

  /** Parsing is idempotent through the field: whatever was typed, the
      displayed result parses to the same list. */
  lemma ParseSkusIdempotent(text: string)
    ensures ParseSkus(DisplaySkus(ParseSkus(text))) == ParseSkus(text)
  {
    DisplayRoundTrip(ParseSkus(text));
  }

  // ---------------------------------------------------------------------
  // The stock banner

  /** `locations.some(l => l.hasInventory)`. */
  predicate SomeStoreFlagsInventory(locs: seq<Location>)
  {
    |locs| > 0 && (locs[0].hasInventory || SomeStoreFlagsInventory(locs[1..]))
  }

  /** The per-item test of the banner and of the e-mail report. */
  predicate HasStock(item: Availability)
  {
    item.shipping.purchasable || item.pickup.purchasable || SomeStoreFlagsInventory(item.pickup.locations)
  }

  /** `availabilities.some(...)`. */
  predicate HasAnyStock(avs: seq<Availability>)
  {
    |avs| > 0 && (HasStock(avs[0]) || HasAnyStock(avs[1..]))
  }

  lemma {:induction false} SomeStoreFlagsInventoryExists(locs: seq<Location>)
    ensures SomeStoreFlagsInventory(locs) <==> exists i :: 0 <= i < |locs| && locs[i].hasInventory
  {
    if |locs| > 0 {
      SomeStoreFlagsInventoryExists(locs[1..]);
      if SomeStoreFlagsInventory(locs[1..]) {
        var j :| 0 <= j < |locs[1..]| && locs[1..][j].hasInventory;
        assert locs[j + 1].hasInventory;
      }
      if exists i :: 0 <= i < |locs| && locs[i].hasInventory {
        var i :| 0 <= i < |locs| && locs[i].hasInventory;
        if i > 0 {
          assert locs[1..][i - 1].hasInventory;
        }
      }
    }
  }

  /** The banner shows exactly when some item passes the per-item test of the
      report; never for an empty list. */
  lemma {:induction false} HasAnyStockExists(avs: seq<Availability>)
    ensures HasAnyStock(avs) <==> exists i :: 0 <= i < |avs| && HasStock(avs[i])
    ensures |avs| == 0 ==> !HasAnyStock(avs)
  {
    if |avs| > 0 {
      HasAnyStockExists(avs[1..]);
      if HasAnyStock(avs[1..]) {
        var j :| 0 <= j < |avs[1..]| && HasStock(avs[1..][j]);
        assert HasStock(avs[j + 1]);
      }
      if exists i :: 0 <= i < |avs| && HasStock(avs[i]) {
        var i :| 0 <= i < |avs| && HasStock(avs[i]);
        if i > 0 {
          assert HasStock(avs[1..][i - 1]);
        }
      }
    }
  }

  /** An item that passes the banner's test is never shown as totally out of
      stock. */
  lemma HasStockLightsCard(item: Availability)
    requires HasStock(item)
    ensures !InventoryCard.IsTotallyOutOfStock(item)
  {
    SomeStoreFlagsInventoryExists(item.pickup.locations);
    if SomeStoreFlagsInventory(item.pickup.locations) {
      var i :| 0 <= i < |item.pickup.locations| && item.pickup.locations[i].hasInventory;
      assert InventoryCard.StoreHasStock(item.pickup.locations[i]);
    }
  }

  /** When the banner shows, some card glows. */
  lemma BannerImpliesSomeCardLit(avs: seq<Availability>)
    requires HasAnyStock(avs)
    ensures exists i :: 0 <= i < |avs| && !InventoryCard.IsTotallyOutOfStock(avs[i])
  {
    HasAnyStockExists(avs);
    var i :| 0 <= i < |avs| && HasStock(avs[i]);
    HasStockLightsCard(avs[i]);
  }

  /** Exactly the items the banner misses although their card glows: no
      purchasable channel and no store flagging inventory, but the shipping
      status "InStock" or a store with units on hand. */
  lemma BannerMisses(item: Availability)
    ensures (!HasStock(item) && !InventoryCard.IsTotallyOutOfStock(item))
        <==> (&& !item.shipping.purchasable && !item.pickup.purchasable
              && (forall i :: 0 <= i < |item.pickup.locations| ==> !item.pickup.locations[i].hasInventory)
              && (item.shipping.status == "InStock"
                  || exists i :: 0 <= i < |item.pickup.locations| && item.pickup.locations[i].quantityOnHand > 0))
  {
    SomeStoreFlagsInventoryExists(item.pickup.locations);
    var locs := item.pickup.locations;
    if exists i :: 0 <= i < |locs| && locs[i].quantityOnHand > 0 {
      var i :| 0 <= i < |locs| && locs[i].quantityOnHand > 0;
      assert InventoryCard.StoreHasStock(locs[i]);
    }
    if exists i :: 0 <= i < |locs| && InventoryCard.StoreHasStock(locs[i]) {
      var i :| 0 <= i < |locs| && InventoryCard.StoreHasStock(locs[i]);
      assert locs[i].quantityOnHand > 0 || locs[i].hasInventory;
    }
  }

  /** A record whose only sign of stock is the shipping status. */
  const InStockStatusOnly: Availability :=
    Availability("1", "bestbuy", Pickup("NotAvailable", false, []),
                 Shipping("InStock", 0, false, false), None)

  /** A record whose only sign of stock is a store with units on hand that
      does not flag inventory. */
  const UnitsOnHandOnly: Availability :=
    Availability("2", "bestbuy",
                 Pickup("InStock", false, [Location("Store", "600", 3, false, true, None, None)]),
                 Shipping("SoldOutOnline", 0, false, false), None)

  /** The converse fails: the card glows while the banner stays hidden. */
  lemma BannerConverseFails()
    ensures !HasAnyStock([InStockStatusOnly]) && !InventoryCard.IsTotallyOutOfStock(InStockStatusOnly)
    ensures !HasAnyStock([UnitsOnHandOnly]) && !InventoryCard.IsTotallyOutOfStock(UnitsOnHandOnly)
  {
    var loc := UnitsOnHandOnly.pickup.locations[0];
    assert InventoryCard.StoreHasStock(loc);
    assert !SomeStoreFlagsInventory(UnitsOnHandOnly.pickup.locations[1..]);
  }

  // ---------------------------------------------------------------------
  // The countdown

  /** One second of the interval callback: at 1 or below it starts a load and
      starts over at the interval; otherwise it counts down. */
  function CountdownStep(prev: int, interval: int): (r: (int, bool))
    ensures r.1 <==> prev <= 1
  {
    if prev <= 1 then (interval, true) else (prev - 1, false)
  }

  /** The counter and the number of loads started after `k` ticks from `t`. */
  function Ticks(t: int, interval: int, k: nat): (int, nat)
    decreases k
  {
    if k == 0 then (t, 0)
    else
      var step := CountdownStep(t, interval);
      var r := Ticks(step.0, interval, k - 1);
      (r.0, r.1 + if step.1 then 1 else 0)
  }

  /** Ticks compose. */
  lemma {:induction false} TicksAdd(t: int, n: int, a: nat, b: nat)
    ensures var first := Ticks(t, n, a);
      Ticks(t, n, a + b) == (Ticks(first.0, n, b).0, first.1 + Ticks(first.0, n, b).1)
    decreases a
  {
    if a > 0 {
      TicksAdd(CountdownStep(t, n).0, n, a - 1, b);
    }
  }

  /** With the counter in [1, n], it stays there. */
  lemma {:induction false} CounterStaysInRange(t: int, n: int, k: nat)
    requires 1 <= t <= n
    ensures 1 <= Ticks(t, n, k).0 <= n
    decreases k
  {
    if k > 0 {
      CounterStaysInRange(CountdownStep(t, n).0, n, k - 1);
    }
  }

  /** From `t` in [1, n], the first `t - 1` ticks only count down and start no
      load, and tick `t` starts exactly one load and puts the counter back at
      the interval. */
  lemma {:induction false} CountdownToLoad(t: int, n: int, k: nat)
    requires 1 <= t && k <= t
    ensures k < t ==> Ticks(t, n, k) == (t - k, 0)
    ensures k == t ==> Ticks(t, n, k) == (n, 1)
    decreases k
  {
    if k > 0 {
      if t == 1 {
        assert Ticks(n, n, 0) == (n, 0);
      } else {
        CountdownToLoad(t - 1, n, k - 1);
      }
    }
  }

  /** Exactly one load per `n` ticks: after `m` rounds of `n` ticks from `n`
      the counter is back at `n` and `m` loads have started. */
  lemma {:induction false} OneLoadPerInterval(n: int, m: nat)
    requires n >= 1
    ensures Ticks(n, n, m * n) == (n, m)
    decreases m
  {
    if m > 0 {
      CountdownToLoad(n, n, n);
      TicksAdd(n, n, n, (m - 1) * n);
      OneLoadPerInterval(n, m - 1);
      assert m * n == n + (m - 1) * n;
    }
  }

  // ---------------------------------------------------------------------
  // The controller state

  const FallbackError: string := "Failed to fetch data"

  /** The message shown for a failed load: `err.message || "Failed to fetch
      data"`. */
  function ErrorText(message: string): (text: string)
    ensures text != ""
    ensures message == "" ==> text == FallbackError
    ensures message != "" ==> text == message
  {
    if message == "" then FallbackError else message
  }

  /** The state of the dashboard. Time stamps are opaque numbers supplied by
      the caller. */
  class Controller {
    var skus: seq<string>
    var postalCode: string
    var availabilities: seq<Availability>
    var loading: bool
    var error: Option<string>
    var lastUpdated: Option<int>
    var autoRefresh: bool
    var refreshInterval: int
    var timer: int
    /** The store locations every request names. */
    const locations: string

    /** The counter agrees with the auto-refresh switch: 0 while paused, the
        interval or less while running. */
    predicate Valid()
      reads this
    {
      && (!autoRefresh ==> timer == 0)
      && (autoRefresh && refreshInterval >= 1 ==> 1 <= timer <= refreshInterval)
      && (autoRefresh && refreshInterval < 1 ==> timer == refreshInterval)
    }

    /** The state right after mounting: the defaults, the initial load
        started, and the countdown set to the 30-second interval. */
    constructor ()
      ensures Valid()
      ensures skus == Constants.DefaultSkus && postalCode == Constants.DefaultPostalCode
      ensures locations == Constants.DefaultLocations
      ensures availabilities == [] && loading && error.None? && lastUpdated.None?
      ensures autoRefresh && refreshInterval == 30 && timer == 30
    {
      skus := Constants.DefaultSkus;
      postalCode := Constants.DefaultPostalCode;
      locations := Constants.DefaultLocations;
      availabilities := [];
      loading := true;
      error := None;
      lastUpdated := None;
      autoRefresh := true;
      refreshInterval := 30;
      timer := 30;
    }

    /** What re-running the auto-refresh effect does to the counter. */
    method RestartCountdown()
      modifies this
      ensures timer == (if autoRefresh then refreshInterval else 0)
      ensures Valid()
      ensures skus == old(skus) && postalCode == old(postalCode)
      ensures availabilities == old(availabilities) && loading == old(loading)
      ensures error == old(error) && lastUpdated == old(lastUpdated)
      ensures autoRefresh == old(autoRefresh) && refreshInterval == old(refreshInterval)
    {
      if autoRefresh {
        timer := refreshInterval;
      } else {
        timer := 0;
      }
    }

    /** The start of `loadData`: loading on, error cleared. */
    method BeginLoad()
      modifies this
      ensures loading && error.None?
      ensures skus == old(skus) && postalCode == old(postalCode)
      ensures availabilities == old(availabilities) && lastUpdated == old(lastUpdated)
      ensures autoRefresh == old(autoRefresh) && refreshInterval == old(refreshInterval)
      ensures timer == old(timer)
    {
      loading := true;
      error := None;
    }

    /** One second of the countdown. Paused, nothing happens; running, the
        counter moves as `CountdownStep` says and `started` tells whether a
        load began. */
    method Tick() returns (started: bool)
      requires Valid()
      modifies this
      ensures Valid()
      ensures !old(autoRefresh) ==> !started && timer == old(timer) && loading == old(loading)
                                     && error == old(error)
      ensures old(autoRefresh) ==> (timer, started) == CountdownStep(old(timer), refreshInterval)
      ensures started ==> loading && error.None?
      ensures old(autoRefresh) && !started ==> loading == old(loading) && error == old(error)
      ensures skus == old(skus) && postalCode == old(postalCode)
      ensures availabilities == old(availabilities) && lastUpdated == old(lastUpdated)
      ensures autoRefresh == old(autoRefresh) && refreshInterval == old(refreshInterval)
    {
      started := false;
      if autoRefresh {
        if timer <= 1 {
          BeginLoad();
          timer := refreshInterval;
          started := true;
        } else {
          timer := timer - 1;
        }
      }
    }

    /** The pause / resume button. Resuming sets the counter to the interval
        without loading. */
    method ToggleAutoRefresh()
      requires Valid()
      modifies this
      ensures Valid()
      ensures autoRefresh == !old(autoRefresh)
      ensures timer == (if autoRefresh then refreshInterval else 0)
      ensures skus == old(skus) && postalCode == old(postalCode)
      ensures availabilities == old(availabilities) && loading == old(loading)
      ensures error == old(error) && lastUpdated == old(lastUpdated)
      ensures refreshInterval == old(refreshInterval)
    {
      autoRefresh := !autoRefresh;
      RestartCountdown();
    }

    /** The interval field. A new interval restarts the counter at it; the
        same value changes nothing. */
    method SetRefreshInterval(n: int)
      requires Valid()
      modifies this
      ensures Valid()
      ensures refreshInterval == n
      ensures n != old(refreshInterval) ==> timer == (if autoRefresh then n else 0)
      ensures n == old(refreshInterval) ==> timer == old(timer)
      ensures skus == old(skus) && postalCode == old(postalCode)
      ensures availabilities == old(availabilities) && loading == old(loading)
      ensures error == old(error) && lastUpdated == old(lastUpdated)
      ensures autoRefresh == old(autoRefresh)
    {
      if n != refreshInterval {
        refreshInterval := n;
        RestartCountdown();
      }
    }

    /** The SKU field. Every edit stores a freshly parsed list, which gives
        `loadData` a new identity and so restarts the counter. */
    method SetSkusText(text: string)
      requires Valid()
      modifies this
      ensures Valid()
      ensures skus == ParseSkus(text)
      ensures timer == (if autoRefresh then refreshInterval else 0)
      ensures postalCode == old(postalCode)
      ensures availabilities == old(availabilities) && loading == old(loading)
      ensures error == old(error) && lastUpdated == old(lastUpdated)
      ensures autoRefresh == old(autoRefresh) && refreshInterval == old(refreshInterval)
    {
      skus := ParseSkus(text);
      RestartCountdown();
    }

    /** The postal-code field. A new code restarts the counter; the same code
        changes nothing. */
    method SetPostalCode(code: string)
      requires Valid()
      modifies this
      ensures Valid()
      ensures postalCode == code
      ensures code != old(postalCode) ==> timer == (if autoRefresh then refreshInterval else 0)
      ensures code == old(postalCode) ==> timer == old(timer)
      ensures skus == old(skus)
      ensures availabilities == old(availabilities) && loading == old(loading)
      ensures error == old(error) && lastUpdated == old(lastUpdated)
      ensures autoRefresh == old(autoRefresh) && refreshInterval == old(refreshInterval)
    {
      if code != postalCode {
        postalCode := code;
        RestartCountdown();
      }
    }

    /** The Refresh Now button, disabled while a load is running. */
    method RefreshNow() returns (started: bool)
      modifies this
      ensures started == !old(loading)
      ensures loading
      ensures started ==> error.None?
      ensures !started ==> error == old(error)
      ensures skus == old(skus) && postalCode == old(postalCode)
      ensures availabilities == old(availabilities) && lastUpdated == old(lastUpdated)
      ensures autoRefresh == old(autoRefresh) && refreshInterval == old(refreshInterval)
      ensures timer == old(timer)
    {
      started := !loading;
      if started {
        BeginLoad();
      }
    }

    /** How `loadData` ends: success replaces the list wholesale and stamps
        the time; failure keeps the list and shows the message, or the
        fallback when the message is empty; loading stops either way. */
    method CompleteLoad(result: Result<seq<Availability>>, now: int)
      modifies this
      ensures !loading
      ensures result.Success? ==> availabilities == result.value && lastUpdated == Some(now)
                                  && error == old(error)
      ensures result.Failure? ==> availabilities == old(availabilities) && lastUpdated == old(lastUpdated)
                                  && error == Some(ErrorText(result.message))
      ensures skus == old(skus) && postalCode == old(postalCode)
      ensures autoRefresh == old(autoRefresh) && refreshInterval == old(refreshInterval)
      ensures timer == old(timer)
    {
      match result {
        case Success(data) =>
          availabilities := data;
          lastUpdated := Some(now);
        case Failure(message) =>
          error := Some(ErrorText(message));
      }
      loading := false;
    }

    /** `loadData`, run to completion with no other event in between: it asks
        the service for the current SKUs and postal code and settles as the
        service's answer dictates. */
    method LoadData(server: Server, now: int) returns (requested: seq<string>)
      modifies this
      ensures var f := BestBuyService.FetchInventory(skus, postalCode, locations, server);
        && requested == f.requested
        && !loading
        && (f.result.Success? ==> availabilities == f.result.value && lastUpdated == Some(now)
                                  && error.None?)
        && (f.result.Failure? ==> availabilities == old(availabilities) && lastUpdated == old(lastUpdated)
                                  && error == Some(ErrorText(f.result.message)))
      ensures skus == old(skus) && postalCode == old(postalCode)
      ensures autoRefresh == old(autoRefresh) && refreshInterval == old(refreshInterval)
      ensures timer == old(timer)
    {
      BeginLoad();
      var f := BestBuyService.FetchInventory(skus, postalCode, locations, server);
      CompleteLoad(f.result, now);
      requested := f.requested;
    }
  }
}
