/** The browser's inventory request: the query it builds, the proxy it goes
    through, and how the outcome of the request becomes its result. */
module BestBuyService {
  import opened Wrappers
  import opened Strings
  import opened Types
  import opened Http
  import opened Constants
  import opened UrlEncoding
  import Seqs

  const AcceptValue: string := "application/vnd.bestbuy.standardproduct.v1+json"
  const AcceptLanguageValue: string := "en-CA"

  /** The `skus` parameter: the SKUs joined with `|`. */
  function SkuParam(skus: seq<string>): string
  {
    Join(skus, "|")
  }

  /** The five query parameters, in the order they are given to
      `URLSearchParams`. */
  function QueryPairs(skus: seq<string>, postalCode: string, locations: string): seq<(string, string)>
  {
    [("accept", AcceptValue),
     ("accept-language", AcceptLanguageValue),
     ("locations", locations),
     ("postalCode", postalCode),
     ("skus", SkuParam(skus))]
  }

  function Query(skus: seq<string>, postalCode: string, locations: string): string
  {
    FormSerialize(QueryPairs(skus, postalCode, locations))
  }

  /** The upstream URL. */
  function TargetUrl(skus: seq<string>, postalCode: string, locations: string): string
  {
    BaseApiUrl + "?" + Query(skus, postalCode, locations)
  }

  /** The URL the browser actually requests: the upstream URL, encoded as one
      URI component, behind the proxy prefix. */
  function ProxiedUrl(skus: seq<string>, postalCode: string, locations: string): string
  {
    CorsProxyPrefix + EncodeUriComponent(TargetUrl(skus, postalCode, locations))
  }

  /** The message of the error raised for a response that is not ok. */
  const StatusPrefix: string := "API returned status: "

  function StatusErrorMessage(r: Response): string
  {
    StatusPrefix + NatToString(r.status) + " " + r.statusText
  }

  /** The URLs requested, and how the returned promise settles. */
  datatype Fetched = Fetched(requested: seq<string>, result: Result<seq<Availability>>)

  /** The request to `url` and how it settles: a rejection is passed on
      unchanged, a status that is not ok becomes an error naming the status,
      and an ok body yields its `availabilities` as they are. */
  function FetchFrom(url: string, server: Server): (f: Fetched)
    ensures f.requested == [url]
    ensures server(url).NetworkFailure? ==> f.result == Failure(server(url).message)
    ensures server(url).Received? && server(url).response.Ok() ==>
      f.result == Success(server(url).response.body.availabilities)
    ensures server(url).Received? && !server(url).response.Ok() ==>
      f.result == Failure(StatusErrorMessage(server(url).response))
  {
    match server(url)
    case NetworkFailure(message) => Fetched([url], Failure(message))
    case Received(response) =>
      if !response.Ok() then Fetched([url], Failure(StatusErrorMessage(response)))
      else Fetched([url], Success(response.body.availabilities))
  }

  /** `fetchInventory`: no SKU means no request and an empty list; otherwise
      one request, to the proxied URL. */
  function FetchInventory(skus: seq<string>, postalCode: string, locations: string, server: Server): (f: Fetched)
    ensures |skus| == 0 ==> f == Fetched([], Success([]))
    ensures |skus| > 0 ==> f.requested == [ProxiedUrl(skus, postalCode, locations)]
  {
    if |skus| == 0 then Fetched([], Success([]))
    else FetchFrom(ProxiedUrl(skus, postalCode, locations), server)
  }

  /** With SKUs, the promise settles as the answer for the proxied URL
      dictates, and errors are rethrown rather than swallowed. */
  lemma FetchInventorySettles(skus: seq<string>, postalCode: string, locations: string, server: Server)
    requires |skus| > 0
    ensures var outcome := server(ProxiedUrl(skus, postalCode, locations));
      var f := FetchInventory(skus, postalCode, locations, server);
      && (outcome.NetworkFailure? ==> f.result == Failure(outcome.message))
      && (outcome.Received? && outcome.response.Ok() ==>
            f.result == Success(outcome.response.body.availabilities))
      && (outcome.Received? && !outcome.response.Ok() ==>
            f.result == Failure(StatusErrorMessage(outcome.response)))
  {
  }

  /** With no SKU the answer does not depend on the network at all. */
  lemma EmptySkusIssueNoRequest(postalCode: string, locations: string, s1: Server, s2: Server)
    ensures FetchInventory([], postalCode, locations, s1) == FetchInventory([], postalCode, locations, s2)
    ensures FetchInventory([], postalCode, locations, s1).requested == []
  {
  }

  /** Splitting the `skus` parameter on `|` recovers the SKUs when none of them
      contains `|`. */
  lemma SkuParamRoundTrip(skus: seq<string>)
    requires |skus| > 0
    requires forall i :: 0 <= i < |skus| ==> '|' !in skus[i]
    ensures Split(SkuParam(skus), '|') == skus
  {
    SplitJoin(skus, '|');
  }

  /** The query carries exactly five parameters, each name once, in the order
      accept, accept-language, locations, postalCode, skus. */
  lemma QueryParameters(skus: seq<string>, postalCode: string, locations: string)
    ensures var ps := QueryPairs(skus, postalCode, locations);
      && |ps| == 5
      && ps[0] == ("accept", AcceptValue)
      && ps[1] == ("accept-language", AcceptLanguageValue)
      && ps[2] == ("locations", locations)
      && ps[3] == ("postalCode", postalCode)
      && ps[4] == ("skus", SkuParam(skus))
      && forall i, j :: 0 <= i < j < |ps| ==> ps[i].0 != ps[j].0
  {
  }

  /** Parsing the serialized query gives back those five parameters, in
      order, as UTF-8 bytes. */
  lemma QueryRoundTrip(skus: seq<string>, postalCode: string, locations: string)
    ensures FormParse(Query(skus, postalCode, locations))
         == Seqs.Map(Utf8Pair, QueryPairs(skus, postalCode, locations))
  {
    FormParseSerialize(QueryPairs(skus, postalCode, locations));
  }

  /** A postal code made of letters and digits is sent unchanged. */
  lemma PostalCodeSentAsIs(skus: seq<string>, postalCode: string, locations: string)
    requires forall i :: 0 <= i < |postalCode| ==> IsAsciiAlphanumeric(postalCode[i])
    ensures QueryPairs(skus, postalCode, locations)[3] == ("postalCode", postalCode)
    ensures FormEncode(postalCode) == postalCode
  {
    FormEncodeUnreserved(postalCode);
  }

  /** In the `skus` parameter each SKU is encoded on its own and every pipe
      between two of them is sent as `%7C`. */
  lemma SkusSentPipeEncoded(skus: seq<string>)
    ensures FormEncode(SkuParam(skus)) == Join(Seqs.Map(FormEncode, skus), "%7C")
  {
    FormEncodeJoinPipe(skus);
  }

  /** Whatever the SKUs, postal code and locations, the query string is
      ASCII: everything else has been percent-encoded. */
  lemma QueryIsAscii(skus: seq<string>, postalCode: string, locations: string)
    ensures IsAscii(Query(skus, postalCode, locations))
  {
    FormSerializeIsAscii(QueryPairs(skus, postalCode, locations));
  }

  /** The proxy prefix is shorter than the base URL. Kept apart from the
      lemma below so that the two literals stay out of its proof. */
  lemma PrefixShorterThanBase()
    ensures |CorsProxyPrefix| <= |BaseApiUrl|
  {
    assert |CorsProxyPrefix| == 22;
    assert |BaseApiUrl| == 54;
  }

  /** The proxied URL is never the upstream URL itself. */
  lemma TargetIsNotProxied(skus: seq<string>, postalCode: string, locations: string)
    ensures TargetUrl(skus, postalCode, locations) != ProxiedUrl(skus, postalCode, locations)
  {
    var target := TargetUrl(skus, postalCode, locations);
    var proxied := ProxiedUrl(skus, postalCode, locations);
    var n, k := |BaseApiUrl|, |CorsProxyPrefix|;
    PrefixShorterThanBase();
    assert target[n] == '?';
    var e := EncodeUriComponent(target);
    EncodeUriComponentHasNoDelimiters(target);
    assert proxied == CorsProxyPrefix + e;
    assert proxied[n] == e[n - k];
  }

  /** After the proxy prefix, the proxied URL holds none of the characters
      that would split or redirect the proxy's own URL. */
  lemma ProxiedSuffixHasNoDelimiters(skus: seq<string>, postalCode: string, locations: string)
    ensures var suffix := ProxiedUrl(skus, postalCode, locations)[|CorsProxyPrefix|..];
      '|' !in suffix && '&' !in suffix && '=' !in suffix && '?' !in suffix && '/' !in suffix
  {
    var target := TargetUrl(skus, postalCode, locations);
    EncodeUriComponentHasNoDelimiters(target);
    assert ProxiedUrl(skus, postalCode, locations)[|CorsProxyPrefix|..] == EncodeUriComponent(target);
  }

  /** Percent-decoding what follows the proxy prefix gives back the UTF-8
      bytes of the upstream URL. */
  lemma ProxiedUrlDecodesToTarget(skus: seq<string>, postalCode: string, locations: string)
    ensures PercentDecode(ProxiedUrl(skus, postalCode, locations)[|CorsProxyPrefix|..])
         == Utf8Encode(TargetUrl(skus, postalCode, locations))
  {
    var target := TargetUrl(skus, postalCode, locations);
    assert ProxiedUrl(skus, postalCode, locations)[|CorsProxyPrefix|..] == EncodeUriComponent(target);
    DecodeEncodeUriComponent(target);
  }

  /** The message shows the status in plain decimal, which reads back as the
      status, between the fixed prefix and the status text. */
  lemma StatusErrorShowsStatus(r: Response)
    ensures var d := NatToString(r.status);
      && StatusErrorMessage(r) == StatusPrefix + d + " " + r.statusText
      && AllDigits(d) && DigitsValue(d) == r.status && (|d| > 1 ==> d[0] != '0')
  {
    DigitsValueOfNatToString(r.status);
  }

  /** The status error names the status: two such messages are equal only for
      the same status and status text. */
  lemma StatusErrorNamesStatus(r1: Response, r2: Response)
    requires StatusErrorMessage(r1) == StatusErrorMessage(r2)
    ensures r1.status == r2.status && r1.statusText == r2.statusText
  {
    var prefix := StatusPrefix;
    var d1, d2 := NatToString(r1.status), NatToString(r2.status);
    var t1, t2 := " " + r1.statusText, " " + r2.statusText;
    var m1, m2 := StatusErrorMessage(r1), StatusErrorMessage(r2);
    assert m1 == prefix + (d1 + t1);
    assert m2 == prefix + (d2 + t2);
    assert m1[|prefix|..] == d1 + t1;
    assert m2[|prefix|..] == d2 + t2;
    DigitsThenText(d1, t1, d2, t2);
    NatToStringInjective(r1.status, r2.status);
    assert t1[1..] == r1.statusText && t2[1..] == r2.statusText;
  }
}
