/**
 * The four caching strategies of sw.js and its offline fallback, each as a
 * function from the cache store before the request, the request and what the
 * network does with it, to the response given back, the store afterwards and
 * whether the network was consulted.
 */
module SwStrategies {
  import opened Optional
  import opened JsStrings
  import opened SwRoutes
  import opened SwCache

  const CACHE_NAME: string := "bambans-blog-v1.2.0"
  const STATIC_CACHE: string := "bambans-static-v1.2.0"
  const DYNAMIC_CACHE: string := "bambans-dynamic-v1.2.0"

  /** The offline page, as a path under the worker's origin. */
  const OFFLINE_PAGE: string := "/blog/offline.html"

  /** `new Response('Offline - Content not available', { status: 503, ... })`. */
  const OFFLINE_RESPONSE: Response :=
    Response(503, "Service Unavailable", "text/plain", "Offline - Content not available", NoDate)

  const CDN_PLACEHOLDER: string := "/* CDN resource unavailable */"

  /** `JSON.stringify` of the error object of the GitHub strategy. */
  const NETWORK_UNAVAILABLE_BODY: string :=
    "{\"error\":\"Network unavailable\",\"message\":\"Unable to fetch data. Please check your connection.\"}"

  const NETWORK_UNAVAILABLE: Response :=
    Response(503, "", "application/json", NETWORK_UNAVAILABLE_BODY, NoDate)

  /** The synthetic answer for a CDN resource that is neither cached nor reachable. */
  function CdnPlaceholder(href: string): (r: Response)
    ensures r.status == 200 && r.body == CDN_PLACEHOLDER
    ensures r.contentType == ContentType(href)
  {
    Response(200, "", ContentType(href), CDN_PLACEHOLDER, NoDate)
  }

  /** What a strategy produces. */
  datatype Outcome = Outcome(response: Response, store: Store, fetched: bool)

  /** `handleOfflineFallback`: the cached offline page for a navigation, else a plain 503. */
  function OfflineFallback(s: Store, req: Request, origin: string): (o: Outcome)
    requires StoreValid(s)
    ensures StoreValid(o.store) && !o.fetched
    ensures req.mode != Navigate ==> o.store == s && o.response == OFFLINE_RESPONSE
    ensures req.mode == Navigate ==> o.store == Open(s, STATIC_CACHE)
    ensures req.mode == Navigate && Lookup(s, STATIC_CACHE, origin + OFFLINE_PAGE).Some? ==>
              o.response == Lookup(s, STATIC_CACHE, origin + OFFLINE_PAGE).value
    ensures req.mode != Navigate || Lookup(s, STATIC_CACHE, origin + OFFLINE_PAGE).None? ==>
              o.response == OFFLINE_RESPONSE
  {
    if req.mode == Navigate then
      var t := Open(s, STATIC_CACHE);
      match Lookup(t, STATIC_CACHE, origin + OFFLINE_PAGE)
      case Some(page) => Outcome(page, t, false)
      case None => Outcome(OFFLINE_RESPONSE, t, false)
    else Outcome(OFFLINE_RESPONSE, s, false)
  }

  /**
   * `handleStaticFile`, cache first: a hit is answered from the static cache
   * without the network; on a miss an ok network response is stored, any
   * other response is passed on unstored, and a failed fetch gets the fallback.
   */
  function StaticStrategy(s: Store, req: Request, net: NetOutcome, origin: string): (o: Outcome)
    requires StoreValid(s)
    ensures StoreValid(o.store)
    ensures !o.fetched <==> Lookup(s, STATIC_CACHE, req.url.href).Some?
    ensures !o.fetched ==> o.response == Lookup(s, STATIC_CACHE, req.url.href).value && o.store == s
    ensures o.fetched && net.Responded? ==> o.response == net.response
    ensures o.fetched && Succeeded(net) ==>
              o.store == PutIn(Open(s, STATIC_CACHE), STATIC_CACHE, req.url.href, net.response)
    ensures o.fetched && net.Responded? && !Ok(net.response) ==> o.store == Open(s, STATIC_CACHE)
    ensures o.fetched && net.Throws? ==> o == OfflineFallback(Open(s, STATIC_CACHE), req, origin).(fetched := true)
  {
    var t := Open(s, STATIC_CACHE);
    var key := req.url.href;
    match Lookup(t, STATIC_CACHE, key)
    case Some(cached) => Outcome(cached, t, false)
    case None =>
      match net
      case Throws => OfflineFallback(t, req, origin).(fetched := true)
      case Responded(resp) =>
        Outcome(resp, if Ok(resp) then PutIn(t, STATIC_CACHE, key, resp) else t, true)
  }

  /**
   * `handleCDNResource`, cache first in the dynamic cache; a failed fetch is
   * answered with a 200 placeholder typed by the URL's suffix.
   */
  function CdnStrategy(s: Store, req: Request, net: NetOutcome): (o: Outcome)
    requires StoreValid(s)
    ensures StoreValid(o.store)
    ensures !o.fetched <==> Lookup(s, DYNAMIC_CACHE, req.url.href).Some?
    ensures !o.fetched ==> o.response == Lookup(s, DYNAMIC_CACHE, req.url.href).value && o.store == s
    ensures o.fetched && net.Responded? ==> o.response == net.response
    ensures o.fetched && Succeeded(net) ==>
              o.store == PutIn(Open(s, DYNAMIC_CACHE), DYNAMIC_CACHE, req.url.href, net.response)
    ensures o.fetched && !Succeeded(net) ==> o.store == Open(s, DYNAMIC_CACHE)
    ensures o.fetched && net.Throws? ==> o.response == CdnPlaceholder(req.url.href)
  {
    var t := Open(s, DYNAMIC_CACHE);
    var key := req.url.href;
    match Lookup(t, DYNAMIC_CACHE, key)
    case Some(cached) => Outcome(cached, t, false)
    case None =>
      match net
      case Throws => Outcome(CdnPlaceholder(key), t, true)
      case Responded(resp) =>
        Outcome(resp, if Ok(resp) then PutIn(t, DYNAMIC_CACHE, key, resp) else t, true)
  }

  /**
   * `handleGitHubAPI`, network first: an ok response is stored and returned;
   * a 403 (rate limit) is replaced by the cached copy when there is one; a
   * failed fetch gets the cached copy or a 503 JSON error.
   */
  function GitHubStrategy(s: Store, req: Request, net: NetOutcome): (o: Outcome)
    requires StoreValid(s)
    ensures StoreValid(o.store) && o.fetched
    ensures Succeeded(net) ==>
              o.response == net.response &&
              o.store == PutIn(Open(s, DYNAMIC_CACHE), DYNAMIC_CACHE, req.url.href, net.response)
    ensures !Succeeded(net) ==> o.store == Open(s, DYNAMIC_CACHE)
    ensures net.Responded? && net.response.status == 403 && Lookup(s, DYNAMIC_CACHE, req.url.href).Some? ==>
              o.response == Lookup(s, DYNAMIC_CACHE, req.url.href).value
    ensures net.Responded? && !Ok(net.response) &&
            (net.response.status != 403 || Lookup(s, DYNAMIC_CACHE, req.url.href).None?) ==>
              o.response == net.response
    ensures net.Throws? && Lookup(s, DYNAMIC_CACHE, req.url.href).Some? ==>
              o.response == Lookup(s, DYNAMIC_CACHE, req.url.href).value
    ensures net.Throws? && Lookup(s, DYNAMIC_CACHE, req.url.href).None? ==> o.response == NETWORK_UNAVAILABLE
  {
    var t := Open(s, DYNAMIC_CACHE);
    var key := req.url.href;
    match net
    case Responded(resp) =>
      if Ok(resp) then Outcome(resp, PutIn(t, DYNAMIC_CACHE, key, resp), true)
      else if resp.status == 403 then
        match Lookup(t, DYNAMIC_CACHE, key)
        case Some(cached) => Outcome(cached, t, true)
        case None => Outcome(resp, t, true)
      else Outcome(resp, t, true)
    case Throws =>
      match Lookup(t, DYNAMIC_CACHE, key)
      case Some(cached) => Outcome(cached, t, true)
      case None => Outcome(NETWORK_UNAVAILABLE, t, true)
  }

  /**
   * `handleDynamicRequest`, network first: any network response is returned
   * (ok ones are stored); a failed fetch gets the cached copy, else the fallback.
   */
  function DynamicStrategy(s: Store, req: Request, net: NetOutcome, origin: string): (o: Outcome)
    requires StoreValid(s)
    ensures StoreValid(o.store) && o.fetched
    ensures net.Responded? ==> o.response == net.response
    ensures Succeeded(net) ==>
              o.store == PutIn(Open(s, DYNAMIC_CACHE), DYNAMIC_CACHE, req.url.href, net.response)
    ensures net.Responded? && !Ok(net.response) ==> o.store == Open(s, DYNAMIC_CACHE)
    ensures net.Throws? && Lookup(s, DYNAMIC_CACHE, req.url.href).Some? ==>
              o.response == Lookup(s, DYNAMIC_CACHE, req.url.href).value && o.store == Open(s, DYNAMIC_CACHE)
    ensures net.Throws? && Lookup(s, DYNAMIC_CACHE, req.url.href).None? ==>
              o == OfflineFallback(Open(s, DYNAMIC_CACHE), req, origin).(fetched := true)
  {
    var t := Open(s, DYNAMIC_CACHE);
    var key := req.url.href;
    match net
    case Responded(resp) =>
      Outcome(resp, if Ok(resp) then PutIn(t, DYNAMIC_CACHE, key, resp) else t, true)
    case Throws =>
      match Lookup(t, DYNAMIC_CACHE, key)
      case Some(cached) => Outcome(cached, t, true)
      case None => OfflineFallback(t, req, origin).(fetched := true)
  }

  /** `handleFetch`: the strategy of the request's route. */
  function HandleFetch(s: Store, req: Request, net: NetOutcome, origin: string): (o: Outcome)
    requires StoreValid(s)
    ensures StoreValid(o.store)
    ensures Classify(req.url, origin) == StaticRoute ==> o == StaticStrategy(s, req, net, origin)
    ensures Classify(req.url, origin) == CdnRoute ==> o == CdnStrategy(s, req, net)
    ensures Classify(req.url, origin) == GitHubRoute ==> o == GitHubStrategy(s, req, net)
    ensures Classify(req.url, origin) == DynamicRoute ==> o == DynamicStrategy(s, req, net, origin)
  {
    match Classify(req.url, origin)
    case StaticRoute => StaticStrategy(s, req, net, origin)
    case CdnRoute => CdnStrategy(s, req, net)
    case GitHubRoute => GitHubStrategy(s, req, net)
    case DynamicRoute => DynamicStrategy(s, req, net, origin)
  }

  /** The fetch listener either leaves the request to the browser or answers it. */
  datatype FetchResult = PassThrough | Answered(outcome: Outcome)

  /** The `fetch` listener: non-GET and non-http(s) requests are not intercepted. */
  function OnFetch(s: Store, req: Request, net: NetOutcome, origin: string): (r: FetchResult)
    requires StoreValid(s)
    ensures r.PassThrough? <==> req.verb != "GET" || !StartsWith(req.url.protocol, "http")
    ensures r.Answered? ==> r.outcome == HandleFetch(s, req, net, origin)
  {
    if Intercepted(req) then Answered(HandleFetch(s, req, net, origin)) else PassThrough
  }

  /** Every strategy only adds caches to the store: none is ever removed. */
  lemma HandleFetchKeepsCaches(s: Store, req: Request, net: NetOutcome, origin: string, name: string)
    requires StoreValid(s) && name in s.values
    ensures name in HandleFetch(s, req, net, origin).store.values
  {
    match Classify(req.url, origin)
    case StaticRoute => StaticKeepsCaches(s, req, net, origin, name);
    case CdnRoute => CdnKeepsCaches(s, req, net, name);
    case GitHubRoute => GitHubKeepsCaches(s, req, net, name);
    case DynamicRoute => DynamicKeepsCaches(s, req, net, origin, name);
  }

  lemma StaticKeepsCaches(s: Store, req: Request, net: NetOutcome, origin: string, name: string)
    requires StoreValid(s) && name in s.values
    ensures name in StaticStrategy(s, req, net, origin).store.values
  {
  }

  lemma CdnKeepsCaches(s: Store, req: Request, net: NetOutcome, name: string)
    requires StoreValid(s) && name in s.values
    ensures name in CdnStrategy(s, req, net).store.values
  {
  }

  lemma GitHubKeepsCaches(s: Store, req: Request, net: NetOutcome, name: string)
    requires StoreValid(s) && name in s.values
    ensures name in GitHubStrategy(s, req, net).store.values
  {
  }

  lemma DynamicKeepsCaches(s: Store, req: Request, net: NetOutcome, origin: string, name: string)
    requires StoreValid(s) && name in s.values
    ensures name in DynamicStrategy(s, req, net, origin).store.values
  {
  }

  /** A static file stored after an ok response is then served from the cache, with no network. */
  lemma StaticStoredThenHit(s: Store, req: Request, resp: Response, net2: NetOutcome, origin: string)
    requires StoreValid(s) && Ok(resp)
    requires Lookup(s, STATIC_CACHE, req.url.href).None?
    ensures var o1 := StaticStrategy(s, req, Responded(resp), origin);
            StaticStrategy(o1.store, req, net2, origin) == Outcome(resp, o1.store, false)
  {
    var o1 := StaticStrategy(s, req, Responded(resp), origin);
    assert Lookup(o1.store, STATIC_CACHE, req.url.href) == Some(resp);
  }

  /** A cache hit never consults the network: the answer is the same whatever the network would do. */
  lemma StaticHitIgnoresNetwork(s: Store, req: Request, n1: NetOutcome, n2: NetOutcome, origin: string)
    requires StoreValid(s) && Lookup(s, STATIC_CACHE, req.url.href).Some?
    ensures StaticStrategy(s, req, n1, origin) == StaticStrategy(s, req, n2, origin)
  {
  }

  /** After an ok GitHub response, a later rate limit or network failure is answered with it. */
  lemma GitHubFallsBackToLastGood(s: Store, req: Request, resp: Response, later: NetOutcome)
    requires StoreValid(s) && Ok(resp)
    requires later.Throws? || later.response.status == 403
    ensures var o1 := GitHubStrategy(s, req, Responded(resp));
            GitHubStrategy(o1.store, req, later).response == resp
  {
    var o1 := GitHubStrategy(s, req, Responded(resp));
    assert Lookup(o1.store, DYNAMIC_CACHE, req.url.href) == Some(resp);
  }

  /** A GitHub status that is neither ok nor 403 (a 404, say) is passed on and nothing is stored. */
  lemma GitHubPassesOtherErrors(s: Store, req: Request, resp: Response)
    requires StoreValid(s) && !Ok(resp) && resp.status != 403
    ensures GitHubStrategy(s, req, Responded(resp)) == Outcome(resp, Open(s, DYNAMIC_CACHE), true)
  {
  }

  /** A dynamic request stored while online is served from the cache once the network fails. */
  lemma DynamicOfflineServesLastGood(s: Store, req: Request, resp: Response, origin: string)
    requires StoreValid(s) && Ok(resp)
    ensures var o1 := DynamicStrategy(s, req, Responded(resp), origin);
            DynamicStrategy(o1.store, req, Throws, origin).response == resp
  {
    var o1 := DynamicStrategy(s, req, Responded(resp), origin);
    assert Lookup(o1.store, DYNAMIC_CACHE, req.url.href) == Some(resp);
  }

  /** The offline fallback answers with the stored offline page or with the fixed 503. */
  lemma OfflineFallbackShape(s: Store, req: Request, origin: string)
    requires StoreValid(s)
    ensures var r := OfflineFallback(s, req, origin).response;
            r == OFFLINE_RESPONSE || Lookup(s, STATIC_CACHE, origin + OFFLINE_PAGE) == Some(r)
  {
  }
}
