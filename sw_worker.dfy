/**
 * The service worker itself: the cache store it owns and the handlers of its
 * `install`, `activate`, `fetch`, `message`, `periodicsync` and `sync` events,
 * run one at a time.  Each strategy method performs the Cache API calls of
 * sw.js in order and is proved to agree with the matching strategy function.
 */
module ServiceWorker {
  import opened Optional
  import opened Seqs
  import opened JsStrings
  import opened OrderedMaps
  import opened SwRoutes
  import opened SwCache
  import opened SwStrategies

  /** The pages and assets pre-cached on install, as paths under the worker's origin. */
  const STATIC_FILES: seq<string> := [
    "/", "/blog/", "/blog/index.html", "/blog/css/style.css", "/css/style.css",
    "/js/main.js", "/js/blog-utils.js", "/js/tailwind_config.js", "/blog/offline.html"
  ]

  /** Seven days in milliseconds: the age past which `cleanupOldCache` drops an entry. */
  const MAX_AGE: int := 7 * 24 * 60 * 60 * 1000

  /** The listing the background sync refreshes. */
  const GITHUB_LISTING_URL: string := "https://api.github.com/repos/bambans/bambans.github.io/contents/blog/posts"

  /** The static files as absolute URLs of the worker's origin. */
  function StaticUrls(origin: string): (r: seq<string>)
    ensures |r| == |STATIC_FILES|
    ensures forall i :: 0 <= i < |r| ==> r[i] == origin + STATIC_FILES[i]
  {
    seq(|STATIC_FILES|, i requires 0 <= i < |STATIC_FILES| => origin + STATIC_FILES[i])
  }

  /** The three cache names of the current version, which `activate` keeps. */
  predicate IsCurrentCache(name: string) {
    name == STATIC_CACHE || name == DYNAMIC_CACHE || name == CACHE_NAME
  }

  /** A response whose `date` header lies strictly more than seven days before `now`. */
  predicate Expired(r: Response, now: int) {
    r.date.Dated? && now - r.date.ms > MAX_AGE
  }

  /** The entries of `p` that `cleanupOldCache` keeps at time `now`. */
  function Fresh(p: Partition, now: int): string -> bool {
    url => !(url in p.values && Expired(p.values[url], now))
  }

  /** What `getCacheInfo` reports about one cache. */
  datatype CacheInfo = CacheInfo(name: string, count: nat, urls: seq<string>)

  /** The report for cache `name`: its size and its first ten URLs. */
  function Summary(name: string, p: Partition): (c: CacheInfo)
    requires p.Valid()
    ensures c.name == name && c.count == |p.values|
    ensures |c.urls| == if |p.keys| < 10 then |p.keys| else 10
    ensures c.urls == p.keys[..|c.urls|]
  {
    SizeIsCardinality(p);
    CacheInfo(name, |p.keys|, if |p.keys| < 10 then p.keys else p.keys[..10])
  }

  /** `event.data` of a message: the action and the optional `data.url`. */
  datatype Message = Message(action: string, url: Option<string>)

  /** What a message leads to: nothing, a `skipWaiting` call, or a reply on the port. */
  datatype Reply = NoReply | SkipWaiting | Posted(success: bool, info: seq<CacheInfo>)

  class Worker {
    /** `self.location.origin`. */
    const origin: string
    /** The origin's cache storage. */
    var caches: Store

    ghost predicate Valid()
      reads this
    {
      StoreValid(caches)
    }

    constructor(origin: string)
      ensures Valid() && this.origin == origin && caches == Empty()
    {
      this.origin := origin;
      caches := Empty();
    }

    /** `handleOfflineFallback`. */
    method HandleOfflineFallback(req: Request) returns (r: Response)
      requires Valid()
      modifies this
      ensures Valid()
      ensures Outcome(r, caches, false) == OfflineFallback(old(caches), req, origin)
    {
      if req.mode == Navigate {
        caches := Open(caches, STATIC_CACHE);
        var page := Lookup(caches, STATIC_CACHE, origin + OFFLINE_PAGE);
        if page.Some? {
          return page.value;
        }
      }
      r := OFFLINE_RESPONSE;
    }

    /** `handleStaticFile`. */
    method HandleStaticFile(req: Request, net: NetOutcome) returns (r: Response, fetched: bool)
      requires Valid()
      modifies this
      ensures Valid()
      ensures Outcome(r, caches, fetched) == StaticStrategy(old(caches), req, net, origin)
    {
      caches := Open(caches, STATIC_CACHE);
      var cached := Lookup(caches, STATIC_CACHE, req.url.href);
      if cached.Some? {
        return cached.value, false;
      }
      fetched := true;
      match net {
        case Throws =>
          r := HandleOfflineFallback(req);
        case Responded(resp) =>
          if Ok(resp) {
            caches := PutIn(caches, STATIC_CACHE, req.url.href, resp);
          }
          r := resp;
      }
    }

    /** `handleCDNResource`. */
    method HandleCdnResource(req: Request, net: NetOutcome) returns (r: Response, fetched: bool)
      requires Valid()
      modifies this
      ensures Valid()
      ensures Outcome(r, caches, fetched) == CdnStrategy(old(caches), req, net)
    {
      caches := Open(caches, DYNAMIC_CACHE);
      var cached := Lookup(caches, DYNAMIC_CACHE, req.url.href);
      if cached.Some? {
        return cached.value, false;
      }
      fetched := true;
      match net {
        case Throws =>
          r := CdnPlaceholder(req.url.href);
        case Responded(resp) =>
          if Ok(resp) {
            caches := PutIn(caches, DYNAMIC_CACHE, req.url.href, resp);
          }
          r := resp;
      }
    }

    /** `handleGitHubAPI`. */
    method HandleGitHubApi(req: Request, net: NetOutcome) returns (r: Response, fetched: bool)
      requires Valid()
      modifies this
      ensures Valid()
      ensures Outcome(r, caches, fetched) == GitHubStrategy(old(caches), req, net)
    {
      caches := Open(caches, DYNAMIC_CACHE);
      fetched := true;
      match net {
        case Responded(resp) =>
          if Ok(resp) {
            caches := PutIn(caches, DYNAMIC_CACHE, req.url.href, resp);
            return resp, true;
          } else if resp.status == 403 {
            var cached := Lookup(caches, DYNAMIC_CACHE, req.url.href);
            if cached.Some? {
              return cached.value, true;
            }
          }
          r := resp;
        case Throws =>
          var cached := Lookup(caches, DYNAMIC_CACHE, req.url.href);
          if cached.Some? {
            return cached.value, true;
          }
          r := NETWORK_UNAVAILABLE;
      }
    }

    /** `handleDynamicRequest`. */
    method HandleDynamicRequest(req: Request, net: NetOutcome) returns (r: Response, fetched: bool)
      requires Valid()
      modifies this
      ensures Valid()
      ensures Outcome(r, caches, fetched) == DynamicStrategy(old(caches), req, net, origin)
    {
      caches := Open(caches, DYNAMIC_CACHE);
      fetched := true;
      match net {
        case Responded(resp) =>
          if Ok(resp) {
            caches := PutIn(caches, DYNAMIC_CACHE, req.url.href, resp);
          }
          r := resp;
        case Throws =>
          var cached := Lookup(caches, DYNAMIC_CACHE, req.url.href);
          if cached.Some? {
            return cached.value, true;
          }
          r := HandleOfflineFallback(req);
      }
    }

    /** The `fetch` listener together with `handleFetch`. */
    method OnFetch(req: Request, net: NetOutcome) returns (r: FetchResult)
      requires Valid()
      modifies this
      ensures Valid()
      ensures r == SwStrategies.OnFetch(old(caches), req, net, origin)
      ensures r.Answered? ==> r.outcome.store == caches
      ensures r.PassThrough? ==> caches == old(caches)
    {
      if !Intercepted(req) {
        return PassThrough;
      }
      var resp: Response, fetched: bool;
      match Classify(req.url, origin) {
        case StaticRoute => resp, fetched := HandleStaticFile(req, net);
        case CdnRoute => resp, fetched := HandleCdnResource(req, net);
        case GitHubRoute => resp, fetched := HandleGitHubApi(req, net);
        case DynamicRoute => resp, fetched := HandleDynamicRequest(req, net);
      }
      r := Answered(Outcome(resp, caches, fetched));
    }

    /** The static half of `install`: `cache.addAll` of the static files on the static cache. */
    method PrecacheStatic(net: string -> NetOutcome) returns (ok: bool)
      requires Valid()
      modifies this
      ensures Valid()
      ensures ok == AllSucceeded(StaticUrls(origin), net)
      ensures var s1 := Open(old(caches), STATIC_CACHE);
              caches == if ok then WithCache(s1, STATIC_CACHE, AddEach(s1.values[STATIC_CACHE], StaticUrls(origin), net)) else s1
    {
      caches := Open(caches, STATIC_CACHE);
      var added := AddAll(caches.values[STATIC_CACHE], StaticUrls(origin), net);
      if added.Some? {
        caches := WithCache(caches, STATIC_CACHE, added.value);
      }
      ok := added.Some?;
    }

    /** The CDN half of `install`: one `cache.add` per CDN resource on the dynamic cache. */
    method PrecacheCdn(net: string -> NetOutcome)
      requires Valid()
      modifies this
      ensures Valid()
      ensures var s1 := Open(old(caches), DYNAMIC_CACHE);
              caches == WithCache(s1, DYNAMIC_CACHE, AddEach(s1.values[DYNAMIC_CACHE], CDN_RESOURCES, net))
    {
      caches := Open(caches, DYNAMIC_CACHE);
      caches := WithCache(caches, DYNAMIC_CACHE, AddEach(caches.values[DYNAMIC_CACHE], CDN_RESOURCES, net));
    }

    /**
     * `install`: the static files are added all-or-nothing to the static cache,
     * each CDN resource separately to the dynamic cache; `skipWaiting` is
     * called only when the static batch succeeded.
     */
    method Install(net: string -> NetOutcome) returns (skipWaiting: bool)
      requires Valid()
      modifies this
      ensures Valid()
      ensures skipWaiting == AllSucceeded(StaticUrls(origin), net)
      ensures caches == Installed(old(caches), origin, net)
    {
      skipWaiting := PrecacheStatic(net);
      PrecacheCdn(net);
    }

    /** `activate`: every cache not named by the current version is deleted. */
    method Activate()
      requires Valid()
      modifies this
      ensures Valid()
      ensures caches.keys == Filter(old(caches).keys, IsCurrentCache)
      ensures forall n :: n in caches.values <==> n in old(caches).values && IsCurrentCache(n)
      ensures forall n :: n in caches.values ==> caches.values[n] == old(caches).values[n]
    {
      var names := caches.keys;
      ghost var s0 := caches;
      SweepStart(names, IsCurrentCache);
      for i := 0 to |names|
        invariant StoreValid(caches)
        invariant caches.keys == Filter(names[..i], IsCurrentCache) + names[i..]
        invariant forall n :: n in caches.values ==> n in s0.values && caches.values[n] == s0.values[n]
      {
        SweepStep(names, IsCurrentCache, i, caches.keys);
        if !IsCurrentCache(names[i]) {
          caches := DropCache(caches, names[i]);
        }
      }
      SweepDone(s0, IsCurrentCache, caches);
    }

    /** `clearAllCaches`: every cache is deleted. */
    method ClearAllCaches()
      requires Valid()
      modifies this
      ensures Valid()
      ensures caches.keys == [] && caches.values == map[]
    {
      var names := caches.keys;
      for i := 0 to |names|
        invariant StoreValid(caches)
        invariant caches.keys == names[i..]
      {
        DeleteFirst(caches);
        caches := DropCache(caches, names[i]);
      }
      assert forall n :: n !in caches.values;
    }

    /** `cachePost`: `cache.add(url)` on the dynamic cache; it fails unless the response is ok. */
    method CachePost(url: string, net: NetOutcome) returns (success: bool)
      requires Valid()
      modifies this
      ensures Valid()
      ensures success == Succeeded(net)
      ensures success ==> caches == PutIn(Open(old(caches), DYNAMIC_CACHE), DYNAMIC_CACHE, url, net.response)
      ensures !success ==> caches == Open(old(caches), DYNAMIC_CACHE)
    {
      caches := Open(caches, DYNAMIC_CACHE);
      success := Succeeded(net);
      if success {
        caches := PutIn(caches, DYNAMIC_CACHE, url, net.response);
      }
    }

    /** `getCacheInfo`: one report per cache, in the order of `caches.keys()`. */
    method GetCacheInfo() returns (info: seq<CacheInfo>)
      requires Valid()
      ensures |info| == |caches.keys|
      ensures forall i :: 0 <= i < |info| ==> info[i] == Summary(caches.keys[i], caches.values[caches.keys[i]])
    {
      var names := caches.keys;
      info := [];
      for i := 0 to |names|
        invariant |info| == i
        invariant forall j :: 0 <= j < i ==> info[j] == Summary(names[j], caches.values[names[j]])
      {
        // `caches.open(name)` finds the existing cache: the store is not changed.
        var p := caches.values[names[i]];
        info := info + [Summary(names[i], p)];
      }
    }

    /** `cleanupOldCache`: entries of the dynamic cache dated more than seven days before `now` are deleted. */
    method CleanupOldCache(now: int)
      requires Valid()
      modifies this
      ensures Valid()
      ensures var s1 := Open(old(caches), DYNAMIC_CACHE);
              DYNAMIC_CACHE in caches.values &&
              caches == WithCache(s1, DYNAMIC_CACHE, caches.values[DYNAMIC_CACHE]) &&
              Swept(s1.values[DYNAMIC_CACHE], now, caches.values[DYNAMIC_CACHE])
    {
      caches := Open(caches, DYNAMIC_CACHE);
      var d := DropExpired(caches.values[DYNAMIC_CACHE], now);
      caches := WithCache(caches, DYNAMIC_CACHE, d);
    }

    /** The `message` listener: the effect of each recognised action. */
    method OnMessage(msg: Message, net: NetOutcome) returns (reply: Reply)
      requires Valid()
      modifies this
      ensures Valid()
      ensures msg.action == "SKIP_WAITING" ==> reply == SkipWaiting && caches == old(caches)
      ensures msg.action == "CLEAR_CACHE" ==> reply == Posted(true, []) && caches.keys == []
      ensures msg.action == "CACHE_POST" && msg.url.Some? && msg.url.value != "" ==>
                reply == Posted(Succeeded(net), []) &&
                caches == if Succeeded(net) then PutIn(Open(old(caches), DYNAMIC_CACHE), DYNAMIC_CACHE, msg.url.value, net.response)
                          else Open(old(caches), DYNAMIC_CACHE)
      ensures msg.action == "CACHE_POST" && (msg.url.None? || msg.url.value == "") ==>
                reply == NoReply && caches == old(caches)
      ensures msg.action == "GET_CACHE_INFO" ==>
                caches == old(caches) && reply.Posted? && reply.success && |reply.info| == |caches.keys|
      ensures msg.action !in {"SKIP_WAITING", "CLEAR_CACHE", "CACHE_POST", "GET_CACHE_INFO"} ==>
                reply == NoReply && caches == old(caches)
    {
      match msg.action {
        case "SKIP_WAITING" =>
          reply := SkipWaiting;
        case "CLEAR_CACHE" =>
          ClearAllCaches();
          reply := Posted(true, []);
        case "CACHE_POST" =>
          if msg.url.Some? && msg.url.value != "" {
            var ok := CachePost(msg.url.value, net);
            reply := Posted(ok, []);
          } else {
            reply := NoReply;
          }
        case "GET_CACHE_INFO" =>
          var info := GetCacheInfo();
          reply := Posted(true, info);
        case _ =>
          reply := NoReply;
      }
    }

    /** `doBackgroundSync`: an ok response for the post listing is written to the dynamic cache. */
    method BackgroundSync(net: NetOutcome)
      requires Valid()
      modifies this
      ensures Valid()
      ensures Succeeded(net) ==>
                caches == PutIn(Open(old(caches), DYNAMIC_CACHE), DYNAMIC_CACHE, GITHUB_LISTING_URL, net.response)
      ensures !Succeeded(net) ==> caches == old(caches)
    {
      if Succeeded(net) {
        caches := Open(caches, DYNAMIC_CACHE);
        caches := PutIn(caches, DYNAMIC_CACHE, GITHUB_LISTING_URL, net.response);
      }
    }
  }

  /** `d` is `d0` without its entries expired at `now`, the rest in their old order. */
  ghost predicate Swept(d0: Partition, now: int, d: Partition) {
    d.Valid() &&
    d.keys == Filter(d0.keys, Fresh(d0, now)) &&
    (forall u :: u in d.values <==> u in d0.values && !Expired(d0.values[u], now)) &&
    (forall u :: u in d.values ==> d.values[u] == d0.values[u])
  }

  /** The loop of `cleanupOldCache`: each listed request whose response has expired is deleted in turn. */
  method DropExpired(d0: Partition, now: int) returns (d: Partition)
    requires d0.Valid()
    ensures Swept(d0, now, d)
  {
    var requests := d0.keys;
    d := d0;
    SweepStart(requests, Fresh(d0, now));
    for i := 0 to |requests|
      invariant d.Valid()
      invariant d.keys == Filter(requests[..i], Fresh(d0, now)) + requests[i..]
      invariant forall u :: u in d.values ==> u in d0.values && d.values[u] == d0.values[u]
    {
      var url := requests[i];
      SweepStep(requests, Fresh(d0, now), i, d.keys);
      var response := d.Get(url);
      if response.Some? && Expired(response.value, now) {
        d := d.Delete(url);
      }
    }
    SweepDone(d0, Fresh(d0, now), d);
  }

  /** The store after the static half of `install`. */
  function AfterStatic(s: Store, origin: string, net: string -> NetOutcome): (t: Store)
    requires StoreValid(s)
    ensures StoreValid(t) && STATIC_CACHE in t.values
  {
    var s1 := Open(s, STATIC_CACHE);
    if AllSucceeded(StaticUrls(origin), net)
    then WithCache(s1, STATIC_CACHE, AddEach(s1.values[STATIC_CACHE], StaticUrls(origin), net))
    else s1
  }

  /** The store after `install`: the static batch (if it succeeded), then the CDN adds. */
  function Installed(s: Store, origin: string, net: string -> NetOutcome): (t: Store)
    requires StoreValid(s)
    ensures StoreValid(t)
    ensures STATIC_CACHE in t.values && DYNAMIC_CACHE in t.values
  {
    var s3 := Open(AfterStatic(s, origin, net), DYNAMIC_CACHE);
    WithCache(s3, DYNAMIC_CACHE, AddEach(s3.values[DYNAMIC_CACHE], CDN_RESOURCES, net))
  }

  /** The CDN half of `install` does not touch the static cache. */
  lemma InstalledKeepsStatic(s: Store, origin: string, net: string -> NetOutcome)
    requires StoreValid(s)
    ensures Installed(s, origin, net).values[STATIC_CACHE] == AfterStatic(s, origin, net).values[STATIC_CACHE]
  {
    assert |STATIC_CACHE| != |DYNAMIC_CACHE|;
  }

  /**
   * After `install` whose static batch succeeded, every static file is cached
   * with its response; after one that failed, the static cache is as before.
   */
  lemma InstallStaticCache(s: Store, origin: string, net: string -> NetOutcome)
    requires StoreValid(s)
    ensures AllSucceeded(StaticUrls(origin), net) ==> forall i :: 0 <= i < |STATIC_FILES| ==>
              Lookup(Installed(s, origin, net), STATIC_CACHE, origin + STATIC_FILES[i]) == Some(net(origin + STATIC_FILES[i]).response)
    ensures !AllSucceeded(StaticUrls(origin), net) ==>
              Installed(s, origin, net).values[STATIC_CACHE] == Open(s, STATIC_CACHE).values[STATIC_CACHE]
  {
    InstalledKeepsStatic(s, origin, net);
    if AllSucceeded(StaticUrls(origin), net) {
      StaticFilesStored(Open(s, STATIC_CACHE).values[STATIC_CACHE], origin, net);
    }
  }

  /** After `install`, every CDN resource that answered ok is in the dynamic cache. */
  lemma InstallCdnCache(s: Store, origin: string, net: string -> NetOutcome)
    requires StoreValid(s)
    ensures forall i :: 0 <= i < |CDN_RESOURCES| && Succeeded(net(CDN_RESOURCES[i])) ==>
              Lookup(Installed(s, origin, net), DYNAMIC_CACHE, CDN_RESOURCES[i]) == Some(net(CDN_RESOURCES[i]).response)
  {
    CdnResourcesStored(Open(AfterStatic(s, origin, net), DYNAMIC_CACHE).values[DYNAMIC_CACHE], net);
  }

  /** After a successful static batch every static file is in the cache with its response. */
  lemma StaticFilesStored(p: Partition, origin: string, net: string -> NetOutcome)
    requires p.Valid() && AllSucceeded(StaticUrls(origin), net)
    ensures forall i :: 0 <= i < |STATIC_FILES| ==>
              AddEach(p, StaticUrls(origin), net).Get(origin + STATIC_FILES[i]) == Some(net(origin + STATIC_FILES[i]).response)
  {
    var urls := StaticUrls(origin);
    forall i | 0 <= i < |STATIC_FILES|
      ensures AddEach(p, urls, net).Get(origin + STATIC_FILES[i]) == Some(net(origin + STATIC_FILES[i]).response)
    {
      assert urls[i] == origin + STATIC_FILES[i];
      AddEachStores(p, urls, net, urls[i]);
    }
  }

  /** Every CDN resource that answered ok is in the cache with its response. */
  lemma CdnResourcesStored(p: Partition, net: string -> NetOutcome)
    requires p.Valid()
    ensures forall i :: 0 <= i < |CDN_RESOURCES| && Succeeded(net(CDN_RESOURCES[i])) ==>
              AddEach(p, CDN_RESOURCES, net).Get(CDN_RESOURCES[i]) == Some(net(CDN_RESOURCES[i]).response)
  {
    forall i | 0 <= i < |CDN_RESOURCES| && Succeeded(net(CDN_RESOURCES[i]))
      ensures AddEach(p, CDN_RESOURCES, net).Get(CDN_RESOURCES[i]) == Some(net(CDN_RESOURCES[i]).response)
    {
      AddEachStores(p, CDN_RESOURCES, net, CDN_RESOURCES[i]);
    }
  }

  /** `activate` keeps each of the three current caches that exists, with its entries. */
  lemma ActivateKeepsCurrent(before: Store, after: Store, name: string)
    requires forall n :: n in after.values <==> n in before.values && IsCurrentCache(n)
    requires forall n :: n in after.values ==> after.values[n] == before.values[n]
    requires name in before.values && (name == STATIC_CACHE || name == DYNAMIC_CACHE || name == CACHE_NAME)
    ensures name in after.values && after.values[name] == before.values[name]
  {
  }

  /** A cleanup keeps every entry without a `date` header and every entry at most seven days old. */
  lemma CleanupKeeps(d: Partition, now: int, url: string)
    requires url in d.values
    requires d.values[url].date.NoDate? || d.values[url].date.Unparseable? ||
             now - d.values[url].date.ms <= MAX_AGE
    ensures Fresh(d, now)(url)
  {
  }
}
