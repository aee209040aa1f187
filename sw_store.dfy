/**
 * The browser's cache storage as the service worker sees it: named caches
 * (kept in creation order, like `caches.keys()`), each an ordered map from a
 * request URL to the stored response.  The operations are the Cache API calls
 * sw.js makes: `caches.open`, `cache.match`, `cache.put`, `cache.add`,
 * `cache.addAll`, `cache.delete` and `caches.delete`.
 */
module SwCache {
  import opened Optional
  import opened Seqs
  import opened OrderedMaps

  /** The `date` header of a stored response: absent, a parsed instant (epoch ms), or unparseable. */
  datatype DateHeader = NoDate | Dated(ms: int) | Unparseable

  datatype Response = Response(status: int, statusText: string, contentType: string, body: string, date: DateHeader)

  /** `response.ok`. */
  predicate Ok(r: Response) {
    200 <= r.status <= 299
  }

  /** What one `fetch` does: it resolves with a response (of any status) or rejects. */
  datatype NetOutcome = Responded(response: Response) | Throws

  /** The outcome is a response with an ok status. */
  predicate Succeeded(n: NetOutcome) {
    n.Responded? && Ok(n.response)
  }

  /** One cache: request URL to response, in the order entries were written. */
  type Partition = OrderedMap<string, Response>

  /** All caches of the origin, by name. */
  type Store = OrderedMap<string, Partition>

  ghost predicate StoreValid(s: Store) {
    s.Valid() && forall n :: n in s.values ==> s.values[n].Valid()
  }

  /** `cache.put(url, resp)`: an earlier entry for the URL is replaced and the new one goes last. */
  function Put(p: Partition, url: string, resp: Response): (q: Partition)
    requires p.Valid()
    ensures q.Valid()
    ensures q.keys == Filter(p.keys, Other(url)) + [url]
    ensures q.values == p.values[url := resp]
  {
    p.Delete(url).Set(url, resp)
  }

  /** `cache.match(url)` on the cache `name`. */
  function Lookup(s: Store, name: string, url: string): (r: Option<Response>)
    ensures r.Some? <==> name in s.values && url in s.values[name].values
    ensures r.Some? ==> r.value == s.values[name].values[url]
  {
    if name in s.values then s.values[name].Get(url) else None
  }

  /** `caches.open(name)`: a missing cache is created empty, after the existing ones. */
  function Open(s: Store, name: string): (t: Store)
    requires StoreValid(s)
    ensures StoreValid(t)
    ensures name in t.values
    ensures name in s.values ==> t == s
    ensures name !in s.values ==> t.keys == s.keys + [name] && t.values == s.values[name := Empty()]
  {
    if name in s.values then s else s.Set(name, Empty())
  }

  /** `cache.put` on the cache `name` of the store. */
  function PutIn(s: Store, name: string, url: string, resp: Response): (t: Store)
    requires StoreValid(s) && name in s.values
    ensures StoreValid(t)
    ensures t.keys == s.keys
    ensures t.values == s.values[name := Put(s.values[name], url, resp)]
    ensures Lookup(t, name, url) == Some(resp)
  {
    s.Set(name, Put(s.values[name], url, resp))
  }

  /** `caches.delete(name)`. */
  function DropCache(s: Store, name: string): (t: Store)
    requires StoreValid(s)
    ensures StoreValid(t)
    ensures t.keys == Filter(s.keys, Other(name))
    ensures t.values == s.values - {name}
  {
    s.Delete(name)
  }

  /** The entries `cache.add` would write for each URL in turn: only ok responses are stored. */
  function AddEach(p: Partition, urls: seq<string>, net: string -> NetOutcome): (q: Partition)
    requires p.Valid()
    ensures q.Valid()
    decreases |urls|
  {
    if urls == [] then p
    else
      var u := urls[0];
      AddEach(if Succeeded(net(u)) then Put(p, u, net(u).response) else p, urls[1..], net)
  }

  /** Every URL of the request list answered with an ok response. */
  predicate AllSucceeded(urls: seq<string>, net: string -> NetOutcome) {
    forall i :: 0 <= i < |urls| ==> Succeeded(net(urls[i]))
  }

  /**
   * `cache.addAll(urls)`: all or nothing.  `None` is the rejection (some
   * response was not ok or some fetch failed), and then nothing is written.
   */
  function AddAll(p: Partition, urls: seq<string>, net: string -> NetOutcome): (r: Option<Partition>)
    requires p.Valid()
    ensures r.Some? <==> AllSucceeded(urls, net)
    ensures r.Some? ==> r.value == AddEach(p, urls, net) && r.value.Valid()
  {
    if AllSucceeded(urls, net) then Some(AddEach(p, urls, net)) else None
  }

  /** After `add` over a list, every URL of it that answered ok holds its response. */
  lemma {:induction false} AddEachStores(p: Partition, urls: seq<string>, net: string -> NetOutcome, u: string)
    requires p.Valid()
    requires u in urls && Succeeded(net(u))
    ensures AddEach(p, urls, net).Get(u) == Some(net(u).response)
    decreases |urls|
  {
    var p' := if Succeeded(net(urls[0])) then Put(p, urls[0], net(urls[0]).response) else p;
    if u in urls[1..] {
      AddEachStores(p', urls[1..], net, u);
    } else {
      AddEachKeeps(p', urls[1..], net, u);
    }
  }

  /** `add` over a list leaves the entry of any URL outside the list as it was. */
  lemma {:induction false} AddEachKeeps(p: Partition, urls: seq<string>, net: string -> NetOutcome, u: string)
    requires p.Valid()
    requires u !in urls
    ensures AddEach(p, urls, net).Get(u) == p.Get(u)
    decreases |urls|
  {
    if urls != [] {
      var p' := if Succeeded(net(urls[0])) then Put(p, urls[0], net(urls[0]).response) else p;
      AddEachKeeps(p', urls[1..], net, u);
    }
  }

  /** `add` over a list stores nothing for a URL that never answered ok. */
  lemma {:induction false} AddEachSkipsFailures(p: Partition, urls: seq<string>, net: string -> NetOutcome, u: string)
    requires p.Valid()
    requires !Succeeded(net(u))
    ensures AddEach(p, urls, net).Get(u) == p.Get(u)
    decreases |urls|
  {
    if urls != [] {
      var p' := if Succeeded(net(urls[0])) then Put(p, urls[0], net(urls[0]).response) else p;
      AddEachSkipsFailures(p', urls[1..], net, u);
    }
  }

  /** `put` then `match` on the same URL yields what was put; other URLs are untouched. */
  lemma PutThenLookup(s: Store, name: string, url: string, resp: Response, other: string, otherUrl: string)
    requires StoreValid(s) && name in s.values
    ensures Lookup(PutIn(s, name, url, resp), name, url) == Some(resp)
    ensures otherUrl != url ==> Lookup(PutIn(s, name, url, resp), name, otherUrl) == Lookup(s, name, otherUrl)
    ensures other != name ==> Lookup(PutIn(s, name, url, resp), other, otherUrl) == Lookup(s, other, otherUrl)
  {
  }

  /** Replace the cache `name` of the store by `p` (the effect of a batch of writes to it). */
  function WithCache(s: Store, name: string, p: Partition): (t: Store)
    requires StoreValid(s) && name in s.values && p.Valid()
    ensures StoreValid(t)
    ensures t.keys == s.keys
    ensures t.values == s.values[name := p]
  {
    s.Set(name, p)
  }

  /** `add` over a list extended by one URL is one more `add` after the rest. */
  lemma {:induction false} AddEachSnoc(p: Partition, urls: seq<string>, u: string, net: string -> NetOutcome)
    requires p.Valid()
    ensures AddEach(p, urls + [u], net) ==
              var q := AddEach(p, urls, net);
              if Succeeded(net(u)) then Put(q, u, net(u).response) else q
    decreases |urls|
  {
    if urls == [] {
      assert urls + [u] == [u];
    } else {
      assert (urls + [u])[0] == urls[0];
      assert (urls + [u])[1..] == urls[1..] + [u];
      var p' := if Succeeded(net(urls[0])) then Put(p, urls[0], net(urls[0]).response) else p;
      AddEachSnoc(p', urls[1..], u, net);
    }
  }
}
