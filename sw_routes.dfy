/**
 * The service worker's request classifier (sw.js): which requests it lets
 * through untouched, and which of its four caching strategies answers the rest.
 * URLs arrive already split into the components the `URL` object exposes.
 */
module SwRoutes {
  import opened JsStrings

  /** The parts of a parsed `URL` the service worker looks at. */
  datatype Url = Url(protocol: string, origin: string, hostname: string, pathname: string, href: string)

  /** `request.mode`: only navigations get the offline page. */
  datatype Mode = Navigate | SameOrigin | NoCors | Cors

  /** A request; `verb` is `request.method` (a reserved word here). */
  datatype Request = Request(verb: string, url: Url, mode: Mode)

  /** The strategy a request is routed to. */
  datatype Route = StaticRoute | CdnRoute | GitHubRoute | DynamicRoute

  const CDN_RESOURCES: seq<string> := [
    "https://cdn.tailwindcss.com/tailwind.min.js",
    "https://cdn.jsdelivr.net/npm/github-markdown-css@5.2.0/github-markdown.min.css",
    "https://cdn.jsdelivr.net/npm/prismjs@1.29.0/themes/prism-tomorrow.min.css",
    "https://cdn.jsdelivr.net/npm/katex@0.16.8/dist/katex.min.css",
    "https://cdn.jsdelivr.net/npm/marked/marked.min.js",
    "https://cdn.jsdelivr.net/npm/dompurify@3.0.6/dist/purify.min.js",
    "https://cdn.jsdelivr.net/npm/prismjs@1.29.0/components/prism-core.min.js",
    "https://cdn.jsdelivr.net/npm/prismjs@1.29.0/plugins/autoloader/prism-autoloader.min.js",
    "https://cdn.jsdelivr.net/npm/mermaid@10.6.1/dist/mermaid.min.js",
    "https://cdn.jsdelivr.net/npm/katex@0.16.8/dist/katex.min.js",
    "https://cdn.jsdelivr.net/npm/katex@0.16.8/dist/contrib/auto-render.min.js"
  ]

  /** The two GitHub patterns are anchored literals: a regex test is a prefix test. */
  const GITHUB_CONTENTS_PREFIX: string := "https://api.github.com/repos/bambans/bambans.github.io/contents/blog/posts"
  const GITHUB_RAW_PREFIX: string := "https://raw.githubusercontent.com/bambans/bambans.github.io/main/blog/posts/"

  /** The fetch listener answers only GET requests over an `http`-prefixed protocol. */
  predicate Intercepted(req: Request) {
    req.verb == "GET" && StartsWith(req.url.protocol, "http")
  }

  /** `isStaticFile`: same origin as the worker and a page, stylesheet, script or blog path. */
  predicate IsStaticFile(url: Url, selfOrigin: string) {
    url.origin == selfOrigin && (
      EndsWith(url.pathname, ".html") ||
      EndsWith(url.pathname, ".css") ||
      EndsWith(url.pathname, ".js") ||
      url.pathname == "/" ||
      url.pathname == "/blog/" ||
      (StartsWith(url.pathname, "/blog/") && !Contains(url.pathname, "posts")))
  }

  /** Some listed CDN resource (cut at its first `?`) is a prefix of `href`. */
  predicate MatchesCdnList(href: string, cdns: seq<string>) {
    exists i :: 0 <= i < |cdns| && StartsWith(href, Split(cdns[i], '?')[0])
  }

  /** `isCDNResource`. */
  predicate IsCdnResource(url: Url) {
    MatchesCdnList(url.href, CDN_RESOURCES) ||
    Contains(url.hostname, "cdn.") ||
    Contains(url.hostname, "jsdelivr.net") ||
    Contains(url.hostname, "tailwindcss.com")
  }

  /** `isGitHubAPI`. */
  predicate IsGitHubApi(url: Url) {
    StartsWith(url.href, GITHUB_CONTENTS_PREFIX) || StartsWith(url.href, GITHUB_RAW_PREFIX)
  }

  /** `handleFetch`'s dispatch: the first matching test wins, static before CDN before GitHub. */
  function Classify(url: Url, selfOrigin: string): (r: Route)
    ensures r == StaticRoute <==> IsStaticFile(url, selfOrigin)
    ensures r == CdnRoute <==> !IsStaticFile(url, selfOrigin) && IsCdnResource(url)
    ensures r == GitHubRoute <==> !IsStaticFile(url, selfOrigin) && !IsCdnResource(url) && IsGitHubApi(url)
    ensures r == DynamicRoute <==> !IsStaticFile(url, selfOrigin) && !IsCdnResource(url) && !IsGitHubApi(url)
  {
    if IsStaticFile(url, selfOrigin) then StaticRoute
    else if IsCdnResource(url) then CdnRoute
    else if IsGitHubApi(url) then GitHubRoute
    else DynamicRoute
  }

  /** `getContentType`: by the suffix of the full URL string. */
  function ContentType(href: string): (r: string)
    ensures EndsWith(href, ".css") ==> r == "text/css"
    ensures !EndsWith(href, ".css") && EndsWith(href, ".js") ==> r == "application/javascript"
    ensures !EndsWith(href, ".css") && !EndsWith(href, ".js") && EndsWith(href, ".json") ==> r == "application/json"
    ensures !EndsWith(href, ".css") && !EndsWith(href, ".js") && !EndsWith(href, ".json") ==> r == "text/plain"
  {
    if EndsWith(href, ".css") then "text/css"
    else if EndsWith(href, ".js") then "application/javascript"
    else if EndsWith(href, ".json") then "application/json"
    else "text/plain"
  }

  /** A same-origin path under `/blog/posts/` is not static unless it has a static suffix. */
  lemma PostsPathNotStatic(url: Url, selfOrigin: string, rest: string)
    requires url.pathname == "/blog/posts/" + rest
    requires !EndsWith(url.pathname, ".html") && !EndsWith(url.pathname, ".css") && !EndsWith(url.pathname, ".js")
    ensures !IsStaticFile(url, selfOrigin)
  {
    assert "/blog/posts/" + rest == "/blog/" + "posts" + ("/" + rest);
    ContainsInfix("/blog/", "posts", "/" + rest);
  }
}
