# bambans.github.io blog core, modelled in Dafny

This project models the logic of a statically hosted personal blog. The blog
reads markdown posts from a GitHub repository, renders them in the browser and
puts an offline-capable service worker in front of the network. The model covers:

- **The service worker** (`sw.js`):
  - the request classifier: static files, CDN resources, the GitHub API, and everything else;
  - the four caching strategies over named cache partitions, and the offline fallback;
  - the fetch-listener bypass rules;
  - install pre-warming and activate garbage collection;
  - the message actions (`SKIP_WAITING`, `CLEAR_CACHE`, `CACHE_POST`, `GET_CACHE_INFO`);
  - the date-based cleanup and the background sync.
- **The blog application** (`blog/js/blog-app.js`):
  - its 50-entry, five-minute in-memory cache;
  - the post list built from the GitHub contents listing (`.md` files, `README.md` first, then descending by name);
  - titles and file sizes;
  - the search and tag filter, and the list the sidebar shows;
  - previous/next navigation;
  - tag extraction;
  - the loading of one post.
- **The markdown renderer** (`blog/js/markdown-renderer.js`):
  - frontmatter parsing;
  - word count and reading time;
  - the 32-bit `simpleHash` and `getCacheKey`;
  - the 50-entry cache kept by `render`, with the markdown engine passed in as a function.
- **The utilities** (`js/blog-utils.js`):
  - the second frontmatter parser, with bracketed list values;
  - reading time and excerpt truncation;
  - slugs, search, regular-expression escaping and GitHub URLs;
  - the GitHub error classifier and the average load time.
- **The Mermaid handler** (`blog/js/mermaid-handler.js`):
  - which code blocks count as charts;
  - the journey-map normaliser `preprocessDefinition`, proved idempotent;
  - element collection;
  - the render queue that holds charts back until the library is initialised.
- **The site script** (`js/main.js`): the rolling 50-entry interaction log in `localStorage`.
- **The older blog page script** (`blog/js/main.js`): how `fetchPosts` builds its list and picks the post it opens.

### How the model is built

The cache store, application state, renderer cache, Mermaid queue and interaction log are classes. Their methods update fields, and each method is proved against value-level specification functions, and the properties are proved about those functions.

External inputs are parameters:
- The network is a `NetOutcome`: a response of any status, or a thrown error.
- `Date.now()` is a parameter `now`.
- `querySelectorAll` and `textContent` are functions passed in.

A JavaScript `Map` keeps a key at its first insertion position. Both in-memory caches and the Cache API partitions are therefore `OrderedMaps.OrderedMap`, a key sequence plus a `map`.

### What the service worker does not do

- No request has a timeout: each strategy awaits `fetch` directly (`sw.js:153`, `196`, `236`).
- Requests outside the static, CDN and GitHub classes are fetched network-first, falling back to the cache only when the fetch throws (`sw.js:232-252`).
- No cache has an entry bound; only the in-memory caches of the page scripts are limited to 50 entries.
- `cleanupOldCache` reads an entry's age from the response's own `date` header (`sw.js:387-391`); the worker adds no header of its own.

### Behaviour of the code as written that the contracts state

- `generateSlug` ends with `.trim('-')`. This is `String.prototype.trim`, which ignores its argument, so leading and trailing hyphens stay: `BlogUtils.SlugKeepsEdgeHyphens` shows `" A "` becomes `"-a-"`.
- `BlogUtils.calculateReadingTime` counts the `\s+` pieces of the trimmed text, so a text without words counts as one word and one minute.
- `MarkdownRenderer.calculateReadingTime` gives 0 minutes for it.
- `getCacheKey` stores only lengths and hashes, so different contents can share a key and then share rendered HTML: `"Aa"` and `"BB"` do (`MarkdownRenderer.CacheKeyCollision`).
- `setCache` on a full cache evicts the oldest key even when the key being set is already present. When that key is present and is not the oldest, the cache then holds 49 entries (`BlogApp.FullCacheEvictsPresentKey`).
- Post objects built by `loadPosts` have no `tags` field. A selected tag in `updateFilteredPosts` therefore excludes every post.
- In `extractTags` the greedy `\s*` of `/tags:\s*(.+)/` runs over line ends. An empty `tags:` line takes the next line as its tags (`BlogPosts.TagsCaptureCrossesLines`).
- The `try`/`catch` in `handleFetch` never catches a strategy's failure, because the strategy's promise is returned, not awaited. Each strategy handles its own errors, so the model has no catch path.

## Model

| member | source | states |
|---|---|---|
| SwRoutes.Classify | sw.js:123-141 | Exactly one route per request, with precedence static, then CDN, then GitHub API, then dynamic; each route holds exactly when its own test holds and no earlier one does (each direction of the four if-and-only-ifs) |
| SwRoutes.ContentType | sw.js:298-303 | `.css` gives text/css, else `.js` gives application/javascript, else `.json` gives application/json, else text/plain, by the suffix of the full URL |
| SwRoutes.PostsPathNotStatic | sw.js:276-285 | A same-origin `/blog/posts/...` path without an `.html`, `.css` or `.js` suffix is not a static file |
| SwCache.Put | sw.js:155-157 | `cache.put` replaces any earlier entry for the URL, puts the URL last and keeps the key order valid |
| SwCache.Lookup | sw.js:146 | `cache.match` finds an entry exactly when the cache exists and holds the URL, and returns that entry |
| SwCache.Open | sw.js:145 | `caches.open` leaves an existing cache alone and creates a missing one empty, after the existing caches |
| SwCache.PutIn | sw.js:155-157 | A write to one cache keeps the cache names and makes the URL match the written response |
| SwCache.DropCache | sw.js:94 | `caches.delete` removes exactly that name, keeping the other caches in order |
| SwCache.AddAll | sw.js:51-53 | `addAll` succeeds exactly when every URL answers ok, and only then writes the entries |
| SwCache.AddEachStores | sw.js:57-67 | After adding a list, every URL of it that answered ok is stored with its response |
| SwCache.AddEachKeeps | sw.js:57-67 | Adding a list leaves the entry of a URL outside it as it was |
| SwCache.AddEachSkipsFailures | sw.js:57-67 | A URL that did not answer ok gets no entry from adding a list |
| SwCache.AddEachSnoc | sw.js:57-67 | Adding a list with one more URL at the end is one more add after the rest |
| SwCache.PutThenLookup | sw.js:155-157 | After a put, a match on the same URL gives the response; other URLs and other caches are unchanged |
| SwCache.WithCache | sw.js:51-53 | Replacing one cache's contents keeps the cache names |
| SwStrategies.CdnPlaceholder | sw.js:182-188 | The placeholder is status 200 with body `/* CDN resource unavailable */`, typed by the URL's suffix |
| SwStrategies.OfflineFallback | sw.js:255-273 | A navigation gets the cached offline page when there is one; everything else gets the fixed 503 text response; it never fetches |
| SwStrategies.StaticStrategy | sw.js:144-161 | Cache first: a hit is returned, the store unchanged and no fetch; on a miss an ok response is stored and returned, a non-ok one returned unstored, and a thrown fetch gets the offline fallback |
| SwStrategies.CdnStrategy | sw.js:164-189 | Cache first in the dynamic cache; on a miss an ok response is stored, a non-ok one returned unstored, a thrown fetch gets the typed 200 placeholder |
| SwStrategies.GitHubStrategy | sw.js:192-229 | Network first: ok is stored and returned; a 403 with a cached copy returns the copy; other errors, or a 403 without a copy, return the response and store nothing; a thrown fetch returns the copy, else the 503 JSON error |
| SwStrategies.DynamicStrategy | sw.js:232-252 | Network first: any response is returned, ok ones stored; a thrown fetch returns the cached copy, else the offline fallback |
| SwStrategies.HandleFetch | sw.js:123-141 | The answer is the strategy of the request's route |
| SwStrategies.OnFetch | sw.js:106-121 | A request is passed through exactly when it is not GET or its protocol does not start with `http`; otherwise `handleFetch` answers it |
| SwStrategies.HandleFetchKeepsCaches | sw.js:123-252 | No strategy deletes a cache |
| SwStrategies.StaticStoredThenHit | sw.js:144-161 | A static file stored after an ok response is served next time from the cache without the network |
| SwStrategies.StaticHitIgnoresNetwork | sw.js:146-150 | On a static cache hit the result does not depend on the network |
| SwStrategies.GitHubFallsBackToLastGood | sw.js:196-220 | After an ok GitHub response, a later 403 or network failure is answered with it |
| SwStrategies.GitHubPassesOtherErrors | sw.js:196-210 | A GitHub status that is neither ok nor 403 is passed on, and nothing is stored |
| SwStrategies.DynamicOfflineServesLastGood | sw.js:232-252 | A dynamic response stored online is served once the network fails |
| SwStrategies.OfflineFallbackShape | sw.js:255-273 | The fallback is the stored offline page or the fixed 503 |
| ServiceWorker.StaticUrls | sw.js:9-19 | The pre-cached URLs are the static paths under the worker's origin, in order |
| ServiceWorker.Summary | sw.js:362-365 | A cache report carries the cache's entry count and its first ten URLs, at most ten |
| ServiceWorker.Worker.constructor | sw.js:1-6 | A fresh worker has an empty cache store |
| ServiceWorker.Worker.HandleOfflineFallback | sw.js:255-273 | The method's response and new store are those of `OfflineFallback` |
| ServiceWorker.Worker.HandleStaticFile | sw.js:144-161 | The method performs `StaticStrategy`: the same response, store and fetch flag |
| ServiceWorker.Worker.HandleCdnResource | sw.js:164-189 | The method performs `CdnStrategy` |
| ServiceWorker.Worker.HandleGitHubApi | sw.js:192-229 | The method performs `GitHubStrategy` |
| ServiceWorker.Worker.HandleDynamicRequest | sw.js:232-252 | The method performs `DynamicStrategy` |
| ServiceWorker.Worker.OnFetch | sw.js:106-141 | The listener performs `SwStrategies.OnFetch`; a passed-through request leaves the store unchanged |
| ServiceWorker.Worker.PrecacheStatic | sw.js:49-54 | The static batch succeeds exactly when every static file answers ok, and only then are they all written |
| ServiceWorker.Worker.PrecacheCdn | sw.js:56-68 | Each CDN resource is added on its own to the dynamic cache |
| ServiceWorker.Worker.Install | sw.js:44-79 | `skipWaiting` runs exactly when the static batch succeeded; the store becomes `Installed` |
| ServiceWorker.Worker.Activate | sw.js:82-103 | Exactly the caches not named by the current version are deleted; the three current ones are kept with their entries, in their old order |
| ServiceWorker.Worker.ClearAllCaches | sw.js:343-347 | No cache is left, whatever the store held, so a second call also ends with none |
| ServiceWorker.Worker.CachePost | sw.js:349-353 | `cache.add` succeeds exactly when the response is ok, and only then writes it to the dynamic cache |
| ServiceWorker.Worker.GetCacheInfo | sw.js:355-369 | One report per cache, in the order of `caches.keys()`, each with its count and first ten URLs |
| ServiceWorker.Worker.CleanupOldCache | sw.js:378-397 | The dynamic cache loses exactly its entries dated more than seven days before `now`; the others stay in order |
| ServiceWorker.Worker.OnMessage | sw.js:306-340 | The effect and reply of each message action; a `CACHE_POST` without a URL and an unknown action do nothing |
| ServiceWorker.Worker.BackgroundSync | sw.js:406-418 | An ok listing response is written to the dynamic cache; otherwise nothing changes |
| ServiceWorker.DropExpired | sw.js:385-396 | The loop deletes each expired entry in turn and ends with exactly the fresh entries |
| ServiceWorker.AfterStatic | sw.js:49-54 | The static cache exists after the static half of install |
| ServiceWorker.Installed | sw.js:44-79 | Both current caches exist after install |
| ServiceWorker.InstalledKeepsStatic | sw.js:56-68 | The CDN half of install does not touch the static cache |
| ServiceWorker.InstallStaticCache | sw.js:49-54 | After install with a successful static batch, every static file is cached with its response; after a failed one the static cache is as before |
| ServiceWorker.InstallCdnCache | sw.js:56-68 | After install every CDN resource that answered ok is in the dynamic cache |
| ServiceWorker.StaticFilesStored | sw.js:51-53 | A successful static batch stores every static file |
| ServiceWorker.CdnResourcesStored | sw.js:58-66 | Every CDN resource that answered ok is stored |
| ServiceWorker.ActivateKeepsCurrent | sw.js:88-93 | Each current cache that existed survives activate with its entries |
| ServiceWorker.CleanupKeeps | sw.js:387-393 | An entry without a `date` header, or at most seven days old, survives cleanup |
| OrderedMaps.OrderedMap.Get | blog/js/blog-app.js:550-553 | `Map.get` is present exactly for a present key, with its value |
| OrderedMaps.OrderedMap.Set | blog/js/blog-app.js:547 | `Map.set` makes the key map to the value; a new key goes last, a present key keeps its place |
| OrderedMaps.OrderedMap.Delete | blog/js/blog-app.js:544-545 | `Map.delete` removes just that key, keeping the order of the rest |
| OrderedMaps.SizeIsCardinality | blog/js/blog-app.js:543 | `Map.size` is the number of entries |
| OrderedMaps.DeleteFirst | blog/js/blog-app.js:544-545 | Deleting the oldest key drops exactly the first key of the order |
| OrderedMaps.SetThenGet | blog/js/blog-app.js:542-560 | After `set(k, v)`, `get(k)` is `v`, other keys are untouched, and the size grows only for a new key |
| OrderedMaps.SweepStep | sw.js:385-396 | Walking a key snapshot and deleting rejected keys: after `i` steps, the kept visited keys then the unvisited ones |
| OrderedMaps.SweepDone | sw.js:385-396 | The sweep ends with exactly the kept keys, in their old order |
| BlogApp.CacheSet | blog/js/blog-app.js:542-548 | The size never exceeds 50; the key then maps to the entry; at 50 entries the oldest key goes even when the key is present; no other entry changes; the key order afterwards is given in both cases (a present key keeps its place, a new key goes last), so the next eviction is again the oldest |
| BlogApp.FullCacheEvictsPresentKey | blog/js/blog-app.js:542-548 | Setting a present key other than the oldest in a full cache leaves 49 entries |
| BlogApp.CacheGet | blog/js/blog-app.js:550-560 | A missing key gives nothing; an entry older than five minutes is deleted and gives nothing; one exactly at five minutes is served |
| BlogApp.CacheSetThenGet | blog/js/blog-app.js:542-560 | A value set at `t` reads back until `t` plus five minutes inclusive, and after that is gone for good |
| BlogApp.CacheSetTyped | blog/js/blog-app.js:542-548 | Storing a post list only under `posts-list` and posts only under their own keys keeps the whole cache typed that way |
| BlogApp.PostKey | blog/js/blog-app.js:274 | A post's cache key never collides with the post-list key |
| BlogApp.UnionUpToMembers | blog/js/blog-app.js:149-164 | A tag is in the union of the first `n` tag sets exactly when one of them holds it |
| BlogApp.TagsUpToMembers | blog/js/blog-app.js:146-167 | A tag is gathered exactly when one of the first `n` post texts yields it |
| BlogApp.App.constructor | blog/js/blog-app.js:5-28 | A fresh application has no posts, no current post, empty filters, an empty cache and no tags |
| BlogApp.App.SetCache | blog/js/blog-app.js:542-548 | The cache becomes `CacheSet` of the old cache; nothing else changes |
| BlogApp.App.GetFromCache | blog/js/blog-app.js:550-560 | The result and the new cache are `CacheGet`'s; nothing else changes |
| BlogApp.App.UpdateFilteredPosts | blog/js/blog-app.js:211-222 | The sidebar list becomes `FilteredPosts` of the posts, query and tag |
| BlogApp.App.HandleSearch | blog/js/blog-app.js:179-187 | The query is stored lower-cased and the list refiltered |
| BlogApp.App.HandleTagFilter | blog/js/blog-app.js:189-193 | The tag is stored and the list refiltered; a non-empty tag empties it |
| BlogApp.App.ClearSearch | blog/js/blog-app.js:195-209 | Both filters are cleared and every post is listed again |
| BlogApp.App.ExtractTags | blog/js/blog-app.js:146-167 | The tag set becomes the tags of the first ten posts' texts, and nothing else |
| BlogApp.App.LoadPosts | blog/js/blog-app.js:98-144 | A cached list is used as it is; otherwise a good listing is filtered, sorted, cached, scanned and filtered, and a failed one gives its message and changes no posts |
| BlogApp.App.LoadPost | blog/js/blog-app.js:270-323 | `PostLoad`: a cached post becomes current; otherwise a loaded post is cached and made current, and a failure gives the message naming the post and keeps the current post |
| BlogApp.App.NavigatePost | blog/js/blog-app.js:438-447 | The post loaded is the neighbour at the current index plus the direction, only when that lies inside the list; the current post, the cache and the message are then exactly what `loadPost` gives for it (`PostLoad`), and without a neighbour nothing changes |
| BlogPosts.FormatTitle | blog/js/blog-app.js:562-564 | One trailing `.md` is removed and every `-` and `_` becomes a space, position by position |
| BlogPosts.FormatTitleStripsOnce | blog/js/blog-app.js:562-564 | Only one `.md` is removed |
| BlogPosts.FormatFileSize | blog/js/blog-app.js:566-570 | Below 1024 bytes in B, below 1048576 in rounded KB, otherwise in rounded MB |
| BlogPosts.FileSizeKilobytes | blog/js/blog-app.js:566-570 | The KB figure lies in 1..1024, and is 1024 from 1048064 bytes on |
| BlogPosts.FileSizeMegabytes | blog/js/blog-app.js:566-570 | The MB figure is at least 1 |
| BlogPosts.ToPosts | blog/js/blog-app.js:126-132 | One post object per file, with its formatted title |
| BlogPosts.ToPostsPermutation | blog/js/blog-app.js:119-132 | Rearranging the files rearranges their posts the same way |
| BlogPosts.ToPostsRemove | blog/js/blog-app.js:126-132 | Taking one file out takes its post out |
| BlogPosts.PostsFromListing | blog/js/blog-app.js:119-132 | The posts are exactly the `.md` files (as a permutation), ordered `README.md` first and then descending by name |
| BlogPosts.ReadmeFirst | blog/js/blog-app.js:121-125 | A listed `README.md` is the first post |
| BlogPosts.FilteredPosts | blog/js/blog-app.js:211-222 | An order-preserving subsequence holding exactly the posts whose lower-cased title or name contains the query; all posts with both filters empty; none with a tag selected |
| BlogPosts.FilteredCases | blog/js/blog-app.js:211-222 | Both filters empty keep every post; a selected tag keeps none |
| BlogPosts.RenderPostsList | blog/js/blog-app.js:224-250 | The filtered posts when there are any, else all posts; the empty state only when both are empty, with its message chosen by the filters |
| BlogPosts.EmptyOnlyWithoutPosts | blog/js/blog-app.js:211-250 | The sidebar is empty only without posts, and a search matching nothing shows every post |
| BlogPosts.FindIndex | blog/js/blog-app.js:416 | The index of the first post with the name, or -1 when none has it |
| BlogPosts.NavigateTarget | blog/js/blog-app.js:438-447 | A neighbour exists exactly when index plus direction lies in the list, and it is that index |
| BlogPosts.Navigation | blog/js/blog-app.js:413-436 | Previous is enabled exactly when the index is above 0; next exactly when it is below the last index |
| BlogPosts.NavigationAgrees | blog/js/blog-app.js:413-447 | For a listed post each button is enabled exactly when navigating that way loads a post |
| BlogPosts.UnlistedCurrentPost | blog/js/blog-app.js:413-447 | A current post missing from the list counts as index -1: next is enabled and loads the first post |
| BlogPosts.DefaultPost | blog/js/blog-app.js:262-268 | `README.md` when listed, else the first post, and nothing without posts |
| BlogPosts.DefaultIsFirst | blog/js/blog-app.js:262-268 | For the list `loadPosts` builds, the default post is the first |
| BlogPosts.CleanTag | blog/js/blog-app.js:158 | Cleaning a tag adds no characters |
| BlogPosts.TagItems | blog/js/blog-app.js:158 | One cleaned item per comma-separated piece, none holding a comma |
| BlogPosts.CleanPlainTag | blog/js/blog-app.js:158 | A trimmed, comma-free, unbracketed tag is its own cleaned form |
| BlogPosts.TagItemsJoin | blog/js/blog-app.js:158 | Tags written comma-separated are read back as they were |
| BlogPosts.PostTags | blog/js/blog-app.js:395-411 | Nothing without `tags` metadata; otherwise the non-empty cleaned items, in order |
| BlogPosts.PostTagsKeepsItems | blog/js/blog-app.js:395-411 | Every non-empty item of the `tags` metadata is shown |
| BlogPosts.PostTagsCounts | blog/js/blog-app.js:395-411 | A non-empty item is shown exactly as many times as it occurs in the `tags` metadata, so repeated tags stay repeated |
| BlogPosts.LineLen | blog/js/blog-app.js:156 | The leading run that `.+` takes stops at the first line terminator |
| BlogPosts.LastNonTerminator | blog/js/blog-app.js:156 | The last character that is not a line terminator, or -1 |
| BlogPosts.TagsCapture | blog/js/blog-app.js:156 | No capture without `tags:`; a capture is non-empty and holds no line terminator |
| BlogPosts.TagsCaptureLine | blog/js/blog-app.js:156 | `tags: value` captures the value up to its line end |
| BlogPosts.TagsCaptureCrossesLines | blog/js/blog-app.js:156 | An empty `tags:` line captures the next line |
| BlogPosts.ExtractedTagsShape | blog/js/blog-app.js:153-160 | No frontmatter block, or no `tags:` in it, gives no tags; no tag holds a comma |
| BlogPosts.FetchPostData | blog/js/blog-app.js:276-305 | An unlisted post, a failed fetch, a non-ok response and blank content each give their error; otherwise the post with the parsed body and metadata |
| Listing.Insert | blog/js/blog-app.js:121-125 | Inserting adds exactly one element |
| Listing.Sort | blog/js/blog-app.js:121-125 | The sort is a permutation |
| Listing.SortSorted | blog/js/blog-app.js:121-125 | The sort result is ordered by the comparator |
| Listing.InsertSorted | blog/js/blog-app.js:121-125 | Inserting into an ordered list keeps it ordered |
| Listing.LessIrreflexive | blog/js/blog-app.js:124 | No name sorts before itself |
| Listing.LessTransitive | blog/js/blog-app.js:124 | Name order is transitive |
| Listing.LessTotal | blog/js/blog-app.js:124 | Of two different names one sorts first |
| Listing.LessAsymmetric | blog/js/blog-app.js:124 | Name order is asymmetric |
| Listing.AheadAsymmetric | blog/js/blog-app.js:121-125 | The comparator never puts each of two names before the other |
| Listing.NotAheadTransitive | blog/js/blog-app.js:121-125 | Both comparators are strict weak orders |
| Listing.ReadmeLeads | blog/js/blog-app.js:122-123 | In README-first order a listing holding `README.md` starts with it |
| Listing.ReadmeRestDescending | blog/js/blog-app.js:124 | Apart from `README.md` the order is descending by name |
| Frontmatter.FirstAt | blog/js/markdown-renderer.js:73 | The first occurrence from a position, or -1 when there is none |
| Frontmatter.Delimit | blog/js/markdown-renderer.js:73-75 | A block exists exactly when the text opens with `---` and a closing delimiter follows; the text is the opening, the block, the first closing delimiter and the body |
| Frontmatter.Match | blog/js/markdown-renderer.js:73-75 | The match of the frontmatter pattern with `\n---\n` as the closing |
| Frontmatter.LooseBlock | blog/js/blog-app.js:154 | The block of `/^---\n([\s\S]*?)\n---/`: present exactly when opened and closed |
| Frontmatter.MatchCompose | blog/js/markdown-renderer.js:72-93 | A block without `\n---\n` in it is read back with its body |
| Frontmatter.StripEnds | blog/js/blog-app.js:158 | At most the first and the last character are removed, each only when in its class |
| Frontmatter.StripQuotes | blog/js/markdown-renderer.js:83 | One quote is removed from each end that has one |
| Frontmatter.SplitAtFirstColon | blog/js/markdown-renderer.js:81-83 | `split(':')` gives the text before the first colon, and the rest rejoined with `:` |
| Frontmatter.MetaEntry | blog/js/markdown-renderer.js:81-85 | A line counts exactly when its first colon is past index 0; the key is trimmed, the value trimmed and quote-stripped |
| Frontmatter.AssignLast | blog/js/markdown-renderer.js:80-86 | A key's value is the one of the last entry that sets it |
| Frontmatter.AssignUnset | blog/js/markdown-renderer.js:80-86 | A key no entry sets is absent |
| Frontmatter.AssignMapped | js/blog-utils.js:45-58 | Entries with values passed through a function build the same keys, with values passed through it |
| Frontmatter.Entries | blog/js/markdown-renderer.js:80 | One entry per frontmatter line |
| Frontmatter.MetadataLast | blog/js/markdown-renderer.js:80-86 | A key's value is given by the last line that sets it |
| Frontmatter.MetadataUnset | blog/js/markdown-renderer.js:80-86 | A key no line sets is absent |
| Frontmatter.ParseFrontmatter | blog/js/markdown-renderer.js:72-93 | Without a match, empty metadata and the whole content as body; with one, the body after the first closing and the metadata of its lines |
| Frontmatter.NoOpeningLine | blog/js/markdown-renderer.js:90-92 | Content not opening with `---` keeps its whole text as body |
| Frontmatter.ItemsOf | js/blog-utils.js:53 | One trimmed, quote-stripped item per comma-separated piece |
| Frontmatter.BracketedIsStartsEnds | js/blog-utils.js:52 | The list test is starts-with `[` and ends-with `]` |
| Frontmatter.UtilsEntry | js/blog-utils.js:45-58 | The same lines count with the same keys and texts as in the renderer, except that a bracketed text becomes its item list |
| Frontmatter.UtilsMetadataAgrees | js/blog-utils.js:45-58 | Both parsers see the same keys; each value is the renderer's text or its item list |
| Frontmatter.UtilsParseFrontmatter | js/blog-utils.js:34-61 | Without a match, the content unchanged and an empty object; with one, the same body as the renderer |
| Frontmatter.UtilsParseAgrees | js/blog-utils.js:34-61 | The two parsers agree on keys and body, and on every value up to list conversion |
| MarkdownRenderer.GetWordCount | blog/js/markdown-renderer.js:351-353 | The number of whitespace-separated words; 0 exactly for whitespace-only text |
| MarkdownRenderer.CalculateReadingTime | blog/js/markdown-renderer.js:341-344 | `ceil(words / 200)`; 0 exactly for whitespace-only text |
| MarkdownRenderer.Wrap32 | blog/js/markdown-renderer.js:403 | `ToInt32`: the signed 32-bit value congruent to the input modulo 2^32 |
| MarkdownRenderer.Wrap32Congruent | blog/js/markdown-renderer.js:403 | Congruent numbers wrap to the same value |
| MarkdownRenderer.HashRoundIsMul31 | blog/js/markdown-renderer.js:401-403 | One round of the loop is `h := ToInt32(31 * h + code)` |
| MarkdownRenderer.HashState | blog/js/markdown-renderer.js:398-406 | The hash state is always a signed 32-bit value |
| MarkdownRenderer.Hash | blog/js/markdown-renderer.js:398-406 | The hash lies in 0..2^31 and is 0 for the empty string |
| MarkdownRenderer.SimpleHash | blog/js/markdown-renderer.js:398-406 | The loop computes `Hash`, within 0..2^31 |
| MarkdownRenderer.CacheKeyDetermines | blog/js/markdown-renderer.js:388-391 | Equal keys mean equal content lengths and equal hashes of content and options |
| MarkdownRenderer.DashedThree | blog/js/markdown-renderer.js:390 | Three dash-free fields joined by dashes are read back one by one |
| MarkdownRenderer.SepCut | blog/js/markdown-renderer.js:390 | The first separator cuts two equal strings at the same place |
| MarkdownRenderer.CacheKeyCollision | blog/js/markdown-renderer.js:388-391 | `"Aa"` and `"BB"` get the same key |
| MarkdownRenderer.Admit | blog/js/markdown-renderer.js:136-142 | A new key is set last; past 50 entries the oldest key is dropped |
| MarkdownRenderer.RenderStep | blog/js/markdown-renderer.js:101-150 | A hit returns the stored markup without rendering; a missing library or an engine error gives the error markup and caches nothing; a success is returned and admitted |
| MarkdownRenderer.RenderTwice | blog/js/markdown-renderer.js:101-107 | A second render of the same input is answered from the cache with the same markup |
| MarkdownRenderer.ErrorsNotCached | blog/js/markdown-renderer.js:145-149 | A failed render leaves its key uncached |
| MarkdownRenderer.Renderer.constructor | blog/js/markdown-renderer.js:17 | The cache starts empty |
| MarkdownRenderer.Renderer.Render | blog/js/markdown-renderer.js:101-150 | The method's markup and new cache are those of `RenderStep` on the key of the content and options |
| MarkdownRenderer.Renderer.ClearCache | blog/js/markdown-renderer.js:411-413 | The cache is emptied |
| BlogUtils.CalculateReadingTime | js/blog-utils.js:64-72 | `words` is the word count, or 1 for a text without words; minutes is `ceil(words / 200)`, at least 1; `formatted` is `<minutes> min read` |
| BlogUtils.TruncateExcerpt | js/blog-utils.js:104-106 | The cleaned text when it fits, else its first `maxLength` characters and `...`; never longer than `maxLength + 3` |
| BlogUtils.RunLen | js/blog-utils.js:113-114 | The leading run of a character class ends at the first character outside it |
| BlogUtils.CollapseRuns | js/blog-utils.js:113-114 | Each run becomes the replacement, which never repeats when it is in the class; other characters pass through |
| BlogUtils.CollapseRunsPassesThrough | js/blog-utils.js:113-114 | Every character outside the class passes through in order: the characters of the result other than the replacement are exactly those of the input that are neither in the class nor the replacement |
| BlogUtils.GenerateSlug | js/blog-utils.js:110-117 | The slug holds only `a-z`, `0-9` and `-`, with no two hyphens in a row, and apart from its hyphens it is exactly the ASCII letters and digits of the lower-cased title, in order |
| BlogUtils.CollapsedIsSlug | js/blog-utils.js:110-117 | After both collapses only slug characters are left, none of them whitespace, so the final trim keeps them |
| BlogUtils.SlugLettersAndDigits | js/blog-utils.js:112-116 | The slug pipeline keeps, besides hyphens, exactly the letters and digits of its lower-cased input, in order |
| BlogUtils.SlugKeepsEdgeHyphens | js/blog-utils.js:116 | `" A "` gives `"-a-"`: the edge hyphens stay |
| BlogUtils.SlugOfWord | js/blog-utils.js:110-117 | A title of ASCII letters and digits is its own slug, lower-cased |
| BlogUtils.SlugSeparatesWords | js/blog-utils.js:110-117 | Two words separated by a non-empty run of whitespace, or by a run of hyphens, give the two words' slugs joined by exactly one `-` |
| BlogUtils.SearchPosts | js/blog-utils.js:120-134 | A blank query returns the posts; otherwise an order-preserving subsequence of exactly the posts whose title or name, content or joined tags contain the lower-cased query |
| BlogUtils.EscapeRegExp | js/blog-utils.js:357-359 | Escaping only adds characters; a string without special characters is unchanged |
| BlogUtils.UnescapeEscapeRegExp | js/blog-utils.js:357-359 | The original string is read back from the escaped one |
| BlogUtils.EscapeRegExpChar | js/blog-utils.js:357-359 | Each special character gets a backslash in front; every other character is unchanged |
| BlogUtils.EscapeRegExpAppend | js/blog-utils.js:357-359 | Escaping a concatenation is the concatenation of the escaped parts, so the per-character rule applies across a whole string |
| BlogUtils.GetPostsUrl | js/blog-utils.js:152-155 | The listing URL is under the repository's contents path |
| BlogUtils.GetPostContentUrl | js/blog-utils.js:158-161 | The raw URL is the raw base followed by the file name |
| BlogUtils.GitHubUrlsRouted | js/blog-utils.js:152-161 | Both GitHub addresses go to the service worker's GitHub strategy |
| BlogUtils.StatusMessages | js/blog-utils.js:304-325 | 403, 404 and 500 get their fixed messages; any other status gets `HTTP <status> error` |
| BlogUtils.HandleGitHubError | js/blog-utils.js:300-335 | `canRetry` is false exactly for a 404; a status gives its messages; without one, a network error or an offline browser gives the network messages, and anything else keeps the defaults `An error occurred` and `Unable to load content. Please try again later.` |
| BlogUtils.GitHubErrorUserMessage | js/blog-utils.js:300-335 | Every error gets a message for the reader, and only a missing file is final |
| BlogUtils.SumBounds | js/blog-utils.js:268-270 | A sum of values between two bounds lies between `n` times each |
| BlogUtils.RoundDiv | js/blog-utils.js:270 | `Math.round(total / n)`, also used for file sizes: the nearest integer, halves up, never negative for a non-negative total |
| BlogUtils.Min | js/blog-utils.js:264-271 | The least load time |
| BlogUtils.Max | js/blog-utils.js:264-271 | The greatest load time |
| BlogUtils.GetAverageLoadTime | js/blog-utils.js:264-271 | 0 without data; otherwise the rounded mean, between the least and the greatest time |
| BlogUtils.RoundBetween | js/blog-utils.js:270 | Rounding a mean of bounded values stays within the bounds |
| Words.TokEnd | blog/js/markdown-renderer.js:352 | A run of non-whitespace ends at whitespace or at the end |
| Words.SpaceEnd | blog/js/markdown-renderer.js:352 | A run of whitespace ends at non-whitespace or at the end |
| Words.WordsAreWords | blog/js/markdown-renderer.js:352 | Every word is non-empty and holds no whitespace |
| Words.NoWordsFrom | blog/js/markdown-renderer.js:352 | No words remain exactly when the rest is whitespace |
| Words.PiecesWords | blog/js/markdown-renderer.js:352 | The non-empty `\s+` pieces are the words |
| Words.WordCountIsTokens | blog/js/markdown-renderer.js:351-353 | The word count of `getWordCount` is the number of words |
| Words.NoTokensAllSpace | blog/js/markdown-renderer.js:351-353 | A text has no words exactly when it is all whitespace |
| Words.WordCountZero | blog/js/markdown-renderer.js:351-353 | The word count is 0 exactly for whitespace-only text |
| Words.TrimmedSplitIsWords | js/blog-utils.js:65 | A trimmed non-empty text splits into its words and nothing else |
| Words.TrimKeepsTokens | js/blog-utils.js:65 | Trimming keeps the words |
| Words.DropWords | js/blog-utils.js:65 | The words of a suffix are the words from where it starts |
| Words.TakeWords | js/blog-utils.js:65 | Cutting off trailing whitespace keeps the words |
| Words.CeilDiv | js/blog-utils.js:66 | `Math.ceil(n / d)`: the least `q` with `q * d >= n` |
| MermaidHandler.TaskMarkerHasColon | blog/js/mermaid-handler.js:375-377 | A line matching `:\s*\d+\s*:` contains a colon |
| MermaidHandler.TaskLineExample | blog/js/mermaid-handler.js:375 | A task line's `:5:` carries the marker |
| MermaidHandler.MermaidContentIff | blog/js/mermaid-handler.js:171-207 | Chart content exactly when the trimmed text starts with a keyword and the text holds no fence and no `example` in any case |
| MermaidHandler.ContainsLower | blog/js/mermaid-handler.js:196-202 | Lower-casing keeps an occurrence |
| MermaidHandler.Spaces | blog/js/mermaid-handler.js:366-381 | `' '.repeat(n)` has length `n` |
| MermaidHandler.IndentLineTrim | blog/js/mermaid-handler.js:366-381 | An indented trimmed line trims back to the line |
| MermaidHandler.IndentLine | blog/js/mermaid-handler.js:366-381 | Indenting adds no line break |
| MermaidHandler.TrimAll | blog/js/mermaid-handler.js:363 | Each line is trimmed |
| MermaidHandler.Indented | blog/js/mermaid-handler.js:364-384 | Each line indented in place |
| MermaidHandler.IndentJourneyLine | blog/js/mermaid-handler.js:366-382 | The loop body indents one cleaned line by the rule |
| MermaidHandler.PreprocessDefinition | blog/js/mermaid-handler.js:355-389 | The loop computes `Preprocessed`; a definition not starting with `journey` comes out trimmed |
| MermaidHandler.CleanLinesShape | blog/js/mermaid-handler.js:363 | The cleaned lines are non-empty, trimmed and free of line breaks |
| MermaidHandler.CleanIsTrimmedNonBlank | blog/js/mermaid-handler.js:363 | Dropping empty trimmed lines is trimming the non-blank lines |
| MermaidHandler.FirstCleanLine | blog/js/mermaid-handler.js:358-363 | A journey definition's first cleaned line starts with `journey` |
| MermaidHandler.JourneyLines | blog/js/mermaid-handler.js:359-385 | One output line per non-blank input line, in order, each trimmed and indented by the rule |
| MermaidHandler.TrimOutput | blog/js/mermaid-handler.js:356 | A journey output, trimmed, loses only the first line's indent |
| MermaidHandler.ReCleanLines | blog/js/mermaid-handler.js:363 | A second pass sees the same cleaned lines |
| MermaidHandler.SecondPass | blog/js/mermaid-handler.js:355-389 | Journey output built from clean lines is a fixed point |
| MermaidHandler.PreprocessIdempotent | blog/js/mermaid-handler.js:355-389 | `preprocessDefinition` of its own output gives the same output |
| MermaidHandler.ConcatMembers | blog/js/mermaid-handler.js:145-161 | An element is among the query results exactly when some selector returned it |
| MermaidHandler.CollectMembers | blog/js/mermaid-handler.js:145-161 | An element is collected exactly when it was found and qualifies |
| MermaidHandler.CollectDistinct | blog/js/mermaid-handler.js:145-161 | No element is collected twice |
| MermaidHandler.Found | blog/js/mermaid-handler.js:136-141 | One query result per selector, in selector order |
| MermaidHandler.FindMermaidElements | blog/js/mermaid-handler.js:135-164 | The loops collect each qualifying element once, in the order first found |
| MermaidHandler.FoundElements | blog/js/mermaid-handler.js:135-164 | The result has no repeats and holds exactly the found elements whose trimmed text is chart content |
| MermaidHandler.Jobs | blog/js/mermaid-handler.js:124-127 | Chart `i` is requested with index `i` |
| MermaidHandler.Handler.constructor | blog/js/mermaid-handler.js:17-19 | Not initialised, an empty queue, not processing |
| MermaidHandler.Handler.RenderSingleChart | blog/js/mermaid-handler.js:214-245 | Before initialisation the request is appended to the queue and nothing is drawn; after it, the request is drawn |
| MermaidHandler.Handler.ProcessQueue | blog/js/mermaid-handler.js:525-536 | No-op while processing or with an empty queue; otherwise the queue is drawn front first and ends empty, with processing off |
| MermaidHandler.Handler.Init | blog/js/mermaid-handler.js:24-105 | Does nothing once initialised; without the library or on an initialisation error it fails and keeps the queue; otherwise it initialises and draws the queue in order |
| MermaidHandler.Handler.RenderChartsInContainer | blog/js/mermaid-handler.js:111-128 | Every collected chart is drawn, or queued before initialisation, with its index; nothing without a container |
| MermaidHandler.Handler.RenderEach | blog/js/mermaid-handler.js:124-127 | The loop hands chart `i` over with index `i`, in order |
| MermaidHandler.Handler.ClearQueue | blog/js/mermaid-handler.js:541-544 | The queue is emptied and processing is off |
| MermaidHandler.Handler.Reset | blog/js/mermaid-handler.js:549-552 | As `clearQueue`, and not initialised |
| SiteApp.Last | js/main.js:315-317 | The last `n` elements, or all when fewer |
| SiteApp.AppendedBound | js/main.js:306-317 | After one call the log holds 1 to 50 entries, the new one last |
| SiteApp.LastSnoc | js/main.js:315-317 | The last 50 of the last 50 plus one more is the last 50 of all |
| SiteApp.LogAllKeepsLatest | js/main.js:304-324 | After any number of calls the log is the most recent 50 of the old and new entries, in order |
| SiteApp.Site.constructor | js/main.js:305-306 | The storage holds the given item |
| SiteApp.Site.LogInteraction | js/main.js:304-324 | Without storage, with a stored item that does not parse, or when writing fails, the item is left as it was; otherwise the log with the new entry appended, cut to its last 50 |
| BlogMain.DisplayName | blog/js/main.js:52 | One trailing `.md` or `.markdown` is removed; other names are unchanged |
| BlogMain.ExtensionsExclusive | blog/js/main.js:52 | No name ends with both extensions |
| BlogMain.DisplayNameRoundTrip | blog/js/main.js:52 | A base name with either extension appended displays as the base name |
| BlogMain.Items | blog/js/main.js:44-70 | One list item per file, with its display name and URL |
| BlogMain.FetchPosts | blog/js/main.js:14-82 | A non-ok response or a thrown error gives the error message; the empty-state message exactly when no post file is listed; a shown list is non-empty and opens its first item |
| BlogMain.ShownList | blog/js/main.js:29-77 | The shown files are exactly the listing's post files (entries of type `file` whose names end in `.md` or `.markdown`), descending by name; the list opens the first |

## Left out

- DOM work: `renderTagFilter`, the `updatePost*` renderers, `insertChart`, `enhanceSVG`, `showChartError`, `enhanceLinks`, `makeTablesResponsive`, the animations, `displayError` and the `App.setup*` functions. They only change the page. The sidebar, the navigation buttons and the Mermaid drawing appear as values, not markup.
- Third-party libraries: `marked.parse`, `DOMPurify.sanitize`, Prism, `mermaid.initialize` and `mermaid.render`. These are outside this code. The renderer's engine is a function parameter, and Mermaid's effect is a record of the requests handed over.
- Browser platform: `fetch`, the Cache API, `Request`/`Response`, message ports, `waitUntil`, `skipWaiting` and `clients.claim`. The cache store is a value, the network outcome is a parameter, and message replies are values.
- Concurrency and scheduling: `Promise.all` and `allSettled`, `await`, `setTimeout`, `debounce`, polling loops, and the `periodicsync`/`sync` triggers. Every handler runs as sequential steps, so interleaved requests are not modelled.
- Time: `Date.now` and `new Date(header).getTime()` are parameters, as epoch milliseconds. Date formatting (`formatDate`, `formatPostDate`) is locale-dependent and not modelled.
- Floating point: `performance.now`, `measurePostLoad` and the viewport computation are not modelled. Rounding in file sizes, reading times and load times is done on integers and matches for natural-number inputs.
- `JsStrings.Lower`: does not model Unicode case mapping; only ASCII letters are lower-cased, because Dafny strings carry no case tables.
- `localeCompare`: modelled as lexicographic order on characters, because the locale tables are not available.
- `Array.prototype.sort`: a library call, modelled as a stable insertion sort.
- `extractExcerpt`: only the final truncation (`BlogUtils.TruncateExcerpt`) is modelled. The markdown-stripping regular expressions before it are not.
- `highlightSearchTerms`, `createDebouncedSearch`, `checkRateLimit`, `optimizeImages` and `measurePostLoad` are not modelled: DOM, timers, network or floating point.
- The loose date regular expression in `blog/js/main.js` and the post loading beyond the list, in that file's `loadPost`, are DOM and network glue and are not modelled.
- `js/tailwind_config.js` is configuration data without behaviour, and is not part of this model.
- JSON: `JSON.parse`/`JSON.stringify` are left out. Stored interactions and `options` appear as what they parse to or as their text.
- `MermaidHandler.Handler.ProcessQueue`: its precondition excludes draining before initialisation. In the source, each request would be put straight back on the queue, so that loop never ends.
- `MermaidHandler.Handler.RenderSingleChart`: after initialisation only the hand-over is recorded; `mermaid.render`, its fallback and its error display are not modelled.
- `ServiceWorker.Worker.OnMessage`: the `GET_CACHE_INFO` reply is stated by its count only in this contract. The contents of each report are `GetCacheInfo`'s contract.
- `MarkdownRenderer.Renderer.Render`: the `sanitize` switch and the `DOMPurify` presence check are folded into the engine parameter.
- `BlogUtils.HandleGitHubError`: the `context` argument only reaches a log line and is left out.
- Text is modelled inside the Basic Multilingual Plane only. A Dafny `char` is a Unicode scalar value and cannot hold half of a UTF-16 surrogate pair, so for text with characters outside that plane (emoji, for instance) JavaScript's `.length`, `charCodeAt`, `substring` and code-unit order differ from the model's. This affects `MarkdownRenderer.Hash`, `MarkdownRenderer.SimpleHash` and the cache key of `MarkdownRenderer.Renderer.Render`, `BlogUtils.TruncateExcerpt`, and the name order of `Listing.Sort` and `BlogPosts.PostsFromListing`.
- `SwCache.Put` and `SwCache.AddAll`: they store any response with a status from 200 to 299. The browser's `Cache.put` and `Cache.add` also reject a partial (206) response and fail when the storage quota is exceeded, and neither is modelled.
