/**
 * The state of `BlogApp` (blog/js/blog-app.js): its post list, search and
 * tag selection, current post, tag set, and the in-memory cache (a `Map`
 * with a 50-entry cap, first-in-first-out eviction and a five-minute
 * lifetime).  `Date.now()` is the parameter `now`, and what `fetch` gives is
 * a parameter too.
 */
module BlogApp {
  import opened Optional
  import opened JsStrings
  import opened OrderedMaps
  import opened Listing
  import opened BlogPosts

  const CACHE_MAX_SIZE: nat := 50
  /** `5 * 60 * 1000` milliseconds. */
  const CACHE_TTL: int := 300000
  const POSTS_KEY: string := "posts-list"
  /** `posts.slice(0, 10)`: only the first ten posts are read for tags. */
  const TAG_SCAN_LIMIT: nat := 10

  /** What fetching the contents listing gives: the parsed files, a response that is not ok, or a thrown error. */
  datatype ListingResponse =
    | ListingOk(files: seq<FileEntry>)
    | ListingNotOk(status: int, statusText: string)
    | ListingFailed(message: string)

  /** The two kinds of value `loadPosts` and `loadPost` cache. */
  datatype CacheValue = PostList(posts: seq<Post>) | PostEntry(data: PostData)

  /** `{ value, timestamp }`. */
  datatype Stamped = Stamped(value: CacheValue, timestamp: int)

  type Cache = OrderedMap<string, Stamped>

  ghost predicate Bounded(c: Cache) {
    c.Valid() && |c.keys| <= CACHE_MAX_SIZE
  }

  /**
   * `setCache(key, value)`: at 50 entries the oldest key goes first, even
   * when `key` is already present, then `key` is set.
   */
  function CacheSet(c: Cache, key: string, e: Stamped): (d: Cache)
    requires Bounded(c)
    ensures Bounded(d)
    ensures d.Get(key) == Some(e)
    ensures forall k :: k != key && k in d.values ==> k in c.values && d.values[k] == c.values[k]
    ensures forall k :: k != key && k in c.values && !(|c.keys| >= CACHE_MAX_SIZE && k == c.keys[0]) ==> k in d.values
    ensures |c.keys| >= CACHE_MAX_SIZE ==> c.keys[0] == key || c.keys[0] !in d.values
    ensures |c.keys| < CACHE_MAX_SIZE ==> d.keys == if key in c.values then c.keys else c.keys + [key]
    ensures |c.keys| >= CACHE_MAX_SIZE ==>
      d.keys == if key in c.values && key != c.keys[0] then c.keys[1..] else c.keys[1..] + [key]
  {
    if |c.keys| >= CACHE_MAX_SIZE then
      DeleteFirst(c);
      c.Delete(c.keys[0]).Set(key, e)
    else c.Set(key, e)
  }

  /**
   * Setting a key already present in a full cache still evicts the oldest key.  When the key
   * is present and is not the oldest, the cache then holds 49 entries.
   */
  lemma FullCacheEvictsPresentKey(c: Cache, key: string, e: Stamped)
    requires Bounded(c) && |c.keys| == CACHE_MAX_SIZE
    requires key in c.values && key != c.keys[0]
    ensures |CacheSet(c, key, e).keys| == CACHE_MAX_SIZE - 1
  {
    var rest := c.Delete(c.keys[0]);
    DeleteFirst(c);
    assert key in rest.values;
    assert rest.Set(key, e).keys == c.keys[1..];
  }

  /**
   * `getFromCache(key)` at time `now`: the value and the cache afterwards.
   * An entry older than the lifetime is deleted; one exactly at it is still served.
   */
  function CacheGet(c: Cache, key: string, now: int): (r: (Option<CacheValue>, Cache))
    requires Bounded(c)
    ensures Bounded(r.1)
    ensures key !in c.values ==> r == (None, c)
    ensures key in c.values && now - c.values[key].timestamp > CACHE_TTL ==> r == (None, c.Delete(key))
    ensures key in c.values && now - c.values[key].timestamp <= CACHE_TTL ==> r == (Some(c.values[key].value), c)
  {
    match c.Get(key)
    case None => (None, c)
    case Some(e) =>
      if now - e.timestamp > CACHE_TTL then (None, c.Delete(key)) else (Some(e.value), c)
  }

  /** A value set at time `t` is read back until `t + ttl` inclusive, and is gone for good after that. */
  lemma CacheSetThenGet(c: Cache, key: string, v: CacheValue, t: int, now: int)
    requires Bounded(c)
    ensures now - t <= CACHE_TTL ==> CacheGet(CacheSet(c, key, Stamped(v, t)), key, now).0 == Some(v)
    ensures now - t > CACHE_TTL ==> var r := CacheGet(CacheSet(c, key, Stamped(v, t)), key, now);
      r.0.None? && key !in r.1.values && CacheGet(r.1, key, now).0.None?
  {
  }

  /** Every cached post list sits under `posts-list`, and every post under its own key. */
  ghost predicate Typed(c: Cache) {
    forall k :: k in c.values ==> (c.values[k].value.PostList? <==> k == POSTS_KEY)
  }

  /** `setCache` as its two steps: the eviction at 50 entries, then `Map.set`. */
  lemma CacheSetSteps(c: Cache, key: string, e: Stamped)
    requires Bounded(c)
    ensures CacheSet(c, key, e) == (if |c.keys| >= CACHE_MAX_SIZE then c.Delete(c.keys[0]) else c).Set(key, e)
  {
  }

  /** Setting a key with a value of its kind keeps every key with a value of its kind. */
  lemma CacheSetTyped(c: Cache, key: string, e: Stamped)
    requires Bounded(c)
    ensures Typed(c) && (e.value.PostList? <==> key == POSTS_KEY) ==> Typed(CacheSet(c, key, e))
  {
  }

  /** `post-${name}`. */
  function PostKey(name: string): (k: string)
    ensures k != POSTS_KEY
  {
    var k := "post-" + name;
    assert k[4] == '-' && POSTS_KEY[4] == 's';
    k
  }

  /** The content of the `i`-th post as `extractTags` reads it (absent when its fetch failed or was not ok). */
  function ContentAt(contents: seq<Option<string>>, i: nat): Option<string> {
    if i < |contents| then contents[i] else None
  }

  /** The tags of one fetched post text. */
  function TagsOfContent(c: Option<string>): set<string> {
    if c.Some? then set t | t in ExtractedTags(c.value) else {}
  }

  /** The union of `sets(i)` for `i` below `n`. */
  function UnionUpTo(sets: nat -> set<string>, n: nat): set<string>
    decreases n
  {
    if n == 0 then {} else UnionUpTo(sets, n - 1) + sets(n - 1)
  }

  lemma {:induction false} UnionUpToMembers(sets: nat -> set<string>, n: nat, t: string)
    ensures t in UnionUpTo(sets, n) <==> exists i :: 0 <= i < n && t in sets(i)
    decreases n
  {
    if n > 0 {
      UnionUpToMembers(sets, n - 1, t);
      if t in sets(n - 1) {
        assert 0 <= n - 1 < n && t in sets(n - 1);
      } else if t !in UnionUpTo(sets, n - 1) {
        forall i | 0 <= i < n ensures t !in sets(i) {
          if i < n - 1 {
            assert !(0 <= i < n - 1 && t in sets(i));
          }
        }
      }
    }
  }

  /** The tags of the `i`-th post text. */
  function PostTagSets(contents: seq<Option<string>>): nat -> set<string> {
    (i: nat) => TagsOfContent(ContentAt(contents, i))
  }

  /** The tags `extractTags` gathers from the first `n` posts. */
  function TagsUpTo(contents: seq<Option<string>>, n: nat): set<string> {
    UnionUpTo(PostTagSets(contents), n)
  }

  /** One more post adds its own tags. */
  lemma TagsUpToStep(contents: seq<Option<string>>, i: nat)
    ensures TagsUpTo(contents, i + 1) == TagsUpTo(contents, i) + TagsOfContent(ContentAt(contents, i))
  {
    assert PostTagSets(contents)(i) == TagsOfContent(ContentAt(contents, i));
  }

  /** A tag is gathered exactly when one of the first `n` post texts yields it. */
  lemma TagsUpToMembers(contents: seq<Option<string>>, n: nat, t: string)
    ensures t in TagsUpTo(contents, n) <==> exists i :: 0 <= i < n && t in TagsOfContent(ContentAt(contents, i))
  {
    var sets := PostTagSets(contents);
    UnionUpToMembers(sets, n, t);
    if t in TagsUpTo(contents, n) {
      var i :| 0 <= i < n && t in sets(i);
      assert t in TagsOfContent(ContentAt(contents, i));
    } else {
      forall i | 0 <= i < n ensures t !in TagsOfContent(ContentAt(contents, i)) {
        assert sets(i) == TagsOfContent(ContentAt(contents, i));
      }
    }
  }

  /**
   * What `loadPost(postName)` at time `now` does, starting from the cache
   * `c0` and the current post `cur0`: `error` is the message it shows, `cur`
   * the current post and `c` the cache afterwards.
   */
  ghost predicate PostLoad(posts: seq<Post>, c0: Cache, cur0: Option<PostData>, postName: string, now: int,
                           response: Fetched, error: Option<string>, cur: Option<PostData>, c: Cache)
    requires Bounded(c0) && Typed(c0)
  {
    var (hit, c1) := CacheGet(c0, PostKey(postName), now);
    if hit.Some? then
      error.None? && cur == Some(hit.value.data) && c == c1
    else match FetchPostData(posts, postName, response)
      case Loaded(d) =>
        error.None? && cur == Some(d) && c == CacheSet(c1, PostKey(postName), Stamped(PostEntry(d), now))
      case LoadError(m) =>
        error == Some("Failed to load post \"" + postName + "\": " + m) && cur == cur0 && c == c1
  }

  /** The blog application's state. */
  class App {
    var posts: seq<Post>
    var currentPost: Option<PostData>
    var filteredPosts: seq<Post>
    var cache: Cache
    var searchQuery: string
    var selectedTag: string
    var allTags: set<string>

    ghost predicate Valid()
      reads this
    {
      Bounded(cache) && Typed(cache)
    }

    constructor()
      ensures Valid()
      ensures posts == [] && currentPost.None? && filteredPosts == [] && cache == Empty()
      ensures searchQuery == "" && selectedTag == "" && allTags == {}
    {
      posts := [];
      currentPost := None;
      filteredPosts := [];
      cache := Empty();
      searchQuery := "";
      selectedTag := "";
      allTags := {};
    }

    /** `setCache(key, value)` at time `now`. */
    method SetCache(key: string, value: CacheValue, now: int)
      requires Bounded(cache)
      modifies this
      ensures cache == CacheSet(old(cache), key, Stamped(value, now))
      ensures old(Typed(cache)) && (value.PostList? <==> key == POSTS_KEY) ==> Typed(cache)
      ensures posts == old(posts) && currentPost == old(currentPost) && filteredPosts == old(filteredPosts)
      ensures searchQuery == old(searchQuery) && selectedTag == old(selectedTag) && allTags == old(allTags)
    {
      ghost var c0 := cache;
      if cache.Size() >= CACHE_MAX_SIZE {
        var firstKey := cache.keys[0];
        cache := cache.Delete(firstKey);
      }
      cache := cache.Set(key, Stamped(value, now));
      CacheSetSteps(c0, key, Stamped(value, now));
      CacheSetTyped(c0, key, Stamped(value, now));
    }

    /** `getFromCache(key)` at time `now`. */
    method GetFromCache(key: string, now: int) returns (r: Option<CacheValue>)
      requires Valid()
      modifies this
      ensures Valid()
      ensures (r, cache) == CacheGet(old(cache), key, now)
      ensures posts == old(posts) && currentPost == old(currentPost) && filteredPosts == old(filteredPosts)
      ensures searchQuery == old(searchQuery) && selectedTag == old(selectedTag) && allTags == old(allTags)
    {
      if !cache.Has(key) {
        return None;
      }
      var cached := cache.values[key];
      if now - cached.timestamp > CACHE_TTL {
        cache := cache.Delete(key);
        return None;
      }
      r := Some(cached.value);
    }

    /** `updateFilteredPosts`. */
    method UpdateFilteredPosts()
      modifies this
      ensures filteredPosts == FilteredPosts(posts, searchQuery, selectedTag)
      ensures posts == old(posts) && currentPost == old(currentPost) && cache == old(cache)
      ensures searchQuery == old(searchQuery) && selectedTag == old(selectedTag) && allTags == old(allTags)
    {
      filteredPosts := FilteredPosts(posts, searchQuery, selectedTag);
    }

    /** `handleSearch(query)`: the query is stored lower-cased. */
    method HandleSearch(query: string)
      modifies this
      ensures searchQuery == Lower(query)
      ensures filteredPosts == FilteredPosts(posts, Lower(query), selectedTag)
      ensures posts == old(posts) && currentPost == old(currentPost) && cache == old(cache)
      ensures selectedTag == old(selectedTag) && allTags == old(allTags)
    {
      searchQuery := Lower(query);
      UpdateFilteredPosts();
    }

    /** `handleTagFilter(tag)`. */
    method HandleTagFilter(tag: string)
      modifies this
      ensures selectedTag == tag
      ensures filteredPosts == FilteredPosts(posts, searchQuery, tag)
      ensures tag != "" ==> filteredPosts == []
      ensures posts == old(posts) && currentPost == old(currentPost) && cache == old(cache)
      ensures searchQuery == old(searchQuery) && allTags == old(allTags)
    {
      selectedTag := tag;
      UpdateFilteredPosts();
    }

    /** `clearSearch`: both filters off, so every post is listed again. */
    method ClearSearch()
      modifies this
      ensures searchQuery == "" && selectedTag == ""
      ensures filteredPosts == posts
      ensures posts == old(posts) && currentPost == old(currentPost) && cache == old(cache) && allTags == old(allTags)
    {
      searchQuery := "";
      selectedTag := "";
      UpdateFilteredPosts();
    }

    /**
     * `extractTags`: the set is cleared, then filled from the first ten
     * posts; `contents[i]` is the text of post `i` when its fetch was ok.
     */
    method ExtractTags(contents: seq<Option<string>>)
      modifies this
      ensures allTags == TagsUpTo(contents, if |posts| < TAG_SCAN_LIMIT then |posts| else TAG_SCAN_LIMIT)
      ensures posts == old(posts) && currentPost == old(currentPost) && filteredPosts == old(filteredPosts)
      ensures cache == old(cache) && searchQuery == old(searchQuery) && selectedTag == old(selectedTag)
    {
      allTags := {};
      var n := if |posts| < TAG_SCAN_LIMIT then |posts| else TAG_SCAN_LIMIT;
      assert TagsUpTo(contents, 0) == {};
      var i := 0;
      while i < n
        invariant 0 <= i <= n
        invariant allTags == TagsUpTo(contents, i)
        invariant posts == old(posts) && currentPost == old(currentPost) && filteredPosts == old(filteredPosts)
        invariant cache == old(cache) && searchQuery == old(searchQuery) && selectedTag == old(selectedTag)
      {
        TagsUpToStep(contents, i);
        allTags := allTags + TagsOfContent(ContentAt(contents, i));
        i := i + 1;
      }
    }

    /**
     * `loadPosts` at time `now`: a cached list is taken as it is; otherwise
     * the listing response decides, and a good one is filtered, sorted,
     * cached, scanned for tags and filtered for the sidebar.  The result is
     * the message shown on failure.
     */
    method LoadPosts(now: int, listing: ListingResponse, contents: seq<Option<string>>) returns (error: Option<string>)
      requires Valid()
      modifies this
      ensures Valid()
      ensures var (hit, c1) := CacheGet(old(cache), POSTS_KEY, now);
        if hit.Some? then
          error.None? && posts == hit.value.posts && cache == c1
          && filteredPosts == old(filteredPosts) && allTags == old(allTags)
        else match listing
          case ListingOk(files) =>
            error.None? && posts == PostsFromListing(files)
            && cache == CacheSet(c1, POSTS_KEY, Stamped(PostList(posts), now))
            && allTags == TagsUpTo(contents, if |posts| < TAG_SCAN_LIMIT then |posts| else TAG_SCAN_LIMIT)
            && filteredPosts == FilteredPosts(posts, searchQuery, selectedTag)
          case ListingNotOk(status, statusText) =>
            error == Some("Failed to load posts: " + HttpError(status, statusText))
            && posts == old(posts) && cache == c1 && filteredPosts == old(filteredPosts) && allTags == old(allTags)
          case ListingFailed(message) =>
            error == Some("Failed to load posts: " + message)
            && posts == old(posts) && cache == c1 && filteredPosts == old(filteredPosts) && allTags == old(allTags)
      ensures currentPost == old(currentPost) && searchQuery == old(searchQuery) && selectedTag == old(selectedTag)
    {
      var cached := GetFromCache(POSTS_KEY, now);
      if cached.Some? {
        posts := cached.value.posts;
        return None;
      }
      match listing {
        case ListingNotOk(status, statusText) =>
          error := Some("Failed to load posts: " + HttpError(status, statusText));
        case ListingFailed(message) =>
          error := Some("Failed to load posts: " + message);
        case ListingOk(files) =>
          posts := PostsFromListing(files);
          SetCache(POSTS_KEY, PostList(posts), now);
          ExtractTags(contents);
          UpdateFilteredPosts();
          error := None;
      }
    }

    /**
     * `loadPost(postName)` at time `now`.  `response` is what fetching the
     * post's URL gives on a cache miss.  The result is the message shown on
     * failure; on success the post becomes the current post.
     */
    method LoadPost(postName: string, now: int, response: Fetched) returns (error: Option<string>)
      requires Valid()
      modifies this
      ensures Valid()
      ensures PostLoad(posts, old(cache), old(currentPost), postName, now, response, error, currentPost, cache)
      ensures posts == old(posts) && filteredPosts == old(filteredPosts) && allTags == old(allTags)
      ensures searchQuery == old(searchQuery) && selectedTag == old(selectedTag)
    {
      var key := PostKey(postName);
      var cached := GetFromCache(key, now);
      if cached.Some? {
        currentPost := Some(cached.value.data);
        return None;
      }
      match FetchPostData(posts, postName, response) {
        case LoadError(m) =>
          error := Some("Failed to load post \"" + postName + "\": " + m);
        case Loaded(d) =>
          SetCache(key, PostEntry(d), now);
          currentPost := Some(d);
          error := None;
      }
    }

    /**
     * `navigatePost(direction)`: loads the neighbouring post when there is
     * one.  `target` is the name it loads and `error` the message that
     * loading shows.
     */
    method NavigatePost(direction: int, now: int, response: Fetched) returns (target: Option<string>, error: Option<string>)
      requires Valid()
      modifies this
      ensures Valid()
      ensures var i := NavigateTarget(old(posts), if old(currentPost).Some? then Some(old(currentPost).value.post.name) else None, direction);
        target == if i.Some? then Some(old(posts)[i.value].name) else None
      ensures target.None? ==> error.None? && currentPost == old(currentPost) && cache == old(cache)
      ensures target.Some? ==>
        PostLoad(old(posts), old(cache), old(currentPost), target.value, now, response, error, currentPost, cache)
      ensures posts == old(posts) && filteredPosts == old(filteredPosts) && allTags == old(allTags)
      ensures searchQuery == old(searchQuery) && selectedTag == old(selectedTag)
    {
      if currentPost.None? {
        return None, None;
      }
      var i := NavigateTarget(posts, Some(currentPost.value.post.name), direction);
      if i.None? {
        return None, None;
      }
      target := Some(posts[i.value].name);
      error := LoadPost(posts[i.value].name, now, response);
    }
  }
}
