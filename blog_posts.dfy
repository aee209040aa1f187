/**
 * The value logic of `BlogApp` (blog/js/blog-app.js): turning the GitHub
 * listing into the post list, titles and file sizes, the search filter, the
 * list the sidebar shows, the previous/next index logic, tag splitting and
 * the outcome of fetching one post.
 */
module BlogPosts {
  import opened Optional
  import opened Seqs
  import opened JsStrings
  import opened Listing
  import opened Frontmatter
  import BlogUtils
  import Words

  /** A post object as `loadPosts` builds it; it has no `tags` field. */
  datatype Post = Post(name: string, title: string, url: string, size: nat, sha: string)

  /** The character `.replace(/[-_]/g, ' ')` puts in place of `c`. */
  function SpaceOut(c: char): char {
    if c == '-' || c == '_' then ' ' else c
  }

  /** `formatTitle`: drop one trailing `.md`, then every `-` and `_` becomes a space. */
  function FormatTitle(filename: string): (r: string)
    ensures |r| == if EndsWith(filename, ".md") then |filename| - 3 else |filename|
    ensures forall i :: 0 <= i < |r| ==> r[i] == SpaceOut(filename[i])
    ensures '-' !in r && '_' !in r
  {
    var base := if EndsWith(filename, ".md") then filename[..|filename| - 3] else filename;
    seq(|base|, i requires 0 <= i < |base| => SpaceOut(base[i]))
  }

  /** Only one `.md` goes: the title of `x.md` spells out `x`, whatever `x` ends with. */
  lemma FormatTitleStripsOnce(x: string)
    ensures FormatTitle(x + ".md") == seq(|x|, i requires 0 <= i < |x| => SpaceOut(x[i]))
    ensures !EndsWith(x, ".md") ==> FormatTitle(x + ".md") == FormatTitle(x)
  {
    assert EndsWith(x + ".md", ".md");
    var t := FormatTitle(x + ".md");
    forall i | 0 <= i < |x| ensures t[i] == SpaceOut(x[i]) {
      assert (x + ".md")[i] == x[i];
    }
  }

  /** `formatFileSize`: bytes below 1024, else rounded kilobytes below 1048576, else rounded megabytes. */
  function FormatFileSize(bytes: nat): (r: string)
    ensures bytes < 1024 ==> r == NatToString(bytes) + " B"
    ensures 1024 <= bytes < 1048576 ==> r == NatToString(BlogUtils.RoundDiv(bytes, 1024)) + " KB"
    ensures 1048576 <= bytes ==> r == NatToString(BlogUtils.RoundDiv(bytes, 1048576)) + " MB"
  {
    if bytes < 1024 then NatToString(bytes) + " B"
    else if bytes < 1048576 then NatToString(BlogUtils.RoundDiv(bytes, 1024)) + " KB"
    else NatToString(BlogUtils.RoundDiv(bytes, 1048576)) + " MB"
  }

  /** The kilobyte figure runs from 1 to 1024: rounding can print a size just under 1 MB as `1024 KB`. */
  lemma FileSizeKilobytes(bytes: nat)
    requires 1024 <= bytes < 1048576
    ensures 1 <= BlogUtils.RoundDiv(bytes, 1024) <= 1024
    ensures bytes >= 1048064 ==> BlogUtils.RoundDiv(bytes, 1024) == 1024
  {
    var q := BlogUtils.RoundDiv(bytes, 1024);
    assert 2048 * q <= 2 * bytes + 1024 < 2048 * (q + 1);
  }

  /** The megabyte figure is at least 1. */
  lemma FileSizeMegabytes(bytes: nat)
    requires 1048576 <= bytes
    ensures BlogUtils.RoundDiv(bytes, 1048576) >= 1
  {
  }

  predicate IsMarkdownFile(f: FileEntry) {
    EndsWith(f.name, ".md")
  }

  /** The post object for one listed file. */
  function ToPost(f: FileEntry): Post {
    Post(f.name, FormatTitle(f.name), f.downloadUrl, f.size, f.sha)
  }

  function ToPosts(s: seq<FileEntry>): (r: seq<Post>)
    ensures |r| == |s| && forall i :: 0 <= i < |s| ==> r[i] == ToPost(s[i])
  {
    seq(|s|, i requires 0 <= i < |s| => ToPost(s[i]))
  }

  lemma ToPostsAppend(a: seq<FileEntry>, b: seq<FileEntry>)
    ensures ToPosts(a + b) == ToPosts(a) + ToPosts(b)
  {
  }

  /** Rearranging the files rearranges their posts the same way. */
  lemma {:induction false} ToPostsPermutation(a: seq<FileEntry>, b: seq<FileEntry>)
    requires multiset(a) == multiset(b)
    ensures multiset(ToPosts(a)) == multiset(ToPosts(b))
    decreases |a|
  {
    if a == [] {
      assert |b| == |multiset(b)| == 0;
    } else {
      var x := a[0];
      assert x in multiset(b);
      var j :| 0 <= j < |b| && b[j] == x;
      var rest := b[..j] + b[j + 1..];
      var tail := a[1..];
      assert a[..0] + a[1..] == tail;
      assert multiset(tail) == multiset(rest) by {
        RemoveAt(a, 0);
        RemoveAt(b, j);
      }
      ToPostsPermutation(tail, rest);
      ToPostsRemove(a, 0);
      ToPostsRemove(b, j);
    }
  }

  /** Taking out one element leaves the others. */
  lemma RemoveAt<T>(b: seq<T>, j: nat)
    requires j < |b|
    ensures b == b[..j] + [b[j]] + b[j + 1..]
    ensures multiset(b[..j] + b[j + 1..]) == multiset(b) - multiset{b[j]}
  {
    assert b == b[..j] + [b[j]] + b[j + 1..];
  }

  /** The posts of the files with one taken out, and its post. */
  lemma ToPostsRemove(b: seq<FileEntry>, j: nat)
    requires j < |b|
    ensures multiset(ToPosts(b)) == multiset(ToPosts(b[..j] + b[j + 1..])) + multiset{ToPost(b[j])}
  {
    var l, r := b[..j], b[j + 1..];
    RemoveAt(b, j);
    ToPostsAppend(l + [b[j]], r);
    ToPostsAppend(l, [b[j]]);
    ToPostsAppend(l, r);
  }

  /**
   * The post list of `loadPosts`: the `.md` files of the listing, README
   * first and the others descending by name, as post objects.
   */
  function PostsFromListing(files: seq<FileEntry>): (r: seq<Post>)
    ensures multiset(r) == multiset(ToPosts(Filter(files, IsMarkdownFile)))
    ensures forall i :: 0 <= i < |r| ==> EndsWith(r[i].name, ".md") && r[i] == ToPost(FileEntry(r[i].name, "file", r[i].url, r[i].size, r[i].sha))
    ensures forall i, j :: 0 <= i < j < |r| ==> !Ahead(ReadmeThenDescending, r[j].name, r[i].name)
  {
    var md := Filter(files, IsMarkdownFile);
    var sorted := Sort(ReadmeThenDescending, md);
    ToPostsPermutation(sorted, md);
    SortSorted(ReadmeThenDescending, md);
    SortedPosts(sorted);
    MarkdownPosts(md, sorted);
    ToPosts(sorted)
  }

  /** The posts keep the order of their files' names. */
  lemma SortedPosts(sorted: seq<FileEntry>)
    requires Sorted(ReadmeThenDescending, sorted)
    ensures var r := ToPosts(sorted);
      forall i, j :: 0 <= i < j < |r| ==> !Ahead(ReadmeThenDescending, r[j].name, r[i].name)
  {
  }

  /** The posts of a rearrangement of `.md` files are posts of `.md` files. */
  lemma MarkdownPosts(md: seq<FileEntry>, sorted: seq<FileEntry>)
    requires forall i :: 0 <= i < |md| ==> IsMarkdownFile(md[i])
    requires multiset(sorted) == multiset(md)
    ensures var r := ToPosts(sorted);
      forall i :: 0 <= i < |r| ==> EndsWith(r[i].name, ".md") && r[i] == ToPost(FileEntry(r[i].name, "file", r[i].url, r[i].size, r[i].sha))
  {
    forall i | 0 <= i < |sorted|
      ensures IsMarkdownFile(sorted[i])
    {
      assert sorted[i] in multiset(md);
    }
  }

  /** When the listing holds `README.md`, it is the first post. */
  lemma ReadmeFirst(files: seq<FileEntry>, f: FileEntry)
    requires f in files && f.name == README
    ensures PostsFromListing(files) != [] && PostsFromListing(files)[0].name == README
  {
    var md := Filter(files, IsMarkdownFile);
    var sorted := Sort(ReadmeThenDescending, md);
    assert EndsWith(README, ".md");
    assert f in md;
    assert f in multiset(sorted);
    var k :| 0 <= k < |sorted| && sorted[k] == f;
    SortSorted(ReadmeThenDescending, md);
    ReadmeLeads(sorted, k);
  }

  /** The test of `updateFilteredPosts` on the search query (lower-cased already by `handleSearch`). */
  predicate MatchesSearch(p: Post, query: string) {
    query == "" || Contains(Lower(p.title), query) || Contains(Lower(p.name), query)
  }

  /**
   * The whole test of `updateFilteredPosts`.  Post objects carry no `tags`,
   * so `post.tags && …` is always false and a selected tag excludes every
   * post.
   */
  predicate Keeps(p: Post, query: string, tag: string) {
    MatchesSearch(p, query) && tag == ""
  }

  function Keeper(query: string, tag: string): Post -> bool {
    p => Keeps(p, query, tag)
  }

  /** `updateFilteredPosts`. */
  function FilteredPosts(posts: seq<Post>, query: string, tag: string): (r: seq<Post>)
    ensures IsSubsequence(r, posts)
    ensures forall p :: p in r <==> p in posts && MatchesSearch(p, query) && tag == ""
    ensures query == "" && tag == "" ==> r == posts
    ensures tag != "" ==> r == []
  {
    FilteredCases(posts, query, tag);
    Filter(posts, Keeper(query, tag))
  }

  lemma FilteredCases(posts: seq<Post>, query: string, tag: string)
    ensures query == "" && tag == "" ==> Filter(posts, Keeper(query, tag)) == posts
    ensures tag != "" ==> Filter(posts, Keeper(query, tag)) == []
  {
    if query == "" && tag == "" {
      assert forall i :: 0 <= i < |posts| ==> Keeper(query, tag)(posts[i]);
      FilterAll(posts, Keeper(query, tag));
    }
    if tag != "" {
      var f := Filter(posts, Keeper(query, tag));
    }
  }

  /** What `renderPostsList` puts in the sidebar. */
  datatype ListView = EmptyState(message: string) | PostItems(shown: seq<Post>)

  /** `renderPostsList`: the filtered posts if any, else all posts; the empty state only when that is empty. */
  function RenderPostsList(posts: seq<Post>, filtered: seq<Post>, query: string, tag: string): (v: ListView)
    ensures v.EmptyState? <==> filtered == [] && posts == []
    ensures v.PostItems? ==> v.shown != [] && v.shown == if filtered != [] then filtered else posts
    ensures v.EmptyState? ==> v.message == if query != "" || tag != "" then "No posts match your search" else "No posts found"
  {
    var shown := if |filtered| > 0 then filtered else posts;
    if |shown| == 0 then
      EmptyState(if query != "" || tag != "" then "No posts match your search" else "No posts found")
    else PostItems(shown)
  }

  /** With the list `updateFilteredPosts` makes, the sidebar is empty only when there are no posts at all, and a search that matches nothing shows every post. */
  lemma EmptyOnlyWithoutPosts(posts: seq<Post>, query: string, tag: string)
    ensures var v := RenderPostsList(posts, FilteredPosts(posts, query, tag), query, tag);
      (v.EmptyState? <==> posts == []) &&
      (FilteredPosts(posts, query, tag) == [] && posts != [] ==> v == PostItems(posts))
  {
    var f := FilteredPosts(posts, query, tag);
    if posts == [] {
      assert forall p :: p !in f;
    }
  }

  /** `this.posts.findIndex(p => p.name === name)`. */
  function FindIndex(posts: seq<Post>, name: string): (i: int)
    ensures -1 <= i < |posts|
    ensures i >= 0 ==> posts[i].name == name && forall j :: 0 <= j < i ==> posts[j].name != name
    ensures i == -1 ==> forall j :: 0 <= j < |posts| ==> posts[j].name != name
    decreases |posts|
  {
    if posts == [] then -1
    else if posts[0].name == name then 0
    else
      var k := FindIndex(posts[1..], name);
      if k < 0 then -1 else k + 1
  }

  /** `navigatePost(direction)`: the index it loads, if any. */
  function NavigateTarget(posts: seq<Post>, current: Option<string>, direction: int): (r: Option<nat>)
    ensures current.None? ==> r.None?
    ensures current.Some? ==> (r.Some? <==> 0 <= FindIndex(posts, current.value) + direction < |posts|)
    ensures r.Some? ==> r.value == FindIndex(posts, current.value) + direction
  {
    if current.None? then None
    else
      var newIndex := FindIndex(posts, current.value) + direction;
      if 0 <= newIndex < |posts| then Some(newIndex) else None
  }

  /** The enabled state of the two buttons that `updatePostNavigation` sets. */
  datatype NavButtons = NavButtons(hasPrev: bool, hasNext: bool)

  function Navigation(posts: seq<Post>, currentName: string): (b: NavButtons)
    ensures b.hasPrev <==> FindIndex(posts, currentName) > 0
    ensures b.hasNext <==> FindIndex(posts, currentName) < |posts| - 1
  {
    var i := FindIndex(posts, currentName);
    NavButtons(i > 0, i < |posts| - 1)
  }

  /** For a listed post, a button is enabled exactly when `navigatePost` in its direction would load a post. */
  lemma NavigationAgrees(posts: seq<Post>, name: string)
    requires FindIndex(posts, name) >= 0
    ensures Navigation(posts, name).hasPrev <==> NavigateTarget(posts, Some(name), -1).Some?
    ensures Navigation(posts, name).hasNext <==> NavigateTarget(posts, Some(name), 1).Some?
  {
  }

  /** A current post missing from the list counts as index -1: "next" is enabled and loads the first post. */
  lemma UnlistedCurrentPost(posts: seq<Post>, name: string)
    requires posts != [] && FindIndex(posts, name) == -1
    ensures Navigation(posts, name) == NavButtons(false, true)
    ensures NavigateTarget(posts, Some(name), 1) == Some(0)
    ensures NavigateTarget(posts, Some(name), -1).None?
  {
  }

  /** `loadDefaultPost`: `README.md` when listed, else the first post. */
  function DefaultPost(posts: seq<Post>): (r: Option<string>)
    ensures posts == [] <==> r.None?
    ensures FindIndex(posts, README) >= 0 ==> r == Some(README)
    ensures posts != [] && FindIndex(posts, README) == -1 ==> r == Some(posts[0].name)
  {
    if posts == [] then None
    else if FindIndex(posts, README) >= 0 then Some(README)
    else Some(posts[0].name)
  }

  /** For the list `loadPosts` builds, the default post is always the first one. */
  lemma DefaultIsFirst(files: seq<FileEntry>)
    requires PostsFromListing(files) != []
    ensures DefaultPost(PostsFromListing(files)) == Some(PostsFromListing(files)[0].name)
  {
    var posts := PostsFromListing(files);
    var i := FindIndex(posts, README);
    if i > 0 {
      assert !Ahead(ReadmeThenDescending, posts[i].name, posts[0].name);
    }
  }

  /** `tag.trim().replace(/^\[|\]$/g, '')`. */
  function CleanTag(t: string): (r: string)
    ensures forall c :: c in r ==> c in t
  {
    StripEnds(Trim(t), IsOpenBracket, IsCloseBracket)
  }

  /** `text.split(',').map(tag => tag.trim().replace(/^\[|\]$/g, ''))`. */
  function TagItems(text: string): (r: seq<string>)
    ensures |r| == |Split(text, ',')| && |r| >= 1
    ensures forall i :: 0 <= i < |r| ==> r[i] == CleanTag(Split(text, ',')[i]) && ',' !in r[i]
  {
    var parts := Split(text, ',');
    SplitFree(text, ',');
    seq(|parts|, i requires 0 <= i < |parts| => CleanTag(parts[i]))
  }

  /** A tag that splitting and cleaning leave alone. */
  predicate PlainTag(t: string) {
    ',' !in t && IsTrimmed(t) && (t == [] || (t[0] != '[' && t[|t| - 1] != ']'))
  }

  lemma StripEndsNone(s: string)
    requires s == [] || (s[0] != '[' && s[|s| - 1] != ']')
    ensures StripEnds(s, IsOpenBracket, IsCloseBracket) == s
  {
    var r := StripEnds(s, IsOpenBracket, IsCloseBracket);
    if |s| == 1 {
      assert r != "";
      assert r[0] in s;
    } else if |s| >= 2 {
      assert s[0..|s|] == s;
    }
  }

  /** A plain tag is its own cleaned form. */
  lemma CleanPlainTag(t: string)
    requires PlainTag(t)
    ensures CleanTag(t) == t
  {
    TrimTrimmed(t);
    StripEndsNone(t);
  }

  /** Tags written out comma-separated are read back as they were. */
  lemma TagItemsJoin(tags: seq<string>)
    requires tags != [] && forall i :: 0 <= i < |tags| ==> PlainTag(tags[i])
    ensures TagItems(Join(tags, ',')) == tags
  {
    var text := Join(tags, ',');
    assert Split(text, ',') == tags by {
      SplitJoin(tags, ',');
    }
    var r := TagItems(text);
    forall i | 0 <= i < |tags|
      ensures r[i] == tags[i]
    {
      CleanPlainTag(tags[i]);
    }
  }

  /** `updatePostTags`: the cleaned, non-empty items of the `tags` metadata. */
  function PostTags(metadata: map<string, string>): (r: seq<string>)
    ensures "tags" !in metadata || metadata["tags"] == "" ==> r == []
    ensures "tags" in metadata && metadata["tags"] != "" ==> IsSubsequence(r, TagItems(metadata["tags"]))
    ensures forall t :: t in r ==> t != "" && ',' !in t
  {
    if "tags" !in metadata || metadata["tags"] == "" then []
    else
      var items := TagItems(metadata["tags"]);
      var r := Filter(items, Words.NonEmpty);
      assert forall t :: t in r ==> t in items && t != "";
      r
  }

  /** Every non-empty item of the `tags` metadata is shown. */
  lemma PostTagsKeepsItems(metadata: map<string, string>, t: string)
    requires "tags" in metadata && metadata["tags"] != ""
    requires t in TagItems(metadata["tags"]) && t != ""
    ensures t in PostTags(metadata)
  {
    assert Words.NonEmpty(t);
  }

  /** A non-empty item of the `tags` metadata is shown as many times as it occurs there. */
  lemma PostTagsCounts(metadata: map<string, string>, t: string)
    requires "tags" in metadata && metadata["tags"] != ""
    requires t != ""
    ensures multiset(PostTags(metadata))[t] == multiset(TagItems(metadata["tags"]))[t]
  {
    assert Words.NonEmpty(t);
    FilterCount(TagItems(metadata["tags"]), Words.NonEmpty, t);
  }

  /** Length of the leading run of characters other than line terminators (what `.+` takes). */
  function LineLen(s: string): (n: nat)
    ensures n <= |s| && (n == |s| || IsLineTerminator(s[n]))
    ensures forall j :: 0 <= j < n ==> !IsLineTerminator(s[j])
    decreases |s|
  {
    if |s| > 0 && !IsLineTerminator(s[0]) then 1 + LineLen(s[1..]) else 0
  }

  /** The last index holding a character other than a line terminator, or -1. */
  function LastNonTerminator(s: string): (k: int)
    ensures -1 <= k < |s|
    ensures k >= 0 ==> !IsLineTerminator(s[k])
    ensures forall j :: k < j < |s| ==> IsLineTerminator(s[j])
    decreases |s|
  {
    if s == [] then -1
    else if !IsLineTerminator(s[|s| - 1]) then |s| - 1
    else LastNonTerminator(s[..|s| - 1])
  }

  const TAGS_LABEL: string := "tags:"

  /**
   * The capture of `front.match(/tags:\s*(.+)/)`.  The match starts at the
   * first `tags:`; the greedy `\s*` may run over line ends, and gives back
   * characters only when nothing but whitespace follows, in which case the
   * capture is the last whitespace character that is not a line end.
   */
  function TagsCapture(front: string): (r: Option<string>)
    ensures FirstAt(front, TAGS_LABEL, 0) == -1 ==> r.None?
    ensures r.Some? ==> r.value != "" && forall j :: 0 <= j < |r.value| ==> !IsLineTerminator(r.value[j])
  {
    var i := FirstAt(front, TAGS_LABEL, 0);
    if i < 0 then None
    else
      var rest := front[i + |TAGS_LABEL|..];
      var w := LeadLen(rest);
      if w < |rest| then
        var after := rest[w..];
        assert !IsLineTerminator(after[0]);
        Some(after[..LineLen(after)])
      else
        var k := LastNonTerminator(rest);
        if k < 0 then None
        else
          var after := rest[k..];
          Some(after[..LineLen(after)])
  }

  /** The text after `tags:` and its blanks, to the end of its line. */
  lemma TagsCaptureLine(head: string, value: string, more: string)
    requires head == TAGS_LABEL + " "
    requires value != [] && !IsSpace(value[0]) && forall j :: 0 <= j < |value| ==> !IsLineTerminator(value[j])
    requires more == [] || IsLineTerminator(more[0])
    ensures TagsCapture(head + value + more) == Some(value)
  {
    var front := head + value + more;
    assert OccursAt(front, TAGS_LABEL, 0);
    var rest := front[|TAGS_LABEL|..];
    assert rest == " " + value + more;
    assert LeadLen(rest) == 1 by {
      assert rest[1..] == value + more;
    }
    var after := rest[1..];
    assert after == value + more;
    LineLenPrefix(value, more);
    assert after[..|value|] == value;
  }

  lemma {:induction false} LineLenPrefix(value: string, more: string)
    requires forall j :: 0 <= j < |value| ==> !IsLineTerminator(value[j])
    requires more == [] || IsLineTerminator(more[0])
    ensures LineLen(value + more) == |value|
    decreases |value|
  {
    if value == [] {
      assert value + more == more;
    } else {
      assert (value + more)[1..] == value[1..] + more;
      LineLenPrefix(value[1..], more);
    }
  }

  /** `\s*` runs over the line end: an empty `tags:` line takes the next line as its tags. */
  lemma TagsCaptureCrossesLines()
    ensures TagsCapture("tags:\nx") == Some("x")
  {
    var front := "tags:\nx";
    assert OccursAt(front, TAGS_LABEL, 0);
    assert FirstAt(front, TAGS_LABEL, 0) == 0;
    var rest := front[5..];
    assert rest == "\nx";
    assert LeadLen(rest) == 1 by {
      assert rest[1..] == "x";
      assert LeadLen("x") == 0;
    }
    assert rest[1..] == "x";
    assert "x"[..1] == "x";
    assert LineLen("x") == 1 by {
      assert "x"[1..] == "";
    }
  }

  /** The tags `extractTags` collects from one post text. */
  function ExtractedTags(content: string): seq<string> {
    match LooseBlock(content)
    case None => []
    case Some(front) =>
      match TagsCapture(front)
      case None => []
      case Some(t) => TagItems(t)
  }

  /** A text without a frontmatter block, or whose block has no `tags:`, gives no tags; no tag holds a comma. */
  lemma ExtractedTagsShape(content: string)
    ensures LooseBlock(content).None? ==> ExtractedTags(content) == []
    ensures LooseBlock(content).Some? && FirstAt(LooseBlock(content).value, TAGS_LABEL, 0) == -1 ==> ExtractedTags(content) == []
    ensures forall t :: t in ExtractedTags(content) ==> ',' !in t
  {
  }

  /** What fetching one URL gives: a response (its `ok`, status, status text and text), or a thrown error. */
  datatype Fetched = Responded(ok: bool, status: int, statusText: string, text: string) | FetchFailed(message: string)

  /** The message thrown for a response that is not ok. */
  function HttpError(status: int, statusText: string): string {
    "HTTP " + IntToString(status) + ": " + statusText
  }

  /** A loaded post: the post object, the body after the frontmatter, and the metadata. */
  datatype PostData = PostData(post: Post, content: string, metadata: map<string, string>)

  datatype Loaded = Loaded(data: PostData) | LoadError(message: string)

  /** The part of `loadPost` after a cache miss: find the post, fetch it, check it, parse it. */
  function FetchPostData(posts: seq<Post>, postName: string, response: Fetched): (r: Loaded)
    ensures FindIndex(posts, postName) == -1 ==> r == LoadError("Post not found")
    ensures FindIndex(posts, postName) >= 0 && response.FetchFailed? ==> r == LoadError(response.message)
    ensures FindIndex(posts, postName) >= 0 && response.Responded? && !response.ok ==>
      r == LoadError(HttpError(response.status, response.statusText))
    ensures FindIndex(posts, postName) >= 0 && response.Responded? && response.ok && AllSpace(response.text) ==>
      r == LoadError("Post content is empty")
    ensures r.Loaded? ==> FindIndex(posts, postName) >= 0 && response.Responded? && response.ok && !AllSpace(response.text)
    ensures r.Loaded? ==> r.data == PostData(posts[FindIndex(posts, postName)],
      ParseFrontmatter(response.text).1, ParseFrontmatter(response.text).0)
  {
    var i := FindIndex(posts, postName);
    if i < 0 then LoadError("Post not found")
    else match response
      case FetchFailed(m) => LoadError(m)
      case Responded(ok, status, statusText, text) =>
        if !ok then LoadError(HttpError(status, statusText))
        else
          AllSpaceTrim(text);
          if text == "" || Trim(text) == "" then LoadError("Post content is empty")
          else
            var parsed := ParseFrontmatter(text);
            Loaded(PostData(posts[i], parsed.1, parsed.0))
  }
}
