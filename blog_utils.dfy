/**
 * The pure helpers of js/blog-utils.js: `BlogUtils` (reading time, excerpt
 * truncation, slugs, search, GitHub URLs), `escapeRegExp`,
 * `BlogErrorHandler.handleGitHubError` and
 * `BlogPerformance.getAverageLoadTime`.  Its `parseFrontmatter` is
 * `Frontmatter.UtilsParseFrontmatter`.
 */
module BlogUtils {
  import opened Optional
  import opened Seqs
  import opened JsStrings
  import opened Words
  import SwRoutes

  const WORDS_PER_MINUTE: nat := 200
  const EXCERPT_LENGTH: int := 150

  /** The object `calculateReadingTime` returns. */
  datatype ReadingTime = ReadingTime(minutes: nat, words: nat, formatted: string)

  /**
   * `calculateReadingTime`: `words` counts the pieces of the trimmed text, so
   * a text without words still counts as one word.
   */
  function CalculateReadingTime(text: string): (r: ReadingTime)
    ensures r.words == if AllSpace(text) then 1 else |Tokens(text)|
    ensures r.minutes * WORDS_PER_MINUTE >= r.words && (r.minutes - 1) * WORDS_PER_MINUTE < r.words
    ensures r.minutes >= 1
    ensures r.formatted == NatToString(r.minutes) + " min read"
  {
    var t := Trim(text);
    var words := |SplitWs(t)|;
    assert words == if AllSpace(text) then 1 else |Tokens(text)| by {
      TrimKeepsTokens(text);
      NoTokensAllSpace(text);
      if t != [] {
        TrimmedSplitIsWords(t);
      }
    }
    var minutes := CeilDiv(words, WORDS_PER_MINUTE);
    ReadingTime(minutes, words, NatToString(minutes) + " min read")
  }

  /**
   * The truncation at the end of `extractExcerpt(content, maxLength)`, on the
   * already cleaned text: longer texts keep their first `maxLength` characters
   * (`substring` clamps a negative length to 0) and get `...`.
   */
  function TruncateExcerpt(cleaned: string, maxLength: int): (r: string)
    ensures |cleaned| <= maxLength ==> r == cleaned
    ensures |cleaned| > maxLength ==> r == cleaned[..if maxLength < 0 then 0 else maxLength] + "..."
    ensures |r| <= (if maxLength < 0 then 0 else maxLength) + 3
  {
    if |cleaned| > maxLength then cleaned[..if maxLength < 0 then 0 else maxLength] + "..." else cleaned
  }

  predicate IsSlugChar(c: char) {
    'a' <= c <= 'z' || '0' <= c <= '9' || c == '-'
  }

  /** What `.replace(/[^a-z0-9\s-]/g, '')` keeps. */
  predicate KeptBySlug(c: char) {
    IsSlugChar(c) || IsSpace(c)
  }

  predicate IsHyphen(c: char) {
    c == '-'
  }

  /** Length of the leading run of characters satisfying `p`. */
  function RunLen(s: string, p: char -> bool): (n: nat)
    ensures 0 < |s| && p(s[0]) ==> n >= 1
    ensures n <= |s|
    ensures n == |s| || !p(s[n])
    decreases |s|
  {
    if |s| > 0 && p(s[0]) then 1 + RunLen(s[1..], p) else 0
  }

  /** The leading run `RunLen` measures satisfies `p` throughout. */
  lemma {:induction false} RunLenRun(s: string, p: char -> bool)
    ensures forall j :: 0 <= j < RunLen(s, p) ==> p(s[j])
    decreases |s|
  {
    if |s| > 0 && p(s[0]) {
      RunLenRun(s[1..], p);
    }
  }

  /** The test "neither satisfies `p` nor is `r`". */
  function Outside(p: char -> bool, r: char): char -> bool {
    c => !p(c) && c != r
  }

  /** Skipping a leading run of `p` characters leaves the characters outside `p` as they were. */
  lemma SkipRun(s: string, p: char -> bool, r: char)
    ensures Filter(s, Outside(p, r)) == Filter(s[RunLen(s, p)..], Outside(p, r))
  {
    var n := RunLen(s, p);
    RunLenRun(s, p);
    assert s == s[..n] + s[n..];
    FilterAppend(s[..n], s[n..], Outside(p, r));
  }

  /**
   * `.replace(/P+/g, r)`: every maximal run of characters satisfying `p`
   * becomes `r`, and every other character passes through in order.
   */
  function CollapseRuns(s: string, p: char -> bool, r: char): (t: string)
    ensures forall c :: c in t ==> c == r || (c in s && !p(c))
    ensures s == [] <==> t == []
    ensures t != [] && !p(s[0]) ==> t[0] == s[0]
    ensures p(r) ==> forall i :: 0 <= i < |t| - 1 ==> !(p(t[i]) && p(t[i + 1]))
    decreases |s|
  {
    if s == [] then []
    else if p(s[0]) then
      var rest := s[RunLen(s, p)..];
      [r] + CollapseRuns(rest, p, r)
    else [s[0]] + CollapseRuns(s[1..], p, r)
  }

  /**
   * Every character outside the class passes through `CollapseRuns` in order:
   * the characters of the result other than `r` are exactly those of `s` that
   * are neither in the class nor `r`.
   */
  lemma {:induction false} CollapseRunsPassesThrough(s: string, p: char -> bool, r: char)
    ensures Filter(CollapseRuns(s, p, r), Other(r)) == Filter(s, Outside(p, r))
    decreases |s|
  {
    if s != [] {
      if p(s[0]) {
        var rest := s[RunLen(s, p)..];
        CollapseRunsPassesThrough(rest, p, r);
        SkipRun(s, p, r);
        FilterCons(r, CollapseRuns(rest, p, r), Other(r));
      } else {
        CollapseRunsPassesThrough(s[1..], p, r);
        FilterCons(s[0], CollapseRuns(s[1..], p, r), Other(r));
        FilterCons(s[0], s[1..], Outside(p, r));
        assert s == [s[0]] + s[1..];
      }
    }
  }

  /** No two hyphens in a row. */
  predicate NoDoubleHyphen(s: string) {
    forall i :: 0 <= i < |s| - 1 ==> !(s[i] == '-' && s[i + 1] == '-')
  }

  /**
   * `generateSlug`: lower-case, drop everything but `a-z`, `0-9`, whitespace
   * and `-`, turn whitespace runs and then hyphen runs into one `-`.  The
   * final `.trim('-')` is `String.prototype.trim`, which takes no argument,
   * so leading and trailing hyphens stay.
   */
  function GenerateSlug(title: string): (slug: string)
    ensures forall i :: 0 <= i < |slug| ==> IsSlugChar(slug[i])
    ensures NoDoubleHyphen(slug)
    ensures Filter(slug, Other('-')) == Filter(Lower(title), IsAlphanumeric)
  {
    var kept := Filter(Lower(title), KeptBySlug);
    var collapsed := CollapseRuns(CollapseRuns(kept, IsSpace, '-'), IsHyphen, '-');
    CollapsedIsSlug(kept);
    SlugLettersAndDigits(Lower(title));
    collapsed
  }

  /** A lower-case ASCII letter or a digit: what a slug keeps of a title besides hyphens. */
  predicate IsAlphanumeric(c: char) {
    'a' <= c <= 'z' || '0' <= c <= '9'
  }

  /** Apart from its hyphens, the slug is the letters and digits of the lower-cased title, in order. */
  lemma SlugLettersAndDigits(lower: string)
    ensures var t := CollapseRuns(CollapseRuns(Filter(lower, KeptBySlug), IsSpace, '-'), IsHyphen, '-');
      Filter(t, Other('-')) == Filter(lower, IsAlphanumeric)
  {
    var kept := Filter(lower, KeptBySlug);
    var spaced := CollapseRuns(kept, IsSpace, '-');
    var t := CollapseRuns(spaced, IsHyphen, '-');
    assert Filter(t, Other('-')) == Filter(spaced, Outside(IsHyphen, '-')) by {
      CollapseRunsPassesThrough(spaced, IsHyphen, '-');
    }
    assert Filter(spaced, Outside(IsHyphen, '-')) == Filter(spaced, Other('-')) by {
      OutsideHyphen(spaced);
    }
    assert Filter(spaced, Other('-')) == Filter(kept, Outside(IsSpace, '-')) by {
      CollapseRunsPassesThrough(kept, IsSpace, '-');
    }
    assert Filter(kept, Outside(IsSpace, '-')) == Filter(lower, IsAlphanumeric) by {
      KeptOutsideSpace(lower);
    }
  }

  lemma OutsideHyphen(s: string)
    ensures Filter(s, Outside(IsHyphen, '-')) == Filter(s, Other('-'))
  {
    FilterAgree(s, Outside(IsHyphen, '-'), Other('-'));
  }

  lemma KeptOutsideSpace(s: string)
    ensures Filter(Filter(s, KeptBySlug), Outside(IsSpace, '-')) == Filter(s, IsAlphanumeric)
  {
    FilterFilter(s, KeptBySlug, Outside(IsSpace, '-'), IsAlphanumeric);
  }

  /** After both collapses only slug characters remain, none of them whitespace, so `trim` keeps them all. */
  lemma CollapsedIsSlug(kept: string)
    requires forall c :: c in kept ==> KeptBySlug(c)
    ensures var t := CollapseRuns(CollapseRuns(kept, IsSpace, '-'), IsHyphen, '-');
      Trim(t) == t && (forall i :: 0 <= i < |t| ==> IsSlugChar(t[i])) && NoDoubleHyphen(t)
  {
    var spaced := CollapseRuns(kept, IsSpace, '-');
    var t := CollapseRuns(spaced, IsHyphen, '-');
    assert forall c :: c in spaced ==> IsSlugChar(c);
    assert forall c :: c in t ==> IsSlugChar(c);
    forall i | 0 <= i < |t|
      ensures IsSlugChar(t[i]) && !IsSpace(t[i])
    {
      assert t[i] in t;
    }
    assert NoDoubleHyphen(t);
    TrimTrimmed(t);
  }

  /** Leading and trailing whitespace become hyphens that the final `trim` keeps. */
  lemma SlugKeepsEdgeHyphens()
    ensures GenerateSlug(" A ") == "-a-"
  {
    assert Filter(Lower(" A "), KeptBySlug) == " a " by {
      assert Lower(" A ") == " a ";
      KeptSpaced();
    }
    SpacesCollapse();
    HyphensCollapse();
  }

  lemma KeptSpaced()
    ensures Filter(" a ", KeptBySlug) == " a "
  {
    assert " a "[1..] == "a ";
    assert "a "[1..] == " ";
    assert " "[1..] == "";
  }

  lemma SpacesCollapse()
    ensures CollapseRuns(" a ", IsSpace, '-') == "-a-"
  {
    assert RunLen(" a ", IsSpace) == 1 by {
      assert " a "[1..] == "a ";
    }
    assert " a "[1..] == "a ";
    assert "a "[1..] == " ";
    assert CollapseRuns(" ", IsSpace, '-') == "-" by {
      assert " "[1..] == "";
      assert RunLen(" ", IsSpace) == 1;
    }
  }

  lemma HyphensCollapse()
    ensures CollapseRuns("-a-", IsHyphen, '-') == "-a-"
  {
    assert RunLen("-a-", IsHyphen) == 1 by {
      assert "-a-"[1..] == "a-";
    }
    assert "-a-"[1..] == "a-";
    assert "a-"[1..] == "-";
    assert CollapseRuns("-", IsHyphen, '-') == "-" by {
      assert "-"[1..] == "";
      assert RunLen("-", IsHyphen) == 1;
    }
  }

  /** A letter or digit of either case: what lower-cases to `IsAlphanumeric`. */
  predicate IsWordChar(c: char) {
    IsAlphanumeric(LowerChar(c))
  }

  /** A title made of letters and digits only is its own slug, lower-cased. */
  lemma SlugOfWord(x: string)
    requires forall i :: 0 <= i < |x| ==> IsWordChar(x[i])
    ensures GenerateSlug(x) == Lower(x)
  {
    var lx := Lower(x);
    FilterAll(lx, KeptBySlug);
    CollapseNone(lx, IsSpace, '-');
    CollapseNone(lx, IsHyphen, '-');
  }

  /**
   * Between two words, a non-empty run of whitespace, or one of hyphens,
   * becomes exactly one `-` of the slug.
   */
  lemma SlugSeparatesWords(x: string, w: string, y: string)
    requires forall i :: 0 <= i < |x| ==> IsWordChar(x[i])
    requires forall i :: 0 <= i < |y| ==> IsWordChar(y[i])
    requires w != []
    requires (forall i :: 0 <= i < |w| ==> IsSpace(w[i])) || (forall i :: 0 <= i < |w| ==> w[i] == '-')
    ensures GenerateSlug(x + w + y) == GenerateSlug(x) + "-" + GenerateSlug(y)
  {
    SlugOfWord(x);
    SlugOfWord(y);
    var lx, ly := Lower(x), Lower(y);
    LowerGap(x, w, y);
    SlugSteps(x + w + y);
    GapSlug(lx, w, ly);
    assert lx + ("-" + ly) == lx + "-" + ly;
  }

  /** `generateSlug` as its three steps. */
  lemma SlugSteps(title: string)
    ensures GenerateSlug(title)
      == CollapseRuns(CollapseRuns(Filter(Lower(title), KeptBySlug), IsSpace, '-'), IsHyphen, '-')
  {
  }

  /** Lower-casing keeps a gap of whitespace or hyphens. */
  lemma LowerGap(x: string, w: string, y: string)
    requires forall i :: 0 <= i < |w| ==> IsSpace(w[i]) || w[i] == '-'
    ensures Lower(x + w + y) == Lower(x) + (w + Lower(y))
  {
    LowerAppend(x + w, y);
    LowerAppend(x, w);
    assert Lower(w) == w;
  }

  /** The slug steps on two lower-case words around a gap of either kind. */
  lemma GapSlug(lx: string, w: string, ly: string)
    requires forall i :: 0 <= i < |lx| ==> IsAlphanumeric(lx[i])
    requires forall i :: 0 <= i < |ly| ==> IsAlphanumeric(ly[i])
    requires w != []
    requires (forall i :: 0 <= i < |w| ==> IsSpace(w[i])) || (forall i :: 0 <= i < |w| ==> w[i] == '-')
    ensures var s := lx + (w + ly);
      CollapseRuns(CollapseRuns(Filter(s, KeptBySlug), IsSpace, '-'), IsHyphen, '-') == lx + ("-" + ly)
  {
    var s := lx + (w + ly);
    assert Filter(s, KeptBySlug) == s by {
      FilterAll(s, KeptBySlug);
    }
    if forall i :: 0 <= i < |w| ==> IsSpace(w[i]) {
      SpaceGapSlug(lx, w, ly);
    } else {
      HyphenGapSlug(lx, w, ly);
    }
  }

  /** A whitespace gap becomes a hyphen, which the hyphen collapse keeps. */
  lemma SpaceGapSlug(lx: string, w: string, ly: string)
    requires forall i :: 0 <= i < |lx| ==> IsAlphanumeric(lx[i])
    requires forall i :: 0 <= i < |ly| ==> IsAlphanumeric(ly[i])
    requires w != [] && forall i :: 0 <= i < |w| ==> IsSpace(w[i])
    ensures CollapseRuns(CollapseRuns(lx + (w + ly), IsSpace, '-'), IsHyphen, '-') == lx + ("-" + ly)
  {
    GapCollapse(lx, w, ly, IsSpace);
    HyphenKept(lx, ly);
  }

  /** A hyphen gap passes the whitespace collapse and then becomes one hyphen. */
  lemma HyphenGapSlug(lx: string, w: string, ly: string)
    requires forall i :: 0 <= i < |lx| ==> IsAlphanumeric(lx[i])
    requires forall i :: 0 <= i < |ly| ==> IsAlphanumeric(ly[i])
    requires w != [] && forall i :: 0 <= i < |w| ==> w[i] == '-'
    ensures CollapseRuns(CollapseRuns(lx + (w + ly), IsSpace, '-'), IsHyphen, '-') == lx + ("-" + ly)
  {
    var s := lx + (w + ly);
    assert forall i :: 0 <= i < |s| ==> !IsSpace(s[i]);
    CollapseNone(s, IsSpace, '-');
    GapCollapse(lx, w, ly, IsHyphen);
  }

  /** A whole run of the class between two words becomes one `-`. */
  lemma GapCollapse(lx: string, w: string, ly: string, p: char -> bool)
    requires forall i :: 0 <= i < |lx| ==> !p(lx[i])
    requires forall i :: 0 <= i < |ly| ==> !p(ly[i])
    requires w != [] && forall i :: 0 <= i < |w| ==> p(w[i])
    ensures CollapseRuns(lx + (w + ly), p, '-') == lx + ("-" + ly)
  {
    CollapsePrefixNone(lx, w + ly, p, '-');
    CollapseWholeRun(w, ly, p, '-');
    CollapseNone(ly, p, '-');
  }

  /** A single hyphen between two words survives the hyphen collapse. */
  lemma HyphenKept(lx: string, ly: string)
    requires forall i :: 0 <= i < |lx| ==> IsAlphanumeric(lx[i])
    requires forall i :: 0 <= i < |ly| ==> IsAlphanumeric(ly[i])
    ensures CollapseRuns(lx + ("-" + ly), IsHyphen, '-') == lx + ("-" + ly)
  {
    GapCollapse(lx, "-", ly, IsHyphen);
  }

  /** A run of `p` reaching the end of `a` stops where `b` starts, when `b` does not begin with `p`. */
  lemma {:induction false} RunLenAppend(a: string, b: string, p: char -> bool)
    requires b == [] || !p(b[0])
    ensures RunLen(a + b, p) == RunLen(a, p)
    decreases |a|
  {
    if a == [] {
      assert a + b == b;
    } else {
      assert (a + b)[1..] == a[1..] + b;
      RunLenAppend(a[1..], b, p);
    }
  }

  /** A string entirely in the class is one run. */
  lemma {:induction false} RunLenAll(s: string, p: char -> bool)
    requires forall i :: 0 <= i < |s| ==> p(s[i])
    ensures RunLen(s, p) == |s|
    decreases |s|
  {
    if s != [] {
      RunLenAll(s[1..], p);
    }
  }

  /** A string with no character in the class is left as it is. */
  lemma {:induction false} CollapseNone(s: string, p: char -> bool, r: char)
    requires forall i :: 0 <= i < |s| ==> !p(s[i])
    ensures CollapseRuns(s, p, r) == s
    decreases |s|
  {
    if s != [] {
      CollapseNone(s[1..], p, r);
    }
  }

  /** A character outside the class passes through collapsing. */
  lemma CollapsePass(c: char, u: string, p: char -> bool, r: char)
    requires !p(c)
    ensures CollapseRuns([c] + u, p, r) == [c] + CollapseRuns(u, p, r)
  {
    assert ([c] + u)[1..] == u;
  }

  /** `CollapseRuns` on a string that begins with a run of the class. */
  lemma CollapseRunStep(s: string, p: char -> bool, r: char)
    requires s != [] && p(s[0])
    ensures CollapseRuns(s, p, r) == [r] + CollapseRuns(s[RunLen(s, p)..], p, r)
  {
  }

  /** A whole run of the class in front of text that does not begin with it becomes `r`. */
  lemma CollapseWholeRun(w: string, y: string, p: char -> bool, r: char)
    requires w != [] && (forall i :: 0 <= i < |w| ==> p(w[i])) && (y == [] || !p(y[0]))
    ensures CollapseRuns(w + y, p, r) == [r] + CollapseRuns(y, p, r)
  {
    var wy := w + y;
    assert wy[0] == w[0];
    RunLenAll(w, p);
    RunLenAppend(w, y, p);
    CollapseRunStep(wy, p, r);
    assert wy[|w|..] == y;
  }

  /** A prefix with no character in the class passes through collapsing. */
  lemma {:induction false} CollapsePrefixNone(a: string, b: string, p: char -> bool, r: char)
    requires forall i :: 0 <= i < |a| ==> !p(a[i])
    ensures CollapseRuns(a + b, p, r) == a + CollapseRuns(b, p, r)
    decreases |a|
  {
    if a == [] {
      assert a + b == b;
    } else {
      assert a + b == [a[0]] + (a[1..] + b);
      CollapsePrefixNone(a[1..], b, p, r);
      CollapsePass(a[0], a[1..] + b, p, r);
    }
  }

  /** The fields of a post object `searchPosts` reads; an absent field is empty, absent tags `None`. */
  datatype SearchPost = SearchPost(title: string, name: string, content: string, tags: Option<seq<string>>)

  /** `(post.title || post.name || '').toLowerCase()`. */
  function TitleText(p: SearchPost): string {
    Lower(if p.title != "" then p.title else p.name)
  }

  /** `Array.isArray(post.tags) ? post.tags.join(' ').toLowerCase() : ''`. */
  function TagText(p: SearchPost): string {
    if p.tags.Some? then Lower(Join(p.tags.value, ' ')) else ""
  }

  /** The filter test of `searchPosts` for the lower-cased query `term`. */
  predicate MatchesTerm(p: SearchPost, term: string) {
    Contains(TitleText(p), term) || Contains(Lower(p.content), term) || Contains(TagText(p), term)
  }

  function Matcher(term: string): SearchPost -> bool {
    p => MatchesTerm(p, term)
  }

  /**
   * `searchPosts(posts, query)`: a blank query returns the list itself;
   * otherwise the posts whose title (or name), content or tags contain the
   * lower-cased query (not trimmed), in their order.
   */
  function SearchPosts(posts: seq<SearchPost>, query: string): (r: seq<SearchPost>)
    ensures AllSpace(query) ==> r == posts
    ensures !AllSpace(query) ==> IsSubsequence(r, posts)
    ensures !AllSpace(query) ==> forall p :: p in r <==> p in posts && MatchesTerm(p, Lower(query))
  {
    AllSpaceTrim(query);
    if Trim(query) == "" then posts
    else Filter(posts, Matcher(Lower(query)))
  }

  /** The characters `escapeRegExp` puts a backslash in front of. */
  predicate IsRegExpSpecial(c: char) {
    c == '.' || c == '*' || c == '+' || c == '?' || c == '^' || c == '$' || c == '{' || c == '}'
    || c == '(' || c == ')' || c == '|' || c == '[' || c == ']' || c == '\\'
  }

  /** `escapeRegExp`: `string.replace(/[.*+?^${}()|[\]\\]/g, '\\$&')`. */
  function EscapeRegExp(s: string): (r: string)
    ensures |r| >= |s|
    ensures (forall i :: 0 <= i < |s| ==> !IsRegExpSpecial(s[i])) ==> r == s
    decreases |s|
  {
    if s == [] then []
    else (if IsRegExpSpecial(s[0]) then ['\\', s[0]] else [s[0]]) + EscapeRegExp(s[1..])
  }

  /** Reading an escaped pattern back: a backslash quotes the character after it. */
  function Unescape(t: string): (r: string)
    decreases |t|
  {
    if t == [] then []
    else if t[0] == '\\' && |t| >= 2 then [t[1]] + Unescape(t[2..])
    else [t[0]] + Unescape(t[1..])
  }

  /** Escaping loses nothing: the original string is read back from the pattern. */
  lemma {:induction false} UnescapeEscapeRegExp(s: string)
    ensures Unescape(EscapeRegExp(s)) == s
    decreases |s|
  {
    if s != [] {
      var rest := EscapeRegExp(s[1..]);
      UnescapeEscapeRegExp(s[1..]);
      if IsRegExpSpecial(s[0]) {
        var t := ['\\', s[0]] + rest;
        assert t[2..] == rest;
      } else {
        var t := [s[0]] + rest;
        assert t[1..] == rest;
        assert t[0] != '\\';
      }
    }
  }

  /** Escaping a concatenation escapes each part. */
  lemma {:induction false} EscapeRegExpAppend(a: string, b: string)
    ensures EscapeRegExp(a + b) == EscapeRegExp(a) + EscapeRegExp(b)
    decreases |a|
  {
    if a == [] {
      assert a + b == b;
    } else {
      assert (a + b)[0] == a[0];
      assert (a + b)[1..] == a[1..] + b;
      EscapeRegExpAppend(a[1..], b);
    }
  }

  /** Every special character comes out behind a backslash, every other one as it is. */
  lemma EscapeRegExpChar(c: char)
    ensures EscapeRegExp([c]) == if IsRegExpSpecial(c) then ['\\', c] else [c]
  {
    assert [c][1..] == [];
  }

  const POSTS_URL: string := "https://api.github.com/repos/bambans/bambans.github.io/contents/blog/posts/?ref=main"
  const RAW_BASE: string := "https://raw.githubusercontent.com/bambans/bambans.github.io/main/blog/posts/"

  /** `github.getPostsUrl()`. */
  function GetPostsUrl(): (u: string)
    ensures StartsWith(u, "https://api.github.com/repos/bambans/bambans.github.io/contents/blog/posts")
  {
    POSTS_URL
  }

  /** `github.getPostContentUrl(filename)`. */
  function GetPostContentUrl(filename: string): (u: string)
    ensures StartsWith(u, RAW_BASE) && u[|RAW_BASE|..] == filename
  {
    RAW_BASE + filename
  }

  /** The service worker routes both GitHub addresses to its GitHub strategy. */
  lemma GitHubUrlsRouted(u: SwRoutes.Url, filename: string)
    requires u.href == GetPostsUrl() || u.href == GetPostContentUrl(filename)
    ensures SwRoutes.IsGitHubApi(u)
  {
    if u.href == GetPostsUrl() {
      assert POSTS_URL == SwRoutes.GITHUB_CONTENTS_PREFIX + "/?ref=main";
    }
  }

  /** The `error` handed to `handleGitHubError`: its `response.status`, if any, and its `name`. */
  datatype GitHubError = GitHubError(responseStatus: Option<int>, name: string)

  /** The object `handleGitHubError` returns. */
  datatype ErrorInfo = ErrorInfo(technical: string, user: string, canRetry: bool)

  const DEFAULT_MESSAGE: string := "An error occurred"
  const DEFAULT_USER_MESSAGE: string := "Unable to load content. Please try again later."
  const RATE_LIMIT_MESSAGE: string := "GitHub API rate limit exceeded"
  const RATE_LIMIT_USER_MESSAGE: string := "API rate limit exceeded. Please wait a moment and try again."
  const NOT_FOUND_MESSAGE: string := "Content not found"
  const NOT_FOUND_USER_MESSAGE: string := "The requested content could not be found."
  const SERVER_MESSAGE: string := "GitHub server error"
  const SERVER_USER_MESSAGE: string := "GitHub is experiencing issues. Please try again later."
  const NETWORK_MESSAGE: string := "Network connection error"
  const NETWORK_USER_MESSAGE: string := "Please check your internet connection and try again."

  /** The two messages for an HTTP status. */
  function StatusMessages(status: int): (m: (string, string))
    ensures status == 403 ==> m == (RATE_LIMIT_MESSAGE, RATE_LIMIT_USER_MESSAGE)
    ensures status == 404 ==> m == (NOT_FOUND_MESSAGE, NOT_FOUND_USER_MESSAGE)
    ensures status == 500 ==> m == (SERVER_MESSAGE, SERVER_USER_MESSAGE)
    ensures status != 403 && status != 404 && status != 500 ==>
      m == ("HTTP " + IntToString(status) + " error", DEFAULT_USER_MESSAGE)
  {
    if status == 403 then (RATE_LIMIT_MESSAGE, RATE_LIMIT_USER_MESSAGE)
    else if status == 404 then (NOT_FOUND_MESSAGE, NOT_FOUND_USER_MESSAGE)
    else if status == 500 then (SERVER_MESSAGE, SERVER_USER_MESSAGE)
    else ("HTTP " + IntToString(status) + " error", DEFAULT_USER_MESSAGE)
  }

  /**
   * `handleGitHubError(error)`, with `navigator.onLine` given as `online`:
   * a response decides by its status, no response with a network failure
   * (or offline) is a connection error, anything else the default; only a
   * 404 is not worth retrying.
   */
  function HandleGitHubError(e: GitHubError, online: bool): (r: ErrorInfo)
    ensures r.canRetry <==> e.responseStatus != Some(404)
    ensures e.responseStatus.Some? ==> (r.technical, r.user) == StatusMessages(e.responseStatus.value)
    ensures e.responseStatus.None? && (e.name == "NetworkError" || !online) ==>
      r.technical == NETWORK_MESSAGE && r.user == NETWORK_USER_MESSAGE
    ensures e.responseStatus.None? && e.name != "NetworkError" && online ==>
      r.technical == DEFAULT_MESSAGE && r.user == DEFAULT_USER_MESSAGE
  {
    var canRetry := e.responseStatus != Some(404);
    match e.responseStatus
    case Some(status) =>
      var m := StatusMessages(status);
      ErrorInfo(m.0, m.1, canRetry)
    case None =>
      if e.name == "NetworkError" || !online then ErrorInfo(NETWORK_MESSAGE, NETWORK_USER_MESSAGE, canRetry)
      else ErrorInfo(DEFAULT_MESSAGE, DEFAULT_USER_MESSAGE, canRetry)
  }

  /** Every failure gets a message for the reader, and only a missing file is final. */
  lemma GitHubErrorUserMessage(e: GitHubError, online: bool)
    ensures HandleGitHubError(e, online).user != ""
    ensures !HandleGitHubError(e, online).canRetry ==> HandleGitHubError(e, online).user == NOT_FOUND_USER_MESSAGE
  {
  }

  function Sum(s: seq<int>): int
    decreases |s|
  {
    if s == [] then 0 else Sum(s[..|s| - 1]) + s[|s| - 1]
  }

  /** The sum of values between `lo` and `hi` lies between `n * lo` and `n * hi`. */
  lemma {:induction false} SumBounds(s: seq<int>, lo: int, hi: int)
    requires forall i :: 0 <= i < |s| ==> lo <= s[i] <= hi
    ensures |s| * lo <= Sum(s) <= |s| * hi
    decreases |s|
  {
    if s != [] {
      var init := s[..|s| - 1];
      assert forall i :: 0 <= i < |init| ==> init[i] == s[i];
      SumBounds(init, lo, hi);
      assert |s| * lo == |init| * lo + lo;
      assert |s| * hi == |init| * hi + hi;
    }
  }

  /** `Math.round(total / n)` for a positive `n`: the nearest integer, halves rounded up. */
  function RoundDiv(total: int, n: nat): (q: int)
    requires n > 0
    ensures 2 * n * q <= 2 * total + n < 2 * n * (q + 1)
    ensures total >= 0 ==> q >= 0
  {
    (2 * total + n) / (2 * n)
  }

  function Min(s: seq<int>): (m: int)
    requires s != []
    ensures forall i :: 0 <= i < |s| ==> m <= s[i]
    ensures m in s
    decreases |s|
  {
    if |s| == 1 then s[0] else var t := Min(s[1..]); if s[0] <= t then s[0] else t
  }

  function Max(s: seq<int>): (m: int)
    requires s != []
    ensures forall i :: 0 <= i < |s| ==> s[i] <= m
    ensures m in s
    decreases |s|
  {
    if |s| == 1 then s[0] else var t := Max(s[1..]); if s[0] >= t then s[0] else t
  }

  /**
   * `getAverageLoadTime`, over the `loadTime` of each recorded load: 0 when
   * nothing was recorded, else the rounded mean, which lies between the
   * smallest and the largest load time.
   */
  function GetAverageLoadTime(loadTimes: seq<int>): (r: int)
    ensures loadTimes == [] ==> r == 0
    ensures loadTimes != [] ==> Min(loadTimes) <= r <= Max(loadTimes)
    ensures loadTimes != [] ==> 2 * |loadTimes| * r <= 2 * Sum(loadTimes) + |loadTimes| < 2 * |loadTimes| * (r + 1)
  {
    if loadTimes == [] then 0
    else
      var n := |loadTimes|;
      var q := RoundDiv(Sum(loadTimes), n);
      SumBounds(loadTimes, Min(loadTimes), Max(loadTimes));
      RoundBetween(Sum(loadTimes), n, q, Min(loadTimes), Max(loadTimes));
      q
  }

  lemma RoundBetween(total: int, n: nat, q: int, lo: int, hi: int)
    requires n > 0 && n * lo <= total <= n * hi
    requires 2 * n * q <= 2 * total + n < 2 * n * (q + 1)
    ensures lo <= q <= hi
  {
    assert 2 * n * lo < 2 * n * (q + 1);
    assert 2 * n * q < 2 * n * (hi + 1);
    MulLess(2 * n, lo, q + 1);
    MulLess(2 * n, q, hi + 1);
  }

  lemma MulLess(m: nat, a: int, b: int)
    requires m > 0 && m * a < m * b
    ensures a < b
  {
  }
}
