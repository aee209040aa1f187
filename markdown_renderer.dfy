/**
 * `MarkdownRenderer` (blog/js/markdown-renderer.js): word counting and
 * reading time, the 32-bit string hash behind its cache keys, and the
 * 50-entry cache of rendered HTML kept by `render`.  The markdown engine
 * (`marked.parse` followed by `DOMPurify.sanitize`) is a function passed in.
 */
module MarkdownRenderer {
  import opened Optional
  import opened JsStrings
  import opened OrderedMaps
  import opened Words

  const WORDS_PER_MINUTE: nat := 200
  const CACHE_LIMIT: nat := 50

  const TWO_31: int := 0x8000_0000
  const TWO_32: int := 0x1_0000_0000

  /** `getWordCount`: the number of whitespace-separated words. */
  function GetWordCount(content: string): (n: nat)
    ensures n == |Tokens(content)|
    ensures n == 0 <==> AllSpace(content)
  {
    WordCountIsTokens(content);
    WordCountZero(content);
    WordCount(content)
  }

  /** `calculateReadingTime`: whole minutes at 200 words a minute, rounded up. */
  function CalculateReadingTime(content: string): (m: nat)
    ensures m * WORDS_PER_MINUTE >= GetWordCount(content)
    ensures m == 0 || (m - 1) * WORDS_PER_MINUTE < GetWordCount(content)
    ensures m == 0 <==> AllSpace(content)
  {
    CeilDiv(GetWordCount(content), WORDS_PER_MINUTE)
  }

  /** ECMAScript `ToInt32`: the signed 32-bit integer congruent to `x` modulo 2^32. */
  function Wrap32(x: int): (r: int)
    ensures -TWO_31 <= r < TWO_31
    ensures (r - x) % TWO_32 == 0
    ensures -TWO_31 <= x < TWO_31 ==> r == x
  {
    (x + TWO_31) % TWO_32 - TWO_31
  }

  /** Numbers congruent modulo 2^32 wrap to the same value. */
  lemma Wrap32Congruent(x: int, y: int)
    requires (x - y) % TWO_32 == 0
    ensures Wrap32(x) == Wrap32(y)
  {
    var k := (x - y) / TWO_32;
    assert x == y + k * TWO_32;
    assert (x + TWO_31) % TWO_32 == (y + TWO_31) % TWO_32 by {
      ModShift(y + TWO_31, k);
    }
  }

  lemma ModShift(a: int, k: int)
    ensures (a + k * TWO_32) % TWO_32 == a % TWO_32
  {
    var q := a / TWO_32;
    var r := a % TWO_32;
    assert a == q * TWO_32 + r;
    assert a + k * TWO_32 == (q + k) * TWO_32 + r;
  }

  /** One round of the loop as written: `hash = ((hash << 5) - hash) + char; hash = hash & hash`. */
  function HashRound(h: int, c: char): int {
    Wrap32(Wrap32(h * 32) - h + c as int)
  }

  /** The round is `h := ToInt32(31 * h + c)`. */
  lemma HashRoundIsMul31(h: int, c: char)
    ensures HashRound(h, c) == Wrap32(31 * h + c as int)
  {
    var w := Wrap32(h * 32);
    assert (w - h + c as int) - (31 * h + c as int) == w - h * 32;
    Wrap32Congruent(w - h + c as int, 31 * h + c as int);
  }

  /** The hash state after the characters of `s`, from 0. */
  function HashState(s: string): (h: int)
    ensures -TWO_31 <= h < TWO_31
    decreases |s|
  {
    if s == [] then 0 else Wrap32(31 * HashState(s[..|s| - 1]) + s[|s| - 1] as int)
  }

  function Abs(x: int): nat {
    if x < 0 then -x else x
  }

  /** `simpleHash` as a value: the magnitude of the hash state. */
  function Hash(s: string): (r: nat)
    ensures r <= TWO_31
    ensures s == [] ==> r == 0
  {
    Abs(HashState(s))
  }

  /** `simpleHash`: the loop over the characters, as written. */
  method SimpleHash(s: string) returns (r: nat)
    ensures r == Hash(s)
    ensures r <= TWO_31
  {
    var h := 0;
    var i := 0;
    while i < |s|
      invariant 0 <= i <= |s|
      invariant h == HashState(s[..i])
    {
      HashRoundIsMul31(h, s[i]);
      assert s[..i + 1][..i] == s[..i];
      h := HashRound(h, s[i]);
      i := i + 1;
    }
    assert s[..|s|] == s;
    r := if h < 0 then -h else h;
  }

  /** `getCacheKey(content, options)`, with `JSON.stringify(options)` given as `options`. */
  function GetCacheKey(content: string, options: string): string {
    NatToString(|content|) + "-" + NatToString(Hash(content)) + "-" + NatToString(Hash(options))
  }

  lemma NoDashInNumber(n: nat)
    ensures '-' !in NatToString(n)
  {
  }

  /** The key determines the content length and both hashes. */
  lemma CacheKeyDetermines(a: string, o: string, b: string, p: string)
    requires GetCacheKey(a, o) == GetCacheKey(b, p)
    ensures |a| == |b| && Hash(a) == Hash(b) && Hash(o) == Hash(p)
  {
    NoDashInNumber(|a|); NoDashInNumber(Hash(a)); NoDashInNumber(Hash(o));
    NoDashInNumber(|b|); NoDashInNumber(Hash(b)); NoDashInNumber(Hash(p));
    DashedThree(NatToString(|a|), NatToString(Hash(a)), NatToString(Hash(o)),
                NatToString(|b|), NatToString(Hash(b)), NatToString(Hash(p)));
    NatToStringInjective(|a|, |b|);
    NatToStringInjective(Hash(a), Hash(b));
    NatToStringInjective(Hash(o), Hash(p));
  }

  /** Three dash-free fields joined by dashes are read back one by one. */
  lemma DashedThree(x0: string, x1: string, x2: string, y0: string, y1: string, y2: string)
    requires '-' !in x0 && '-' !in x1 && '-' !in x2
    requires '-' !in y0 && '-' !in y1 && '-' !in y2
    requires x0 + "-" + x1 + "-" + x2 == y0 + "-" + y1 + "-" + y2
    ensures x0 == y0 && x1 == y1 && x2 == y2
  {
    assert x0 + "-" + x1 + "-" + x2 == x0 + ['-'] + (x1 + ['-'] + x2);
    assert y0 + "-" + y1 + "-" + y2 == y0 + ['-'] + (y1 + ['-'] + y2);
    SepCut(x0, x1 + ['-'] + x2, y0, y1 + ['-'] + y2, '-');
    SepCut(x1, x2, y1, y2, '-');
  }

  /** The first separator cuts two equal strings at the same place. */
  lemma SepCut(a: string, x: string, b: string, y: string, sep: char)
    requires sep !in a && sep !in b
    requires a + [sep] + x == b + [sep] + y
    ensures a == b && x == y
  {
    IndexOfAfter(a, sep, x);
    IndexOfAfter(b, sep, y);
    Around(a, sep, x);
    Around(b, sep, y);
  }

  /** Different contents can share a key: "Aa" and "BB" have the same length and hash. */
  lemma CacheKeyCollision(options: string)
    ensures GetCacheKey("Aa", options) == GetCacheKey("BB", options)
  {
    assert "Aa"[..1] == "A" && "BB"[..1] == "B";
    assert HashState("A") == 65 && HashState("B") == 66;
    assert HashState("Aa") == 2112 && HashState("BB") == 2112;
  }

  /** What the engine (`marked.parse`, then `DOMPurify.sanitize`) does with the content. */
  datatype Rendered = Html(html: string) | Fails(message: string)

  const MARKED_MISSING: string := "Marked library not available"

  /** The markup `render` returns when rendering throws. */
  function ErrorHtml(message: string): string {
    "<div class=\"error-message\">Error rendering content: " + message + "</div>"
  }

  ghost predicate Bounded(c: OrderedMap<string, string>) {
    c.Valid() && |c.keys| <= CACHE_LIMIT
  }

  /** A fresh `html` under `key`: set it, then drop the oldest key if the cache grew past 50. */
  function Admit(c: OrderedMap<string, string>, key: string, html: string): (d: OrderedMap<string, string>)
    requires Bounded(c) && key !in c.values
    ensures Bounded(d)
    ensures d.Get(key) == Some(html)
    ensures |c.keys| < CACHE_LIMIT ==> d.keys == c.keys + [key] && d.values == c.values[key := html]
    ensures |c.keys| == CACHE_LIMIT ==> d.keys == c.keys[1..] + [key] && d.values == c.values[key := html] - {c.keys[0]}
  {
    var e := c.Set(key, html);
    if |e.keys| > CACHE_LIMIT then
      DeleteFirst(e);
      assert e.keys[0] == c.keys[0] && e.keys[1..] == c.keys[1..] + [key];
      assert c.keys[0] != key;
      e.Delete(e.keys[0])
    else e
  }

  /**
   * One `render(content, options)` against cache `c`: the returned markup and
   * the cache afterwards.
   */
  function RenderStep(c: OrderedMap<string, string>, key: string, markedLoaded: bool, out: Rendered): (r: (string, OrderedMap<string, string>))
    requires Bounded(c)
    ensures Bounded(r.1)
    ensures key in c.values ==> r == (c.values[key], c)
    ensures key !in c.values && !markedLoaded ==> r == (ErrorHtml(MARKED_MISSING), c)
    ensures key !in c.values && markedLoaded && out.Fails? ==> r == (ErrorHtml(out.message), c)
    ensures key !in c.values && markedLoaded && out.Html? ==> r.0 == out.html && r.1 == Admit(c, key, out.html)
  {
    if key in c.values then (c.values[key], c)
    else if !markedLoaded then (ErrorHtml(MARKED_MISSING), c)
    else match out
      case Fails(m) => (ErrorHtml(m), c)
      case Html(h) => (h, Admit(c, key, h))
  }

  /** A second render of the same input is answered from the cache with the same markup. */
  lemma RenderTwice(c: OrderedMap<string, string>, key: string, markedLoaded: bool, out: Rendered, out2: Rendered)
    requires Bounded(c)
    ensures var first := RenderStep(c, key, markedLoaded, out);
      (first.1.Get(key).Some? ==> RenderStep(first.1, key, markedLoaded, out2) == (first.0, first.1))
  {
  }

  /** Failures leave the cache as it was, so a later render tries again. */
  lemma ErrorsNotCached(c: OrderedMap<string, string>, key: string, markedLoaded: bool, out: Rendered)
    requires Bounded(c) && key !in c.values
    requires !markedLoaded || out.Fails?
    ensures key !in RenderStep(c, key, markedLoaded, out).1.values
  {
  }

  /** The renderer with its module-level cache. */
  class Renderer {
    var cache: OrderedMap<string, string>

    ghost predicate Valid()
      reads this
    {
      Bounded(cache)
    }

    constructor()
      ensures Valid() && cache == Empty()
    {
      cache := Empty();
    }

    /**
     * `render(content, options)`: `markedLoaded` is whether `marked` is
     * defined and `engine` what parsing and sanitising do with the content.
     */
    method Render(content: string, options: string, markedLoaded: bool, engine: string -> Rendered) returns (html: string)
      requires Valid()
      modifies this
      ensures Valid()
      ensures (html, cache) == RenderStep(old(cache), GetCacheKey(content, options), markedLoaded, engine(content))
    {
      var key := GetCacheKey(content, options);
      if cache.Has(key) {
        return cache.values[key];
      }
      if !markedLoaded {
        return ErrorHtml(MARKED_MISSING);
      }
      match engine(content) {
        case Fails(m) =>
          html := ErrorHtml(m);
        case Html(h) =>
          cache := cache.Set(key, h);
          if cache.Size() > CACHE_LIMIT {
            var first := cache.keys[0];
            cache := cache.Delete(first);
          }
          html := h;
      }
    }

    /** `clearCache`. */
    method ClearCache()
      modifies this
      ensures Valid() && cache == Empty()
    {
      cache := Empty();
    }
  }
}
