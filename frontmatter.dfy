/**
 * YAML-like frontmatter as the blog code reads it: a block opened by `---`
 * on the first line and closed by the first later `---` line, then one
 * `key: value` pair per line.  Two line rules exist: the one shared by
 * `MarkdownRenderer.parseFrontmatter` and `BlogApp.loadPost` (plain text
 * values), and the one of `BlogUtils.parseFrontmatter` (bracketed values
 * become lists).
 */
module Frontmatter {
  import opened Optional
  import opened JsStrings

  const OPEN: string := "---\n"
  /** The closing delimiter of `^---\n([\s\S]*?)\n---\n([\s\S]*)$`. */
  const CLOSE: string := "\n---\n"
  /** The closing delimiter of `^---\n([\s\S]*?)\n---` (no newline after it). */
  const CLOSE_LOOSE: string := "\n---"

  /** `p` occurs in `s` starting at index `i`. */
  predicate OccursAt(s: string, p: string, i: int) {
    0 <= i && i + |p| <= |s| && s[i..i + |p|] == p
  }

  /** The first index at or after `from` where `p` occurs in `s`, or -1. */
  function FirstAt(s: string, p: string, from: nat): (r: int)
    requires from <= |s|
    ensures r == -1 ==> forall j :: from <= j ==> !OccursAt(s, p, j)
    ensures r != -1 ==> from <= r && OccursAt(s, p, r) && forall j :: from <= j < r ==> !OccursAt(s, p, j)
    decreases |s| - from
  {
    if OccursAt(s, p, from) then from
    else if from == |s| then
      assert forall j :: from <= j ==> !OccursAt(s, p, j) by {
        forall j | from < j ensures !OccursAt(s, p, j) {
          assert j > |s|;
        }
      }
      -1
    else FirstAt(s, p, from + 1)
  }

  /** The frontmatter text and what follows its closing delimiter. */
  datatype Parts = Parts(front: string, body: string)

  /**
   * The match of `^---\n([\s\S]*?)<close>` (the lazy group stops at the first
   * occurrence of `close` after the opening line); `body` is the rest.
   */
  function Delimit(content: string, close: string): (r: Option<Parts>)
    ensures r.Some? <==> StartsWith(content, OPEN) && exists j :: OccursAt(content[|OPEN|..], close, j)
    ensures r.Some? ==> content == OPEN + r.value.front + close + r.value.body
    ensures r.Some? ==> forall j :: 0 <= j < |r.value.front| ==> !OccursAt(content[|OPEN|..], close, j)
  {
    if !StartsWith(content, OPEN) then None
    else
      var rest := content[|OPEN|..];
      var i := FirstAt(rest, close, 0);
      if i == -1 then None
      else
        Reassemble(content, |OPEN|, i, |close|);
        Some(Parts(rest[..i], rest[i + |close|..]))
  }

  /** A string is its prefix, then two consecutive pieces of the rest, then what remains. */
  lemma Reassemble(s: string, n: nat, i: nat, m: nat)
    requires n + i + m <= |s|
    ensures s == s[..n] + s[n..][..i] + s[n..][i..i + m] + s[n..][i + m..]
  {
    var t := s[n..];
    assert t == t[..i] + t[i..i + m] + t[i + m..];
    assert s == s[..n] + t;
  }

  /** `content.match(/^---\n([\s\S]*?)\n---\n([\s\S]*)$/)`. */
  function Match(content: string): (r: Option<Parts>)
    ensures r.Some? <==> StartsWith(content, OPEN) && exists j :: OccursAt(content[|OPEN|..], CLOSE, j)
    ensures r.Some? ==> content == OPEN + r.value.front + CLOSE + r.value.body
  {
    Delimit(content, CLOSE)
  }

  /** Group 1 of `content.match(/^---\n([\s\S]*?)\n---/)`. */
  function LooseBlock(content: string): (r: Option<string>)
    ensures r.Some? <==> StartsWith(content, OPEN) && exists j :: OccursAt(content[|OPEN|..], CLOSE_LOOSE, j)
    ensures r.Some? ==> StartsWith(content, OPEN + r.value + CLOSE_LOOSE)
  {
    match Delimit(content, CLOSE_LOOSE)
    case None => None
    case Some(p) =>
      assert (OPEN + p.front + CLOSE_LOOSE + p.body)[..|OPEN + p.front + CLOSE_LOOSE|] == OPEN + p.front + CLOSE_LOOSE;
      Some(p.front)
  }

  /** A block whose text has no `\n---\n` splits exactly there. */
  lemma MatchCompose(front: string, body: string)
    requires forall j :: 0 <= j < |front| ==> !OccursAt(front + CLOSE + body, CLOSE, j)
    ensures Match(OPEN + front + CLOSE + body) == Some(Parts(front, body))
  {
    var content := OPEN + front + CLOSE + body;
    var rest := front + CLOSE + body;
    assert content[|OPEN|..] == rest;
    assert OccursAt(rest, CLOSE, |front|);
    var r := Delimit(content, CLOSE);
    var i := FirstAt(rest, CLOSE, 0);
    assert i == |front|;
    assert rest[..i] == front;
    assert rest[i + |CLOSE|..] == body;
  }

  predicate IsQuote(c: char) {
    c == '"' || c == '\''
  }

  predicate IsOpenBracket(c: char) {
    c == '['
  }

  predicate IsCloseBracket(c: char) {
    c == ']'
  }

  /**
   * `s.replace(/^L|T$/g, '')` for one-character classes `L` and `T`: at most
   * the first character (if in `L`) and then the last remaining one (if in `T`)
   * are removed; a lone character in either class leaves the empty string.
   */
  function StripEnds(s: string, lead: char -> bool, trail: char -> bool): (r: string)
    ensures |s| - 2 <= |r| <= |s|
    ensures forall c :: c in r ==> c in s
    ensures |s| == 0 ==> r == s
    ensures |s| == 1 ==> (r == "" <==> lead(s[0]) || trail(s[0]))
    ensures |s| >= 2 ==> r == s[(if lead(s[0]) then 1 else 0)..(if trail(s[|s| - 1]) then |s| - 1 else |s|)]
  {
    var a := if |s| > 0 && lead(s[0]) then 1 else 0;
    var b := if |s| > a && trail(s[|s| - 1]) then |s| - 1 else |s|;
    s[a..b]
  }

  /** `.replace(/^["']|["']$/g, '')`. */
  function StripQuotes(s: string): (r: string)
    ensures |s| >= 2 && IsQuote(s[0]) && IsQuote(s[|s| - 1]) ==> r == s[1..|s| - 1]
    ensures |s| >= 1 && !IsQuote(s[0]) && !IsQuote(s[|s| - 1]) ==> r == s
    ensures forall c :: c in r ==> c in s
  {
    StripEnds(s, IsQuote, IsQuote)
  }

  /** `.split(':')` puts the text before the first colon first and the rest, rejoined, after it. */
  lemma SplitAtFirstColon(line: string)
    ensures IndexOf(line, ':') < 0 ==> Split(line, ':') == [line]
    ensures IndexOf(line, ':') >= 0 ==>
      var parts := Split(line, ':'); var i := IndexOf(line, ':');
      |parts| > 1 && parts[0] == line[..i] && Join(parts[1..], ':') == line[i + 1..]
  {
    var i := IndexOf(line, ':');
    if i >= 0 {
      var tail := Split(line[i + 1..], ':');
      assert Split(line, ':') == [line[..i]] + tail;
      assert Split(line, ':')[1..] == tail;
      JoinSplit(line[i + 1..], ':');
    }
  }

  /**
   * The line rule of `const [key, ...value] = line.split(':')` followed by
   * `if (key && value.length > 0)`: a line counts when its first colon is past
   * index 0; the key is the trimmed text before it, the value the trimmed text
   * after it with one quote stripped from each end.
   */
  function MetaEntry(line: string): (r: Option<(string, string)>)
    ensures r.Some? <==> IndexOf(line, ':') > 0
    ensures r.Some? ==> r.value == (Trim(line[..IndexOf(line, ':')]), StripQuotes(Trim(line[IndexOf(line, ':') + 1..])))
  {
    SplitAtFirstColon(line);
    var parts := Split(line, ':');
    var key := parts[0];
    if key != "" && |parts[1..]| > 0 then Some((Trim(key), StripQuotes(Trim(Join(parts[1..], ':')))))
    else None
  }

  /** An object filled entry by entry (`obj[key] = value`): a later entry for a key overwrites. */
  function Assign<V>(entries: seq<Option<(string, V)>>): map<string, V>
    decreases |entries|
  {
    if entries == [] then map[]
    else
      var m := Assign(entries[..|entries| - 1]);
      match entries[|entries| - 1]
      case None => m
      case Some(kv) => m[kv.0 := kv.1]
  }

  predicate SetsKey<V>(e: Option<(string, V)>, k: string) {
    e.Some? && e.value.0 == k
  }

  /** The value of a key is the one of the last entry that sets it. */
  lemma {:induction false} AssignLast<V>(entries: seq<Option<(string, V)>>, i: nat, k: string, v: V)
    requires i < |entries| && entries[i] == Some((k, v))
    requires forall j :: i < j < |entries| ==> !SetsKey(entries[j], k)
    ensures k in Assign(entries) && Assign(entries)[k] == v
    decreases |entries|
  {
    var init := entries[..|entries| - 1];
    if i < |entries| - 1 {
      assert init[i] == entries[i];
      forall j | i < j < |init| ensures !SetsKey(init[j], k) {
        assert init[j] == entries[j];
      }
      AssignLast(init, i, k, v);
      assert !SetsKey(entries[|entries| - 1], k);
    }
  }

  /** A key no entry sets is absent. */
  lemma {:induction false} AssignUnset<V>(entries: seq<Option<(string, V)>>, k: string)
    requires forall j :: 0 <= j < |entries| ==> !SetsKey(entries[j], k)
    ensures k !in Assign(entries)
    decreases |entries|
  {
    if entries != [] {
      var init := entries[..|entries| - 1];
      forall j | 0 <= j < |init| ensures !SetsKey(init[j], k) {
        assert init[j] == entries[j];
      }
      AssignUnset(init, k);
      assert !SetsKey(entries[|entries| - 1], k);
    }
  }

  /** The entry `e` with its value passed through `f`. */
  function MapEntry<V, W>(e: Option<(string, V)>, f: V -> W): Option<(string, W)> {
    if e.Some? then Some((e.value.0, f(e.value.1))) else None
  }

  /** Entries with the same keys and values passed through `f` build the same object, passed through `f`. */
  lemma {:induction false} AssignMapped<V, W>(a: seq<Option<(string, V)>>, b: seq<Option<(string, W)>>, f: V -> W)
    requires |a| == |b|
    requires forall i :: 0 <= i < |a| ==> b[i] == MapEntry(a[i], f)
    ensures Assign(b).Keys == Assign(a).Keys
    ensures forall k :: k in Assign(a) ==> Assign(b)[k] == f(Assign(a)[k])
    decreases |a|
  {
    if a != [] {
      var n := |a| - 1;
      assert forall i :: 0 <= i < n ==> b[..n][i] == b[i] && a[..n][i] == a[i];
      AssignMapped(a[..n], b[..n], f);
    }
  }

  /** The entry each frontmatter line yields under `MetaEntry`. */
  function Entries(lines: seq<string>): (r: seq<Option<(string, string)>>)
    ensures |r| == |lines| && forall i :: 0 <= i < |lines| ==> r[i] == MetaEntry(lines[i])
  {
    seq(|lines|, i requires 0 <= i < |lines| => MetaEntry(lines[i]))
  }

  /** The metadata object built line by line: a later line with the same key overwrites. */
  function Metadata(lines: seq<string>): map<string, string> {
    Assign(Entries(lines))
  }

  /** The value of a key is the one given by the last line that sets it. */
  lemma MetadataLast(lines: seq<string>, i: nat, k: string, v: string)
    requires i < |lines| && MetaEntry(lines[i]) == Some((k, v))
    requires forall j :: i < j < |lines| ==> !SetsKey(MetaEntry(lines[j]), k)
    ensures k in Metadata(lines) && Metadata(lines)[k] == v
  {
    AssignLast(Entries(lines), i, k, v);
  }

  /** A key no line sets is absent from the metadata. */
  lemma MetadataUnset(lines: seq<string>, k: string)
    requires forall j :: 0 <= j < |lines| ==> !SetsKey(MetaEntry(lines[j]), k)
    ensures k !in Metadata(lines)
  {
    AssignUnset(Entries(lines), k);
  }

  /** `MarkdownRenderer.parseFrontmatter`, and the same parse inside `BlogApp.loadPost`. */
  function ParseFrontmatter(content: string): (r: (map<string, string>, string))
    ensures Match(content).None? ==> r == (map[], content)
    ensures Match(content).Some? ==> r.1 == Match(content).value.body
    ensures Match(content).Some? ==> r.0 == Metadata(Split(Match(content).value.front, '\n'))
  {
    match Match(content)
    case None => (map[], content)
    case Some(p) => (Metadata(Split(p.front, '\n')), p.body)
  }

  /** Content that does not open with a `---` line keeps its whole text as body. */
  lemma NoOpeningLine(content: string)
    requires !StartsWith(content, OPEN)
    ensures ParseFrontmatter(content) == (map[], content)
  {
  }

  /** A value of `BlogUtils.parseFrontmatter`: a string, or the list a bracketed value becomes. */
  datatype FmValue = Text(text: string) | Items(items: seq<string>)

  /** `value.slice(1, -1).split(',').map(item => item.trim().replace(...))`. */
  function ItemsOf(inner: string): (r: seq<string>)
    ensures |r| == |Split(inner, ',')| && |r| >= 1
    ensures forall i :: 0 <= i < |r| ==> ',' !in r[i]
  {
    var parts := Split(inner, ',');
    SplitFree(inner, ',');
    var r := seq(|parts|, i requires 0 <= i < |parts| => StripQuotes(Trim(parts[i])));
    assert forall i :: 0 <= i < |r| ==> ',' !in r[i] by {
      forall i | 0 <= i < |r| ensures ',' !in r[i] {
        assert forall c :: c in Trim(parts[i]) ==> c in parts[i];
      }
    }
    r
  }

  /** `v.startsWith('[') && v.endsWith(']')`; one character cannot do both. */
  predicate Bracketed(v: string) {
    |v| >= 2 && v[0] == '[' && v[|v| - 1] == ']'
  }

  lemma BracketedIsStartsEnds(v: string)
    ensures Bracketed(v) <==> StartsWith(v, "[") && EndsWith(v, "]")
  {
    if StartsWith(v, "[") && EndsWith(v, "]") {
      assert v[0] == '[';
      assert v[|v| - 1] == ']';
    }
  }

  /**
   * The line rule of `BlogUtils.parseFrontmatter`: the same lines count and
   * the same keys and texts result as with `MetaEntry`, except that a
   * bracketed text becomes the list of its comma-separated items.
   */
  function UtilsEntry(line: string): (r: Option<(string, FmValue)>)
    ensures r.Some? <==> MetaEntry(line).Some?
    ensures r.Some? ==> r.value.0 == MetaEntry(line).value.0
    ensures r.Some? && !Bracketed(MetaEntry(line).value.1) ==> r.value.1 == Text(MetaEntry(line).value.1)
    ensures r.Some? && Bracketed(MetaEntry(line).value.1) ==>
      var v := MetaEntry(line).value.1; r.value.1 == Items(ItemsOf(v[1..|v| - 1]))
  {
    var ci := IndexOf(line, ':');
    if ci > 0 then
      var key := Trim(line[..ci]);
      var v := StripQuotes(Trim(line[ci + 1..]));
      Some((key, if Bracketed(v) then Items(ItemsOf(v[1..|v| - 1])) else Text(v)))
    else None
  }

  /** What a text value becomes in `BlogUtils.parseFrontmatter`. */
  function AsUtilsValue(v: string): FmValue {
    if Bracketed(v) then Items(ItemsOf(v[1..|v| - 1])) else Text(v)
  }

  /** The frontmatter object of `BlogUtils.parseFrontmatter`, line by line; later lines overwrite. */
  function UtilsMetadata(lines: seq<string>): map<string, FmValue> {
    Assign(seq(|lines|, i requires 0 <= i < |lines| => UtilsEntry(lines[i])))
  }

  /**
   * Both parsers see the same keys; where the renderer keeps the text `v`,
   * `BlogUtils` keeps `v` itself or, when it is bracketed, its item list.
   */
  lemma UtilsMetadataAgrees(lines: seq<string>)
    ensures UtilsMetadata(lines).Keys == Metadata(lines).Keys
    ensures forall k :: k in Metadata(lines) ==> UtilsMetadata(lines)[k] == AsUtilsValue(Metadata(lines)[k])
  {
    var b := seq(|lines|, i requires 0 <= i < |lines| => UtilsEntry(lines[i]));
    forall i | 0 <= i < |lines| ensures b[i] == MapEntry(Entries(lines)[i], AsUtilsValue) {
      assert b[i] == UtilsEntry(lines[i]);
    }
    AssignMapped(Entries(lines), b, AsUtilsValue);
  }

  /** `BlogUtils.parseFrontmatter`: the frontmatter object and the remaining content. */
  function UtilsParseFrontmatter(content: string): (r: (map<string, FmValue>, string))
    ensures Match(content).None? ==> r == (map[], content)
    ensures r.1 == ParseFrontmatter(content).1
  {
    match Match(content)
    case None => (map[], content)
    case Some(p) => (UtilsMetadata(Split(p.front, '\n')), p.body)
  }

  /** The two parsers agree on keys, on body, and on every value up to list conversion. */
  lemma UtilsParseAgrees(content: string)
    ensures UtilsParseFrontmatter(content).0.Keys == ParseFrontmatter(content).0.Keys
    ensures forall k :: k in ParseFrontmatter(content).0 ==>
      UtilsParseFrontmatter(content).0[k] == AsUtilsValue(ParseFrontmatter(content).0[k])
  {
    if Match(content).Some? {
      UtilsMetadataAgrees(Split(Match(content).value.front, '\n'));
    }
  }
}
