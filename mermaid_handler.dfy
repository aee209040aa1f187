/**
 * `MermaidHandler` (blog/js/mermaid-handler.js): which code blocks count as
 * Mermaid charts, the journey-map normaliser `preprocessDefinition`, the
 * element collection of `findMermaidElements`, and the render queue that
 * holds charts back until the library is initialised.  The page (`textContent`,
 * `querySelectorAll`) and the drawing itself (`mermaid.render`) are parameters
 * or a record of what was handed to the renderer.
 */
module MermaidHandler {
  import opened Optional
  import opened Seqs
  import opened JsStrings
  import opened Words

  const KEYWORDS: seq<string> := [
    "graph", "flowchart", "sequenceDiagram", "classDiagram",
    "stateDiagram", "journey", "gantt", "pie", "gitgraph",
    "gitGraph", "requirement", "erDiagram", "mindmap",
    "timeline", "quadrantChart", "xychart", "block"
  ]

  const JOURNEY: string := "journey"
  const FENCE: string := "```"

  // ---------------------------------------------------------------------------
  // The task-line pattern /:\s*\d+\s*:/
  // ---------------------------------------------------------------------------

  /** Length of the leading run of decimal digits. */
  function DigitLen(s: string): (n: nat)
    ensures n <= |s|
    ensures forall i :: 0 <= i < n ==> IsDigit(s[i])
    ensures n == |s| || !IsDigit(s[n])
    decreases |s|
  {
    if |s| > 0 && IsDigit(s[0]) then 1 + DigitLen(s[1..]) else 0
  }

  /**
   * The pattern matches at the start of `s`.  None of its three runs can give
   * characters back (a shorter `\s*` leaves a blank where a digit must be, a
   * shorter `\d+` a digit where `\s*` or `:` must be), so each run is taken in
   * full.
   */
  predicate TaskAt(s: string) {
    |s| > 0 && s[0] == ':' &&
    var a := s[1..];
    var b := a[LeadLen(a)..];
    var d := DigitLen(b);
    d > 0 &&
    var c := b[d..];
    LeadLen(c) < |c| && c[LeadLen(c)] == ':'
  }

  /** `/:\s*\d+\s*:/.test(s)`: the pattern matches at some position. */
  predicate HasTaskMarker(s: string)
    decreases |s|
  {
    TaskAt(s) || (|s| > 0 && HasTaskMarker(s[1..]))
  }

  /** A line the pattern matches contains a colon, so `line.includes(':')` adds nothing. */
  lemma {:induction false} TaskMarkerHasColon(s: string)
    requires HasTaskMarker(s)
    ensures Contains(s, ":")
    decreases |s|
  {
    if TaskAt(s) {
      assert s[..1] == ":";
    } else {
      TaskMarkerHasColon(s[1..]);
    }
  }

  /** A task line of a journey map, "Make tea: 5: Me", carries the marker. */
  lemma TaskLineExample()
    ensures HasTaskMarker(":5:")
  {
    assert ":5:"[1..] == "5:";
    assert LeadLen("5:") == 0;
    assert DigitLen("5:") == 1;
    assert "5:"[1..] == ":";
    assert LeadLen(":") == 0;
  }

  // ---------------------------------------------------------------------------
  // isMermaidContent
  // ---------------------------------------------------------------------------

  predicate StartsWithKeyword(t: string) {
    exists i :: 0 <= i < |KEYWORDS| && StartsWith(t, KEYWORDS[i])
  }

  /** The journey test of `isMermaidContent`. */
  predicate IsJourney(t: string) {
    StartsWith(t, JOURNEY) && (Contains(t, "title") || Contains(t, "section") || HasTaskMarker(t))
  }

  /** Neither a fence nor the word "example" in any case appears (on the untrimmed content). */
  predicate IsNotExample(content: string) {
    !Contains(content, FENCE) && !Contains(Lower(content), "example") && !Contains(content, "EXAMPLE")
  }

  /** `isMermaidContent(content)`. */
  function IsMermaidContent(content: string): bool {
    var trimmed := Trim(content);
    (StartsWithKeyword(trimmed) || IsJourney(trimmed)) && IsNotExample(content)
  }

  lemma {:induction false} ContainsLower(s: string, p: string)
    requires Contains(s, p)
    ensures Contains(Lower(s), Lower(p))
    decreases |s|
  {
    if StartsWith(s, p) {
      assert Lower(s)[..|p|] == Lower(p);
    } else {
      ContainsLower(s[1..], p);
      assert Lower(s)[1..] == Lower(s[1..]);
    }
  }

  lemma LowerExample()
    ensures Lower("EXAMPLE") == "example"
  {
    var w := "EXAMPLE";
    var l := Lower(w);
    assert w[0] == 'E' && w[1] == 'X' && w[2] == 'A' && w[3] == 'M' && w[4] == 'P' && w[5] == 'L' && w[6] == 'E';
    assert l[0] == 'e' && l[1] == 'x' && l[2] == 'a' && l[3] == 'm' && l[4] == 'p' && l[5] == 'l' && l[6] == 'e';
  }

  /**
   * The content is a chart exactly when, trimmed, it starts with a keyword and
   * it holds neither a fence nor "example" in any letter case: the journey test
   * and the upper-case test add nothing.
   */
  lemma MermaidContentIff(content: string)
    ensures IsMermaidContent(content) <==>
      StartsWithKeyword(Trim(content)) && !Contains(content, FENCE) && !Contains(Lower(content), "example")
  {
    var t := Trim(content);
    if IsJourney(t) {
      assert KEYWORDS[5] == JOURNEY;
    }
    if Contains(content, "EXAMPLE") {
      ContainsLower(content, "EXAMPLE");
      LowerExample();
    }
  }

  // ---------------------------------------------------------------------------
  // preprocessDefinition
  // ---------------------------------------------------------------------------

  /** `' '.repeat(n)`. */
  function Spaces(n: nat): (r: string)
    ensures |r| == n
  {
    if n == 0 then "" else [' '] + Spaces(n - 1)
  }

  /** Padding is whitespace and holds no line break. */
  lemma {:induction false} SpacesShape(n: nat)
    ensures AllSpace(Spaces(n)) && '\n' !in Spaces(n)
  {
    if n > 0 {
      SpacesShape(n - 1);
      AllSpaceAppend([' '], Spaces(n - 1));
    }
  }

  /** The indentation rule for one trimmed journey line. */
  function IndentWidth(line: string): nat {
    if line == JOURNEY then 0
    else if StartsWith(line, "title ") || StartsWith(line, "section ") then 4
    else if Contains(line, ":") && HasTaskMarker(line) then 6
    else 4
  }

  function IndentLine(line: string): (r: string)
    ensures '\n' !in line ==> '\n' !in r
  {
    SpacesShape(IndentWidth(line));
    Spaces(IndentWidth(line)) + line
  }

  /** An indented trimmed line trims back to the line. */
  lemma IndentLineTrim(line: string)
    requires IsTrimmed(line)
    ensures Trim(IndentLine(line)) == line
  {
    SpacesShape(IndentWidth(line));
    TrimSkipsLeadingSpace(Spaces(IndentWidth(line)), line);
    TrimTrimmed(line);
  }

  function TrimAll(lines: seq<string>): (r: seq<string>)
    ensures |r| == |lines|
    ensures forall i :: 0 <= i < |r| ==> r[i] == Trim(lines[i])
  {
    seq(|lines|, i requires 0 <= i < |lines| => Trim(lines[i]))
  }

  function Indented(lines: seq<string>): (r: seq<string>)
    ensures |r| == |lines|
    ensures forall i :: 0 <= i < |r| ==> r[i] == IndentLine(lines[i])
  {
    seq(|lines|, i requires 0 <= i < |lines| => IndentLine(lines[i]))
  }

  lemma IndentedSnoc(lines: seq<string>, i: nat)
    requires i < |lines|
    ensures Indented(lines)[..i + 1] == Indented(lines)[..i] + [IndentLine(lines[i])]
  {
  }

  /** `processed.split('\n').map(line => line.trim()).filter(line => line)`. */
  function CleanLines(processed: string): seq<string> {
    Filter(TrimAll(Split(processed, '\n')), NonEmpty)
  }

  /** What `preprocessDefinition` returns. */
  function Preprocessed(definition: string): string {
    var processed := Trim(definition);
    if StartsWith(processed, JOURNEY) then Join(Indented(CleanLines(processed)), '\n')
    else processed
  }

  /** The body of the loop in `preprocessDefinition`: one cleaned line, indented. */
  method IndentJourneyLine(line: string) returns (out: string)
    ensures out == IndentLine(line)
  {
    if line == JOURNEY {
      out := JOURNEY;
    } else if StartsWith(line, "title ") {
      out := Spaces(4) + line;
    } else if StartsWith(line, "section ") {
      out := Spaces(4) + line;
    } else if Contains(line, ":") && HasTaskMarker(line) {
      out := Spaces(6) + line;
    } else {
      out := Spaces(4) + line;
    }
    assert Spaces(0) + line == line;
  }

  /** `preprocessDefinition(definition)`: the loop that indents the cleaned journey lines. */
  method PreprocessDefinition(definition: string) returns (processed: string)
    ensures processed == Preprocessed(definition)
    ensures !StartsWith(Trim(definition), JOURNEY) ==> processed == Trim(definition)
  {
    processed := Trim(definition);
    if StartsWith(processed, JOURNEY) {
      var lines := CleanLines(processed);
      var result: seq<string> := [];
      for i := 0 to |lines|
        invariant result == Indented(lines)[..i]
      {
        var out := IndentJourneyLine(lines[i]);
        IndentedSnoc(lines, i);
        result := result + [out];
      }
      assert result == Indented(lines);
      processed := Join(result, '\n');
    }
  }

  /** Trimming pieces free of a character keeps them free of it. */
  lemma TrimAllNoNewline(lines: seq<string>)
    requires forall i :: 0 <= i < |lines| ==> '\n' !in lines[i]
    ensures forall i :: 0 <= i < |lines| ==> '\n' !in TrimAll(lines)[i]
  {
    forall i | 0 <= i < |lines|
      ensures '\n' !in TrimAll(lines)[i]
    {
      var s := lines[i];
      var a := LeadLen(s);
      var t := Trim(s);
      assert forall j :: 0 <= j < |t| ==> t[j] == s[a + j];
    }
  }

  /** A trimmed piece without line breaks. */
  predicate CleanLine(s: string) {
    IsTrimmed(s) && '\n' !in s
  }

  /** Filtering keeps a property every element has. */
  lemma {:induction false} FilterKeeps(s: seq<string>, p: string -> bool, q: string -> bool)
    requires forall i :: 0 <= i < |s| ==> q(s[i])
    ensures forall i :: 0 <= i < |Filter(s, p)| ==> q(Filter(s, p)[i])
    decreases |s|
  {
    if s != [] {
      FilterKeeps(s[1..], p, q);
    }
  }

  /** The cleaned lines are non-empty, trimmed and free of line breaks. */
  lemma CleanLinesShape(processed: string)
    ensures forall i :: 0 <= i < |CleanLines(processed)| ==>
      CleanLines(processed)[i] != "" && IsTrimmed(CleanLines(processed)[i]) && '\n' !in CleanLines(processed)[i]
  {
    var pieces := Split(processed, '\n');
    SplitFree(processed, '\n');
    TrimAllNoNewline(pieces);
    var trimmed := TrimAll(pieces);
    assert forall i :: 0 <= i < |trimmed| ==> CleanLine(trimmed[i]);
    FilterKeeps(trimmed, NonEmpty, CleanLine);
  }

  predicate NotBlank(s: string) {
    !AllSpace(s)
  }

  lemma TrimAllCons(a: string, rest: seq<string>)
    ensures TrimAll([a] + rest) == [Trim(a)] + TrimAll(rest)
  {
  }

  /** Dropping empty trimmed lines is trimming the non-blank lines. */
  lemma {:induction false} CleanIsTrimmedNonBlank(lines: seq<string>)
    ensures Filter(TrimAll(lines), NonEmpty) == TrimAll(Filter(lines, NotBlank))
    decreases |lines|
  {
    if lines != [] {
      assert TrimAll(lines)[1..] == TrimAll(lines[1..]);
      CleanIsTrimmedNonBlank(lines[1..]);
      AllSpaceTrim(lines[0]);
      if NotBlank(lines[0]) {
        TrimAllCons(lines[0], Filter(lines[1..], NotBlank));
      }
    }
  }

  /** A line starting with "journey" still starts with it once trimmed. */
  lemma TrimKeepsJourney(x: string)
    requires StartsWith(x, JOURNEY)
    ensures StartsWith(Trim(x), JOURNEY)
  {
    assert x[0] == x[..7][0] && x[6] == x[..7][6];
    LeadLenOfTrimmed(x);
    var n := TrailLen(x);
    TrailSpaces(x);
    assert !IsSpace(x[6]);
    assert n <= |x| - 7;
    assert Trim(x) == x[..|x| - n];
    assert Trim(x)[..7] == x[..7];
  }

  /** The first piece of a journey definition starts with "journey". */
  lemma FirstPieceJourney(processed: string)
    requires StartsWith(processed, JOURNEY)
    ensures StartsWith(Split(processed, '\n')[0], JOURNEY)
  {
    var i := IndexOf(processed, '\n');
    assert '\n' !in JOURNEY;
    forall j | 0 <= j < 7
      ensures processed[j] != '\n'
    {
      assert processed[j] == processed[..7][j];
    }
    if i >= 0 {
      assert i >= 7;
      assert Split(processed, '\n')[0] == processed[..i];
      assert processed[..i][..7] == processed[..7];
    }
  }

  lemma FilterKeepsFirst(s: seq<string>)
    requires |s| > 0 && s[0] != ""
    ensures Filter(s, NonEmpty) == [s[0]] + Filter(s[1..], NonEmpty)
  {
  }

  /** A journey definition's first cleaned line starts with "journey". */
  lemma FirstCleanLine(processed: string)
    requires StartsWith(processed, JOURNEY)
    ensures |CleanLines(processed)| >= 1 && StartsWith(CleanLines(processed)[0], JOURNEY)
  {
    var pieces := Split(processed, '\n');
    FirstPieceJourney(processed);
    TrimKeepsJourney(pieces[0]);
    var trimmed := TrimAll(pieces);
    assert trimmed[0] == Trim(pieces[0]);
    FilterKeepsFirst(trimmed);
  }

  /** The last character of a join is the last character of the last piece. */
  lemma {:induction false} JoinLast(parts: seq<string>, sep: char)
    requires |parts| >= 1 && parts[|parts| - 1] != ""
    ensures var j := Join(parts, sep); var l := parts[|parts| - 1];
      j != "" && j[|j| - 1] == l[|l| - 1]
    decreases |parts|
  {
    if |parts| > 1 {
      JoinLast(parts[1..], sep);
    }
  }

  /** The first line of a journey output stripped of its indent; the rest as they are. */
  function Unindented(lines: seq<string>): (u: seq<string>)
    requires |lines| >= 1
    ensures |u| == |lines| && u[0] == lines[0]
    ensures forall i :: 1 <= i < |u| ==> u[i] == Indented(lines)[i]
  {
    seq(|lines|, i requires 0 <= i < |lines| => if i == 0 then lines[0] else IndentLine(lines[i]))
  }

  /** The output is the first line's indent in front of the output without it. */
  lemma JoinIndented(lines: seq<string>)
    requires |lines| >= 1
    ensures Join(Indented(lines), '\n') == Spaces(IndentWidth(lines[0])) + Join(Unindented(lines), '\n')
  {
    var ind, u := Indented(lines), Unindented(lines);
    var pad := Spaces(IndentWidth(lines[0]));
    if |lines| > 1 {
      assert ind[1..] == u[1..];
      var rest := ['\n'] + Join(u[1..], '\n');
      assert Join(ind, '\n') == (pad + lines[0]) + rest;
      assert Join(u, '\n') == lines[0] + rest;
      AppendAssoc(pad, lines[0], rest);
    }
  }

  /** The output without its first indent begins with the first line. */
  lemma UnindentedStart(lines: seq<string>)
    requires |lines| >= 1
    ensures StartsWith(Join(Unindented(lines), '\n'), lines[0])
  {
    var u := Unindented(lines);
    if |lines| > 1 {
      assert Join(u, '\n') == lines[0] + (['\n'] + Join(u[1..], '\n'));
    }
  }

  /** The output without its first indent ends with the last character of the last line. */
  lemma UnindentedEnd(lines: seq<string>)
    requires |lines| >= 1 && lines[|lines| - 1] != ""
    ensures var y := Join(Unindented(lines), '\n'); var last := lines[|lines| - 1];
      y != [] && y[|y| - 1] == last[|last| - 1]
  {
    var u := Unindented(lines);
    var last := lines[|lines| - 1];
    if |lines| > 1 {
      assert u[|u| - 1] == IndentLine(last);
      IndentLineLast(last);
    }
    JoinLast(u, '\n');
  }

  /** Indenting a line keeps its last character. */
  lemma IndentLineLast(line: string)
    requires line != ""
    ensures var v := IndentLine(line); v != "" && v[|v| - 1] == line[|line| - 1]
  {
  }

  /** The output, trimmed, is the output with the first indent removed. */
  lemma TrimOutput(lines: seq<string>)
    requires |lines| >= 1
    requires forall i :: 0 <= i < |lines| ==> lines[i] != "" && IsTrimmed(lines[i])
    ensures Trim(Join(Indented(lines), '\n')) == Join(Unindented(lines), '\n')
  {
    var y := Join(Unindented(lines), '\n');
    JoinIndented(lines);
    UnindentedStart(lines);
    UnindentedEnd(lines);
    assert y[0] == lines[0][0];
    assert IsTrimmed(y);
    SpacesShape(IndentWidth(lines[0]));
    TrimSkipsLeadingSpace(Spaces(IndentWidth(lines[0])), y);
    TrimTrimmed(y);
  }

  /** A second pass sees the same cleaned lines. */
  lemma ReCleanLines(lines: seq<string>)
    requires |lines| >= 1
    requires forall i :: 0 <= i < |lines| ==> lines[i] != "" && IsTrimmed(lines[i]) && '\n' !in lines[i]
    ensures CleanLines(Join(Unindented(lines), '\n')) == lines
  {
    var u := Unindented(lines);
    SplitJoin(u, '\n');
    forall i | 0 <= i < |u|
      ensures TrimAll(u)[i] == lines[i]
    {
      if i == 0 {
        TrimTrimmed(lines[0]);
      } else {
        IndentLineTrim(lines[i]);
      }
    }
    assert TrimAll(u) == lines;
    FilterAll(lines, NonEmpty);
  }

  /**
   * A journey definition comes out as one line per non-blank input line, in
   * order: each line trimmed and indented by the rule of `IndentWidth`.
   */
  lemma JourneyLines(definition: string)
    requires StartsWith(Trim(definition), JOURNEY)
    ensures var processed := Trim(definition);
      Split(Preprocessed(definition), '\n') == Indented(TrimAll(Filter(Split(processed, '\n'), NotBlank)))
  {
    var processed := Trim(definition);
    var lines := CleanLines(processed);
    CleanLinesShape(processed);
    FirstCleanLine(processed);
    CleanIsTrimmedNonBlank(Split(processed, '\n'));
    SplitJoin(Indented(lines), '\n');
  }

  lemma PreprocessedJourney(definition: string)
    requires StartsWith(Trim(definition), JOURNEY)
    ensures Preprocessed(definition) == Join(Indented(CleanLines(Trim(definition))), '\n')
  {
  }

  /** Journey output built from clean lines is a fixed point. */
  lemma SecondPass(lines: seq<string>)
    requires |lines| >= 1 && StartsWith(lines[0], JOURNEY)
    requires forall i :: 0 <= i < |lines| ==> lines[i] != "" && IsTrimmed(lines[i]) && '\n' !in lines[i]
    ensures Preprocessed(Join(Indented(lines), '\n')) == Join(Indented(lines), '\n')
  {
    var out := Join(Indented(lines), '\n');
    var y := Join(Unindented(lines), '\n');
    TrimOutput(lines);
    assert StartsWith(Trim(out), JOURNEY) by {
      UnindentedStart(lines);
      StartsWithTrans(y, lines[0], JOURNEY);
    }
    PreprocessedJourney(out);
    ReCleanLines(lines);
  }

  /** `preprocessDefinition` is idempotent. */
  lemma PreprocessIdempotent(definition: string)
    ensures Preprocessed(Preprocessed(definition)) == Preprocessed(definition)
  {
    var processed := Trim(definition);
    if StartsWith(processed, JOURNEY) {
      PreprocessedJourney(definition);
      CleanLinesShape(processed);
      FirstCleanLine(processed);
      SecondPass(CleanLines(processed));
    } else {
      TrimIdempotent(definition);
    }
  }

  // ---------------------------------------------------------------------------
  // findMermaidElements
  // ---------------------------------------------------------------------------

  const SELECTORS: seq<string> := [
    "code.language-mermaid",
    "pre code.language-mermaid",
    "code.language-mermaid-protected",
    ".mermaid"
  ]

  /** The test `findMermaidElements` applies to an element: its trimmed `textContent` is chart content. */
  function Qualifies<E>(text: E -> string): E -> bool {
    e => IsMermaidContent(Trim(text(e)))
  }

  /** The elements in the order the selectors return them, repeats included. */
  function Concat<E>(found: seq<seq<E>>): seq<E>
    decreases |found|
  {
    if found == [] then [] else Concat(found[..|found| - 1]) + found[|found| - 1]
  }

  lemma ConcatSnoc<E>(found: seq<seq<E>>, j: nat)
    requires j < |found|
    ensures Concat(found[..j + 1]) == Concat(found[..j]) + found[j]
  {
    assert found[..j + 1][..j] == found[..j];
  }

  /** An element occurs in the concatenation exactly when some selector returned it. */
  lemma {:induction false} ConcatMembers<E>(found: seq<seq<E>>, x: E)
    ensures x in Concat(found) <==> exists j :: 0 <= j < |found| && x in found[j]
    decreases |found|
  {
    if found != [] {
      var init := found[..|found| - 1];
      ConcatMembers(init, x);
      assert forall j :: 0 <= j < |init| ==> init[j] == found[j];
    }
  }

  /** The qualifying elements of `s`, each once, in order of first appearance. */
  function Collect<E(==)>(s: seq<E>, keep: E -> bool): seq<E>
    decreases |s|
  {
    if s == [] then []
    else
      var c := Collect(s[..|s| - 1], keep);
      var e := s[|s| - 1];
      if e !in c && keep(e) then c + [e] else c
  }

  lemma CollectSnoc<E>(s: seq<E>, e: E, keep: E -> bool)
    ensures Collect(s + [e], keep) ==
      if e !in Collect(s, keep) && keep(e) then Collect(s, keep) + [e] else Collect(s, keep)
  {
    assert (s + [e])[..|s|] == s;
  }

  /** One more element of the current selector's matches. */
  lemma CollectStep<E>(seen: seq<E>, found: seq<E>, k: nat, keep: E -> bool)
    requires k < |found|
    ensures var c := Collect(seen + found[..k], keep);
      Collect(seen + found[..k + 1], keep) == if found[k] !in c && keep(found[k]) then c + [found[k]] else c
  {
    assert seen + found[..k + 1] == (seen + found[..k]) + [found[k]];
    CollectSnoc(seen + found[..k], found[k], keep);
  }

  /** An element is collected exactly when it occurs in `s` and qualifies. */
  lemma {:induction false} CollectMembers<E>(s: seq<E>, keep: E -> bool, x: E)
    ensures x in Collect(s, keep) <==> x in s && keep(x)
    decreases |s|
  {
    if s != [] {
      var init := s[..|s| - 1];
      CollectMembers(init, keep, x);
      assert s == init + [s[|s| - 1]];
    }
  }

  /** No element is collected twice. */
  lemma {:induction false} CollectDistinct<E>(s: seq<E>, keep: E -> bool)
    ensures Distinct(Collect(s, keep))
    decreases |s|
  {
    if s != [] {
      CollectDistinct(s[..|s| - 1], keep);
    }
  }

  /** What `querySelectorAll` returns for each selector, in selector order. */
  function Found<E>(query: string -> seq<E>): (r: seq<seq<E>>)
    ensures |r| == |SELECTORS|
    ensures forall i :: 0 <= i < |SELECTORS| ==> r[i] == query(SELECTORS[i])
  {
    seq(|SELECTORS|, i requires 0 <= i < |SELECTORS| => query(SELECTORS[i]))
  }

  /**
   * `findMermaidElements(container)`: `query` is the container's
   * `querySelectorAll` and `text` an element's `textContent`.  The elements
   * come back in the order the selectors find them, each at its first
   * appearance.
   */
  method FindMermaidElements<E(==,!new)>(query: string -> seq<E>, text: E -> string) returns (elements: seq<E>)
    ensures elements == Collect(Concat(Found(query)), Qualifies(text))
  {
    var selectorsFound := Found(query);
    var keep := Qualifies(text);
    elements := [];
    for j := 0 to |SELECTORS|
      invariant elements == Collect(Concat(selectorsFound[..j]), keep)
    {
      var found := query(SELECTORS[j]);
      var seen := Concat(selectorsFound[..j]);
      assert found == selectorsFound[j];
      assert seen + found[..0] == seen;
      for k := 0 to |found|
        invariant elements == Collect(seen + found[..k], keep)
      {
        var el := found[k];
        CollectStep(seen, found, k, keep);
        if el !in elements {
          var content := Trim(text(el));
          assert keep(el) == IsMermaidContent(content);
          if IsMermaidContent(content) {
            elements := elements + [el];
          }
        }
      }
      ConcatSnoc(selectorsFound, j);
      assert found[..|found|] == found;
    }
    assert selectorsFound[..|SELECTORS|] == selectorsFound;
  }

  /**
   * What `findMermaidElements` returns holds no element twice, and holds an
   * element exactly when some selector finds it and its trimmed text passes
   * `isMermaidContent`.
   */
  lemma FoundElements<E(!new)>(query: string -> seq<E>, text: E -> string)
    ensures Distinct(Collect(Concat(Found(query)), Qualifies(text)))
    ensures forall e :: e in Collect(Concat(Found(query)), Qualifies(text)) <==>
      (exists j :: 0 <= j < |SELECTORS| && e in query(SELECTORS[j])) && IsMermaidContent(Trim(text(e)))
  {
    var all := Concat(Found(query));
    var keep := Qualifies(text);
    CollectDistinct(all, keep);
    forall e
      ensures e in Collect(all, keep) <==>
        (exists j :: 0 <= j < |SELECTORS| && e in query(SELECTORS[j])) && IsMermaidContent(Trim(text(e)))
    {
      CollectMembers(all, keep, e);
      ConcatMembers(Found(query), e);
      assert (exists j :: 0 <= j < |SELECTORS| && e in query(SELECTORS[j]))
        <==> (exists j :: 0 <= j < |Found(query)| && e in Found(query)[j]);
    }
  }

  // ---------------------------------------------------------------------------
  // The render queue
  // ---------------------------------------------------------------------------

  /** A `{element, index}` render request. */
  datatype Job<E> = Job(element: E, index: int)

  /** The requests for `elements`, numbered from 0 as `renderChartsInContainer` numbers them. */
  function Jobs<E>(elements: seq<E>): (r: seq<Job<E>>)
    ensures |r| == |elements|
    ensures forall i :: 0 <= i < |r| ==> r[i] == Job(elements[i], i)
  {
    seq(|elements|, i requires 0 <= i < |elements| => Job(elements[i], i))
  }

  lemma JobsSnoc<E>(elements: seq<E>, i: nat)
    requires i < |elements|
    ensures Jobs(elements)[..i + 1] == Jobs(elements)[..i] + [Job(elements[i], i)]
  {
  }

  /**
   * The handler's state.  `rendered` stands for the page: the requests handed
   * to the Mermaid renderer, in the order they were drawn.
   */
  class Handler<E(==,!new)> {
    var isInitialized: bool
    var renderQueue: seq<Job<E>>
    var processingQueue: bool
    var rendered: seq<Job<E>>

    /** Between calls nothing is being drained, and once initialised nothing waits. */
    ghost predicate Valid()
      reads this
    {
      !processingQueue && (isInitialized ==> renderQueue == [])
    }

    constructor()
      ensures Valid()
      ensures !isInitialized && renderQueue == [] && !processingQueue && rendered == []
    {
      isInitialized := false;
      renderQueue := [];
      processingQueue := false;
      rendered := [];
    }

    /** `renderSingleChart(element, index)`: before initialisation the request is queued. */
    method RenderSingleChart(element: E, index: int)
      modifies this
      ensures isInitialized == old(isInitialized) && processingQueue == old(processingQueue)
      ensures !isInitialized ==> renderQueue == old(renderQueue) + [Job(element, index)] && rendered == old(rendered)
      ensures isInitialized ==> rendered == old(rendered) + [Job(element, index)] && renderQueue == old(renderQueue)
    {
      if !isInitialized {
        renderQueue := renderQueue + [Job(element, index)];
        return;
      }
      rendered := rendered + [Job(element, index)];
    }

    /**
     * `processQueue`: drain the queue front first.  Draining before
     * initialisation would put each request straight back, so that call is
     * excluded.
     */
    method ProcessQueue()
      requires isInitialized || processingQueue || renderQueue == []
      modifies this
      ensures isInitialized == old(isInitialized)
      ensures old(processingQueue) || old(renderQueue) == [] ==>
        renderQueue == old(renderQueue) && processingQueue == old(processingQueue) && rendered == old(rendered)
      ensures !old(processingQueue) && old(renderQueue) != [] ==>
        rendered == old(rendered) + old(renderQueue) && renderQueue == [] && !processingQueue
    {
      if processingQueue || |renderQueue| == 0 {
        return;
      }
      processingQueue := true;
      while |renderQueue| > 0
        invariant isInitialized && processingQueue
        invariant rendered + renderQueue == old(rendered) + old(renderQueue)
        decreases |renderQueue|
      {
        var job := renderQueue[0];
        assert renderQueue == [job] + renderQueue[1..];
        renderQueue := renderQueue[1..];
        RenderSingleChart(job.element, job.index);
      }
      processingQueue := false;
    }

    /**
     * `init()`: `mermaidLoaded` is whether the library is present and
     * `initializeThrows` whether `mermaid.initialize` throws.  The result is
     * `None` for the early return that yields `undefined`.
     */
    method Init(mermaidLoaded: bool, initializeThrows: bool) returns (r: Option<bool>)
      requires Valid()
      modifies this
      ensures Valid()
      ensures old(isInitialized) ==> r == None && renderQueue == old(renderQueue) && rendered == old(rendered)
      ensures !old(isInitialized) && (!mermaidLoaded || initializeThrows) ==>
        r == Some(false) && !isInitialized && renderQueue == old(renderQueue) && rendered == old(rendered)
      ensures !old(isInitialized) && mermaidLoaded && !initializeThrows ==>
        r == Some(true) && isInitialized && renderQueue == [] && rendered == old(rendered) + old(renderQueue)
      ensures old(isInitialized) ==> isInitialized
    {
      if isInitialized {
        return None;
      }
      if !mermaidLoaded {
        return Some(false);
      }
      if initializeThrows {
        return Some(false);
      }
      isInitialized := true;
      ProcessQueue();
      return Some(true);
    }

    /** `renderChartsInContainer(container)`, with the container's queries as parameters. */
    method RenderChartsInContainer(containerPresent: bool, query: string -> seq<E>, text: E -> string)
      requires Valid()
      modifies this
      ensures Valid()
      ensures isInitialized == old(isInitialized)
      ensures var jobs := if containerPresent then Jobs(Collect(Concat(Found(query)), Qualifies(text))) else [];
        if isInitialized then rendered == old(rendered) + jobs && renderQueue == old(renderQueue)
        else renderQueue == old(renderQueue) + jobs && rendered == old(rendered)
    {
      if !containerPresent {
        return;
      }
      var elements := FindMermaidElements(query, text);
      if |elements| == 0 {
        return;
      }
      RenderEach(elements);
    }

    /** The loop of `renderChartsInContainer`: chart `i` is rendered, or queued, with index `i`. */
    method RenderEach(elements: seq<E>)
      requires Valid()
      modifies this
      ensures Valid()
      ensures isInitialized == old(isInitialized)
      ensures isInitialized ==> rendered == old(rendered) + Jobs(elements) && renderQueue == old(renderQueue)
      ensures !isInitialized ==> renderQueue == old(renderQueue) + Jobs(elements) && rendered == old(rendered)
    {
      for i := 0 to |elements|
        invariant isInitialized == old(isInitialized) && !processingQueue
        invariant isInitialized ==> rendered == old(rendered) + Jobs(elements)[..i] && renderQueue == old(renderQueue)
        invariant !isInitialized ==> renderQueue == old(renderQueue) + Jobs(elements)[..i] && rendered == old(rendered)
      {
        JobsSnoc(elements, i);
        RenderSingleChart(elements[i], i);
      }
      assert Jobs(elements)[..|elements|] == Jobs(elements);
    }

    /** `clearQueue()`. */
    method ClearQueue()
      modifies this
      ensures renderQueue == [] && !processingQueue
      ensures isInitialized == old(isInitialized) && rendered == old(rendered)
    {
      renderQueue := [];
      processingQueue := false;
    }

    /** `reset()`. */
    method Reset()
      modifies this
      ensures Valid()
      ensures !isInitialized && renderQueue == [] && !processingQueue && rendered == old(rendered)
    {
      isInitialized := false;
      ClearQueue();
    }
  }
}
