/**
 * `text.split(/\s+/)`: the pieces between maximal runs of whitespace,
 * including the empty pieces before leading and after trailing whitespace,
 * and the words of a text, the non-empty pieces.
 *
 * Both are read along one fixed text by position, the way a regular
 * expression engine scans it.
 */
module Words {
  import opened JsStrings
  import opened Seqs

  predicate NoSpace(s: string) {
    forall i :: 0 <= i < |s| ==> !IsSpace(s[i])
  }

  /** Where the run of non-whitespace starting at `i` ends. */
  function TokEnd(s: string, i: nat): (r: nat)
    requires i <= |s|
    ensures i <= r <= |s|
    ensures r == |s| || IsSpace(s[r])
    decreases |s| - i
  {
    if i < |s| && !IsSpace(s[i]) then TokEnd(s, i + 1) else i
  }

  /** Where the run of whitespace starting at `i` ends. */
  function SpaceEnd(s: string, i: nat): (r: nat)
    requires i <= |s|
    ensures i <= r <= |s|
    ensures r == |s| || !IsSpace(s[r])
    ensures i < |s| && IsSpace(s[i]) ==> r > i
    decreases |s| - i
  {
    if i < |s| && IsSpace(s[i]) then SpaceEnd(s, i + 1) else i
  }

  /** The run `TokEnd` finds holds no whitespace. */
  lemma {:induction false} TokEndRun(s: string, i: nat)
    requires i <= |s|
    ensures forall j :: i <= j < TokEnd(s, i) ==> !IsSpace(s[j])
    decreases |s| - i
  {
    if i < |s| && !IsSpace(s[i]) {
      TokEndRun(s, i + 1);
    }
  }

  /** The run `SpaceEnd` finds is all whitespace. */
  lemma {:induction false} SpaceEndRun(s: string, i: nat)
    requires i <= |s|
    ensures forall j :: i <= j < SpaceEnd(s, i) ==> IsSpace(s[j])
    decreases |s| - i
  {
    if i < |s| && IsSpace(s[i]) {
      SpaceEndRun(s, i + 1);
    }
  }

  /** The pieces of `s.split(/\s+/)` from a position where a piece starts. */
  function PiecesFrom(s: string, i: nat): (r: seq<string>)
    requires i <= |s|
    ensures |r| >= 1
    decreases |s| - i
  {
    var t := TokEnd(s, i);
    if t == |s| then [s[i..]] else [s[i..t]] + PiecesFrom(s, SpaceEnd(s, t))
  }

  /** `s.split(/\s+/)`. */
  function SplitWs(s: string): seq<string> {
    PiecesFrom(s, 0)
  }

  /** The words of a text from position `i` on, read one character at a time. */
  function WordsFrom(s: string, i: nat): seq<string>
    requires i <= |s|
    decreases |s| - i
  {
    if i == |s| then []
    else if IsSpace(s[i]) then WordsFrom(s, i + 1)
    else var t := TokEnd(s, i); [s[i..t]] + WordsFrom(s, t)
  }

  /** The words of a text: an independent reference definition for the word count. */
  function Tokens(s: string): seq<string> {
    WordsFrom(s, 0)
  }

  /** Every word is non-empty and holds no whitespace. */
  lemma {:induction false} WordsAreWords(s: string, i: nat)
    requires i <= |s|
    ensures forall k :: 0 <= k < |WordsFrom(s, i)| ==> WordsFrom(s, i)[k] != "" && NoSpace(WordsFrom(s, i)[k])
    decreases |s| - i
  {
    if i < |s| {
      if IsSpace(s[i]) {
        WordsAreWords(s, i + 1);
      } else {
        var t := TokEnd(s, i);
        TokEndRun(s, i);
        assert s[i..t][0] == s[i];
        WordsAreWords(s, t);
      }
    }
  }

  /** A run of whitespace adds no word. */
  lemma {:induction false} WordsSkipTo(s: string, i: nat, k: nat)
    requires i <= k <= |s|
    requires forall j :: i <= j < k ==> IsSpace(s[j])
    ensures WordsFrom(s, i) == WordsFrom(s, k)
    decreases k - i
  {
    if i < k {
      WordsSkipTo(s, i + 1, k);
    }
  }

  /** Nothing from `i` on is a word exactly when the rest of the text is whitespace. */
  lemma {:induction false} NoWordsFrom(s: string, i: nat)
    requires i <= |s|
    ensures WordsFrom(s, i) == [] <==> forall j :: i <= j < |s| ==> IsSpace(s[j])
    decreases |s| - i
  {
    if i < |s| && IsSpace(s[i]) {
      NoWordsFrom(s, i + 1);
    }
  }

  predicate NonEmpty(s: string) {
    s != ""
  }

  /** `s.split(/\s+/).filter(word => word.length > 0).length`. */
  function WordCount(s: string): nat {
    |Filter(SplitWs(s), NonEmpty)|
  }

  /** The non-empty pieces from a position where a piece starts are the words from there. */
  lemma {:induction false} PiecesWords(s: string, i: nat)
    requires i <= |s|
    ensures Filter(PiecesFrom(s, i), NonEmpty) == WordsFrom(s, i)
    decreases |s| - i
  {
    var t := TokEnd(s, i);
    if t == |s| {
      if i < |s| {
        assert s[i..] != "" && s[i..t] == s[i..];
        assert WordsFrom(s, i) == [s[i..]] + WordsFrom(s, t);
        assert Filter([s[i..]], NonEmpty) == [s[i..]];
      }
    } else {
      var e := SpaceEnd(s, t);
      PiecesWords(s, e);
      SpaceEndRun(s, t);
      WordsSkipTo(s, t, e);
      FilterCons(s[i..t], PiecesFrom(s, e), NonEmpty);
      if t > i {
        assert WordsFrom(s, i) == [s[i..t]] + WordsFrom(s, t);
      }
    }
  }

  /** The word count is the number of words. */
  lemma WordCountIsTokens(s: string)
    ensures Filter(SplitWs(s), NonEmpty) == Tokens(s)
    ensures WordCount(s) == |Tokens(s)|
  {
    PiecesWords(s, 0);
  }

  /** A text has no words exactly when it is all whitespace. */
  lemma NoTokensAllSpace(s: string)
    ensures Tokens(s) == [] <==> AllSpace(s)
  {
    NoWordsFrom(s, 0);
  }

  /** `getWordCount` is 0 exactly for whitespace-only (or empty) text. */
  lemma WordCountZero(s: string)
    ensures WordCount(s) == 0 <==> AllSpace(s)
  {
    WordCountIsTokens(s);
    NoTokensAllSpace(s);
  }

  /** In a text ending in non-whitespace, the pieces from a word's start are the words from there. */
  lemma {:induction false} TrimmedPiecesWords(s: string, i: nat)
    requires i < |s| && !IsSpace(s[i]) && !IsSpace(s[|s| - 1])
    ensures PiecesFrom(s, i) == WordsFrom(s, i)
    decreases |s| - i
  {
    var t := TokEnd(s, i);
    if t < |s| {
      var e := SpaceEnd(s, t);
      SpaceEndRun(s, t);
      assert e < |s|;
      TrimmedPiecesWords(s, e);
      WordsSkipTo(s, t, e);
    } else {
      assert s[i..t] == s[i..];
      assert WordsFrom(s, i) == [s[i..t]] + WordsFrom(s, t);
    }
  }

  /** A trimmed non-empty text splits into its words and nothing else. */
  lemma TrimmedSplitIsWords(s: string)
    requires s != [] && !IsSpace(s[0]) && !IsSpace(s[|s| - 1])
    ensures SplitWs(s) == Tokens(s)
  {
    TrimmedPiecesWords(s, 0);
  }

  /** `TokEnd` in a suffix is `TokEnd` in the whole text, shifted. */
  lemma {:induction false} TokEndDrop(s: string, a: nat, i: nat)
    requires a + i <= |s|
    ensures TokEnd(s[a..], i) == TokEnd(s, a + i) - a
    decreases |s| - a - i
  {
    if a + i < |s| {
      assert s[a..][i] == s[a + i];
      if !IsSpace(s[a + i]) {
        TokEndDrop(s, a, i + 1);
      }
    }
  }

  /** The words of a suffix are the words of the text from where the suffix starts. */
  lemma {:induction false} DropWords(s: string, a: nat, i: nat)
    requires a + i <= |s|
    ensures WordsFrom(s[a..], i) == WordsFrom(s, a + i)
    decreases |s| - a - i
  {
    if a + i < |s| {
      var u := s[a..];
      assert u[i] == s[a + i];
      if IsSpace(s[a + i]) {
        DropWords(s, a, i + 1);
        assert WordsFrom(u, i) == WordsFrom(u, i + 1);
      } else {
        var t := TokEnd(s, a + i);
        TokEndDrop(s, a, i);
        DropSlice(s, a, i, t - a);
        DropWords(s, a, t - a);
        assert WordsFrom(u, i) == [u[i..t - a]] + WordsFrom(u, t - a);
      }
    }
  }

  /** `TokEnd` in a prefix followed by whitespace is `TokEnd` in the whole text. */
  lemma {:induction false} TokEndTake(s: string, b: nat, i: nat)
    requires i <= b <= |s| && (b == |s| || IsSpace(s[b]))
    ensures TokEnd(s[..b], i) == TokEnd(s, i)
    decreases b - i
  {
    if i < b {
      assert s[..b][i] == s[i];
      if !IsSpace(s[i]) {
        TokEndTake(s, b, i + 1);
      }
    }
  }

  /** Cutting off trailing whitespace keeps the words. */
  lemma {:induction false} TakeWords(s: string, b: nat, i: nat)
    requires i <= b <= |s|
    requires forall j :: b <= j < |s| ==> IsSpace(s[j])
    ensures WordsFrom(s[..b], i) == WordsFrom(s, i)
    decreases b - i
  {
    if i < b {
      assert s[..b][i] == s[i];
      if IsSpace(s[i]) {
        TakeWords(s, b, i + 1);
      } else {
        var t := TokEnd(s, i);
        TokEndTake(s, b, i);
        TakeSlice(s, b, i, t);
        TakeWords(s, b, t);
      }
    } else {
      NoWordsFrom(s, b);
    }
  }

  lemma DropSlice<T>(s: seq<T>, a: nat, i: nat, j: nat)
    requires a + i <= a + j <= |s|
    ensures s[a..][i..j] == s[a + i..a + j]
  {
  }

  lemma TakeSlice<T>(s: seq<T>, b: nat, i: nat, j: nat)
    requires i <= j <= b <= |s|
    ensures s[..b][i..j] == s[i..j]
  {
  }

  /** Trimming a text keeps its words. */
  lemma TrimKeepsTokens(s: string)
    ensures Tokens(Trim(s)) == Tokens(s)
  {
    var a := LeadLen(s);
    var u := s[a..];
    var b := |u| - TrailLen(u);
    LeadSpaces(s);
    TrailSpaces(u);
    TakeWords(u, b, 0);
    DropWords(s, a, 0);
    WordsSkipTo(s, 0, a);
  }

  /** `Math.ceil(n / d)` for a natural `n` and a positive `d`. */
  function CeilDiv(n: nat, d: nat): (q: nat)
    requires d > 0
    ensures q * d >= n && (q == 0 || (q - 1) * d < n)
  {
    (n + d - 1) / d
  }
}
