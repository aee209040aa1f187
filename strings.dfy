/**
 * The parts of JavaScript's `String` behaviour that the blog code relies on:
 * the whitespace class `\s` (which is also what `trim` removes), `startsWith`,
 * `endsWith`, `includes`, `indexOf`, `split` and `join` with a one-character
 * separator, ASCII `toLowerCase`, and decimal number formatting.
 *
 * Strings are sequences of characters.  A JavaScript string is a sequence of
 * UTF-16 code units, while a character here is a Unicode scalar value; the two
 * coincide, and so do lengths, indices and character codes, for text inside
 * the Basic Multilingual Plane, which is the text this model describes.
 */
module JsStrings {

  /** ECMAScript WhiteSpace or LineTerminator: the regular-expression class `\s`. */
  predicate IsSpace(c: char) {
    c == '\t' || c == '\n' || c == '\U{000B}' || c == '\U{000C}' || c == '\r' || c == ' '
    || c == '\U{00A0}' || c == '\U{1680}' || ('\U{2000}' <= c <= '\U{200A}')
    || c == '\U{2028}' || c == '\U{2029}' || c == '\U{202F}' || c == '\U{205F}'
    || c == '\U{3000}' || c == '\U{FEFF}'
  }

  /** ECMAScript LineTerminator: the characters `.` does not match. */
  predicate IsLineTerminator(c: char) {
    c == '\n' || c == '\r' || c == '\U{2028}' || c == '\U{2029}'
  }

  /** The regular-expression class `\d`. */
  predicate IsDigit(c: char) {
    '0' <= c <= '9'
  }

  predicate AllSpace(s: string) {
    forall i :: 0 <= i < |s| ==> IsSpace(s[i])
  }

  /** Number of leading whitespace characters. */
  function LeadLen(s: string): (n: nat)
    ensures n <= |s|
    ensures n == |s| || !IsSpace(s[n])
    decreases |s|
  {
    if |s| > 0 && IsSpace(s[0]) then 1 + LeadLen(s[1..]) else 0
  }

  /** Everything `LeadLen` counts is whitespace. */
  lemma {:induction false} LeadSpaces(s: string)
    ensures forall i :: 0 <= i < LeadLen(s) ==> IsSpace(s[i])
    decreases |s|
  {
    if |s| > 0 && IsSpace(s[0]) {
      LeadSpaces(s[1..]);
      forall i | 1 <= i < LeadLen(s)
        ensures IsSpace(s[i])
      {
        assert s[i] == s[1..][i - 1];
      }
    }
  }

  /** Number of trailing whitespace characters. */
  function TrailLen(s: string): (n: nat)
    ensures n <= |s|
    ensures n == |s| || !IsSpace(s[|s| - n - 1])
    decreases |s|
  {
    if |s| > 0 && IsSpace(s[|s| - 1]) then 1 + TrailLen(s[..|s| - 1]) else 0
  }

  /** Everything `TrailLen` counts is whitespace. */
  lemma {:induction false} TrailSpaces(s: string)
    ensures forall i :: |s| - TrailLen(s) <= i < |s| ==> IsSpace(s[i])
    decreases |s|
  {
    if |s| > 0 && IsSpace(s[|s| - 1]) {
      TrailSpaces(s[..|s| - 1]);
      forall i | |s| - TrailLen(s) <= i < |s| - 1
        ensures IsSpace(s[i])
      {
        assert s[i] == s[..|s| - 1][i];
      }
    }
  }

  /** `String.prototype.trim`. */
  function Trim(s: string): (r: string)
    ensures |r| <= |s|
    ensures r == s[LeadLen(s)..|s| - TrailLen(s[LeadLen(s)..])]
    ensures r == [] || (!IsSpace(r[0]) && !IsSpace(r[|r| - 1]))
  {
    var t := s[LeadLen(s)..];
    t[..|t| - TrailLen(t)]
  }

  /** A string with no whitespace at either end. */
  predicate IsTrimmed(s: string) {
    s == [] || (!IsSpace(s[0]) && !IsSpace(s[|s| - 1]))
  }

  lemma LeadLenOfTrimmed(s: string)
    requires s == [] || !IsSpace(s[0])
    ensures LeadLen(s) == 0
  {
  }

  lemma TrailLenOfTrimmed(s: string)
    requires s == [] || !IsSpace(s[|s| - 1])
    ensures TrailLen(s) == 0
  {
  }

  /** Trimming a trimmed string changes nothing, so `trim` is idempotent. */
  lemma TrimTrimmed(s: string)
    requires IsTrimmed(s)
    ensures Trim(s) == s
  {
    LeadLenOfTrimmed(s);
    assert s[0..] == s;
    TrailLenOfTrimmed(s);
  }

  lemma TrimIdempotent(s: string)
    ensures Trim(Trim(s)) == Trim(s)
  {
    TrimTrimmed(Trim(s));
  }

  /** Leading whitespace adds to the leading count. */
  lemma {:induction false} LeadSkip(w: string, t: string)
    requires AllSpace(w)
    ensures LeadLen(w + t) == |w| + LeadLen(t)
    decreases |w|
  {
    if w != [] {
      assert (w + t)[0] == w[0];
      assert (w + t)[1..] == w[1..] + t;
      LeadSkip(w[1..], t);
    } else {
      assert w + t == t;
    }
  }

  /** Trailing whitespace adds to the trailing count. */
  lemma {:induction false} TrailSkip(u: string, w: string)
    requires AllSpace(w)
    ensures TrailLen(u + w) == |w| + TrailLen(u)
    decreases |w|
  {
    if w != [] {
      var w' := w[..|w| - 1];
      assert (u + w)[|u + w| - 1] == w[|w| - 1];
      assert (u + w)[..|u + w| - 1] == u + w';
      TrailSkip(u, w');
    } else {
      assert u + w == u;
    }
  }

  /** `trim` is the rest after the leading whitespace, less its trailing whitespace. */
  lemma TrimFromLead(s: string, u: string)
    requires s[LeadLen(s)..] == u
    ensures Trim(s) == u[..|u| - TrailLen(u)]
  {
  }

  /** Leading whitespace never survives `trim`. */
  lemma TrimSkipsLeadingSpace(w: string, t: string)
    requires AllSpace(w)
    ensures Trim(w + t) == Trim(t)
  {
    LeadSkip(w, t);
    var u := t[LeadLen(t)..];
    assert (w + t)[|w| + LeadLen(t)..] == u;
    TrimFromLead(w + t, u);
    TrimFromLead(t, u);
  }

  /** Trailing whitespace never survives `trim`. */
  lemma TrimSkipsTrailingSpace(t: string, w: string)
    requires AllSpace(w)
    ensures Trim(t + w) == Trim(t)
  {
    if AllSpace(t) {
      AllSpaceAppend(t, w);
      AllSpaceLead(t + w);
      AllSpaceLead(t);
    } else {
      TrimTrailAppend(t, w);
    }
  }

  lemma AllSpaceAppend(t: string, w: string)
    requires AllSpace(t) && AllSpace(w)
    ensures AllSpace(t + w)
  {
    forall i | 0 <= i < |t + w|
      ensures IsSpace((t + w)[i])
    {
      if i < |t| {
        assert (t + w)[i] == t[i];
      } else {
        assert (t + w)[i] == w[i - |t|];
      }
    }
  }

  /** The leading run of a string is whitespace, and all of it when the run is everything. */
  lemma LeadRun(t: string)
    ensures AllSpace(t[..LeadLen(t)])
    ensures LeadLen(t) == |t| ==> AllSpace(t)
  {
    LeadSpaces(t);
    var p := t[..LeadLen(t)];
    forall i | 0 <= i < |p|
      ensures IsSpace(p[i])
    {
      assert p[i] == t[i];
    }
  }

  /** The trailing run of a string is whitespace. */
  lemma {:induction false} TrailRun(t: string)
    ensures AllSpace(t[|t| - TrailLen(t)..])
    decreases |t|
  {
    if |t| > 0 && IsSpace(t[|t| - 1]) {
      var t' := t[..|t| - 1];
      TrailRun(t');
      var r := t'[|t'| - TrailLen(t')..];
      assert t[|t| - TrailLen(t)..] == r + [t[|t| - 1]];
      AllSpaceAppend(r, [t[|t| - 1]]);
    } else {
      assert t[|t|..] == [];
    }
  }

  /** Cutting a sequence at `k`, with `w` behind it. */
  lemma CutAt<T>(t: seq<T>, k: nat, w: seq<T>)
    requires k <= |t|
    ensures t == t[..k] + t[k..]
    ensures t + w == t[..k] + (t[k..] + w)
  {
  }

  lemma TrimTrailAppend(t: string, w: string)
    requires AllSpace(w) && !AllSpace(t)
    ensures Trim(t + w) == Trim(t)
  {
    var k := LeadLen(t);
    LeadRun(t);
    var p, u := t[..k], t[k..];
    CutAt(t, k, w);
    TrimSkipsLeadingSpace(p, u);
    TrimSkipsLeadingSpace(p, u + w);
    assert u[0] == t[k];
    TrimNonSpaceAppend(u, w);
  }

  lemma TrimNonSpaceAppend(u: string, w: string)
    requires AllSpace(w) && u != [] && !IsSpace(u[0])
    ensures Trim(u + w) == Trim(u)
  {
    assert (u + w)[0] == u[0];
    assert LeadLen(u + w) == 0 == LeadLen(u);
    TrailSkip(u, w);
    assert (u + w)[..|u + w| - (|w| + TrailLen(u))] == u[..|u| - TrailLen(u)];
    TrimFromLead(u + w, u + w);
    TrimFromLead(u, u);
  }

  /** A whitespace-only string is all leading whitespace, so it trims to nothing. */
  lemma {:induction false} AllSpaceLead(s: string)
    requires AllSpace(s)
    ensures LeadLen(s) == |s| && Trim(s) == []
    decreases |s|
  {
    if s != [] {
      AllSpaceLead(s[1..]);
    }
  }

  /** What trims to nothing is whitespace throughout. */
  lemma TrimEmptyAllSpace(s: string)
    requires Trim(s) == ""
    ensures AllSpace(s)
  {
    var u := s[LeadLen(s)..];
    TrailSpaces(u);
    assert LeadLen(s) == |s|;
    LeadRun(s);
  }

  /** A string trims to nothing exactly when it is all whitespace. */
  lemma AllSpaceTrim(s: string)
    ensures Trim(s) == "" <==> AllSpace(s)
  {
    if AllSpace(s) {
      AllSpaceLead(s);
    }
    if Trim(s) == "" {
      TrimEmptyAllSpace(s);
    }
  }

  /** Appending characters behind a non-space does not change the leading count. */
  lemma LeadPrefix(t: string, u: string)
    requires LeadLen(t) < |t|
    ensures LeadLen(t + u) == LeadLen(t)
    decreases |t|
  {
    if IsSpace(t[0]) {
      assert (t + u)[1..] == t[1..] + u;
      LeadPrefix(t[1..], u);
    }
  }

  predicate StartsWith(s: string, p: string) {
    |p| <= |s| && s[..|p|] == p
  }

  /** A prefix of a prefix is a prefix. */
  lemma StartsWithTrans(s: string, t: string, p: string)
    requires StartsWith(s, t) && StartsWith(t, p)
    ensures StartsWith(s, p)
  {
    assert s[..|p|] == s[..|t|][..|p|];
  }

  predicate EndsWith(s: string, p: string) {
    |p| <= |s| && s[|s| - |p|..] == p
  }

  /** `String.prototype.includes`. */
  predicate Contains(s: string, p: string)
    decreases |s|
  {
    StartsWith(s, p) || (|s| > 0 && Contains(s[1..], p))
  }

  /** A string contains every string it is the concatenation around. */
  lemma {:induction false} ContainsInfix(a: string, p: string, b: string)
    ensures Contains(a + p + b, p)
    decreases |a|
  {
    if a == [] {
      assert a + p + b == p + b;
      assert (p + b)[..|p|] == p;
    } else {
      assert (a + p + b)[1..] == a[1..] + p + b;
      ContainsInfix(a[1..], p, b);
    }
  }

  /** `String.prototype.indexOf` for a one-character pattern: -1 when absent. */
  function IndexOf(s: string, c: char): (r: int)
    ensures -1 <= r < |s|
    ensures r == -1 <==> c !in s
    ensures r >= 0 ==> s[r] == c && forall j :: 0 <= j < r ==> s[j] != c
    decreases |s|
  {
    if |s| == 0 then -1
    else if s[0] == c then 0
    else var k := IndexOf(s[1..], c); if k < 0 then -1 else k + 1
  }

  /** `String.prototype.split` with a one-character separator. */
  function Split(s: string, sep: char): (r: seq<string>)
    ensures |r| >= 1
    decreases |s|
  {
    var i := IndexOf(s, sep);
    if i < 0 then [s] else [s[..i]] + Split(s[i + 1..], sep)
  }

  /** No piece of a split holds the separator. */
  lemma {:induction false} SplitFree(s: string, sep: char)
    ensures forall i :: 0 <= i < |Split(s, sep)| ==> sep !in Split(s, sep)[i]
    decreases |s|
  {
    var i := IndexOf(s, sep);
    if i >= 0 {
      SplitFirst(s, sep);
      SplitFree(s[i + 1..], sep);
      assert sep !in s[..i] by {
        forall j | 0 <= j < i ensures s[..i][j] != sep {
          assert s[..i][j] == s[j];
        }
      }
    }
  }

  /** `Array.prototype.join` with a one-character separator. */
  function Join(parts: seq<string>, sep: char): string
    decreases |parts|
  {
    if |parts| == 0 then ""
    else if |parts| == 1 then parts[0]
    else parts[0] + [sep] + Join(parts[1..], sep)
  }

  /** Splitting and re-joining on the same separator gives back the string. */
  lemma {:induction false} JoinSplit(s: string, sep: char)
    ensures Join(Split(s, sep), sep) == s
    decreases |s|
  {
    var i := IndexOf(s, sep);
    if i >= 0 {
      var head, tail := s[..i], s[i + 1..];
      SplitFirst(s, sep);
      JoinSplit(tail, sep);
      JoinCons(head, Split(tail, sep), sep);
      CutAround(s, i);
    }
  }

  /** One step of `split`: the piece before the first separator, then the rest split. */
  lemma SplitFirst(s: string, sep: char)
    requires IndexOf(s, sep) >= 0
    ensures Split(s, sep) == [s[..IndexOf(s, sep)]] + Split(s[IndexOf(s, sep) + 1..], sep)
  {
  }

  lemma CutAround<T>(s: seq<T>, i: nat)
    requires i < |s|
    ensures s == s[..i] + [s[i]] + s[i + 1..]
  {
  }

  lemma JoinCons(a: string, rest: seq<string>, sep: char)
    requires |rest| >= 1
    ensures Join([a] + rest, sep) == a + [sep] + Join(rest, sep)
  {
    assert ([a] + rest)[1..] == rest;
  }

  /** Joining pieces free of the separator and splitting again gives back the pieces. */
  lemma {:induction false} SplitJoin(parts: seq<string>, sep: char)
    requires |parts| >= 1
    requires forall i :: 0 <= i < |parts| ==> sep !in parts[i]
    ensures Split(Join(parts, sep), sep) == parts
    decreases |parts|
  {
    if |parts| > 1 {
      var s := Join(parts, sep);
      var tail := Join(parts[1..], sep);
      assert s == parts[0] + [sep] + tail;
      IndexOfAfter(parts[0], sep, tail);
      assert s[..|parts[0]|] == parts[0];
      assert s[|parts[0]| + 1..] == tail;
      SplitJoin(parts[1..], sep);
    } else {
      assert IndexOf(parts[0], sep) == -1;
    }
  }

  lemma IndexOfAfter(a: string, c: char, b: string)
    requires c !in a
    ensures IndexOf(a + [c] + b, c) == |a|
  {
    var s := a + [c] + b;
    assert s[|a|] == c;
    assert s[..|a|] == a;
  }

  /**
   * Splitting `a + sep + b` splits `a` and `b` separately.
   */
  lemma {:induction false} SplitAround(a: string, sep: char, b: string)
    ensures Split(a + [sep] + b, sep) == Split(a, sep) + Split(b, sep)
    decreases |a|
  {
    var s := a + [sep] + b;
    var i := IndexOf(a, sep);
    if i < 0 {
      SplitAroundFree(a, sep, b);
    } else {
      var rest := a[i + 1..];
      SplitAroundStep(a, sep, b);
      SplitFirst(a, sep);
      SplitAround(rest, sep, b);
      AppendAssoc([a[..i]], Split(rest, sep), Split(b, sep));
    }
  }

  /** When `a` has no separator, `a + sep + b` is cut right after `a`. */
  lemma SplitAroundFree(a: string, sep: char, b: string)
    requires IndexOf(a, sep) < 0
    ensures Split(a + [sep] + b, sep) == [a] + Split(b, sep)
    ensures Split(a, sep) == [a]
  {
    IndexOfAfter(a, sep, b);
    SplitFirst(a + [sep] + b, sep);
    Around(a, sep, b);
  }

  /** When `a` has the separator, `a + sep + b` is cut at the same place as `a`. */
  lemma SplitAroundStep(a: string, sep: char, b: string)
    requires IndexOf(a, sep) >= 0
    ensures var i := IndexOf(a, sep);
      Split(a + [sep] + b, sep) == [a[..i]] + Split(a[i + 1..] + [sep] + b, sep)
  {
    var s := a + [sep] + b;
    var i := IndexOf(a, sep);
    AppendAssoc(a, [sep], b);
    IndexOfPrefix(a, [sep] + b, sep);
    SplitFirst(s, sep);
    SliceAppend(a, [sep] + b, i);
    AppendAssoc(a[i + 1..], [sep], b);
  }

  lemma AppendAssoc<T>(x: seq<T>, y: seq<T>, z: seq<T>)
    ensures (x + y) + z == x + (y + z)
  {
  }

  /** Cutting `a + x` inside `a`. */
  lemma SliceAppend<T>(a: seq<T>, x: seq<T>, i: nat)
    requires i < |a|
    ensures (a + x)[..i] == a[..i]
    ensures (a + x)[i + 1..] == a[i + 1..] + x
  {
  }

  /** The two sides of a separator placed between `a` and `b`. */
  lemma Around<T>(a: seq<T>, x: T, b: seq<T>)
    ensures (a + [x] + b)[..|a|] == a
    ensures (a + [x] + b)[|a| + 1..] == b
  {
  }

  lemma IndexOfPrefix(a: string, b: string, c: char)
    requires c in a
    ensures IndexOf(a + b, c) == IndexOf(a, c)
    decreases |a|
  {
    if a[0] != c {
      assert (a + b)[1..] == a[1..] + b;
      IndexOfPrefix(a[1..], b, c);
    }
  }

  /** Splitting a string without the separator gives one piece. */
  lemma SplitNone(s: string, sep: char)
    requires sep !in s
    ensures Split(s, sep) == [s]
  {
  }

  /** ASCII `toLowerCase` of one character. */
  function LowerChar(c: char): (r: char)
    ensures 'A' <= c <= 'Z' ==> r as int == c as int + 32
    ensures !('A' <= c <= 'Z') ==> r == c
  {
    if 'A' <= c <= 'Z' then (c as int + 32) as char else c
  }

  /** `String.prototype.toLowerCase`, for the ASCII letters. */
  function Lower(s: string): (r: string)
    ensures |r| == |s|
    ensures forall i :: 0 <= i < |s| ==> r[i] == LowerChar(s[i])
  {
    seq(|s|, i requires 0 <= i < |s| => LowerChar(s[i]))
  }

  /** Lower-casing commutes with concatenation. */
  lemma LowerAppend(a: string, b: string)
    ensures Lower(a + b) == Lower(a) + Lower(b)
  {
  }

  /** Lower-casing leaves no upper-case ASCII letter and is idempotent. */
  lemma LowerIdempotent(s: string)
    ensures Lower(Lower(s)) == Lower(s)
    ensures forall i :: 0 <= i < |s| ==> !('A' <= Lower(s)[i] <= 'Z')
  {
  }

  function DigitChar(d: nat): (c: char)
    requires d < 10
    ensures IsDigit(c) && c as int - '0' as int == d
  {
    (d + '0' as int) as char
  }

  /** The decimal digits of `n`, as `String(n)` writes a non-negative integer. */
  function NatToString(n: nat): (r: string)
    ensures |r| >= 1
    ensures forall i :: 0 <= i < |r| ==> IsDigit(r[i])
    ensures |r| > 1 ==> r[0] != '0'
    decreases n
  {
    if n < 10 then [DigitChar(n)] else NatToString(n / 10) + [DigitChar(n % 10)]
  }

  /** `String(i)` for an integer: a minus sign, then the digits of its magnitude. */
  function IntToString(i: int): (r: string)
    ensures |r| >= 1
    ensures i >= 0 ==> r == NatToString(i)
    ensures i < 0 ==> r == "-" + NatToString(-i)
  {
    if i < 0 then "-" + NatToString(-i) else NatToString(i)
  }

  /** The value of a string of decimal digits. */
  function ParseDigits(s: string): nat
    requires forall i :: 0 <= i < |s| ==> IsDigit(s[i])
    decreases |s|
  {
    if s == [] then 0
    else
      assert IsDigit(s[|s| - 1]);
      10 * ParseDigits(s[..|s| - 1]) + (s[|s| - 1] as int - '0' as int)
  }

  /** Reading back the decimal digits of `n` gives `n`. */
  lemma {:induction false} ParseNatToString(n: nat)
    ensures ParseDigits(NatToString(n)) == n
    decreases n
  {
    if n >= 10 {
      var s := NatToString(n);
      assert s[..|s| - 1] == NatToString(n / 10);
      ParseNatToString(n / 10);
    }
  }

  /** Different numbers are written differently. */
  lemma NatToStringInjective(m: nat, n: nat)
    requires NatToString(m) == NatToString(n)
    ensures m == n
  {
    ParseNatToString(m);
    ParseNatToString(n);
  }
}
