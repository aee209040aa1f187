/**
 * The GitHub contents listing that both blog front ends consume, and the
 * orders in which they sort it.  `Array.prototype.sort` is a library call; it
 * is modelled by a stable insertion sort, and `localeCompare` by lexicographic
 * comparison of characters (code-point order, which is code-unit order for
 * text inside the Basic Multilingual Plane).
 */
module Listing {
  import opened JsStrings
  import opened Seqs

  /** One file descriptor of the contents listing (`type` is a reserved word here). */
  datatype FileEntry = FileEntry(name: string, kind: string, downloadUrl: string, size: nat, sha: string)

  const README: string := "README.md"

  /** Lexicographic order on characters: `Less(a, b)` when `a.localeCompare(b) < 0` in the model. */
  predicate Less(a: string, b: string)
    decreases |a|
  {
    if a == [] then b != []
    else if b == [] then false
    else if a[0] != b[0] then a[0] < b[0]
    else Less(a[1..], b[1..])
  }

  lemma {:induction false} LessIrreflexive(a: string)
    ensures !Less(a, a)
    decreases |a|
  {
    if a != [] {
      LessIrreflexive(a[1..]);
    }
  }

  lemma {:induction false} LessTransitive(a: string, b: string, c: string)
    requires Less(a, b) && Less(b, c)
    ensures Less(a, c)
    decreases |a|
  {
    if a != [] && b != [] && c != [] && a[0] == b[0] && b[0] == c[0] {
      LessTransitive(a[1..], b[1..], c[1..]);
    }
  }

  lemma {:induction false} LessTotal(a: string, b: string)
    ensures a == b || Less(a, b) || Less(b, a)
    decreases |a|
  {
    if a != [] && b != [] && a[0] == b[0] {
      LessTotal(a[1..], b[1..]);
      if a[1..] == b[1..] {
        assert a == [a[0]] + a[1..] && b == [b[0]] + b[1..];
      }
    }
  }

  lemma LessAsymmetric(a: string, b: string)
    requires Less(a, b)
    ensures !Less(b, a)
  {
    if Less(b, a) {
      LessTransitive(a, b, a);
      LessIrreflexive(a);
    }
  }

  /** The two sort orders of the source. */
  datatype Order =
    | Descending             // `b.name.localeCompare(a.name)`
    | ReadmeThenDescending   // `README.md` first, then `b.name.localeCompare(a.name)`

  /** `Ahead(o, a, b)`: the comparator of order `o` puts name `a` strictly before name `b`. */
  predicate Ahead(o: Order, a: string, b: string) {
    match o
    case Descending => Less(b, a)
    case ReadmeThenDescending =>
      (a == README && b != README) || (a != README && b != README && Less(b, a))
  }

  lemma AheadAsymmetric(o: Order, a: string, b: string)
    requires Ahead(o, a, b)
    ensures !Ahead(o, b, a)
  {
    if Less(b, a) {
      LessAsymmetric(b, a);
    }
  }

  /** "Not ahead" is transitive: both orders are strict weak orders. */
  lemma NotAheadTransitive(o: Order, a: string, b: string, c: string)
    requires !Ahead(o, a, b) && !Ahead(o, b, c)
    ensures !Ahead(o, a, c)
  {
    if Ahead(o, a, c) {
      LessTotal(a, b);
      LessTotal(b, c);
      if Less(c, a) && Less(a, b) {
        LessTransitive(c, a, b);
      }
      if Less(c, a) && Less(b, c) {
        LessTransitive(b, c, a);
      }
      if Less(a, b) && Less(b, c) {
        LessTransitive(a, b, c);
        LessAsymmetric(a, c);
      }
    }
  }

  /** No entry is strictly ahead of an entry listed before it. */
  ghost predicate Sorted(o: Order, s: seq<FileEntry>) {
    forall i, j :: 0 <= i < j < |s| ==> !Ahead(o, s[j].name, s[i].name)
  }

  /** Put `x` in front of the first entry it is not behind (so equal names keep their order). */
  function Insert(o: Order, x: FileEntry, s: seq<FileEntry>): (r: seq<FileEntry>)
    ensures multiset(r) == multiset(s) + multiset{x}
    decreases |s|
  {
    if s == [] || !Ahead(o, s[0].name, x.name) then [x] + s
    else
      assert s == [s[0]] + s[1..];
      [s[0]] + Insert(o, x, s[1..])
  }

  /** `Array.prototype.sort` with the comparator of `o`. */
  function Sort(o: Order, s: seq<FileEntry>): (r: seq<FileEntry>)
    ensures multiset(r) == multiset(s)
    ensures |r| == |s|
    decreases |s|
  {
    if s == [] then []
    else
      assert s == [s[0]] + s[1..];
      Insert(o, s[0], Sort(o, s[1..]))
  }

  lemma {:induction false} InsertSorted(o: Order, x: FileEntry, s: seq<FileEntry>)
    requires Sorted(o, s)
    ensures Sorted(o, Insert(o, x, s))
    decreases |s|
  {
    if s == [] {
    } else if !Ahead(o, s[0].name, x.name) {
      forall j | 0 < j < |s| ensures !Ahead(o, s[j].name, x.name) {
        NotAheadTransitive(o, s[j].name, s[0].name, x.name);
      }
    } else {
      var t := Insert(o, x, s[1..]);
      InsertSorted(o, x, s[1..]);
      AheadAsymmetric(o, s[0].name, x.name);
      forall e | e in t ensures !Ahead(o, e.name, s[0].name) {
        assert e in multiset(t);
        if e != x {
          assert e in s[1..];
        }
      }
    }
  }

  /** The sort result is ordered by the comparator. */
  lemma {:induction false} SortSorted(o: Order, s: seq<FileEntry>)
    ensures Sorted(o, Sort(o, s))
    decreases |s|
  {
    if s != [] {
      SortSorted(o, s[1..]);
      InsertSorted(o, s[0], Sort(o, s[1..]));
    }
  }

  /** In the README-first order a listing that holds `README.md` starts with it. */
  lemma ReadmeLeads(s: seq<FileEntry>, k: nat)
    requires Sorted(ReadmeThenDescending, s)
    requires k < |s| && s[k].name == README
    ensures s[0].name == README
  {
    if 0 < k {
      assert !Ahead(ReadmeThenDescending, s[k].name, s[0].name);
    }
  }

  /** Apart from `README.md`, the README-first order is descending by name. */
  lemma ReadmeRestDescending(s: seq<FileEntry>, i: nat, j: nat)
    requires Sorted(ReadmeThenDescending, s)
    requires i < j < |s| && s[i].name != README && s[j].name != README
    ensures !Less(s[i].name, s[j].name)
  {
  }
}
