/**
 * The older blog page script (blog/js/main.js): how `fetchPosts` turns the
 * GitHub contents listing into the post list, the name shown for each file,
 * the post opened by default, and the messages shown instead of a list.
 * The list items themselves are DOM; here they are values.
 */
module BlogMain {
  import opened JsStrings
  import opened Seqs
  import opened Listing

  const MD: string := ".md"
  const MARKDOWN: string := ".markdown"
  const NO_MARKDOWN: string := "No markdown files found"

  /** The filter of `fetchPosts`: a file whose name ends in `.md` or `.markdown`. */
  predicate IsPostFile(f: FileEntry) {
    f.kind == "file" && (EndsWith(f.name, MD) || EndsWith(f.name, MARKDOWN))
  }

  /**
   * `name.replace(/\.(md|markdown)$/, "")`.  Only a match that reaches the end
   * counts, and at most one of the two extensions ends a name.
   */
  function DisplayName(name: string): (r: string)
    ensures StartsWith(name, r)
    ensures EndsWith(name, MD) ==> r + MD == name
    ensures EndsWith(name, MARKDOWN) ==> r + MARKDOWN == name
    ensures !EndsWith(name, MD) && !EndsWith(name, MARKDOWN) ==> r == name
  {
    if EndsWith(name, MD) then
      assert name == name[..|name| - 3] + name[|name| - 3..];
      name[..|name| - 3]
    else if EndsWith(name, MARKDOWN) then
      assert name == name[..|name| - 9] + name[|name| - 9..];
      name[..|name| - 9]
    else name
  }

  /** The two extensions never end the same name: ".markdown" ends in "own". */
  lemma ExtensionsExclusive(name: string)
    ensures !(EndsWith(name, MD) && EndsWith(name, MARKDOWN))
  {
    if EndsWith(name, MARKDOWN) {
      assert name[|name| - 3..] == name[|name| - 9..][6..];
      assert MARKDOWN[6..] == "own";
    }
  }

  /** Appending either extension and taking the display name gives back the base name. */
  lemma DisplayNameRoundTrip(base: string)
    ensures DisplayName(base + MD) == base
    ensures DisplayName(base + MARKDOWN) == base
  {
    var a := base + MD;
    assert a[|a| - 3..] == MD;
    var b := base + MARKDOWN;
    assert b[|b| - 9..] == MARKDOWN;
    ExtensionsExclusive(b);
    assert b[..|b| - 9] == base;
    assert a[..|a| - 3] == base;
  }

  /** One entry of the rendered list: the text shown and the URL its click loads. */
  datatype ListItem = ListItem(displayName: string, downloadUrl: string)

  function ItemOf(f: FileEntry): ListItem {
    ListItem(DisplayName(f.name), f.downloadUrl)
  }

  function Items(files: seq<FileEntry>): (r: seq<ListItem>)
    ensures |r| == |files|
    ensures forall i :: 0 <= i < |files| ==> r[i] == ItemOf(files[i])
  {
    seq(|files|, i requires 0 <= i < |files| => ItemOf(files[i]))
  }

  /** The contents response: a parsed listing, a non-ok status, or a thrown error. */
  datatype Fetched = Ok(files: seq<FileEntry>) | NotOk(status: int) | Failed(message: string)

  /** What the post list shows after `fetchPosts`, and which post it opens. */
  datatype PostList =
    | ErrorMessage(text: string)
    | EmptyMessage(text: string)
    | Shown(items: seq<ListItem>, first: ListItem)

  function ErrorText(message: string): string {
    "Error loading posts: " + message
  }

  function HttpErrorMessage(status: int): string {
    "HTTP error! Status: " + IntToString(status)
  }

  /** The kept files in the order `markdownFiles.sort` leaves them. */
  function MarkdownFiles(files: seq<FileEntry>): seq<FileEntry> {
    Sort(Descending, Filter(files, IsPostFile))
  }

  /** `fetchPosts()` with the outcome of its `fetch` and `response.json()` given as `response`. */
  function FetchPosts(response: Fetched): (r: PostList)
    ensures response.NotOk? ==> r == ErrorMessage(ErrorText(HttpErrorMessage(response.status)))
    ensures response.Failed? ==> r == ErrorMessage(ErrorText(response.message))
    ensures response.Ok? ==> (r == EmptyMessage(NO_MARKDOWN) <==> forall f :: f in response.files ==> !IsPostFile(f))
    ensures response.Ok? ==> r.EmptyMessage? || r.Shown?
    ensures r.Shown? ==> r.items != [] && r.first == r.items[0]
  {
    match response
    case NotOk(status) => ErrorMessage(ErrorText(HttpErrorMessage(status)))
    case Failed(message) => ErrorMessage(ErrorText(message))
    case Ok(files) =>
      var sorted := MarkdownFiles(files);
      if |sorted| == 0 then EmptyMessage(NO_MARKDOWN)
      else
        var items := Items(sorted);
        Shown(items, items[0])
  }

  /**
   * The files behind a shown list are exactly the post files of the listing,
   * newest name first; the list shows each file's display name and opens the
   * first one.
   */
  lemma ShownList(files: seq<FileEntry>)
    requires exists f :: f in files && IsPostFile(f)
    ensures var sorted := MarkdownFiles(files);
      FetchPosts(Ok(files)) == Shown(Items(sorted), ItemOf(sorted[0]))
      && multiset(sorted) == multiset(Filter(files, IsPostFile))
      && (forall i :: 0 <= i < |sorted| ==> IsPostFile(sorted[i]))
      && (forall i, j :: 0 <= i < j < |sorted| ==> !Less(sorted[i].name, sorted[j].name))
  {
    var kept := Filter(files, IsPostFile);
    var sorted := MarkdownFiles(files);
    var f :| f in files && IsPostFile(f);
    assert f in kept;
    assert |sorted| == |kept| > 0;
    SortSorted(Descending, kept);
    forall i | 0 <= i < |sorted|
      ensures IsPostFile(sorted[i])
    {
      assert sorted[i] in multiset(kept);
    }
  }
}
