/** One page of a directory, read by scanning it with a bounded heap:
    `internal/gitx/directory_entries.go`. */
module DirectoryEntries {
  import opened Ordering
  import opened ByteStrings
  import opened FolderTree
  import opened KeysetPaging
  import opened Wrappers

  datatype Listed = Listed(name: Bytes, path: Bytes, directory: bool)
  datatype Page = Page(entries: seq<Listed>, truncated: bool, nextCursor: Bytes)

  function ByName(x: Entry, y: Entry): bool {
    Less(x.name, y.name)
  }

  /** The listed path of an entry; directories end in a slash. */
  function Show(directory: Bytes, e: Entry): Listed {
    Listed(e.name, Join(directory, e.name) + (if e.directory then [SLASH] else []), e.directory)
  }

  /** A listed path lies in the directory, ends in a slash for directories only, and leads to no other entry. */
  lemma ShownPathLeadsBack(directory: Bytes, e: Entry, f: Entry)
    requires ValidName(e.name) && ValidName(f.name)
    ensures var path := Show(directory, e).path;
      && (directory == [] || directory + [SLASH] <= path) && (path[|path| - 1] == SLASH <==> e.directory)
      && (path == Show(directory, f).path <==> e == f)
  {
    var p, q := Join(directory, e.name), Join(directory, f.name);
    assert p[|p| - 1] == e.name[|e.name| - 1] && q[|q| - 1] == f.name[|f.name| - 1];
    if Show(directory, e).path == Show(directory, f).path {
      assert Show(directory, e).path[|Show(directory, e).path| - 1] == SLASH <==> e.directory;
      assert Show(directory, f).path[|Show(directory, f).path| - 1] == SLASH <==> f.directory;
      assert p == Show(directory, e).path[..|p|] && q == Show(directory, f).path[..|q|];
      JoinIsInjective(directory, e.name, directory, f.name);
    }
  }

  function ShowAll(directory: Bytes, entries: seq<Entry>): (shown: seq<Listed>)
    ensures |shown| == |entries| && forall i :: 0 <= i < |shown| ==> shown[i] == Show(directory, entries[i])
  {
    seq(|entries|, i requires 0 <= i < |entries| => Show(directory, entries[i]))
  }

  /** A directory read: names are distinct and valid. */
  ghost predicate Proper(listing: set<Entry>) {
    && (forall e :: e in listing ==> ValidName(e.name))
    && (forall e, f :: e in listing && f in listing && e.name == f.name ==> e == f)
  }

  ghost function Visible(listing: set<Entry>): set<Entry> {
    set e | e in listing && e.name != GIT
  }

  ghost function VisibleAfter(listing: set<Entry>, after: Bytes): set<Entry> {
    set e | e in Visible(listing) && Less(after, e.name)
  }

  ghost predicate Shows(page: Page, shown: seq<Entry>, all: set<Entry>, directory: Bytes, limit: nat) {
    && IsFirst(ByName, shown, all, limit)
    && page.entries == ShowAll(directory, shown)
    && (page.truncated <==> |all| > limit)
    && page.nextCursor == if page.truncated && shown != [] then shown[|shown| - 1].name else []
  }

  /** The page asked for: the first `limit` visible names beyond `after`, truncated exactly when there are more. */
  ghost predicate IsPage(listing: set<Entry>, directory: Bytes, after: Bytes, limit: nat, page: Page) {
    exists shown :: Shows(page, shown, VisibleAfter(listing, after), directory, limit)
  }

  lemma NamesAreOrdered(items: set<Entry>)
    requires forall e, f :: e in items && f in items && e.name == f.name ==> e == f
    ensures TotalOrder(ByName, items)
  {
    hide Less;
    forall x, y | x in items && y in items && ByName(x, y) ensures !ByName(y, x) { LessIsAsymmetric(x.name, y.name); }
    forall x, y, z | x in items && y in items && z in items && ByName(x, z) ensures ByName(x, y) || ByName(y, z) {
      LessIsNegativelyTransitive(x.name, y.name, z.name);
    }
    forall x, y | x in items && y in items && x != y ensures ByName(x, y) || ByName(y, x) { LessIsTotal(x.name, y.name); }
  }

  /** Two pages for one request are the same page. */
  lemma PageIsUnique(listing: set<Entry>, directory: Bytes, after: Bytes, limit: nat, p: Page, q: Page)
    requires Proper(listing) && IsPage(listing, directory, after, limit, p) && IsPage(listing, directory, after, limit, q)
    ensures p == q
  {
    hide IsFirst, TotalOrder;
    var all := VisibleAfter(listing, after);
    NamesAreOrdered(all);
    var a :| Shows(p, a, all, directory, limit);
    var b :| Shows(q, b, all, directory, limit);
    FirstIsUnique(ByName, a, b, all, limit);
  }

  method SelectDirectoryEntries(entries: seq<Entry>, ghost listing: set<Entry>, after: Bytes, limit: nat)
    returns (ordered: seq<Entry>)
    requires Proper(listing) && Distinct(entries) && Elements(entries) == listing
    ensures IsFirst(ByName, ordered, VisibleAfter(listing, after), limit + 1)
  {
    var retainedLimit := limit + 1;
    var selected: seq<Entry> := [];
    for i := 0 to |entries|
      invariant Keeps(ByName, selected, VisibleAfter(Elements(entries[..i]), after), retainedLimit)
    {
      var entry := entries[i];
      ghost var offered := VisibleAfter(Elements(entries[..i]), after);
      NextOffer(entries, i, listing, after);
      if entry.name == GIT || !Less(after, entry.name) { continue; }
      selected := Offer(selected, entry, retainedLimit, ByName, offered);
    }
    assert entries[..|entries|] == entries;
    ghost var all := VisibleAfter(listing, after);
    NamesAreOrdered(all);
    assert WeakOrder(ByName, Elements(selected));
    ordered := Sort(selected, ByName);
    SortedKeptIsFirst(ByName, selected, ordered, all, retainedLimit);
  }

  lemma NextOffer(entries: seq<Entry>, i: nat, listing: set<Entry>, after: Bytes)
    requires i < |entries| && Proper(listing) && Distinct(entries) && Elements(entries) == listing
    ensures var (before, then_) := (VisibleAfter(Elements(entries[..i]), after), VisibleAfter(Elements(entries[..i + 1]), after));
      if entries[i].name != GIT && Less(after, entries[i].name)
      then entries[i] !in before && then_ == before + {entries[i]} && TotalOrder(ByName, then_)
      else then_ == before
  {
    hide Less;
    assert entries[..i + 1] == entries[..i] + [entries[i]];
    assert Elements(entries[..i + 1]) == Elements(entries[..i]) + {entries[i]};
    assert Elements(entries[..i + 1]) <= listing by { assert forall e :: e in entries[..i + 1] ==> e in entries; }
    NamesAreOrdered(VisibleAfter(Elements(entries[..i + 1]), after));
  }

  lemma CutFirst(ordered: seq<Entry>, all: set<Entry>, limit: nat)
    requires TotalOrder(ByName, all) && IsFirst(ByName, ordered, all, limit + 1)
    ensures |ordered| > limit <==> |all| > limit
    ensures IsFirst(ByName, if |ordered| > limit then ordered[..limit] else ordered, all, limit)
  {
    FirstSize(ByName, ordered, all, limit + 1);
    if |ordered| > limit {
      var cut, last := ordered[..limit], ordered[limit];
      assert ordered == cut + [last];
      forall x | x in all && x !in cut ensures forall y :: y in cut ==> ByName(y, x) {
        assert forall y :: y in cut ==> y in ordered;
        assert x in ordered ==> x == last;
      }
    }
  }

  lemma VisibleOrdered(listing: set<Entry>, after: Bytes)
    requires Proper(listing)
    ensures TotalOrder(ByName, VisibleAfter(listing, after))
  {
    hide TotalOrder, ValidName, Less;
    NamesAreOrdered(VisibleAfter(listing, after));
  }

  /** A cursor that names no child: it holds a slash, or is "." or "..". */
  predicate BadCursor(after: Bytes) {
    SLASH in after || after == [46] || after == [46, 46]
  }

  /** The bounded-heap page of a directory; None is the error for a bad cursor. */
  method ReadPage(entries: seq<Entry>, ghost listing: set<Entry>, directory: Bytes, after: Bytes, limit: int)
    returns (page: Option<Page>)
    requires Proper(listing) && Distinct(entries) && Elements(entries) == listing
    ensures limit <= 0 ==> page == Some(Page([], false, []))
    ensures limit >= 1 ==> page.None? == BadCursor(after)
    ensures limit >= 1 && page.Some? ==> IsPage(listing, directory, after, limit, page.value)
  {
    hide Less, Proper, TotalOrder, IsFirst, Elements, VisibleAfter;
    if limit <= 0 { return Some(Page([], false, [])); }
    if BadCursor(after) { return None; }
    var ordered := SelectDirectoryEntries(entries, listing, after, limit);
    VisibleOrdered(listing, after);
    CutFirst(ordered, VisibleAfter(listing, after), limit);
    var truncated := |ordered| > limit;
    if truncated { ordered := ordered[..limit]; }
    var shown: seq<Listed> := [];
    for i := 0 to |ordered|
      invariant |shown| == i && forall k :: 0 <= k < i ==> shown[k] == Show(directory, ordered[k])
    {
      shown := shown + [Show(directory, ordered[i])];
    }
    assert shown == ShowAll(directory, ordered);
    var result := Page(shown, truncated, if truncated then shown[|shown| - 1].name else []);
    assert Shows(result, ordered, VisibleAfter(listing, after), directory, limit);
    page := Some(result);
  }

  // ------------------------------------------------------ following the cursor

  ghost function Names(listing: set<Entry>): set<Bytes> {
    set e | e in Visible(listing) :: e.name
  }

  function AsKeyPage(page: Page): KeyPage {
    KeyPage(seq(|page.entries|, i requires 0 <= i < |page.entries| => page.entries[i].name), page.truncated, page.nextCursor)
  }

  /** The names of the first entries are the first of the names. */
  lemma FirstNames(entries: seq<Entry>, keys: seq<Bytes>, all: set<Entry>, names: set<Bytes>, limit: nat)
    requires IsFirst(ByName, entries, all, limit) && |keys| == |entries|
    requires forall i :: 0 <= i < |keys| ==> keys[i] == entries[i].name
    requires names == set e | e in all :: e.name
    ensures IsFirst(Less, keys, names, limit)
    ensures |entries| == |all| && TotalOrder(ByName, all) ==> Elements(keys) == names
  {
    hide Less, TotalOrder, Elements;
    assert forall i, j :: 0 <= i < j < |keys| ==> Less(keys[i], keys[j]) by {
      assert forall i, j :: 0 <= i < j < |keys| ==> ByName(entries[i], entries[j]);
    }
    assert forall k :: k in keys ==> k in names by {
      assert forall i :: 0 <= i < |keys| ==> entries[i] in all && keys[i] in names;
    }
    forall k | k in names && k !in keys ensures |keys| == limit && forall y :: y in keys ==> Less(y, k) {
      MissingName(entries, keys, all, limit, k);
    }
    if |entries| == |all| && TotalOrder(ByName, all) {
      AllNames(entries, keys, all, names, limit);
    }
  }

  lemma MissingName(entries: seq<Entry>, keys: seq<Bytes>, all: set<Entry>, limit: nat, k: Bytes)
    requires IsFirst(ByName, entries, all, limit) && |keys| == |entries|
    requires forall i :: 0 <= i < |keys| ==> keys[i] == entries[i].name
    requires k in (set e | e in all :: e.name) && k !in keys
    ensures |keys| == limit && forall y :: y in keys ==> Less(y, k)
  {
    hide Less;
    var e :| e in all && e.name == k;
    assert e !in entries by {
      assert forall i :: 0 <= i < |entries| && entries[i] == e ==> keys[i] == k;
    }
    assert forall i :: 0 <= i < |entries| ==> ByName(entries[i], e);
  }

  lemma AllNames(entries: seq<Entry>, keys: seq<Bytes>, all: set<Entry>, names: set<Bytes>, limit: nat)
    requires TotalOrder(ByName, all) && IsFirst(ByName, entries, all, limit) && |keys| == |entries| == |all|
    requires forall i :: 0 <= i < |keys| ==> keys[i] == entries[i].name
    requires names == set e | e in all :: e.name
    ensures Elements(keys) == names
  {
    hide Less, ByName, TotalOrder;
    FirstSize(ByName, entries, all, limit);
    forall k ensures k in keys <==> k in names {
      if k in names {
        var e :| e in all && e.name == k;
        assert e in Elements(entries);
        var i :| 0 <= i < |entries| && entries[i] == e;
        assert keys[i] == k;
      } else {
        assert forall i :: 0 <= i < |keys| ==> entries[i] in Elements(entries) && keys[i] in names;
      }
    }
  }

  lemma NamesBeyond(listing: set<Entry>, after: Bytes)
    ensures (set e | e in VisibleAfter(listing, after) :: e.name) == set k | k in Names(listing) && Less(after, k)
  {
    hide Less;
  }

  lemma PageIsKeyPage(listing: set<Entry>, directory: Bytes, after: Bytes, limit: nat, page: Page)
    requires Proper(listing) && limit >= 1 && IsPage(listing, directory, after, limit, page)
    ensures IsKeyPage(Names(listing), after, AsKeyPage(page))
    ensures page.truncated ==> |page.entries| == limit
  {
    hide Less, ValidName, TotalOrder, IsFirst, IsKeyPage, Elements, Names, VisibleAfter;
    var all := VisibleAfter(listing, after);
    VisibleOrdered(listing, after);
    var shown: seq<Entry> :| Shows(page, shown, all, directory, limit);
    FirstSize(ByName, shown, all, limit);
    var keys := AsKeyPage(page).keys;
    var names := set e | e in all :: e.name;
    FirstNames(shown, keys, all, names, limit);
    NamesBeyond(listing, after);
    FirstIsKeyPage(Names(listing), names, after, keys, limit, page.truncated);
    assert AsKeyPage(page) == KeyPage(keys, page.truncated, if page.truncated then keys[limit - 1] else []);
  }

  ghost predicate PagesFollow(listing: set<Entry>, directory: Bytes, limit: nat, pages: seq<Page>) {
    && pages != [] && IsPage(listing, directory, [], limit, pages[0])
    && forall i :: 0 <= i < |pages| - 1 ==> pages[i].truncated && IsPage(listing, directory, pages[i].nextCursor, limit, pages[i + 1])
  }

  /** Following the cursor lists every visible name of the directory exactly once, in byte order. */
  lemma PagingListsEveryName(listing: set<Entry>, directory: Bytes, limit: nat, pages: seq<Page>)
    requires Proper(listing) && limit >= 1 && PagesFollow(listing, directory, limit, pages)
    ensures var listed := Listing(seq(|pages|, i requires 0 <= i < |pages| => AsKeyPage(pages[i])));
      && Ascending(Less, listed) && Distinct(listed)
      && (!pages[|pages| - 1].truncated ==> Elements(listed) == Names(listing) && |listed| == |Names(listing)|)
    ensures (|pages| - 1) * limit <= |Names(listing)|
  {
    hide Less, Names, IsPage;
    var keyPages := seq(|pages|, i requires 0 <= i < |pages| => AsKeyPage(pages[i]));
    PageIsKeyPage(listing, directory, [], limit, pages[0]);
    forall i | 0 <= i < |pages| - 1
      ensures keyPages[i].more && IsKeyPage(Names(listing), keyPages[i].cursor, keyPages[i + 1])
    {
      PageIsKeyPage(listing, directory, pages[i].nextCursor, limit, pages[i + 1]);
    }
    forall i | 0 <= i < |pages| && keyPages[i].more ensures |keyPages[i].keys| >= limit {
      PageIsKeyPage(listing, directory, if i == 0 then [] else pages[i - 1].nextCursor, limit, pages[i]);
    }
    NoEmptyName(listing);
    KeysetPaging.PagingListsEverything(Names(listing), keyPages, limit);
  }

  lemma NoEmptyName(listing: set<Entry>)
    requires Proper(listing)
    ensures [] !in Names(listing)
  {
  }
}
