/** Paging by key: each page carries the keys that follow the cursor of the page before. Three
    listings of the program page this way; what following the cursor promises is proved here once. */
module KeysetPaging {
  import opened Ordering
  import opened ByteStrings

  datatype KeyPage = KeyPage(keys: seq<Bytes>, more: bool, cursor: Bytes)

  /** The page lists, in order, the keys beyond `after` up to its own cursor, or all of them. */
  ghost predicate IsKeyPage(all: set<Bytes>, after: Bytes, page: KeyPage) {
    && Ascending(Less, page.keys)
    && (forall k :: k in page.keys ==> k in all && Less(after, k))
    && (page.more ==> page.keys != [] && page.cursor == page.keys[|page.keys| - 1])
    && (forall k :: k in all && Less(after, k) && k !in page.keys ==> page.more && Less(page.cursor, k))
  }

  /** Pages asked for one after another, each with the cursor of the one before. */
  ghost predicate Chain(all: set<Bytes>, pages: seq<KeyPage>) {
    && pages != [] && IsKeyPage(all, [], pages[0])
    && forall i :: 0 <= i < |pages| - 1 ==> pages[i].more && IsKeyPage(all, pages[i].cursor, pages[i + 1])
  }

  function Listing(pages: seq<KeyPage>): seq<Bytes> {
    if pages == [] then [] else Listing(pages[..|pages| - 1]) + pages[|pages| - 1].keys
  }

  /** `listed` holds exactly the keys up to the cursor, in order. */
  ghost predicate ListsUpTo(all: set<Bytes>, listed: seq<Bytes>, cursor: Bytes) {
    && Ascending(Less, listed)
    && forall k :: k in listed <==> k in all && !Less(cursor, k)
  }

  lemma PageExtends(all: set<Bytes>, cursor: Bytes, listed: seq<Bytes>, page: KeyPage)
    requires IsKeyPage(all, cursor, page) && ListsUpTo(all, listed, cursor)
    ensures Ascending(Less, listed + page.keys)
    ensures page.more ==> ListsUpTo(all, listed + page.keys, page.cursor)
    ensures !page.more ==> Elements(listed + page.keys) == all
  {
    hide Less;
    var joined := listed + page.keys;
    forall i, j | 0 <= i < j < |joined| ensures Less(joined[i], joined[j]) {
      if i < |listed| <= j {
        assert joined[i] in listed && joined[j] in page.keys;
        LessIsTotal(joined[i], cursor);
        if joined[i] != cursor { LessIsTransitive(joined[i], cursor, joined[j]); }
      }
    }
    if page.more {
      forall k ensures k in joined <==> k in all && !Less(page.cursor, k) { UpToCursor(all, cursor, listed, page, k); }
    } else {
      forall k ensures k in joined <==> k in all { assert k in all && k !in listed ==> Less(cursor, k); }
    }
  }

  lemma UpToCursor(all: set<Bytes>, cursor: Bytes, listed: seq<Bytes>, page: KeyPage, k: Bytes)
    requires IsKeyPage(all, cursor, page) && ListsUpTo(all, listed, cursor) && page.more
    ensures k in listed + page.keys <==> k in all && !Less(page.cursor, k)
  {
    hide Less;
    assert page.cursor in page.keys;
    if k in listed {
      if Less(page.cursor, k) { LessIsTransitive(cursor, page.cursor, k); }
    } else if k in page.keys {
      var i :| 0 <= i < |page.keys| && page.keys[i] == k;
      LessIsIrreflexive(page.cursor);
      if i < |page.keys| - 1 { LessIsAsymmetric(k, page.cursor); }
    }
  }

  lemma {:induction false} ChainInvariant(all: set<Bytes>, pages: seq<KeyPage>)
    requires [] !in all && Chain(all, pages)
    ensures Ascending(Less, Listing(pages))
    ensures var last := pages[|pages| - 1];
      if last.more then ListsUpTo(all, Listing(pages), last.cursor) else Elements(Listing(pages)) == all
  {
    hide Less;
    var n := |pages| - 1;
    if n == 0 {
      forall k | k in all ensures Less([], k) { PrefixIsLess([], k); }
      PageExtends(all, [], [], pages[0]);
      assert Listing(pages) == [] + pages[0].keys;
    } else {
      ChainInvariant(all, pages[..n]);
      PageExtends(all, pages[n - 1].cursor, Listing(pages[..n]), pages[n]);
    }
  }

  lemma {:induction false} PagesAddUp(all: set<Bytes>, pages: seq<KeyPage>, size: nat)
    requires Chain(all, pages) && forall i :: 0 <= i < |pages| && pages[i].more ==> |pages[i].keys| >= size
    ensures |Listing(pages)| >= (|pages| - 1) * size
    ensures pages[|pages| - 1].more ==> |Listing(pages)| >= |pages| * size
  {
    var n := |pages| - 1;
    if n > 0 {
      PagesAddUp(all, pages[..n], size);
      assert (n + 1) * size == n * size + size;
    }
  }

  /** Following the cursor until no more pages are announced lists every key exactly once, in order,
      and takes a bounded number of pages. */
  lemma PagingListsEverything(all: set<Bytes>, pages: seq<KeyPage>, size: nat)
    requires [] !in all && Chain(all, pages)
    requires forall i :: 0 <= i < |pages| && pages[i].more ==> |pages[i].keys| >= size
    ensures Ascending(Less, Listing(pages)) && Distinct(Listing(pages)) && Elements(Listing(pages)) <= all
    ensures !pages[|pages| - 1].more ==> Elements(Listing(pages)) == all && |Listing(pages)| == |all|
    ensures (|pages| - 1) * size <= |all|
  {
    hide Less;
    ChainInvariant(all, pages);
    PagesAddUp(all, pages, size);
    LessOrders(all);
    assert forall k :: k in Elements(Listing(pages)) ==> k in Listing(pages);
    AscendingIsDistinct(Less, Listing(pages), all);
    DistinctSize(Listing(pages));
    SubsetSize(Elements(Listing(pages)), all);
  }

  /** The first n keys beyond the cursor make a page. */
  lemma FirstIsKeyPage(all: set<Bytes>, beyond: set<Bytes>, after: Bytes, keys: seq<Bytes>, n: nat, more: bool)
    requires beyond == (set k | k in all && Less(after, k)) && n >= 1
    requires IsFirst(Less, keys, beyond, n) && (more ==> |keys| == n) && (!more ==> Elements(keys) == beyond)
    ensures IsKeyPage(all, after, KeyPage(keys, more, if more then keys[n - 1] else []))
  {
    hide Less;
    assert !more ==> forall k :: k in beyond ==> k in keys;
    forall k | k in all && Less(after, k) && k !in keys ensures more && Less(keys[n - 1], k) {
      assert k in beyond;
    }
  }
}
