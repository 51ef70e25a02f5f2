/** Paging a review by change key under a byte budget: `internal/gitx/review.go`. */
module ReviewPages {
  import opened Ordering
  import opened ByteStrings
  import opened KeysetPaging

  const MAX_PAGE_BYTES := 8388608
  const MAX_PAGE_FILES := 25

  datatype Change = Change(path: Bytes, oldPath: Bytes, kind: nat)

  function Key(c: Change): (k: Bytes)
    ensures k != []
  {
    c.path + [0] + c.oldPath
  }

  function Keys(changes: seq<Change>): (k: seq<Bytes>)
    ensures |k| == |changes| && forall i :: 0 <= i < |k| ==> k[i] == Key(changes[i])
  {
    seq(|changes|, i requires 0 <= i < |changes| => Key(changes[i]))
  }

  function AllKeys(changes: seq<Change>): set<Bytes> {
    set k | k in Keys(changes)
  }

  function Eligible(changes: seq<Change>, after: Bytes): set<Bytes> {
    set k | k in AllKeys(changes) && Less(after, k)
  }

  // ------------------------------------------------------ a sorted insertion into a bounded list

  function Inserted<T>(s: seq<T>, at: nat, x: T, limit: nat): seq<T>
    requires at <= |s| <= limit && at < limit
  {
    var all := s[..at] + [x] + s[at..];
    if |all| <= limit then all else all[..limit]
  }

  lemma InsertAscends(s: seq<Bytes>, all: set<Bytes>, at: nat, x: Bytes, limit: nat)
    requires Ascending(Less, s) && at <= |s| <= limit && at < limit
    requires forall i :: 0 <= i < at ==> Less(s[i], x)
    requires forall i :: at <= i < |s| ==> Less(x, s[i])
    ensures Ascending(Less, Inserted(s, at, x, limit))
  {
    hide Less;
    var t := s[..at] + [x] + s[at..];
    assert forall i :: 0 <= i < at ==> t[i] == s[i];
    assert forall i :: at < i < |t| ==> t[i] == s[i - 1];
    assert Ascending(Less, t);
  }

  lemma InsertMembers(s: seq<Bytes>, at: nat, x: Bytes, limit: nat, k: Bytes)
    requires at <= |s| <= limit && at < limit
    ensures k in Inserted(s, at, x, limit) ==> k == x || k in s
    ensures k == x || (k in s && (|s| < limit || k != s[|s| - 1])) ==> k in Inserted(s, at, x, limit)
  {
    var t := Inserted(s, at, x, limit);
    assert forall i :: 0 <= i < at ==> t[i] == s[i];
    assert t[at] == x;
    assert forall i :: at < i < |t| ==> t[i] == s[i - 1];
    if k in s && (|s| < limit || k != s[|s| - 1]) {
      var i :| 0 <= i < |s| && s[i] == k;
      assert i < at ==> t[i] == k;
      assert i >= at ==> t[i + 1] == k;
    }
  }

  /** Inserting in its place and dropping what is too much keeps the first keys of all. */
  lemma InsertKeepsFirst(s: seq<Bytes>, all: set<Bytes>, at: nat, x: Bytes, limit: nat)
    requires IsFirst(Less, s, all, limit) && x !in all && at <= |s| && at < limit
    requires forall i :: 0 <= i < at ==> Less(s[i], x)
    requires forall i :: at <= i < |s| ==> Less(x, s[i])
    ensures IsFirst(Less, Inserted(s, at, x, limit), all + {x}, limit)
  {
    hide Less;
    var t := Inserted(s, at, x, limit);
    InsertAscends(s, all, at, x, limit);
    forall k ensures k in t ==> k == x || k in s
      ensures k == x || (k in s && (|s| < limit || k != s[|s| - 1])) ==> k in t
    {
      InsertMembers(s, at, x, limit, k);
    }
    forall k, y | k in all + {x} && k !in t && y in t ensures |t| == limit && Less(y, k) {
      assert k in all && k != x;
      if k in s {
        LastIsGreatest(s, k, x, y, at, limit);
      } else {
        assert |s| == limit && forall z :: z in s ==> Less(z, k);
        if y == x { LessIsTransitive(x, s[|s| - 1], k); }
      }
    }
  }

  lemma InsertedAt(s: seq<Bytes>, at: nat, x: Bytes, limit: nat, i: nat)
    requires at <= |s| <= limit && at < limit && i < |Inserted(s, at, x, limit)|
    ensures i <= |s| && i < limit
    ensures Inserted(s, at, x, limit)[i] == if i < at then s[i] else if i == at then x else s[i - 1]
  {
  }

  lemma LastIsGreatest(s: seq<Bytes>, k: Bytes, x: Bytes, y: Bytes, at: nat, limit: nat)
    requires Ascending(Less, s) && |s| == limit && at < limit && k == s[limit - 1]
    requires forall i :: at <= i < |s| ==> Less(x, s[i])
    requires y in Inserted(s, at, x, limit)
    ensures Less(y, k)
  {
    hide Less;
    var t := Inserted(s, at, x, limit);
    var i :| 0 <= i < |t| && t[i] == y;
    InsertedAt(s, at, x, limit, i);
    hide Inserted;
    assert Less(x, s[limit - 1]);
    if i < at { assert Less(s[i], s[limit - 1]); } else if i > at { assert Less(s[i - 1], s[limit - 1]); }
  }

  /** sort.Search over the sorted list: the first position whose key is not below. */
  method Search(selected: array<Change>, count: nat, key: Bytes) returns (at: nat)
    requires count <= selected.Length && Ascending(Less, Keys(selected[..count]))
    ensures at <= count
    ensures forall i :: 0 <= i < at ==> Less(Key(selected[i]), key)
    ensures forall i :: at <= i < count ==> !Less(Key(selected[i]), key)
  {
    hide Less;
    ghost var keys := Keys(selected[..count]);
    var low, high := 0, count;
    while low < high
      invariant 0 <= low <= high <= count
      invariant forall i :: 0 <= i < low ==> Less(keys[i], key)
      invariant forall i :: high <= i < count ==> !Less(keys[i], key)
    {
      var middle := (low + high) / 2;
      assert Key(selected[middle]) == keys[middle];
      if Less(Key(selected[middle]), key) {
        forall i | 0 <= i < middle ensures Less(keys[i], key) { LessIsTransitive(keys[i], keys[middle], key); }
        low := middle + 1;
      } else {
        forall i | middle < i < count ensures !Less(keys[i], key) {
          if Less(keys[i], key) { LessIsTransitive(keys[middle], keys[i], key); }
        }
        high := middle;
      }
    }
    at := low;
    assert forall i :: 0 <= i < count ==> keys[i] == Key(selected[i]);
  }

  /** Shifts what follows, dropping the last of a full list. */
  method Insert(selected: array<Change>, count: nat, at: nat, change: Change) returns (count': nat)
    requires at <= count <= selected.Length && at < selected.Length
    modifies selected
    ensures count' == (if count < selected.Length then count + 1 else count)
    ensures selected[..count'] == Inserted(old(selected[..count]), at, change, selected.Length)
  {
    count' := if count < selected.Length then count + 1 else count;
    forall i | at < i < count' { selected[i] := selected[i - 1]; }
    selected[at] := change;
    ghost var before := old(selected[..count]);
    forall i | 0 <= i < count' ensures selected[i] == Inserted(before, at, change, selected.Length)[i] {
    }
  }

  lemma InsertedKeys(s: seq<Change>, at: nat, x: Change, limit: nat)
    requires at <= |s| <= limit && at < limit
    ensures Keys(Inserted(s, at, x, limit)) == Inserted(Keys(s), at, Key(x), limit)
  {
  }

  ghost predicate DistinctKeys(changes: seq<Change>) {
    forall i, j :: 0 <= i < j < |changes| ==> Key(changes[i]) != Key(changes[j])
  }

  lemma NextEligible(changes: seq<Change>, n: nat, after: Bytes)
    requires n < |changes| && DistinctKeys(changes)
    ensures var (key, before) := (Key(changes[n]), Eligible(changes[..n], after));
      key !in before && Eligible(changes[..n + 1], after) == if Less(after, key) then before + {key} else before
  {
    hide Less, Key;
    var more, less := Keys(changes[..n + 1]), Keys(changes[..n]);
    assert more == less + [Key(changes[n])];
    assert forall i :: 0 <= i < n ==> less[i] == Key(changes[i]) != Key(changes[n]);
  }

  /** One eligible change takes its place among the kept ones, if it has one. */
  method Keep(list: array<Change>, count: nat, change: Change, ghost before: set<Bytes>, ghost changes: seq<Change>)
    returns (count': nat)
    requires count <= list.Length && list.Length > 0 && Key(change) !in before && change in changes
    requires IsFirst(Less, Keys(list[..count]), before, list.Length)
    requires forall i :: 0 <= i < count ==> list[i] in changes
    modifies list
    ensures count' <= list.Length && IsFirst(Less, Keys(list[..count']), before + {Key(change)}, list.Length)
    ensures forall i :: 0 <= i < count' ==> list[i] in changes
  {
    hide Less, IsFirst, Keys, Key, Inserted;
    var limit := list.Length;
    var key := Key(change);
    ghost var was := list[..count];
    FirstAscends(Keys(was), before, limit);
    var index := Search(list, count, key);
    assert forall i :: 0 <= i < count ==> was[i] == list[i];
    Placed(was, before, key, index, limit);
    if index >= limit {
      TooGreat(Keys(was), before, key, limit);
      return count;
    }
    InsertKeepsFirst(Keys(was), before, index, key, limit);
    InsertedKeys(was, index, change, limit);
    InsertedFrom(was, index, change, limit, changes);
    count' := Insert(list, count, index, change);
    assert forall i :: 0 <= i < count' ==> list[..count'][i] == list[i];
  }

  /** The smallest `limit` changes beyond the cursor, and whether there are more. */
  method NextReviewChanges(changes: seq<Change>, after: Bytes, limit: nat) returns (selected: seq<Change>, hasMore: bool)
    requires DistinctKeys(changes) && limit > 0
    ensures IsFirst(Less, Keys(selected), Eligible(changes, after), limit)
    ensures forall c :: c in selected ==> c in changes
    ensures hasMore <==> |Eligible(changes, after)| > |selected|
  {
    hide Less, IsFirst, Eligible, Keys;
    var list := new Change[limit](_ => Change([], [], 0));
    var count: nat, eligible: nat := 0, 0;
    NothingSelected(changes, after, limit);
    for n := 0 to |changes|
      invariant count <= limit && IsFirst(Less, Keys(list[..count]), Eligible(changes[..n], after), limit)
      invariant eligible == |Eligible(changes[..n], after)|
      invariant forall i :: 0 <= i < count ==> list[i] in changes
    {
      var change := changes[n];
      var key := Key(change);
      NextEligible(changes, n, after);
      if !Less(after, key) { continue; }
      eligible := eligible + 1;
      count := Keep(list, count, change, Eligible(changes[..n], after), changes);
    }
    assert changes[..|changes|] == changes;
    selected := list[..count];
    hasMore := eligible > count;
  }

  lemma NothingSelected(changes: seq<Change>, after: Bytes, limit: nat)
    ensures IsFirst(Less, Keys([]), Eligible(changes[..0], after), limit) && Eligible(changes[..0], after) == {}
  {
  }

  lemma FirstAscends(keys: seq<Bytes>, all: set<Bytes>, limit: nat)
    requires IsFirst(Less, keys, all, limit)
    ensures Ascending(Less, keys)
  {
  }

  lemma Placed(was: seq<Change>, before: set<Bytes>, key: Bytes, index: nat, limit: nat)
    requires IsFirst(Less, Keys(was), before, limit) && key !in before && index <= |was|
    requires forall i :: 0 <= i < index ==> Less(Key(was[i]), key)
    requires forall i :: index <= i < |was| ==> !Less(Key(was[i]), key)
    ensures forall i :: 0 <= i < index ==> Less(Keys(was)[i], key)
    ensures forall i :: index <= i < |was| ==> Less(key, Keys(was)[i])
  {
    hide Less;
    forall i | index <= i < |was| ensures Less(key, Keys(was)[i]) {
      assert Keys(was)[i] in Keys(was);
      LessIsTotal(key, Keys(was)[i]);
    }
  }

  /** A key beyond a full list changes nothing. */
  lemma TooGreat(keys: seq<Bytes>, before: set<Bytes>, key: Bytes, limit: nat)
    requires IsFirst(Less, keys, before, limit) && |keys| >= limit
    requires forall i :: 0 <= i < |keys| ==> Less(keys[i], key)
    ensures IsFirst(Less, keys, before + {key}, limit)
  {
  }

  lemma InsertedFrom(was: seq<Change>, index: nat, change: Change, limit: nat, changes: seq<Change>)
    requires index <= |was| <= limit && index < limit && change in changes
    requires forall i :: 0 <= i < |was| ==> was[i] in changes
    ensures forall i :: 0 <= i < |Inserted(was, index, change, limit)| ==> Inserted(was, index, change, limit)[i] in changes
  {
  }

  // ------------------------------------------------------ the byte budget

  /** How many bytes a change's supplement takes, whole or with its contents taken out. */
  datatype Sizes = Sizes(whole: Change -> nat, stripped: Change -> nat)

  datatype Supplement = Supplement(change: Change, tooLarge: bool)

  function SizeOf(s: Supplement, sizes: Sizes): nat {
    if s.tooLarge then sizes.stripped(s.change) else sizes.whole(s.change)
  }

  function TotalSize(page: seq<Supplement>, sizes: Sizes): nat {
    if page == [] then 0 else TotalSize(page[..|page| - 1], sizes) + SizeOf(page[|page| - 1], sizes)
  }

  /** The page's changes in order; only the first may be a placeholder, and is one exactly when it is too large. */
  ghost predicate Fills(page: seq<Supplement>, changes: seq<Change>, sizes: Sizes) {
    && |page| <= |changes| && (changes != [] ==> page != [])
    && forall i :: 0 <= i < |page| ==>
         page[i].change == changes[i]
         && (page[i].tooLarge <==> i == 0 && sizes.whole(changes[0]) > MAX_PAGE_BYTES)
  }

  method FillPage(changes: seq<Change>, sizes: Sizes) returns (page: seq<Supplement>)
    ensures Fills(page, changes, sizes)
    // over the budget only as a lone placeholder that is itself over it
    ensures TotalSize(page, sizes) > MAX_PAGE_BYTES <==>
      page != [] && page[0].tooLarge && sizes.stripped(changes[0]) > MAX_PAGE_BYTES
    ensures TotalSize(page, sizes) > MAX_PAGE_BYTES ==> |page| == 1
    // it stops only where the next change would go over
    ensures |page| < |changes| ==> TotalSize(page, sizes) + sizes.whole(changes[|page|]) > MAX_PAGE_BYTES
  {
    page := [];
    var pageBytes := 0;
    while |page| < |changes|
      invariant |page| <= |changes| && pageBytes == TotalSize(page, sizes)
      invariant forall i :: 0 <= i < |page| ==>
        page[i].change == changes[i]
        && (page[i].tooLarge <==> i == 0 && sizes.whole(changes[0]) > MAX_PAGE_BYTES)
      invariant pageBytes > MAX_PAGE_BYTES <==>
        page != [] && page[0].tooLarge && sizes.stripped(changes[0]) > MAX_PAGE_BYTES
      invariant pageBytes > MAX_PAGE_BYTES ==> |page| == 1
    {
      var supplement := Supplement(changes[|page|], false);
      var size := SizeOf(supplement, sizes);
      if pageBytes + size > MAX_PAGE_BYTES {
        if |page| > 0 { break; }
        supplement := Supplement(changes[|page|], true);
        size := SizeOf(supplement, sizes);
      }
      assert (page + [supplement])[..|page|] == page;
      page := page + [supplement];
      pageBytes := pageBytes + size;
    }
  }

  /** An empty cursor says that no page follows. */
  datatype Page = Page(supplements: seq<Supplement>, nextAfter: Bytes)

  function PageKeys(page: Page): (k: seq<Bytes>)
    ensures |k| == |page.supplements| && forall i :: 0 <= i < |k| ==> k[i] == Key(page.supplements[i].change)
  {
    seq(|page.supplements|, i requires 0 <= i < |page.supplements| => Key(page.supplements[i].change))
  }

  function AsKeyPage(page: Page): KeyPage {
    KeyPage(PageKeys(page), page.nextAfter != [], page.nextAfter)
  }

  lemma PrefixOfFirst(out: seq<Bytes>, all: set<Bytes>, n: nat, m: nat)
    requires IsFirst(Less, out, all, n) && m <= |out|
    ensures IsFirst(Less, out[..m], all, m)
  {
    var cut := out[..m];
    assert forall i :: 0 <= i < m ==> cut[i] == out[i];
    forall x | x in all && x !in cut ensures forall y :: y in cut ==> Less(y, x) {
      if x in out {
        var k :| 0 <= k < |out| && out[k] == x;
        assert k >= m;
      }
    }
  }

  lemma FilledKeys(page: Page, changes: seq<Change>, sizes: Sizes)
    requires Fills(page.supplements, changes, sizes)
    ensures PageKeys(page) == Keys(changes)[..|page.supplements|]
  {
  }

  /** The change that comes next after the cursor. */
  ghost predicate IsNext(changes: seq<Change>, after: Bytes, c: Change) {
    && c in changes && Key(c) in Eligible(changes, after)
    && forall k :: k in Eligible(changes, after) && k != Key(c) ==> Less(Key(c), k)
  }

  /** A page that has a cursor is full: it holds as many files as a page may, or the next change would take it
      over the byte budget. */
  ghost predicate IsFull(page: Page, changes: seq<Change>, sizes: Sizes) {
    || |page.supplements| == MAX_PAGE_FILES
    || exists c :: IsNext(changes, page.nextAfter, c) && TotalSize(page.supplements, sizes) + sizes.whole(c) > MAX_PAGE_BYTES
  }

  lemma CursorIsFull(changes: seq<Change>, sizes: Sizes, after: Bytes, selected: seq<Change>, page: Page)
    requires IsFirst(Less, Keys(selected), Eligible(changes, after), MAX_PAGE_FILES)
    requires forall c :: c in selected ==> c in changes
    requires 0 < |page.supplements| <= |selected| && page.nextAfter == Key(selected[|page.supplements| - 1])
    requires |page.supplements| == |selected| ==> |selected| == MAX_PAGE_FILES
    requires |page.supplements| < |selected| ==>
      TotalSize(page.supplements, sizes) + sizes.whole(selected[|page.supplements|]) > MAX_PAGE_BYTES
    ensures IsFull(page, changes, sizes)
  {
    var count := |page.supplements|;
    if count < |selected| {
      hide IsFirst, TotalSize, Key;
      SelectedIsNext(changes, after, selected, count);
      assert IsNext(changes, page.nextAfter, selected[count]);
    }
  }

  lemma SelectedIsNext(changes: seq<Change>, after: Bytes, selected: seq<Change>, count: nat)
    requires IsFirst(Less, Keys(selected), Eligible(changes, after), MAX_PAGE_FILES)
    requires forall c :: c in selected ==> c in changes
    requires 0 < count < |selected|
    ensures IsNext(changes, Key(selected[count - 1]), selected[count])
  {
    hide Less, Key;
    var keys, last, next := Keys(selected), Key(selected[count - 1]), Key(selected[count]);
    assert keys[count] in keys && keys[count - 1] in keys && Less(keys[count - 1], keys[count]);
    forall k | k in Eligible(changes, last) && k != next ensures Less(next, k) {
      LessIsTransitive(after, last, k);
      assert k in Eligible(changes, after);
      if k in keys {
        var i :| 0 <= i < |keys| && keys[i] == k;
        if i < count - 1 { assert Less(keys[i], keys[count - 1]); LessIsAsymmetric(k, last); }
        if i == count - 1 { LessIsIrreflexive(k); }
        assert i > count;
      } else {
        assert Less(keys[count], k);
      }
    }
  }

  /** A page of a review carries the next changes in key order, and makes progress while any are left. Only the
      first of a page may be a placeholder, and is one exactly when it is too large as a whole; a page that is
      not the last is full. */
  method Review(changes: seq<Change>, sizes: Sizes, after: Bytes) returns (page: Page)
    requires DistinctKeys(changes)
    ensures IsKeyPage(AllKeys(changes), after, AsKeyPage(page))
    ensures page.supplements != [] <==> Eligible(changes, after) != {}
    ensures forall s :: s in page.supplements ==> s.change in changes
    ensures forall i :: 0 <= i < |page.supplements| ==>
      (page.supplements[i].tooLarge <==> i == 0 && sizes.whole(page.supplements[0].change) > MAX_PAGE_BYTES)
    ensures |page.supplements| <= MAX_PAGE_FILES && (page.nextAfter != [] ==> IsFull(page, changes, sizes))
    ensures TotalSize(page.supplements, sizes) > MAX_PAGE_BYTES <==>
      |page.supplements| == 1 && page.supplements[0].tooLarge && sizes.stripped(page.supplements[0].change) > MAX_PAGE_BYTES
  {
    hide Less, Eligible, IsFirst, AllKeys, Key, IsFull;
    var selected, hasMore := NextReviewChanges(changes, after, MAX_PAGE_FILES);
    var supplements := FillPage(selected, sizes);
    var count := |supplements|;
    page := Page(supplements, if (count < |selected| || hasMore) && count > 0 then Key(selected[count - 1]) else []);
    FilledKeys(page, selected, sizes);
    PageOfFirst(changes, after, selected, hasMore, count);
    SelectedSize(changes, after, selected, hasMore);
    if page.nextAfter != [] { CursorIsFull(changes, sizes, after, selected, page); }
  }

  lemma SelectedSize(changes: seq<Change>, after: Bytes, selected: seq<Change>, hasMore: bool)
    requires IsFirst(Less, Keys(selected), Eligible(changes, after), MAX_PAGE_FILES)
    requires hasMore <==> |Eligible(changes, after)| > |selected|
    ensures |selected| <= MAX_PAGE_FILES && (hasMore ==> |selected| == MAX_PAGE_FILES)
  {
    LessOrders(Eligible(changes, after));
    FirstSize(Less, Keys(selected), Eligible(changes, after), MAX_PAGE_FILES);
  }

  lemma PageOfFirst(changes: seq<Change>, after: Bytes, selected: seq<Change>, hasMore: bool, count: nat)
    requires IsFirst(Less, Keys(selected), Eligible(changes, after), MAX_PAGE_FILES)
    requires hasMore <==> |Eligible(changes, after)| > |selected|
    requires count <= |selected| && (selected != [] ==> count > 0)
    ensures var more := (count < |selected| || hasMore) && count > 0;
      IsKeyPage(AllKeys(changes), after,
        KeyPage(Keys(selected)[..count], more, if more then Keys(selected)[count - 1] else []))
    ensures count > 0 <==> Eligible(changes, after) != {}
  {
    var beyond, keys := Eligible(changes, after), Keys(selected);
    LessOrders(beyond);
    FirstSize(Less, keys, beyond, MAX_PAGE_FILES);
    PrefixOfFirst(keys, beyond, MAX_PAGE_FILES, count);
    hide Less, IsFirst, Keys, AllKeys;
    assert keys[..|keys|] == keys;
    if count == 0 {
      NoneBeyond(changes, after);
    } else {
      FirstIsKeyPage(AllKeys(changes), beyond, after, keys[..count], count, (count < |selected| || hasMore) && count > 0);
    }
  }

  lemma NoneBeyond(changes: seq<Change>, after: Bytes)
    requires Eligible(changes, after) == {}
    ensures IsKeyPage(AllKeys(changes), after, KeyPage([], false, []))
  {
    hide Less, AllKeys;
    assert forall k :: k in AllKeys(changes) && Less(after, k) ==> k in Eligible(changes, after);
  }

  // ------------------------------------------------------ following the cursor

  /** Pages of one fixed review, each asked for with the cursor of the one before. */
  ghost predicate PagesFollow(changes: seq<Change>, pages: seq<Page>) {
    && pages != [] && IsKeyPage(AllKeys(changes), [], AsKeyPage(pages[0]))
    && forall i :: 0 <= i < |pages| - 1 ==>
         pages[i].nextAfter != [] && IsKeyPage(AllKeys(changes), pages[i].nextAfter, AsKeyPage(pages[i + 1]))
  }

  /** Following the cursor shows every change exactly once, in key order, in at most as many pages as there
      are changes, and one. */
  lemma PagingShowsEveryChange(changes: seq<Change>, pages: seq<Page>)
    requires DistinctKeys(changes) && PagesFollow(changes, pages)
    ensures var shown := Listing(seq(|pages|, i requires 0 <= i < |pages| => AsKeyPage(pages[i])));
      && Ascending(Less, shown) && Distinct(shown)
      && (pages[|pages| - 1].nextAfter == [] ==> Elements(shown) == AllKeys(changes) && |shown| == |changes|)
    ensures |pages| <= |changes| + 1
  {
    hide Less, AsKeyPage;
    var keyPages := seq(|pages|, i requires 0 <= i < |pages| => AsKeyPage(pages[i]));
    forall i | 0 <= i < |pages| ensures keyPages[i].more == (pages[i].nextAfter != []) && keyPages[i].cursor == pages[i].nextAfter {
      CursorOf(pages[i]);
    }
    assert [] !in AllKeys(changes);
    KeyCount(changes);
    forall i | 0 <= i < |pages| && keyPages[i].more ensures |keyPages[i].keys| >= 1 {
      assert IsKeyPage(AllKeys(changes), if i == 0 then [] else pages[i - 1].nextAfter, keyPages[i]);
    }
    PagingListsEverything(AllKeys(changes), keyPages, 1);
  }

  lemma CursorOf(page: Page)
    ensures AsKeyPage(page).more == (page.nextAfter != []) && AsKeyPage(page).cursor == page.nextAfter
  {
  }

  lemma KeyCount(changes: seq<Change>)
    requires DistinctKeys(changes)
    ensures |AllKeys(changes)| == |changes|
  {
    assert Distinct(Keys(changes));
    DistinctSize(Keys(changes));
    assert AllKeys(changes) == Elements(Keys(changes));
  }
}
