/** The lazy, paged walk of an ordinary folder: `internal/gitx/repository_files.go`.

    A min-heap holds files, unexpanded directories and NUL-suffixed continuation tokens. Each item
    stands for a region of the tree. The regions in the heap are pairwise disjoint and every path of a
    region follows the item's own key, so a popped file precedes everything still hidden. */
module RepositoryFiles {
  import opened Wrappers
  import opened Ordering
  import opened ByteStrings
  import opened FolderTree
  import opened KeysetPaging

  datatype Candidate = Candidate(path: Bytes, directory: bool, continuation: bool, parent: Bytes, after: Bytes)
  datatype DirectoryPage = DirectoryPage(candidates: seq<Candidate>, truncated: bool, nextCursor: Bytes)
  datatype Page = Page(paths: seq<Bytes>, truncated: bool, nextCursor: Bytes)

  function ByPath(x: Candidate, y: Candidate): bool {
    Less(x.path, y.path)
  }

  function FromEntry(directory: Bytes, e: Entry): Candidate {
    Candidate(Join(directory, e.name), e.directory, false, [], [])
  }

  function Continuation(parent: Bytes, after: Bytes): Candidate {
    Candidate(after + [0], false, true, parent, after)
  }

  predicate MayFollow(candidate: Candidate, after: Bytes) {
    if !candidate.directory then Less(after, candidate.path)
    else
      var prefix := candidate.path + [SLASH];
      after == [] || prefix <= after || Less(after, prefix)
  }

  // ------------------------------------------------------ one page of one directory

  ghost predicate Eligible(directory: Bytes, e: Entry, globalAfter: Bytes, pageAfter: Bytes) {
    && e.name != GIT
    && Less(pageAfter, Join(directory, e.name))
    && MayFollow(FromEntry(directory, e), globalAfter)
  }

  ghost function EligibleIn(listing: set<Entry>, directory: Bytes, globalAfter: Bytes, pageAfter: Bytes): set<Candidate> {
    set e | e in listing && Eligible(directory, e, globalAfter, pageAfter) :: FromEntry(directory, e)
  }

  /** The entries of one directory, once each, in the order a read happens to deliver them. */
  ghost predicate IsReading(entries: seq<Entry>, listing: set<Entry>) {
    Distinct(entries) && Elements(entries) == listing
  }

  ghost predicate ProperListing(listing: set<Entry>) {
    && (forall e :: e in listing ==> ValidName(e.name))
    && (forall e, f :: e in listing && f in listing && e.name == f.name ==> e == f)
  }

  ghost predicate PathsDiffer(items: set<Candidate>) {
    forall x, y :: x in items && y in items && x.path == y.path ==> x == y
  }

  lemma OrderedByPath(items: set<Candidate>)
    requires PathsDiffer(items)
    ensures TotalOrder(ByPath, items)
  {
    hide Less;
    forall x, y | x in items && y in items && ByPath(x, y) ensures !ByPath(y, x) { LessIsAsymmetric(x.path, y.path); }
    forall x, y, z | x in items && y in items && z in items && ByPath(x, z) ensures ByPath(x, y) || ByPath(y, z) {
      LessIsNegativelyTransitive(x.path, y.path, z.path);
    }
    forall x, y | x in items && y in items && x != y ensures ByPath(x, y) || ByPath(y, x) { LessIsTotal(x.path, y.path); }
  }

  lemma SameEntry(directory: Bytes, e: Entry, f: Entry)
    requires ValidName(e.name) && ValidName(f.name) && FromEntry(directory, e).path == FromEntry(directory, f).path
    ensures e.name == f.name
  {
    JoinIsInjective(directory, e.name, directory, f.name);
  }

  lemma CandidatesAreOrdered(listing: set<Entry>, directory: Bytes, globalAfter: Bytes, pageAfter: Bytes)
    requires ProperListing(listing)
    ensures TotalOrder(ByPath, EligibleIn(listing, directory, globalAfter, pageAfter))
  {
    hide Eligible, FromEntry;
    var all := EligibleIn(listing, directory, globalAfter, pageAfter);
    forall x, y | x in all && y in all && x.path == y.path ensures x == y {
      var e :| e in listing && x == FromEntry(directory, e);
      var f :| f in listing && y == FromEntry(directory, f);
      SameEntry(directory, e, f);
    }
    OrderedByPath(all);
  }

  /** The page holds the first `limit` eligible children, and is truncated exactly when there are more. */
  ghost predicate Selects(page: DirectoryPage, eligible: set<Candidate>, limit: nat) {
    && IsFirst(ByPath, page.candidates, eligible, limit)
    && (page.truncated <==> |eligible| > limit)
    && (page.truncated ==> page.candidates != [] && page.nextCursor == page.candidates[|page.candidates| - 1].path)
  }

  method SelectFolderDirectoryCandidates(entries: seq<Entry>, ghost listing: set<Entry>, relative: Bytes,
                                         globalAfter: Bytes, pageAfter: Bytes, limit: nat)
    returns (page: DirectoryPage)
    requires limit >= 1 && ProperListing(listing) && IsReading(entries, listing)
    ensures Selects(page, EligibleIn(listing, relative, globalAfter, pageAfter), limit)
  {
    var retainedLimit := limit + 1;
    var selected: seq<Candidate> := [];
    for i := 0 to |entries|
      invariant Keeps(ByPath, selected, EligibleIn(Elements(entries[..i]), relative, globalAfter, pageAfter), retainedLimit)
    {
      var entry := entries[i];
      assert entries[..i + 1] == entries[..i] + [entry];
      ghost var offered := EligibleIn(Elements(entries[..i]), relative, globalAfter, pageAfter);
      NextOffer(entries, i, listing, relative, globalAfter, pageAfter);
      if entry.name == GIT { continue; }
      var candidate := FromEntry(relative, entry);
      if !Less(pageAfter, candidate.path) || !MayFollow(candidate, globalAfter) { continue; }
      selected := Offer(selected, candidate, retainedLimit, ByPath, offered);
    }
    assert entries[..|entries|] == entries;
    ghost var eligible := EligibleIn(listing, relative, globalAfter, pageAfter);
    CandidatesAreOrdered(listing, relative, globalAfter, pageAfter);
    KeptIsOrdered(selected, eligible);
    var ordered := Sort(selected, ByPath);
    SortedKeptIsFirst(ByPath, selected, ordered, eligible, retainedLimit);
    FirstSize(ByPath, ordered, eligible, retainedLimit);
    page := DirectoryPage(ordered, false, []);
    if |ordered| > limit {
      page := DirectoryPage(ordered[..limit], true, ordered[limit - 1].path);
      CutFirst(ordered, eligible, limit);
    }
  }

  lemma KeptIsOrdered(selected: seq<Candidate>, eligible: set<Candidate>)
    requires TotalOrder(ByPath, eligible) && forall x :: x in selected ==> x in eligible
    ensures WeakOrder(ByPath, Elements(selected))
  {
  }

  lemma NextOffer(entries: seq<Entry>, i: nat, listing: set<Entry>, relative: Bytes, globalAfter: Bytes, pageAfter: Bytes)
    requires i < |entries| && ProperListing(listing) && IsReading(entries, listing)
    ensures var (before, after) := (EligibleIn(Elements(entries[..i]), relative, globalAfter, pageAfter),
                                    EligibleIn(Elements(entries[..i + 1]), relative, globalAfter, pageAfter));
      var candidate := FromEntry(relative, entries[i]);
      if Eligible(relative, entries[i], globalAfter, pageAfter)
      then candidate !in before && after == before + {candidate} && TotalOrder(ByPath, after)
      else after == before
  {
    hide Eligible, TotalOrder, FromEntry;
    var before, after := Elements(entries[..i]), Elements(entries[..i + 1]);
    assert entries[..i + 1] == entries[..i] + [entries[i]];
    assert after == before + {entries[i]} && entries[i] !in before;
    assert after <= listing by { assert forall e :: e in entries[..i + 1] ==> e in entries; }
    CandidatesAreOrdered(after, relative, globalAfter, pageAfter);
    if FromEntry(relative, entries[i]) in EligibleIn(before, relative, globalAfter, pageAfter) {
      var e :| e in before && FromEntry(relative, e) == FromEntry(relative, entries[i]);
      SameEntry(relative, e, entries[i]);
      assert false;
    }
  }

  lemma CutFirst(ordered: seq<Candidate>, eligible: set<Candidate>, limit: nat)
    requires TotalOrder(ByPath, eligible) && IsFirst(ByPath, ordered, eligible, limit + 1) && |ordered| == limit + 1
    ensures IsFirst(ByPath, ordered[..limit], eligible, limit)
  {
    var cut, last := ordered[..limit], ordered[limit];
    assert ordered == cut + [last];
    forall x | x in eligible && x !in cut ensures forall y :: y in cut ==> ByPath(y, x) {
      if x !in ordered {
        assert forall y :: y in cut ==> y in ordered;
      } else {
        assert x == last;
      }
    }
  }

  // ------------------------------------------------------ regions

  ghost predicate InRegion(tree: Tree, c: Candidate, q: Bytes) {
    && Known(tree, q)
    && if c.continuation
       then c.parent in tree && exists e :: e in tree[c.parent] && Hides(c, e, q)
       else Below(c.path, q)
  }

  ghost predicate Hides(c: Candidate, e: Entry, q: Bytes) {
    e.name != GIT && Less(c.after, Join(c.parent, e.name)) && Below(Join(c.parent, e.name), q)
  }

  ghost predicate Valid(tree: Tree, after: Bytes, c: Candidate) {
    if c.continuation then IsFolder(tree, c.parent) && c == Continuation(c.parent, c.after)
    else Listed(tree, c.path, c.directory) && (!c.directory ==> Less(after, c.path))
  }

  lemma RegionFollowsKey(tree: Tree, after: Bytes, c: Candidate, q: Bytes)
    requires WellFormed(tree) && Valid(tree, after, c) && InRegion(tree, c, q)
    ensures q == c.path || Less(c.path, q)
  {
    if c.continuation {
      var e :| e in tree[c.parent] && Hides(c, e, q);
      var p := Join(c.parent, e.name);
      ChildIsListed(tree, c.parent, e);
      ListedHasNoNul(tree, p, e.directory);
      NulSuccessor(c.after, p);
      BelowIsNotLess(p, q);
      if q != p { LessIsTransitive(c.path, p, q); }
    } else {
      BelowIsNotLess(c.path, q);
    }
  }

  /** A directory dropped by `MayFollow` holds no file beyond the cursor. */
  lemma NothingDropped(candidate: Candidate, after: Bytes, file: Bytes)
    requires Below(candidate.path, file) && Less(after, file) && (!candidate.directory ==> file == candidate.path)
    requires candidate.directory ==> file != candidate.path
    ensures MayFollow(candidate, after)
  {
    if candidate.directory {
      var prefix := candidate.path + [SLASH];
      if !Less(after, prefix) { BetweenHasPrefix(prefix, after, file); }
    }
  }

  // ------------------------------------------------------ the walk's invariant

  ghost predicate Apart(tree: Tree, heap: seq<Candidate>) {
    forall i, j, q {:trigger InRegion(tree, heap[i], q), InRegion(tree, heap[j], q)} ::
      0 <= i < j < |heap| && InRegion(tree, heap[i], q) ==> !InRegion(tree, heap[j], q)
  }

  /** Paths a heap item still hides: its region, without the item itself. */
  ghost predicate Hidden(tree: Tree, c: Candidate, q: Bytes) {
    InRegion(tree, c, q) && (c.continuation || q != c.path)
  }

  ghost predicate Covered(tree: Tree, heap: seq<Candidate>, q: Bytes) {
    exists i :: 0 <= i < |heap| && InRegion(tree, heap[i], q)
  }

  ghost predicate Walks(tree: Tree, after: Bytes, heap: seq<Candidate>, paths: seq<Bytes>, pending: set<Bytes>) {
    && (forall i :: 0 <= i < |heap| ==> Valid(tree, after, heap[i]))
    && Apart(tree, heap)
    && (forall i, q :: 0 <= i < |heap| && Hidden(tree, heap[i], q) ==> q in pending)
    && Ascending(Less, paths)
    && (forall p :: p in paths ==> p in FilesAfter(tree, after))
    && (forall f :: f in FilesAfter(tree, after) ==> f in paths || Covered(tree, heap, f))
    && (forall p, i, f :: p in paths && 0 <= i < |heap| && f in FilesAfter(tree, after) && InRegion(tree, heap[i], f) ==> Less(p, f))
  }

  // ------------------------------------------------------ steps of the walk

  function Without(heap: seq<Candidate>, i: nat): seq<Candidate>
    requires i < |heap|
  {
    heap[..i] + heap[i + 1..]
  }

  lemma Reorder(tree: Tree, after: Bytes, heap: seq<Candidate>, i: nat, paths: seq<Bytes>, pending: set<Bytes>)
    requires i < |heap| && Walks(tree, after, heap, paths, pending)
    ensures Walks(tree, after, Without(heap, i) + [heap[i]], paths, pending)
  {
    hide InRegion, Valid, FilesAfter, Less;
    var moved := Without(heap, i) + [heap[i]];
    forall f | f in FilesAfter(tree, after) ensures f in paths || Covered(tree, moved, f) {
      if k :| 0 <= k < |heap| && InRegion(tree, heap[k], f) {
        assert moved[if k < i then k else if k == i then |moved| - 1 else k - 1] == heap[k];
      }
    }
  }

  /** Replacing one item by items that share out its region. */
  lemma Replace(tree: Tree, after: Bytes, rest: seq<Candidate>, c: Candidate, added: seq<Candidate>,
                paths: seq<Bytes>, pending: set<Bytes>, pending': set<Bytes>)
    requires Walks(tree, after, rest + [c], paths, pending)
    requires Apart(tree, added) && forall k :: 0 <= k < |added| ==> Valid(tree, after, added[k])
    requires forall k, q :: 0 <= k < |added| && InRegion(tree, added[k], q) ==> InRegion(tree, c, q)
    requires forall f :: f in FilesAfter(tree, after) && InRegion(tree, c, f) ==> Covered(tree, added, f)
    requires forall k, q :: 0 <= k < |added| && Hidden(tree, added[k], q) ==> q in pending'
    requires forall q :: q in pending && q !in pending' ==> InRegion(tree, c, q)
    ensures Walks(tree, after, rest + added, paths, pending')
  {
    hide InRegion, Valid, FilesAfter, Less;
    var prior, heap := rest + [c], rest + added;
    assert prior[|rest|] == c;
    assert forall i :: 0 <= i < |rest| ==> prior[i] == rest[i] == heap[i];
    assert forall k :: |rest| <= k < |heap| ==> heap[k] == added[k - |rest|];
    forall i, j, q | 0 <= i < j < |heap| && InRegion(tree, heap[i], q) ensures !InRegion(tree, heap[j], q) {
      if j >= |rest| && i < |rest| {
        assert InRegion(tree, prior[i], q) && !InRegion(tree, prior[|rest|], q);
      }
    }
    forall i, q | 0 <= i < |heap| && Hidden(tree, heap[i], q) ensures q in pending' {
      if i < |rest| {
        assert Hidden(tree, prior[i], q) && q in pending;
        assert InRegion(tree, prior[i], q) && !InRegion(tree, prior[|rest|], q);
      }
    }
    forall f | f in FilesAfter(tree, after) ensures f in paths || Covered(tree, heap, f) {
      if f !in paths {
        var k :| 0 <= k < |prior| && InRegion(tree, prior[k], f);
        if k < |rest| {
          assert heap[k] == prior[k];
        } else {
          var a :| 0 <= a < |added| && InRegion(tree, added[a], f);
          assert heap[|rest| + a] == added[a];
        }
      }
    }
    forall p, i, f | p in paths && 0 <= i < |heap| && f in FilesAfter(tree, after) && InRegion(tree, heap[i], f)
      ensures Less(p, f)
    {
      if i < |rest| { assert InRegion(tree, prior[i], f); } else { assert InRegion(tree, prior[|rest|], f); }
    }
  }

  lemma FilesAfterIs(tree: Tree, after: Bytes, f: Bytes)
    requires WellFormed(tree)
    ensures f in FilesAfter(tree, after) <==> Listed(tree, f, false) && Less(after, f)
  {
    KnownIsCollected(tree, f);
  }

  /** A popped file precedes every file still covered by the heap. */
  lemma TakeFile(tree: Tree, after: Bytes, rest: seq<Candidate>, c: Candidate, paths: seq<Bytes>, pending: set<Bytes>)
    requires WellFormed(tree) && Walks(tree, after, rest + [c], paths, pending)
    requires !c.continuation && !c.directory
    requires forall k :: 0 <= k < |rest| ==> !Less(rest[k].path, c.path)
    ensures Walks(tree, after, rest, paths + [c.path], pending)
  {
    hide InRegion, FilesAfter, Less, Valid;
    var prior, p := rest + [c], c.path;
    assert prior[|rest|] == c;
    assert forall i :: 0 <= i < |rest| ==> prior[i] == rest[i];
    FileIsItsRegion(tree, after, c, p);
    assert InRegion(tree, prior[|rest|], p) && p in FilesAfter(tree, after);
    assert forall x :: x in paths ==> Less(x, p);
    forall f | f in FilesAfter(tree, after) ensures f in paths + [p] || Covered(tree, rest, f) {
      if f !in paths + [p] {
        var k :| 0 <= k < |prior| && InRegion(tree, prior[k], f);
        if k == |rest| { FileIsItsRegion(tree, after, c, f); }
        assert k < |rest| && InRegion(tree, rest[k], f);
      }
    }
    forall x, i, f | x in paths + [p] && 0 <= i < |rest| && f in FilesAfter(tree, after) && InRegion(tree, rest[i], f)
      ensures Less(x, f)
    {
      if x in paths {
        assert InRegion(tree, prior[i], f);
      } else {
        assert InRegion(tree, prior[i], f) && !InRegion(tree, prior[|rest|], f);
        RegionFollowsKey(tree, after, rest[i], f);
        NotLessChain(p, rest[i].path, f);
      }
    }
  }

  lemma NotLessChain(p: Bytes, key: Bytes, f: Bytes)
    requires !Less(key, p) && (f == key || Less(key, f)) && f != p
    ensures Less(p, f)
  {
    LessIsTotal(p, key);
    if p != key && f != key { LessIsTransitive(p, key, f); }
  }

  lemma FileIsItsRegion(tree: Tree, after: Bytes, c: Candidate, q: Bytes)
    requires WellFormed(tree) && Valid(tree, after, c) && !c.continuation && !c.directory
    ensures InRegion(tree, c, q) <==> q == c.path
    ensures c.path in FilesAfter(tree, after)
  {
    FilesAfterIs(tree, after, c.path);
    if InRegion(tree, c, q) { NothingBelowFile(tree, c.path, q, Listed(tree, q, true)); }
  }

  /** Opening a directory leaves a token that hides all of its entries. */
  lemma OpenDirectory(tree: Tree, after: Bytes, rest: seq<Candidate>, c: Candidate, paths: seq<Bytes>, pending: set<Bytes>)
    requires WellFormed(tree) && Walks(tree, after, rest + [c], paths, pending)
    requires !c.continuation && c.directory
    ensures Walks(tree, after, rest + [Continuation(c.path, [])], paths, pending)
  {
    hide FilesAfter, Less;
    var prior, token := rest + [c], Continuation(c.path, []);
    assert prior[|rest|] == c;
    assert Valid(tree, after, c);
    forall q ensures InRegion(tree, token, q) ==> InRegion(tree, c, q) && q != c.path {
      if InRegion(tree, token, q) {
        var e :| e in tree[c.path] && Hides(token, e, q);
        assert c.path + [SLASH] <= Join(c.path, e.name);
      }
    }
    forall f | f in FilesAfter(tree, after) && InRegion(tree, c, f) ensures Covered(tree, [token], f) {
      FilesAfterIs(tree, after, f);
      KindIsUnique(tree, c.path);
      EntryHides(tree, c.path, f);
      assert InRegion(tree, [token][0], f);
    }
    Replace(tree, after, rest, c, [token], paths, pending, pending);
  }

  lemma EntryHides(tree: Tree, d: Bytes, f: Bytes)
    requires WellFormed(tree) && IsFolder(tree, d) && Listed(tree, f, false) && (d == [] || d + [SLASH] <= f)
    ensures InRegion(tree, Continuation(d, []), f)
  {
    var e := ThroughChild(tree, d, f, false);
    PrefixIsLess([], Join(d, e.name));
    assert Hides(Continuation(d, []), e, f);
  }

  function Added(page: DirectoryPage, directory: Bytes): seq<Candidate> {
    page.candidates + if page.truncated then [Continuation(directory, page.nextCursor)] else []
  }

  ghost function PathsOf(candidates: seq<Candidate>): set<Bytes> {
    set i | 0 <= i < |candidates| :: candidates[i].path
  }

  // ------------------------------------------------------ expanding a token into a page

  /** What `enqueuePage` relies on: `page` answers the read of folder `d` beyond `cursor`. */
  ghost predicate Answers(tree: Tree, after: Bytes, d: Bytes, cursor: Bytes, page: DirectoryPage, limit: nat) {
    && WellFormed(tree) && IsFolder(tree, d) && d in tree && limit >= 1
    && Selects(page, EligibleIn(tree[d], d, after, cursor), limit)
  }

  lemma EntryOf(tree: Tree, after: Bytes, d: Bytes, cursor: Bytes, page: DirectoryPage, limit: nat, k: nat)
    returns (e: Entry)
    requires Answers(tree, after, d, cursor, page, limit) && k < |page.candidates|
    ensures e in tree[d] && Eligible(d, e, after, cursor) && page.candidates[k] == FromEntry(d, e)
    ensures Valid(tree, after, page.candidates[k]) && Listed(tree, page.candidates[k].path, e.directory)
    ensures InRegion(tree, page.candidates[k], page.candidates[k].path)
  {
    assert page.candidates[k] in EligibleIn(tree[d], d, after, cursor);
    e :| e in tree[d] && Eligible(d, e, after, cursor) && page.candidates[k] == FromEntry(d, e);
    ChildIsListed(tree, d, e);
  }

  /** Beyond the last candidate there is only the token. */
  lemma CandidatesUpToCursor(tree: Tree, after: Bytes, d: Bytes, cursor: Bytes, page: DirectoryPage, limit: nat, k: nat)
    requires Answers(tree, after, d, cursor, page, limit) && k < |page.candidates| && page.truncated
    ensures page.candidates[k].path == page.nextCursor || Less(page.candidates[k].path, page.nextCursor)
    ensures Less(cursor, page.nextCursor)
  {
    hide Less, Below, MayFollow, InRegion, Valid, Listed;
    var last := |page.candidates| - 1;
    var e := EntryOf(tree, after, d, cursor, page, limit, last);
    if k < last { assert ByPath(page.candidates[k], page.candidates[last]); }
  }

  lemma AddedStaysInside(tree: Tree, after: Bytes, d: Bytes, cursor: Bytes, page: DirectoryPage, limit: nat, k: nat, q: Bytes)
    requires Answers(tree, after, d, cursor, page, limit) && k < |Added(page, d)|
    requires InRegion(tree, Added(page, d)[k], q)
    ensures InRegion(tree, Continuation(d, cursor), q)
  {
    hide Less, Below, MayFollow;
    var token := Continuation(d, cursor);
    if k < |page.candidates| {
      var e := EntryOf(tree, after, d, cursor, page, limit, k);
      assert Hides(token, e, q);
    } else {
      var beyond := Continuation(d, page.nextCursor);
      var e :| e in tree[d] && Hides(beyond, e, q);
      CandidatesUpToCursor(tree, after, d, cursor, page, limit, 0);
      LessIsTransitive(cursor, page.nextCursor, Join(d, e.name));
      assert Hides(token, e, q);
    }
  }

  lemma SharedPathSharedEntry(tree: Tree, d: Bytes, e: Entry, f: Entry, q: Bytes)
    requires WellFormed(tree) && d in tree && e in tree[d] && f in tree[d]
    requires Below(Join(d, e.name), q) && Below(Join(d, f.name), q)
    ensures e == f
  {
    SiblingsAreApart(d, e.name, f.name, q);
  }

  lemma AddedAreApart(tree: Tree, after: Bytes, d: Bytes, cursor: Bytes, page: DirectoryPage, limit: nat)
    requires Answers(tree, after, d, cursor, page, limit)
    ensures Apart(tree, Added(page, d))
  {
    var added := Added(page, d);
    forall i, j, q | 0 <= i < j < |added| && InRegion(tree, added[i], q) ensures !InRegion(tree, added[j], q) {
      TwoAddedClash(tree, after, d, cursor, page, limit, i, j, q);
    }
  }

  lemma TwoAddedClash(tree: Tree, after: Bytes, d: Bytes, cursor: Bytes, page: DirectoryPage, limit: nat,
                      i: nat, j: nat, q: Bytes)
    requires Answers(tree, after, d, cursor, page, limit) && i < j < |Added(page, d)|
    ensures !(InRegion(tree, Added(page, d)[i], q) && InRegion(tree, Added(page, d)[j], q))
  {
    hide Less, Below, MayFollow, Known;
    var e := EntryOf(tree, after, d, cursor, page, limit, i);
    if j < |page.candidates| {
      var f := EntryOf(tree, after, d, cursor, page, limit, j);
      assert ByPath(page.candidates[i], page.candidates[j]);
      LessIsAsymmetric(page.candidates[i].path, page.candidates[j].path);
      if Below(Join(d, e.name), q) && Below(Join(d, f.name), q) { SharedPathSharedEntry(tree, d, e, f, q); }
    } else {
      CandidatesUpToCursor(tree, after, d, cursor, page, limit, i);
      if Less(page.nextCursor, page.candidates[i].path) {
        LessIsAsymmetric(page.nextCursor, page.candidates[i].path);
      }
      forall f | f in tree[d] && Below(Join(d, e.name), q) && Below(Join(d, f.name), q) ensures e == f {
        SharedPathSharedEntry(tree, d, e, f, q);
      }
    }
  }

  lemma HiddenFileKeepsEntry(tree: Tree, after: Bytes, d: Bytes, cursor: Bytes, e: Entry, f: Bytes)
    requires WellFormed(tree) && IsFolder(tree, d) && d in tree && e in tree[d] && Hides(Continuation(d, cursor), e, f)
    requires f in FilesAfter(tree, after)
    ensures FromEntry(d, e) in EligibleIn(tree[d], d, after, cursor)
  {
    hide Less, Below, MayFollow, Listed;
    var c := FromEntry(d, e);
    FilesAfterIs(tree, after, f);
    ChildIsListed(tree, d, e);
    if e.directory { KindIsUnique(tree, c.path); } else { NothingBelowFile(tree, c.path, f, false); }
    NothingDropped(c, after, f);
  }

  lemma AddedCovers(tree: Tree, after: Bytes, d: Bytes, cursor: Bytes, page: DirectoryPage, limit: nat, f: Bytes)
    requires Answers(tree, after, d, cursor, page, limit)
    requires f in FilesAfter(tree, after) && InRegion(tree, Continuation(d, cursor), f)
    ensures Covered(tree, Added(page, d), f)
  {
    hide Less, Below, MayFollow, FilesAfter, Join, Listed;
    var e :| e in tree[d] && Hides(Continuation(d, cursor), e, f);
    var c, added := FromEntry(d, e), Added(page, d);
    HiddenFileKeepsEntry(tree, after, d, cursor, e, f);
    if c in page.candidates {
      var k :| 0 <= k < |page.candidates| && page.candidates[k] == c;
      assert InRegion(tree, added[k], f);
    } else {
      var eligible := EligibleIn(tree[d], d, after, cursor);
      CandidatesAreOrdered(tree[d], d, after, cursor);
      FirstSize(ByPath, page.candidates, eligible, limit);
      var last := page.candidates[|page.candidates| - 1];
      assert last in page.candidates && ByPath(last, c);
      assert Hides(Continuation(d, page.nextCursor), e, f);
      assert InRegion(tree, added[|page.candidates|], f);
    }
  }

  lemma AddedHidesPending(tree: Tree, after: Bytes, d: Bytes, cursor: Bytes, page: DirectoryPage, limit: nat,
                          k: nat, q: Bytes)
    requires Answers(tree, after, d, cursor, page, limit) && k < |Added(page, d)|
    requires Hidden(tree, Added(page, d)[k], q)
    ensures q !in PathsOf(page.candidates)
  {
    hide Less, Below, MayFollow, Known;
    if q in PathsOf(page.candidates) {
      var i: nat :| i < |page.candidates| && page.candidates[i].path == q;
      var e := EntryOf(tree, after, d, cursor, page, limit, i);
      if i < k { TwoAddedClash(tree, after, d, cursor, page, limit, i, k, q); }
      if k < i { TwoAddedClash(tree, after, d, cursor, page, limit, k, i, q); }
      assert false;
    }
  }

  /** Expanding a token keeps the walk's invariant, and every candidate it reveals leaves `pending`. */
  lemma ExpandToken(tree: Tree, after: Bytes, rest: seq<Candidate>, d: Bytes, cursor: Bytes, page: DirectoryPage,
                    limit: nat, paths: seq<Bytes>, pending: set<Bytes>)
    requires Answers(tree, after, d, cursor, page, limit)
    requires Walks(tree, after, rest + [Continuation(d, cursor)], paths, pending)
    ensures Walks(tree, after, rest + Added(page, d), paths, pending - PathsOf(page.candidates))
    ensures page.candidates != [] ==> |pending - PathsOf(page.candidates)| < |pending|
  {
    hide Less, Below, MayFollow, Known, InRegion, FilesAfter, Valid, Selects;
    var token, added := Continuation(d, cursor), Added(page, d);
    var prior, pending' := rest + [token], pending - PathsOf(page.candidates);
    assert prior[|rest|] == token;
    AddedAreApart(tree, after, d, cursor, page, limit);
    forall k | 0 <= k < |added| ensures Valid(tree, after, added[k]) {
      AddedIsValid(tree, after, d, cursor, page, limit, k);
    }
    forall k, q | 0 <= k < |added| && InRegion(tree, added[k], q) ensures InRegion(tree, token, q) {
      AddedStaysInside(tree, after, d, cursor, page, limit, k, q);
    }
    forall f | f in FilesAfter(tree, after) && InRegion(tree, token, f) ensures Covered(tree, added, f) {
      AddedCovers(tree, after, d, cursor, page, limit, f);
    }
    forall k, q | 0 <= k < |added| && Hidden(tree, added[k], q) ensures q in pending' {
      AddedHidesPending(tree, after, d, cursor, page, limit, k, q);
      assert Hidden(tree, prior[|rest|], q);
    }
    forall k | 0 <= k < |page.candidates| ensures InRegion(tree, token, page.candidates[k].path) {
      var e := EntryOf(tree, after, d, cursor, page, limit, k);
      assert added[k] == page.candidates[k];
    }
    Replace(tree, after, rest, token, added, paths, pending, pending');
    if page.candidates != [] {
      var p := page.candidates[0].path;
      assert Hidden(tree, prior[|rest|], p) && p in pending && p in PathsOf(page.candidates);
      SubsetSize(pending', pending);
    }
  }

  lemma AddedIsValid(tree: Tree, after: Bytes, d: Bytes, cursor: Bytes, page: DirectoryPage, limit: nat, k: nat)
    requires Answers(tree, after, d, cursor, page, limit) && k < |Added(page, d)|
    ensures Valid(tree, after, Added(page, d)[k])
  {
    if k < |page.candidates| { var e := EntryOf(tree, after, d, cursor, page, limit, k); }
  }

  // ------------------------------------------------------ what a heap item promises

  /** A directory that has to be read but has no file beyond the cursor. */
  ghost predicate Barren(tree: Tree, after: Bytes, q: Bytes) {
    && Listed(tree, q, true) && MayFollow(Candidate(q, true, false, [], []), after)
    && forall f :: f in FilesAfter(tree, after) ==> !Below(q, f)
  }

  /** A token has an entry to reveal, and a directory has to be read. */
  ghost predicate Promises(tree: Tree, after: Bytes, c: Candidate) {
    if c.continuation then c.parent in tree && exists e :: e in tree[c.parent] && Eligible(c.parent, e, after, c.after)
    else c.directory ==> MayFollow(c, after)
  }

  ghost predicate AllPromise(tree: Tree, after: Bytes, heap: seq<Candidate>) {
    forall k :: 0 <= k < |heap| ==> Promises(tree, after, heap[k])
  }

  lemma MayFollowByPath(c: Candidate, after: Bytes)
    requires c.directory && MayFollow(c, after)
    ensures MayFollow(Candidate(c.path, true, false, [], []), after)
  {
  }

  /** Behind an item there is a file beyond the cursor, or a barren directory. */
  lemma PromiseIsKept(tree: Tree, after: Bytes, c: Candidate)
    requires WellFormed(tree) && Valid(tree, after, c) && Promises(tree, after, c)
    ensures (exists f :: f in FilesAfter(tree, after) && InRegion(tree, c, f)) || exists q :: Barren(tree, after, q)
  {
    hide Less;
    if !c.continuation {
      if !c.directory {
        FileIsItsRegion(tree, after, c, c.path);
        assert c.path in FilesAfter(tree, after) && InRegion(tree, c, c.path);
      } else {
        MayFollowByPath(c, after);
        assert Below(c.path, c.path);
        DirectoryGives(tree, after, c, c.path);
      }
    } else {
      var e :| e in tree[c.parent] && Eligible(c.parent, e, after, c.after);
      var path := Join(c.parent, e.name);
      ChildIsListed(tree, c.parent, e);
      if e.directory {
        MayFollowByPath(FromEntry(c.parent, e), after);
        assert forall f :: Below(path, f) ==> Hides(c, e, f);
        DirectoryGives(tree, after, c, path);
      } else {
        FilesAfterIs(tree, after, path);
        assert Hides(c, e, path);
      }
    }
  }

  lemma DirectoryGives(tree: Tree, after: Bytes, c: Candidate, q: Bytes)
    requires WellFormed(tree) && Listed(tree, q, true) && MayFollow(Candidate(q, true, false, [], []), after)
    requires forall f :: f in FilesAfter(tree, after) && Below(q, f) && Known(tree, f) ==> InRegion(tree, c, f)
    ensures (exists f :: f in FilesAfter(tree, after) && InRegion(tree, c, f)) || exists q :: Barren(tree, after, q)
  {
    hide MayFollow, Below, Less, InRegion;
    if f :| f in FilesAfter(tree, after) && Below(q, f) {
      FilesAfterIs(tree, after, f);
    } else {
      assert Barren(tree, after, q);
    }
  }

  lemma AddedPromise(tree: Tree, after: Bytes, d: Bytes, cursor: Bytes, page: DirectoryPage, limit: nat)
    requires Answers(tree, after, d, cursor, page, limit)
    ensures AllPromise(tree, after, Added(page, d))
  {
    hide Less, MayFollow, IsFirst;
    var added := Added(page, d);
    forall k | 0 <= k < |added| ensures Promises(tree, after, added[k]) {
      if k < |page.candidates| {
        var e := EntryOf(tree, after, d, cursor, page, limit, k);
      } else {
        var e := MoreToReveal(tree, after, d, cursor, page, limit);
        assert e in tree[added[k].parent] && Eligible(added[k].parent, e, after, added[k].after);
      }
    }
  }

  /** A truncated page leaves an eligible entry beyond its cursor. */
  lemma MoreToReveal(tree: Tree, after: Bytes, d: Bytes, cursor: Bytes, page: DirectoryPage, limit: nat) returns (e: Entry)
    requires Answers(tree, after, d, cursor, page, limit) && page.truncated
    ensures e in tree[d] && Eligible(d, e, after, page.nextCursor)
  {
    hide Less, MayFollow;
    var eligible := EligibleIn(tree[d], d, after, cursor);
    CandidatesAreOrdered(tree[d], d, after, cursor);
    FirstSize(ByPath, page.candidates, eligible, limit);
    var c := Uncounted(page.candidates, eligible);
    e :| e in tree[d] && Eligible(d, e, after, cursor) && c == FromEntry(d, e);
    assert ByPath(page.candidates[|page.candidates| - 1], c);
  }

  lemma Uncounted(chosen: seq<Candidate>, all: set<Candidate>) returns (c: Candidate)
    requires |chosen| < |all|
    ensures c in all && c !in chosen
  {
    if all <= Elements(chosen) {
      SubsetSize(all, Elements(chosen));
      ElementsAtMost(chosen);
      assert false;
    }
    c :| c in all && c !in Elements(chosen);
  }

  lemma {:induction false} ElementsAtMost(chosen: seq<Candidate>)
    ensures |Elements(chosen)| <= |chosen|
  {
    if chosen != [] {
      var n := |chosen| - 1;
      ElementsAtMost(chosen[..n]);
      assert chosen == chosen[..n] + [chosen[n]];
      assert Elements(chosen) == Elements(chosen[..n]) + {chosen[n]};
    }
  }

  // ------------------------------------------------------ the walk

  /** What one directory read delivers: the listing in some order, or an error. Re-reading a folder for
      its next page may deliver another order. */
  type Reader = (Bytes, nat) -> Option<seq<Entry>>

  ghost predicate Reads(reader: Reader, tree: Tree) {
    forall d, attempt :: d in tree && reader(d, attempt).Some? ==> IsReading(reader(d, attempt).value, tree[d])
  }

  /** The contract of heap.Pop: some least item is removed. */
  method PopLeast(heap: seq<Candidate>) returns (least: nat)
    requires heap != []
    ensures least < |heap| && forall k :: 0 <= k < |heap| ==> !Less(heap[k].path, heap[least].path)
  {
    hide Less;
    least := 0;
    LessIsIrreflexive(heap[0].path);
    for i := 1 to |heap|
      invariant least < |heap| && forall k :: 0 <= k < i ==> !Less(heap[k].path, heap[least].path)
    {
      if Less(heap[i].path, heap[least].path) {
        forall k | 0 <= k < i + 1 ensures !Less(heap[k].path, heap[i].path) {
          if Less(heap[k].path, heap[i].path) {
            LessIsTransitive(heap[k].path, heap[i].path, heap[least].path);
          }
          LessIsIrreflexive(heap[i].path);
        }
        least := i;
      }
    }
  }

  method EnqueuePage(ghost tree: Tree, reader: Reader, attempt: nat, heap: seq<Candidate>, relative: Bytes,
                     after: Bytes, cursor: Bytes, limit: nat, ghost paths: seq<Bytes>, ghost pending: set<Bytes>)
    returns (heap': Option<seq<Candidate>>, ghost pending': set<Bytes>)
    requires WellFormed(tree) && Reads(reader, tree) && IsFolder(tree, relative) && limit >= 1
    requires Walks(tree, after, heap + [Continuation(relative, cursor)], paths, pending) && AllPromise(tree, after, heap)
    ensures heap'.Some? ==> AllPromise(tree, after, heap'.value)
    ensures heap'.None? ==> reader(relative, attempt).None?
    ensures heap'.Some? ==> Walks(tree, after, heap'.value, paths, pending')
    ensures heap'.Some? ==> |pending'| < |pending| || (pending' == pending && heap'.value == heap)
  {
    pending' := pending;
    FolderIsThere(tree, relative);
    var entries := reader(relative, attempt);
    if entries.None? { return None, pending; }
    var page := SelectFolderDirectoryCandidates(entries.value, tree[relative], relative, after, cursor, limit);
    ExpandToken(tree, after, heap, relative, cursor, page, limit, paths, pending);
    AddedPromise(tree, after, relative, cursor, page, limit);
    hide Promises;
    pending' := pending - PathsOf(page.candidates);
    heap' := Some(heap + Added(page, relative));
    if page.candidates == [] {
      assert Added(page, relative) == [];
      assert heap + [] == heap;
      assert pending' == pending;
    }
  }

  /** The page asked for: the first `limit` files beyond `after` in byte order. It is truncated if there are more
      files, and otherwise only where the walk has yet to find out that a directory has none. */
  ghost predicate IsPage(tree: Tree, after: Bytes, limit: nat, page: Page) {
    && IsFirst(Less, page.paths, FilesAfter(tree, after), limit)
    && (!page.truncated ==> Elements(page.paths) == FilesAfter(tree, after) && page.nextCursor == [])
    && (page.truncated ==> |page.paths| == limit && page.paths != [] && page.nextCursor == page.paths[limit - 1])
    && (page.truncated ==> Elements(page.paths) != FilesAfter(tree, after) || exists q :: Barren(tree, after, q))
  }

  lemma WalkIsPage(tree: Tree, after: Bytes, heap: seq<Candidate>, paths: seq<Bytes>, pending: set<Bytes>, limit: nat)
    requires Walks(tree, after, heap, paths, pending) && |paths| <= limit && (heap == [] || |paths| == limit)
    ensures IsFirst(Less, paths, FilesAfter(tree, after), limit)
    ensures heap == [] ==> Elements(paths) == FilesAfter(tree, after)
    ensures heap != [] && WellFormed(tree) && AllPromise(tree, after, heap) ==>
      Elements(paths) != FilesAfter(tree, after) || exists q :: Barren(tree, after, q)
  {
    if heap != [] && WellFormed(tree) && AllPromise(tree, after, heap) { MoreIsPromised(tree, after, heap, paths, pending); }
    hide InRegion, Less, Valid, Barren, AllPromise;
    forall f | f in FilesAfter(tree, after) && f !in paths ensures |paths| == limit && forall p :: p in paths ==> Less(p, f) {
      var k :| 0 <= k < |heap| && InRegion(tree, heap[k], f);
    }
  }

  lemma MoreIsPromised(tree: Tree, after: Bytes, heap: seq<Candidate>, paths: seq<Bytes>, pending: set<Bytes>)
    requires WellFormed(tree) && Walks(tree, after, heap, paths, pending) && heap != [] && AllPromise(tree, after, heap)
    ensures Elements(paths) != FilesAfter(tree, after) || exists q :: Barren(tree, after, q)
  {
    hide InRegion, Valid, Promises, Barren, FilesAfter, Less;
    assert Valid(tree, after, heap[0]) && Promises(tree, after, heap[0]);
    PromiseIsKept(tree, after, heap[0]);
    if f :| f in FilesAfter(tree, after) && InRegion(tree, heap[0], f) {
      LessIsIrreflexive(f);
      assert f !in paths;
    }
  }

  lemma PromisesStay(tree: Tree, after: Bytes, heap: seq<Candidate>, i: nat)
    requires AllPromise(tree, after, heap) && i < |heap|
    ensures AllPromise(tree, after, Without(heap, i))
  {
    hide Promises;
  }

  method FolderFiles(ghost tree: Tree, reader: Reader, after: Bytes, limit: int)
    returns (result: Option<Page>)
    requires WellFormed(tree) && Reads(reader, tree)
    ensures limit <= 0 ==> result == Some(Page([], false, []))
    ensures limit >= 1 && result.Some? ==> IsPage(tree, after, limit, result.value)
    ensures result.None? ==> exists d, attempt :: reader(d, attempt).None?
  {
    hide AllPromise, Barren, Walks, FilesAfter, IsFirst, Less;
    if limit <= 0 { return Some(Page([], false, [])); }
    NothingPromised(tree, after);
    var paths: seq<Bytes> := [];
    var attempt := 0;
    ghost var pending := KnownPaths(tree);
    WalkStarts(tree, after);
    var refilled;
    refilled, pending := EnqueuePage(tree, reader, attempt, [], [], after, [], limit, paths, pending);
    if refilled.None? { return None; }
    var heap := refilled.value;
    while |heap| > 0
      invariant Walks(tree, after, heap, paths, pending) && |paths| <= limit && AllPromise(tree, after, heap)
      decreases |pending|, |heap|
    {
      if |paths| == limit {
        WalkIsPage(tree, after, heap, paths, pending, limit);
        return Some(Page(paths, true, paths[|paths| - 1]));
      }
      var least := PopLeast(heap);
      var candidate := heap[least];
      Reorder(tree, after, heap, least, paths, pending);
      PromisesStay(tree, after, heap, least);
      heap := Without(heap, least);
      ItemIsValid(tree, after, heap, candidate, paths, pending);
      if candidate.continuation || candidate.directory {
        var relative := if candidate.continuation then candidate.parent else candidate.path;
        var cursor := if candidate.continuation then candidate.after else [];
        if !candidate.continuation { OpenDirectory(tree, after, heap, candidate, paths, pending); }
        attempt := attempt + 1;
        refilled, pending := EnqueuePage(tree, reader, attempt, heap, relative, after, cursor, limit, paths, pending);
        if refilled.None? { return None; }
        heap := refilled.value;
      } else {
        TakeFile(tree, after, heap, candidate, paths, pending);
        paths := paths + [candidate.path];
      }
    }
    WalkIsPage(tree, after, heap, paths, pending, limit);
    result := Some(Page(paths, false, []));
  }

  lemma NothingPromised(tree: Tree, after: Bytes)
    ensures AllPromise(tree, after, [])
  {
  }

  lemma ItemIsValid(tree: Tree, after: Bytes, rest: seq<Candidate>, c: Candidate, paths: seq<Bytes>, pending: set<Bytes>)
    requires Walks(tree, after, rest + [c], paths, pending)
    ensures Valid(tree, after, c)
  {
    assert (rest + [c])[|rest|] == c;
  }

  lemma WalkStarts(tree: Tree, after: Bytes)
    requires WellFormed(tree)
    ensures Walks(tree, after, [] + [Continuation([], [])], [], KnownPaths(tree))
  {
    var heap := [] + [Continuation([], [])];
    forall i, q | 0 <= i < |heap| && Hidden(tree, heap[i], q) ensures q in KnownPaths(tree) {
      KnownIsCollected(tree, q);
    }
    forall f | f in FilesAfter(tree, after) ensures Covered(tree, heap, f) {
      FilesAfterIs(tree, after, f);
      EntryHides(tree, [], f);
      assert InRegion(tree, heap[0], f);
    }
  }

  // ------------------------------------------------------ following the cursor

  function AsKeyPage(page: Page): KeyPage {
    KeyPage(page.paths, page.truncated, page.nextCursor)
  }

  ghost predicate PagesFollow(tree: Tree, limit: nat, pages: seq<Page>) {
    && pages != [] && IsPage(tree, [], limit, pages[0])
    && forall i :: 0 <= i < |pages| - 1 ==> pages[i].truncated && IsPage(tree, pages[i].nextCursor, limit, pages[i + 1])
  }

  lemma PageIsKeyPage(tree: Tree, after: Bytes, limit: nat, page: Page)
    requires limit >= 1 && IsPage(tree, after, limit, page)
    ensures IsKeyPage(Files(tree), after, AsKeyPage(page))
    ensures page.truncated ==> |page.paths| == limit
  {
    hide Less, Files;
    FirstIsKeyPage(Files(tree), FilesAfter(tree, after), after, page.paths, limit, page.truncated);
  }

  /** Following the cursor until `truncated` clears lists every file outside `.git` exactly once, in
      byte order, and within a bounded number of pages. A last page may be empty. */
  lemma PagingListsEveryFile(tree: Tree, limit: nat, pages: seq<Page>)
    requires WellFormed(tree) && limit >= 1 && PagesFollow(tree, limit, pages)
    ensures var listed := Listing(seq(|pages|, i requires 0 <= i < |pages| => AsKeyPage(pages[i])));
      && Ascending(Less, listed) && Distinct(listed)
      && (!pages[|pages| - 1].truncated ==> Elements(listed) == Files(tree) && |listed| == |Files(tree)|)
    ensures (|pages| - 1) * limit <= |Files(tree)|
  {
    hide Less, Files, IsPage;
    var keyPages := seq(|pages|, i requires 0 <= i < |pages| => AsKeyPage(pages[i]));
    PageIsKeyPage(tree, [], limit, pages[0]);
    forall i | 0 <= i < |pages| - 1
      ensures keyPages[i].more && IsKeyPage(Files(tree), keyPages[i].cursor, keyPages[i + 1])
    {
      PageIsKeyPage(tree, pages[i].nextCursor, limit, pages[i + 1]);
    }
    forall i | 0 <= i < |pages| && keyPages[i].more ensures |keyPages[i].keys| >= limit {
      PageIsKeyPage(tree, if i == 0 then [] else pages[i - 1].nextCursor, limit, pages[i]);
    }
    assert [] !in Files(tree) by {
      KnownIsCollected(tree, []);
      if Listed(tree, [], false) { ListedHasNoNul(tree, [], false); }
    }
    KeysetPaging.PagingListsEverything(Files(tree), keyPages, limit);
  }
}
