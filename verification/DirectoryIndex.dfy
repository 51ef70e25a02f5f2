/** The disk index of a large directory: sorted chunks, their merge, and pages read through a sparse
    table of offsets. `internal/app/folder_directory_index.go`. */
module DirectoryIndex {
  import opened Ordering
  import opened ByteStrings
  import opened FolderTree
  import opened DirectoryEntries
  import opened Wrappers

  const CHUNK_SIZE := 8192
  const SPARSE_STEP := 256

  datatype SparseEntry = SparseEntry(name: Bytes, offset: nat)

  // ------------------------------------------------------ chunks

  function WithoutGit(entries: seq<Entry>): seq<Entry> {
    if entries == [] then []
    else
      var (front, last) := (WithoutGit(entries[..|entries| - 1]), entries[|entries| - 1]);
      if last.name == GIT then front else front + [last]
  }

  function Flatten(chunks: seq<seq<Entry>>): seq<Entry> {
    if chunks == [] then [] else chunks[0] + Flatten(chunks[1..])
  }

  /** Nonempty lists, each sorted by name. */
  ghost predicate SortedRuns(runs: seq<seq<Entry>>) {
    forall i :: 0 <= i < |runs| ==> runs[i] != [] && NonDescending(ByName, runs[i])
  }

  lemma NamesAreWeaklyOrdered(items: set<Entry>)
    ensures WeakOrder(ByName, items)
  {
    hide Less;
    forall x, y | x in items && y in items && ByName(x, y) ensures !ByName(y, x) { LessIsAsymmetric(x.name, y.name); }
    forall x, y, z | x in items && y in items && z in items && ByName(x, z) ensures ByName(x, y) || ByName(y, z) {
      LessIsNegativelyTransitive(x.name, y.name, z.name);
    }
  }

  lemma {:induction false} FlattenConcat(a: seq<seq<Entry>>, b: seq<seq<Entry>>)
    ensures Flatten(a + b) == Flatten(a) + Flatten(b)
  {
    if a == [] {
      assert a + b == b;
    } else {
      FlattenConcat(a[1..], b);
      assert (a + b)[1..] == a[1..] + b;
      ConcatAssociates(a[0], Flatten(a[1..]), Flatten(b));
    }
  }

  lemma ConcatAssociates(x: seq<Entry>, y: seq<Entry>, z: seq<Entry>)
    ensures x + (y + z) == x + y + z
  {
  }

  lemma FlattenOne(run: seq<Entry>)
    ensures Flatten([run]) == run
  {
    assert Flatten([run]) == run + Flatten([]);
  }

  /** No chunk outgrows the buffer it was sorted in. */
  ghost predicate Bounded(chunks: seq<seq<Entry>>) {
    forall c :: c in chunks ==> |c| <= CHUNK_SIZE
  }

  method Flush(chunks: seq<seq<Entry>>, pending: seq<Entry>) returns (chunks': seq<seq<Entry>>)
    requires SortedRuns(chunks) && Bounded(chunks) && |pending| <= CHUNK_SIZE
    ensures SortedRuns(chunks') && Bounded(chunks')
    ensures multiset(Flatten(chunks')) == multiset(Flatten(chunks)) + multiset(pending)
  {
    hide ByName;
    if pending == [] { return chunks; }
    NamesAreWeaklyOrdered(Elements(pending));
    var chunk := Sort(pending, ByName);
    assert |multiset(chunk)| == |multiset(pending)|;
    assert |chunk| == |pending|;
    FlattenConcat(chunks, [chunk]);
    FlattenOne(chunk);
    chunks' := chunks + [chunk];
  }

  /** The scan, cut into sorted chunks of at most CHUNK_SIZE records. */
  method WriteChunks(entries: seq<Entry>) returns (chunks: seq<seq<Entry>>)
    ensures SortedRuns(chunks) && Bounded(chunks)
    ensures multiset(Flatten(chunks)) == multiset(WithoutGit(entries))
  {
    hide ByName;
    var pending: seq<Entry> := [];
    chunks := [];
    for i := 0 to |entries|
      invariant |pending| < CHUNK_SIZE && SortedRuns(chunks) && Bounded(chunks)
      invariant multiset(Flatten(chunks)) + multiset(pending) == multiset(WithoutGit(entries[..i]))
    {
      assert entries[..i + 1][..i] == entries[..i];
      if entries[i].name == GIT { continue; }
      pending := pending + [entries[i]];
      if |pending| == CHUNK_SIZE {
        chunks := Flush(chunks, pending);
        pending := [];
      }
    }
    chunks := Flush(chunks, pending);
    assert entries[..|entries|] == entries;
  }

  // ------------------------------------------------------ the merge

  /** The position in the index file of its k-th line. `width` is the length of a record's line. */
  function Offset(width: Entry -> nat, records: seq<Entry>, k: nat): nat
    requires k <= |records|
  {
    if k == 0 then 0 else Offset(width, records, k - 1) + width(records[k - 1])
  }

  /** Every SPARSE_STEP-th record is in the sparse table, under the position of its line. */
  ghost predicate IsSparse(width: Entry -> nat, records: seq<Entry>, sparse: seq<SparseEntry>) {
    && |sparse| == (|records| + SPARSE_STEP - 1) / SPARSE_STEP
    && forall i :: 0 <= i < |sparse| ==>
         sparse[i] == SparseEntry(records[i * SPARSE_STEP].name, Offset(width, records, i * SPARSE_STEP))
  }

  lemma {:induction false} OffsetOfPrefix(width: Entry -> nat, records: seq<Entry>, more: seq<Entry>, k: nat)
    requires k <= |records|
    ensures Offset(width, records + more, k) == Offset(width, records, k)
  {
    if k > 0 { OffsetOfPrefix(width, records, more, k - 1); }
  }

  lemma {:induction false} OffsetsIncrease(width: Entry -> nat, records: seq<Entry>, i: nat, j: nat)
    requires i < j <= |records| && forall e :: width(e) >= 1
    ensures Offset(width, records, i) < Offset(width, records, j)
  {
    if i < j - 1 { OffsetsIncrease(width, records, i, j - 1); }
  }

  lemma SparseCount(n: nat)
    ensures n % SPARSE_STEP == 0 ==> (n + SPARSE_STEP - 1) / SPARSE_STEP == n / SPARSE_STEP
    ensures n % SPARSE_STEP != 0 ==> (n + SPARSE_STEP - 1) / SPARSE_STEP == n / SPARSE_STEP + 1
    ensures (n + SPARSE_STEP) / SPARSE_STEP == n / SPARSE_STEP + 1
    ensures n == n / SPARSE_STEP * SPARSE_STEP + n % SPARSE_STEP
  {
  }

  lemma SparseGrows(width: Entry -> nat, records: seq<Entry>, sparse: seq<SparseEntry>, e: Entry)
    requires IsSparse(width, records, sparse)
    ensures IsSparse(width, records + [e],
              if |records| % SPARSE_STEP == 0
              then sparse + [SparseEntry(e.name, Offset(width, records, |records|))] else sparse)
  {
    hide Offset;
    var (n, more) := (|records|, records + [e]);
    var sparse' := if n % SPARSE_STEP == 0 then sparse + [SparseEntry(e.name, Offset(width, records, n))] else sparse;
    SparseCount(n);
    forall i | 0 <= i < |sparse'|
      ensures sparse'[i] == SparseEntry(more[i * SPARSE_STEP].name, Offset(width, more, i * SPARSE_STEP))
    {
      OffsetOfPrefix(width, records, [e], i * SPARSE_STEP);
      if i < |sparse| { assert more[i * SPARSE_STEP] == records[i * SPARSE_STEP]; }
    }
  }

  /** The contract of heap.Pop on the merge heap: some reader whose next record has a least name. */
  method LeastHead(runs: seq<seq<Entry>>) returns (at: nat)
    requires runs != [] && SortedRuns(runs)
    ensures at < |runs| && runs[at] != [] && forall i :: 0 <= i < |runs| ==> !ByName(runs[i][0], runs[at][0])
  {
    hide Less, NonDescending;
    at := 0;
    LessIsIrreflexive(runs[0][0].name);
    for n := 1 to |runs|
      invariant at < n && forall i :: 0 <= i < n ==> !ByName(runs[i][0], runs[at][0])
    {
      if ByName(runs[n][0], runs[at][0]) {
        forall i | 0 <= i < n ensures !ByName(runs[i][0], runs[n][0]) {
          NoneBelow(runs[i][0], runs[at][0], runs[n][0]);
        }
        LessIsIrreflexive(runs[n][0].name);
        at := n;
      }
    }
  }

  lemma NoneBelow(x: Entry, y: Entry, z: Entry)
    requires !ByName(x, y) && ByName(z, y)
    ensures !ByName(x, z)
  {
    if ByName(x, z) { LessIsTransitive(x.name, z.name, y.name); }
  }

  function AfterPop(runs: seq<seq<Entry>>, at: nat): seq<seq<Entry>>
    requires at < |runs| && runs[at] != []
  {
    runs[..at] + (if |runs[at]| > 1 then [runs[at][1..]] else []) + runs[at + 1..]
  }

  lemma PopTakesOne(runs: seq<seq<Entry>>, at: nat)
    requires at < |runs| && runs[at] != []
    ensures multiset(Flatten(runs)) == multiset{runs[at][0]} + multiset(Flatten(AfterPop(runs, at)))
  {
    hide Flatten;
    var before: seq<seq<Entry>>, run: seq<Entry>, rest: seq<seq<Entry>> := runs[..at], runs[at], runs[at + 1..];
    var tail := if |run| > 1 then [run[1..]] else [];
    FlattenTail(run);
    FlattenThree(before, [run], rest);
    FlattenThree(before, tail, rest);
    HeadOut(Flatten(before), run, Flatten(rest));
    assert runs == before + [run] + rest;
  }

  lemma FlattenTail(run: seq<Entry>)
    requires run != []
    ensures Flatten([run]) == run && Flatten(if |run| > 1 then [run[1..]] else []) == run[1..]
  {
    FlattenOne(run);
    FlattenOne(run[1..]);
  }

  lemma HeadOut(a: seq<Entry>, run: seq<Entry>, b: seq<Entry>)
    requires run != []
    ensures multiset(a + run + b) == multiset{run[0]} + multiset(a + run[1..] + b)
  {
    assert run == [run[0]] + run[1..];
  }

  lemma FlattenThree(a: seq<seq<Entry>>, b: seq<seq<Entry>>, c: seq<seq<Entry>>)
    ensures Flatten(a + b + c) == Flatten(a) + Flatten(b) + Flatten(c)
  {
    FlattenConcat(a + b, c);
    FlattenConcat(a, b);
  }

  lemma PopKeepsRuns(runs: seq<seq<Entry>>, at: nat)
    requires at < |runs| && SortedRuns(runs)
    ensures SortedRuns(AfterPop(runs, at))
  {
    hide ByName;
    assert NonDescending(ByName, runs[at][1..]);
  }

  /** Everything written so far precedes, or equals, everything still to come. */
  ghost predicate WrittenFirst(records: seq<Entry>, runs: seq<seq<Entry>>) {
    forall e, i :: e in records && 0 <= i < |runs| && runs[i] != [] ==> !ByName(runs[i][0], e)
  }

  lemma LeastComesNext(records: seq<Entry>, runs: seq<seq<Entry>>, at: nat)
    requires NonDescending(ByName, records) && SortedRuns(runs) && WrittenFirst(records, runs) && at < |runs|
    requires forall i :: 0 <= i < |runs| ==> !ByName(runs[i][0], runs[at][0])
    ensures NonDescending(ByName, records + [runs[at][0]])
    ensures WrittenFirst(records + [runs[at][0]], AfterPop(runs, at))
  {
    hide Less, AfterPop;
    var least: Entry := runs[at][0];
    var after: seq<seq<Entry>> := AfterPop(runs, at);
    forall i | 0 <= i < |records| ensures !ByName(least, records[i]) { assert records[i] in records && runs[at] != []; }
    forall e: Entry, i: int | e in records + [least] && 0 <= i < |after| && after[i] != [] ensures !ByName(after[i][0], e) {
      HeadAfterPop(runs, at, i);
      if e in records {
        assert !ByName(least, e);
        if ByName(after[i][0], e) { LessIsNegativelyTransitive(after[i][0].name, least.name, e.name); }
      }
    }
  }

  /** The head of a run after the pop is not below what was popped. */
  lemma HeadAfterPop(runs: seq<seq<Entry>>, at: nat, i: nat)
    requires SortedRuns(runs) && at < |runs| && i < |AfterPop(runs, at)|
    requires forall k :: 0 <= k < |runs| ==> !ByName(runs[k][0], runs[at][0])
    ensures AfterPop(runs, at)[i] != [] && !ByName(AfterPop(runs, at)[i][0], runs[at][0])
  {
    hide ByName;
    var (run, after) := (runs[at], AfterPop(runs, at));
    if i < at {
      assert after[i] == runs[i];
    } else if |run| > 1 {
      assert i == at ==> after[i] == run[1..] && after[i][0] == run[1];
      assert i > at ==> after[i] == runs[i];
    } else {
      assert after[i] == runs[i + 1];
    }
  }

  method Merge(chunks: seq<seq<Entry>>, width: Entry -> nat) returns (records: seq<Entry>, sparse: seq<SparseEntry>)
    requires SortedRuns(chunks)
    ensures multiset(records) == multiset(Flatten(chunks)) && NonDescending(ByName, records)
    ensures IsSparse(width, records, sparse)
  {
    hide ByName, SortedRuns, WrittenFirst, IsSparse, NonDescending, AfterPop;
    var values := chunks;
    var offset := 0;
    records, sparse := [], [];
    assert IsSparse(width, records, sparse) && NonDescending(ByName, records) && WrittenFirst(records, values) by {
      NothingWritten(width, chunks);
    }
    while values != []
      invariant SortedRuns(values) && multiset(records) + multiset(Flatten(values)) == multiset(Flatten(chunks))
      invariant NonDescending(ByName, records) && WrittenFirst(records, values)
      invariant offset == Offset(width, records, |records|) && IsSparse(width, records, sparse)
      decreases |multiset(Flatten(values))|
    {
      var at := LeastHead(values);
      PopTakesOne(values, at);
      PopKeepsRuns(values, at);
      LeastComesNext(records, values, at);
      var record := values[at][0];
      SparseGrows(width, records, sparse, record);
      if |records| % SPARSE_STEP == 0 { sparse := sparse + [SparseEntry(record.name, offset)]; }
      OffsetOfPrefix(width, records, [record], |records|);
      records := records + [record];
      offset := offset + width(record);
      values := AfterPop(values, at);
    }
  }

  lemma NothingWritten(width: Entry -> nat, chunks: seq<seq<Entry>>)
    ensures IsSparse(width, [], []) && NonDescending(ByName, []) && WrittenFirst([], chunks)
  {
  }

  /** The index holds the scanned records without `.git`, sorted, with a correct sparse table. */
  method BuildDirectoryIndex(entries: seq<Entry>, width: Entry -> nat)
    returns (records: seq<Entry>, sparse: seq<SparseEntry>)
    ensures multiset(records) == multiset(WithoutGit(entries)) && NonDescending(ByName, records)
    ensures IsSparse(width, records, sparse)
  {
    var chunks := WriteChunks(entries);
    records, sparse := Merge(chunks, width);
  }

  // ------------------------------------------------------ one page of the index

  /** `records` is the sorted index of `listing`. */
  ghost predicate Indexes(records: seq<Entry>, listing: set<Entry>) {
    && Ascending(ByName, records)
    && forall e :: e in records <==> e in Visible(listing)
  }

  /** A sorted permutation of a directory scan is its index. */
  lemma BuiltIndexes(entries: seq<Entry>, listing: set<Entry>, records: seq<Entry>)
    requires Proper(listing) && Distinct(entries) && Elements(entries) == listing
    requires multiset(records) == multiset(WithoutGit(entries)) && NonDescending(ByName, records)
    ensures Indexes(records, listing)
  {
    hide Less, ValidName;
    WithoutGitKeeps(entries);
    DistinctByMultiset(WithoutGit(entries), records);
    SameElements(WithoutGit(entries), records);
    assert forall e :: e in records <==> e in Visible(listing) by {
      assert forall e :: e in entries <==> e in Elements(entries);
    }
    forall i, j | 0 <= i < j < |records| ensures ByName(records[i], records[j]) {
      assert records[i] in listing && records[j] in listing && records[i] != records[j];
      LessIsTotal(records[i].name, records[j].name);
    }
  }

  lemma {:induction false} WithoutGitKeeps(entries: seq<Entry>)
    ensures forall e :: e in WithoutGit(entries) <==> e in entries && e.name != GIT
    ensures Distinct(entries) ==> Distinct(WithoutGit(entries))
  {
    if entries != [] {
      var n := |entries| - 1;
      WithoutGitKeeps(entries[..n]);
      assert entries == entries[..n] + [entries[n]];
    }
  }

  /** How many leading records the page skips. */
  function Skipped(records: seq<Entry>, after: Bytes): (k: nat)
    ensures k <= |records|
    ensures forall i :: 0 <= i < k ==> !Less(after, records[i].name)
    ensures k < |records| ==> Less(after, records[k].name)
  {
    if records == [] || Less(after, records[0].name) then 0
    else
      var k := 1 + Skipped(records[1..], after);
      assert forall i :: 0 < i < |records| ==> records[i] == records[1..][i - 1];
      k
  }

  /** sort.Search over the sparse table, stepped back by one: at or before the records to show. */
  method StartingEntry(sparse: seq<SparseEntry>, after: Bytes) returns (position: nat)
    requires sparse != []
    requires forall i, j :: 0 <= i < j < |sparse| ==> Less(sparse[i].name, sparse[j].name)
    ensures position < |sparse|
    ensures position > 0 ==> !Less(after, sparse[position].name)
    ensures position + 1 < |sparse| ==> Less(after, sparse[position + 1].name)
  {
    var low, high := 0, |sparse|;
    while low < high
      invariant 0 <= low <= high <= |sparse|
      invariant forall i :: 0 <= i < low ==> !Less(after, sparse[i].name)
      invariant forall i :: high <= i < |sparse| ==> Less(after, sparse[i].name)
    {
      var middle := (low + high) / 2;
      if Less(after, sparse[middle].name) {
        forall i | middle < i < |sparse| ensures Less(after, sparse[i].name) {
          LessIsTransitive(after, sparse[middle].name, sparse[i].name);
        }
        high := middle;
      } else {
        forall i | 0 <= i < middle ensures !Less(after, sparse[i].name) {
          if Less(after, sparse[i].name) { LessIsTransitive(after, sparse[i].name, sparse[middle].name); }
        }
        low := middle + 1;
      }
    }
    position := if low > 0 then low - 1 else 0;
  }

  /** Seeking to an offset and decoding from there starts at the line that begins there. */
  method Seek(records: seq<Entry>, width: Entry -> nat, offset: nat, ghost line: nat) returns (at: nat)
    requires line <= |records| && offset == Offset(width, records, line) && forall e :: width(e) >= 1
    ensures at == line
  {
    var position := 0;
    at := 0;
    while position < offset
      invariant at <= line && position == Offset(width, records, at)
    {
      if at == line { assert false; }
      position := position + width(records[at]);
      at := at + 1;
    }
    if at < line { OffsetsIncrease(width, records, at, line); }
  }

  lemma SparseNamesIncrease(width: Entry -> nat, records: seq<Entry>, sparse: seq<SparseEntry>)
    requires Ascending(ByName, records) && IsSparse(width, records, sparse)
    ensures forall i, j :: 0 <= i < j < |sparse| ==> Less(sparse[i].name, sparse[j].name)
  {
    forall i, j | 0 <= i < j < |sparse| ensures Less(sparse[i].name, sparse[j].name) {
      assert ByName(records[i * SPARSE_STEP], records[j * SPARSE_STEP]);
    }
  }

  /** Where decoding starts: never beyond the first record to show. */
  method StartingLine(records: seq<Entry>, sparse: seq<SparseEntry>, width: Entry -> nat, after: Bytes) returns (line: nat)
    requires Ascending(ByName, records) && IsSparse(width, records, sparse) && forall e :: width(e) >= 1
    ensures line <= Skipped(records, after)
  {
    line := 0;
    if after != [] && |sparse| > 0 {
      SparseNamesIncrease(width, records, sparse);
      var position := StartingEntry(sparse, after);
      line := Seek(records, width, sparse[position].offset, position * SPARSE_STEP);
      if position > 0 && Skipped(records, after) < line {
        assert ByName(records[Skipped(records, after)], records[line]);
        LessIsTransitive(after, records[Skipped(records, after)].name, records[line].name);
        assert false;
      }
    }
  }

  lemma VisibleRecords(records: seq<Entry>, listing: set<Entry>, after: Bytes)
    requires Indexes(records, listing)
    ensures forall x :: x in VisibleAfter(listing, after) <==> x in records && Less(after, x.name)
  {
  }

  lemma RestIsVisible(records: seq<Entry>, listing: set<Entry>, after: Bytes, x: Entry)
    requires Indexes(records, listing)
    ensures x in VisibleAfter(listing, after) <==> x in records[Skipped(records, after)..]
  {
    hide Less, ByName, Skipped, VisibleAfter;
    var from := Skipped(records, after);
    VisibleRecords(records, listing, after);
    BeyondSkipped(records, after);
    if x in VisibleAfter(listing, after) {
      var k :| 0 <= k < |records| && records[k] == x;
      assert records[from..][k - from] == x;
    }
  }

  lemma SliceIsFirst(records: seq<Entry>, listing: set<Entry>, after: Bytes, count: nat)
    requires Indexes(records, listing)
    ensures var from := Skipped(records, after);
      IsFirst(ByName, records[from..if |records| - from <= count then |records| else from + count],
        VisibleAfter(listing, after), count)
  {
    hide Less, ByName, Skipped, VisibleAfter, IsFirst;
    var from := Skipped(records, after);
    var rest := records[from..];
    forall x ensures x in VisibleAfter(listing, after) <==> x in rest { RestIsVisible(records, listing, after, x); }
    assert Ascending(ByName, rest);
    PrefixIsFirst(ByName, rest, VisibleAfter(listing, after), count);
    assert records[from..if |records| - from <= count then |records| else from + count]
        == rest[..if |rest| <= count then |rest| else count];
  }

  lemma BeyondSkipped(records: seq<Entry>, after: Bytes)
    requires Ascending(ByName, records)
    ensures forall k :: 0 <= k < |records| ==> (Less(after, records[k].name) <==> k >= Skipped(records, after))
  {
    var from := Skipped(records, after);
    forall k | from < k < |records| ensures Less(after, records[k].name) {
      assert ByName(records[from], records[k]);
      LessIsTransitive(after, records[from].name, records[k].name);
    }
  }

  /** The records beyond the cursor, up to one more than a page shows. */
  function Chosen(records: seq<Entry>, after: Bytes, limit: nat): seq<Entry> {
    var from := Skipped(records, after);
    records[from..if |records| - from <= limit + 1 then |records| else from + limit + 1]
  }

  /** Decodes lines, passes over those up to the cursor, and stops after one record too many. */
  method ReadRecords(records: seq<Entry>, start: nat, directory: Bytes, after: Bytes, limit: nat)
    returns (shown: seq<DirectoryEntries.Listed>)
    requires Ascending(ByName, records) && start <= Skipped(records, after)
    ensures shown == ShowAll(directory, Chosen(records, after, limit))
  {
    hide Less, ByName, Show, Ascending, Skipped, ShowAll;
    BeyondSkipped(records, after);
    ghost var from := Skipped(records, after);
    var line := start;
    ghost var chosen: seq<Entry> := [];
    shown := [];
    while |shown| <= limit && line < |records|
      invariant line <= |records|
      invariant chosen == if line <= from then [] else records[from..line]
      invariant |shown| == |chosen| <= limit + 1
      invariant forall i :: 0 <= i < |shown| ==> shown[i] == Show(directory, chosen[i])
    {
      var record := records[line];
      if Less(after, record.name) {
        chosen := chosen + [record];
        shown := shown + [Show(directory, record)];
      }
      line := line + 1;
    }
    assert chosen == Chosen(records, after, limit);
    ShownAll(directory, chosen, shown);
  }

  lemma ShownAll(directory: Bytes, chosen: seq<Entry>, shown: seq<DirectoryEntries.Listed>)
    requires |shown| == |chosen| && forall i :: 0 <= i < |shown| ==> shown[i] == Show(directory, chosen[i])
    ensures shown == ShowAll(directory, chosen)
  {
    hide Show;
  }

  /** One page of the index is the page the bounded heap selects. A limit below 1 is a caller's error. */
  method ReadDirectoryIndexPage(records: seq<Entry>, sparse: seq<SparseEntry>, width: Entry -> nat,
      ghost listing: set<Entry>, directory: Bytes, after: Bytes, limit: nat) returns (page: Page)
    requires Proper(listing) && Indexes(records, listing) && IsSparse(width, records, sparse)
    requires limit >= 1 && forall e :: width(e) >= 1
    ensures IsPage(listing, directory, after, limit, page)
  {
    hide Less, Proper, IsFirst, VisibleAfter, IsSparse, TotalOrder, ByName, Ascending;
    var line := StartingLine(records, sparse, width, after);
    ghost var chosen := Chosen(records, after, limit);
    var shown := ReadRecords(records, line, directory, after, limit);
    SliceIsFirst(records, listing, after, limit + 1);
    VisibleOrdered(listing, after);
    page := if |shown| > limit then Page(shown[..limit], true, shown[limit - 1].name) else Page(shown, false, []);
    CutShows(shown, chosen, VisibleAfter(listing, after), directory, limit);
  }

  lemma CutShows(shown: seq<DirectoryEntries.Listed>, chosen: seq<Entry>, all: set<Entry>, directory: Bytes, limit: nat)
    requires shown == ShowAll(directory, chosen) && limit >= 1
    requires TotalOrder(ByName, all) && IsFirst(ByName, chosen, all, limit + 1)
    ensures var page := if |shown| > limit then Page(shown[..limit], true, shown[limit - 1].name) else Page(shown, false, []);
      exists cut :: Shows(page, cut, all, directory, limit)
  {
    hide TotalOrder, IsFirst, ByName;
    CutFirst(chosen, all, limit);
    var page := if |shown| > limit then Page(shown[..limit], true, shown[limit - 1].name) else Page(shown, false, []);
    var cut := if |chosen| > limit then chosen[..limit] else chosen;
    assert page.entries == ShowAll(directory, cut);
    assert Shows(page, cut, all, directory, limit);
  }

  /** Built once and read through the sparse table, or scanned anew: the same page. Only the scan rejects a
      cursor that names no child. */
  method PageEitherWay(entries: seq<Entry>, width: Entry -> nat, ghost listing: set<Entry>, directory: Bytes,
      after: Bytes, limit: nat) returns (fromIndex: Page, fromScan: Option<Page>)
    requires Proper(listing) && Distinct(entries) && Elements(entries) == listing
    requires limit >= 1 && forall e :: width(e) >= 1
    ensures IsPage(listing, directory, after, limit, fromIndex)
    ensures fromScan == if BadCursor(after) then None else Some(fromIndex)
  {
    hide IsPage, Proper, Elements, Distinct, WithoutGit, IsSparse, Indexes, NonDescending, BadCursor;
    var records, sparse := BuildDirectoryIndex(entries, width);
    BuiltIndexes(entries, listing, records);
    fromIndex := ReadDirectoryIndexPage(records, sparse, width, listing, directory, after, limit);
    fromScan := ReadPage(entries, listing, directory, after, limit);
    if fromScan.Some? { PageIsUnique(listing, directory, after, limit, fromIndex, fromScan.value); }
  }
}
