/** Building the in-memory catalog within its memory limit: `internal/filesearch/catalog.go`. */
module CatalogBuilder {
  import opened Ordering
  import opened ByteStrings
  import opened CandidateHeap
  import opened FileSearch
  import opened CatalogSearch
  import opened Wrappers

  const DEFAULT_MEMORY_LIMIT := 268435456
  const DEFAULT_RESULT_LIMIT := 100
  const SEGMENT_SIZE := 4096
  const RECORD_BYTES := 32
  const SEGMENT_BYTES := 64 // a segment and the pointer to it
  const CANDIDATE_BYTES := 96
  const LONG_PATH := 4096
  const UINT32 := 0x1_0000_0000
  const COMPACT := 0x10_0000 // 4096 paths below this length fill less than 2^32 bytes

  /** The records of the builder: frozen segments, and the arenas of the segment being filled. */
  datatype Core = Core(segments: seq<Segment>, memory: nat, paths: Bytes, folded: Bytes, records: seq<Record>,
                       duplicates: map<Bytes, nat>, duplicateMemory: nat)

  // ------------------------------------------------------ accounting

  function PendingMemory(c: Core): nat {
    if c.records == [] then 0 else |c.paths| + |c.folded| + |c.records| * RECORD_BYTES + SEGMENT_BYTES
  }

  function SegmentMemory(s: Segment): nat {
    |s.paths| + |s.folded| + |s.records| * RECORD_BYTES + SEGMENT_BYTES
  }

  function SegmentsMemory(segments: seq<Segment>): nat {
    if segments == [] then 0
    else SegmentsMemory(segments[..|segments| - 1]) + SegmentMemory(segments[|segments| - 1])
  }

  /** Each distinct folded name is accounted once. */
  function NamesMemory(files: seq<File>, lower: Bytes -> Bytes): nat {
    if files == [] then 0
    else
      var (front, name) := (files[..|files| - 1], FoldName(files[|files| - 1].path, lower));
      NamesMemory(front, lower) + (if NameCount(front, lower, name) == 0 then |name| + 64 else 0)
  }

  function Accounted(c: Core): nat {
    c.memory + c.duplicateMemory + PendingMemory(c)
  }

  /** The name memory that adding this path would take. */
  function NewNameMemory(c: Core, path: Bytes, lower: Bytes -> Bytes): nat {
    var name := FoldName(path, lower);
    if name in c.duplicates then 0 else |name| + 64
  }

  predicate Fits(c: Core, path: Bytes, lower: Bytes -> Bytes, recordLimit: nat) {
    c.memory + c.duplicateMemory
    + (|c.paths| + |path| + |c.folded| + |lower(path)| + (|c.records| + 1) * RECORD_BYTES + SEGMENT_BYTES)
    + NewNameMemory(c, path, lower) <= recordLimit
  }

  // ------------------------------------------------------ one path, one segment

  function NewRecord(c: Core, path: Bytes, ignored: bool, lower: Bytes -> Bytes): Record {
    Record(|c.paths| % UINT32, |path| % UINT32, (|c.paths| + NameStart(path)) % UINT32, (|path| - NameStart(path)) % UINT32,
      |c.folded| % UINT32, |lower(path)| % UINT32, (|c.folded| + NameStart(lower(path))) % UINT32,
      CappedDepth(path), DependencyPath(lower(path)), ignored)
  }

  function Appended(c: Core, path: Bytes, ignored: bool, lower: Bytes -> Bytes): Core {
    var name := FoldName(path, lower);
    Core(c.segments, c.memory, c.paths + path, c.folded + lower(path), c.records + [NewRecord(c, path, ignored, lower)],
      c.duplicates[name := (if name in c.duplicates then c.duplicates[name] else 0) + 1],
      c.duplicateMemory + NewNameMemory(c, path, lower))
  }

  function Frozen(c: Core): Core {
    if c.records == [] then c
    else
      var s := Segment(c.paths, c.folded, c.records);
      c.(segments := c.segments + [s], memory := c.memory + SegmentMemory(s), paths := [], folded := [], records := [])
  }

  /** The records hold the accepted files, in order. */
  ghost predicate Decodes(c: Core, accepted: seq<File>, lower: Bytes -> Bytes) {
    && |c.records| <= |accepted|
    && SegmentsHold(c.segments, accepted[..|accepted| - |c.records|], lower)
    && SegmentHolds(Segment(c.paths, c.folded, c.records), accepted[|accepted| - |c.records|..], lower)
  }

  /** Every number of the path's record fits its 32 bits. */
  predicate Addressable(c: Core, path: Bytes, lower: Bytes -> Bytes) {
    && |c.paths| + NameStart(path) < UINT32 && |path| < UINT32
    && |c.folded| + NameStart(lower(path)) < UINT32 && |lower(path)| < UINT32
  }

  ghost predicate Compact(files: seq<File>, lower: Bytes -> Bytes) {
    forall f :: f in files ==> |f.path| < COMPACT && |lower(f.path)| < COMPACT
  }

  /** What every run of the builder keeps about its records. `addressable` says that every path accepted
      so far was addressable when it came. */
  ghost predicate CoreOk(c: Core, accepted: seq<File>, lower: Bytes -> Bytes, recordLimit: nat, limit: nat,
      addressable: bool)
  {
    && Accounted(c) <= recordLimit <= limit
    && (c.records == [] ==> c.paths == [] && c.folded == [])
    && c.memory == SegmentsMemory(c.segments) && c.duplicateMemory == NamesMemory(accepted, lower)
    && CountsNames(c.duplicates, accepted, lower) && AllCounted(c.duplicates)
    && (Compact(accepted, lower) ==> |c.paths| <= |c.records| * COMPACT && |c.folded| <= |c.records| * COMPACT)
    && (addressable ==> Decodes(c, accepted, lower))
  }

  lemma EncodingStays(s: Segment, more: Segment, r: Record, f: File, lower: Bytes -> Bytes)
    requires Encodes(s, r, f, lower) && s.paths <= more.paths && s.folded <= more.folded
    ensures Encodes(more, r, f, lower)
  {
    hide NameStart, CappedDepth, DependencyPath;
    assert more.paths[r.pathOffset..r.pathOffset + r.pathLength] == s.paths[r.pathOffset..r.pathOffset + r.pathLength];
    assert more.folded[r.foldOffset..r.foldOffset + r.foldLength] == s.folded[r.foldOffset..r.foldOffset + r.foldLength];
  }

  /** The record with its numbers unbounded. */
  function WideRecord(c: Core, path: Bytes, ignored: bool, lower: Bytes -> Bytes): Record {
    Record(|c.paths|, |path|, |c.paths| + NameStart(path), |path| - NameStart(path), |c.folded|, |lower(path)|,
      |c.folded| + NameStart(lower(path)), CappedDepth(path), DependencyPath(lower(path)), ignored)
  }

  lemma FitsExactly(n: nat)
    ensures n % UINT32 == n <==> n < UINT32
  {
  }

  /** A record says where its path and its folded form lie exactly when the path is addressable. */
  lemma RecordIsExact(c: Core, path: Bytes, ignored: bool, lower: Bytes -> Bytes)
    ensures NewRecord(c, path, ignored, lower) == WideRecord(c, path, ignored, lower) <==> Addressable(c, path, lower)
  {
    hide NameStart, CappedDepth, DependencyPath;
    FitsExactly(|c.paths|);
    FitsExactly(|path|);
    FitsExactly(|c.paths| + NameStart(path));
    FitsExactly(|path| - NameStart(path));
    FitsExactly(|c.folded|);
    FitsExactly(|lower(path)|);
    FitsExactly(|c.folded| + NameStart(lower(path)));
  }

  lemma WideRecordEncodes(c: Core, path: Bytes, ignored: bool, lower: Bytes -> Bytes)
    ensures Encodes(Segment(c.paths + path, c.folded + lower(path), c.records), WideRecord(c, path, ignored, lower),
              File(path, ignored), lower)
  {
    hide NameStart, CappedDepth, DependencyPath;
  }

  /** In arenas below 2^32 bytes a record that is not exact does not find its file. */
  lemma InexactRecordIsLost(c: Core, path: Bytes, ignored: bool, lower: Bytes -> Bytes, s: Segment)
    requires |c.paths| < UINT32 && |c.folded| < UINT32
    requires Encodes(s, NewRecord(c, path, ignored, lower), File(path, ignored), lower)
    ensures Addressable(c, path, lower)
  {
    hide NameStart, CappedDepth, DependencyPath;
    FitsExactly(|c.paths|);
    FitsExactly(|path|);
    FitsExactly(|c.paths| + NameStart(path));
    FitsExactly(|c.folded|);
    FitsExactly(|lower(path)|);
    FitsExactly(|c.folded| + NameStart(lower(path)));
  }

  /** Within a limit of 2^32, and for any limit with paths of less than a megabyte, whatever fits is addressable. */
  lemma WhatFitsIsAddressable(c: Core, accepted: seq<File>, path: Bytes, ignored: bool, lower: Bytes -> Bytes,
      recordLimit: nat, limit: nat, addressable: bool)
    requires CoreOk(c, accepted, lower, recordLimit, limit, addressable) && Fits(c, path, lower, recordLimit)
    requires limit <= UINT32 || (Compact(accepted + [File(path, ignored)], lower) && |c.records| < SEGMENT_SIZE)
    ensures Addressable(c, path, lower)
  {
    hide Decodes, CountsNames, AllCounted, NamesMemory, SegmentsMemory, NameStart;
    if limit > UINT32 {
      CompactFront(accepted, File(path, ignored), lower);
      assert |c.paths| <= (SEGMENT_SIZE - 1) * COMPACT && |c.folded| <= (SEGMENT_SIZE - 1) * COMPACT;
    }
  }

  lemma CompactFront(accepted: seq<File>, f: File, lower: Bytes -> Bytes)
    requires Compact(accepted + [f], lower)
    ensures Compact(accepted, lower) && |f.path| < COMPACT && |lower(f.path)| < COMPACT
  {
    assert f in accepted + [f];
    assert forall g :: g in accepted ==> g in accepted + [f];
  }

  function EmptyCore(): Core {
    Core([], 0, [], [], [], map[], 0)
  }

  /** The builder accepts a path of 2^32 bytes when its limit allows, and loses it: its record has length 0. */
  lemma LongPathIsLost() returns (path: Bytes, lower: Bytes -> Bytes)
    ensures Fits(EmptyCore(), path, lower, 4 * UINT32) && Decodes(EmptyCore(), [], lower)
    ensures !Decodes(Appended(EmptyCore(), path, false, lower), [File(path, false)], lower)
  {
    hide NameStart, CappedDepth, DependencyPath;
    path, lower := seq(UINT32, i => 97), (p: Bytes) => p;
    assert !Addressable(EmptyCore(), path, lower);
    NothingPending(lower);
    if Decodes(Appended(EmptyCore(), path, false, lower), [File(path, false)], lower) {
      AppendDecodes(EmptyCore(), [], path, false, lower);
    }
  }

  /** A path appended to arenas below 2^32 bytes comes back exactly when it is addressable; to any arenas if it is. */
  lemma AppendDecodes(c: Core, accepted: seq<File>, path: Bytes, ignored: bool, lower: Bytes -> Bytes)
    requires Decodes(c, accepted, lower)
    ensures Addressable(c, path, lower) ==> Decodes(Appended(c, path, ignored, lower), accepted + [File(path, ignored)], lower)
    ensures |c.paths| < UINT32 && |c.folded| < UINT32 && !Addressable(c, path, lower) ==>
      !Decodes(Appended(c, path, ignored, lower), accepted + [File(path, ignored)], lower)
  {
    hide Encodes, NewRecord, WideRecord, SegmentsHold, Addressable;
    var d, f, files := Appended(c, path, ignored, lower), File(path, ignored), accepted + [File(path, ignored)];
    var k := |accepted| - |c.records|;
    assert files[..k] == accepted[..k] && files[k..] == accepted[k..] + [f];
    var s, t := Segment(c.paths, c.folded, c.records), Segment(d.paths, d.folded, d.records);
    if Addressable(c, path, lower) {
      RecordIsExact(c, path, ignored, lower);
      WideRecordEncodes(c, path, ignored, lower);
      EncodingStays(Segment(d.paths, d.folded, c.records), t, NewRecord(c, path, ignored, lower), f, lower);
      forall i | 0 <= i < |files[k..]| ensures Encodes(t, d.records[i], files[k..][i], lower) {
        if i < |c.records| {
          assert Encodes(s, c.records[i], accepted[k..][i], lower);
          EncodingStays(s, t, c.records[i], accepted[k..][i], lower);
        }
      }
    } else if Decodes(d, files, lower) && |c.paths| < UINT32 && |c.folded| < UINT32 {
      assert Encodes(t, d.records[|c.records|], files[k..][|c.records|], lower);
      InexactRecordIsLost(c, path, ignored, lower, t);
    }
  }

  ghost predicate AllCounted(duplicates: map<Bytes, nat>) {
    forall name :: name in duplicates ==> duplicates[name] > 0
  }

  lemma AppendCounts(c: Core, accepted: seq<File>, path: Bytes, ignored: bool, lower: Bytes -> Bytes)
    requires CountsNames(c.duplicates, accepted, lower) && AllCounted(c.duplicates)
    requires c.duplicateMemory == NamesMemory(accepted, lower)
    ensures var (d, files) := (Appended(c, path, ignored, lower), accepted + [File(path, ignored)]);
      CountsNames(d.duplicates, files, lower) && AllCounted(d.duplicates) && d.duplicateMemory == NamesMemory(files, lower)
  {
    hide FoldName, NewRecord;
    var files := accepted + [File(path, ignored)];
    assert files[..|files| - 1] == accepted;
    var name := FoldName(path, lower);
    assert name in c.duplicates <==> NameCount(accepted, lower, name) > 0;
  }

  lemma AppendKeeps(c: Core, accepted: seq<File>, path: Bytes, ignored: bool, lower: Bytes -> Bytes, recordLimit: nat,
      limit: nat, addressable: bool)
    requires CoreOk(c, accepted, lower, recordLimit, limit, addressable) && Fits(c, path, lower, recordLimit)
    ensures CoreOk(Appended(c, path, ignored, lower), accepted + [File(path, ignored)], lower, recordLimit, limit,
              addressable && Addressable(c, path, lower))
  {
    hide Decodes, CountsNames, AllCounted, NamesMemory, SegmentsMemory, NewRecord, Addressable, Compact;
    AppendCounts(c, accepted, path, ignored, lower);
    if Compact(accepted + [File(path, ignored)], lower) { CompactFront(accepted, File(path, ignored), lower); }
    if addressable { AppendDecodes(c, accepted, path, ignored, lower); }
  }

  lemma FreezeKeeps(c: Core, accepted: seq<File>, lower: Bytes -> Bytes, recordLimit: nat, limit: nat, addressable: bool)
    requires CoreOk(c, accepted, lower, recordLimit, limit, addressable)
    ensures var d := Frozen(c);
      CoreOk(d, accepted, lower, recordLimit, limit, addressable) && Accounted(d) == Accounted(c) && d.records == []
      && c.segments <= d.segments && d.duplicates == c.duplicates
      && (addressable ==> SegmentsHold(d.segments, accepted, lower))
  {
    hide Decodes, SegmentsHold, CountsNames, AllCounted, NamesMemory, Compact;
    if addressable { FrozenDecodes(c, accepted, lower); }
  }

  lemma FrozenDecodes(c: Core, accepted: seq<File>, lower: Bytes -> Bytes)
    requires Decodes(c, accepted, lower) && (c.records == [] ==> c.paths == [] && c.folded == [])
    ensures Decodes(Frozen(c), accepted, lower) && SegmentsHold(Frozen(c).segments, accepted, lower)
  {
    hide SegmentHolds;
    var d := Frozen(c);
    assert accepted[|accepted|..] == [] && accepted[..|accepted|] == accepted;
    NothingPending(lower);
    if c.records != [] {
      assert d.segments[..|d.segments| - 1] == c.segments;
    }
  }

  lemma NothingPending(lower: Bytes -> Bytes)
    ensures SegmentHolds(Segment([], [], []), [], lower)
  {
  }

  /** A path fits exactly when all that would be accounted for with it stays within the limit. */
  lemma FitsIffAccounted(c: Core, path: Bytes, ignored: bool, lower: Bytes -> Bytes, recordLimit: nat)
    ensures Fits(c, path, lower, recordLimit) <==> Accounted(Appended(c, path, ignored, lower)) <= recordLimit
  {
    hide NewRecord, FoldName, NewNameMemory;
  }

  // ------------------------------------------------------ the default results

  /** Without a query a file ranks by its depth, below a dependency folder behind all others. */
  function DefaultCandidate(f: File, lower: Bytes -> Bytes): Candidate {
    Candidate(FoundOf(f, lower), if DependencyPath(lower(f.path)) then 5 else 3, CappedDepth(f.path))
  }

  /** Project files come before dependencies, then the shallower file, then the smaller path. */
  lemma DefaultsRank(f: File, g: File, lower: Bytes -> Bytes)
    requires Depth(f.path) <= MAX_DEPTH && Depth(g.path) <= MAX_DEPTH
    ensures var (d, e) := (DependencyPath(lower(f.path)), DependencyPath(lower(g.path)));
      BetterThan(DefaultCandidate(f, lower), DefaultCandidate(g, lower)) <==>
        || (!d && e)
        || (d == e && Depth(f.path) < Depth(g.path))
        || (d == e && Depth(f.path) == Depth(g.path) && Less(f.path, g.path))
  {
    hide DependencyPath, Depth, Less, ParentOf, NameStart;
  }

  ghost function DefaultCandidates(files: seq<File>, lower: Bytes -> Bytes): set<Candidate> {
    set f | f in files :: DefaultCandidate(f, lower)
  }

  function CandidateMemory(c: Candidate): nat {
    CANDIDATE_BYTES + |c.result.path|
  }

  function CandidatesMemory(kept: seq<Candidate>): nat {
    if kept == [] then 0 else CandidatesMemory(kept[..|kept| - 1]) + CandidateMemory(kept[|kept| - 1])
  }

  lemma {:induction false} MemoryWithout(kept: seq<Candidate>, i: nat)
    requires i < |kept|
    ensures CandidatesMemory(kept) == CandidatesMemory(kept[..i] + kept[i + 1..]) + CandidateMemory(kept[i])
  {
    var n := |kept| - 1;
    if i < n {
      MemoryWithout(kept[..n], i);
      assert (kept[..i] + kept[i + 1..])[..n - 1] == kept[..n][..i] + kept[..n][i + 1..];
    } else {
      assert kept[..i] + kept[i + 1..] == kept[..n];
    }
  }

  lemma MultisetWithout(s: seq<Candidate>, i: nat)
    requires i < |s|
    ensures multiset(s[..i] + s[i + 1..]) == multiset(s) - multiset{s[i]}
  {
    assert s == s[..i] + [s[i]] + s[i + 1..];
  }

  lemma {:induction false} MemoryOfPermutation(a: seq<Candidate>, b: seq<Candidate>)
    requires multiset(a) == multiset(b)
    ensures CandidatesMemory(a) == CandidatesMemory(b)
    decreases |a|
  {
    SameElements(a, b);
    if a != [] {
      var n := |a| - 1;
      assert a[n] in b;
      var i :| 0 <= i < |b| && b[i] == a[n];
      MemoryWithout(b, i);
      MultisetWithout(a, n);
      MultisetWithout(b, i);
      assert a[..n] + a[n + 1..] == a[..n];
      MemoryOfPermutation(a[..n], b[..i] + b[i + 1..]);
    }
  }

  lemma MemoryReplaced(kept: seq<Candidate>, c: Candidate)
    requires kept != []
    ensures CandidatesMemory(kept[0 := c]) + CandidateMemory(kept[0]) == CandidatesMemory(kept) + CandidateMemory(c)
  {
    MemoryWithout(kept, 0);
    MemoryWithout(kept[0 := c], 0);
    assert kept[0 := c][..0] + kept[0 := c][1..] == kept[..0] + kept[1..];
  }

  lemma MemoryAppended(kept: seq<Candidate>, c: Candidate)
    ensures CandidatesMemory(kept + [c]) == CandidatesMemory(kept) + CandidateMemory(c)
  {
    assert (kept + [c])[..|kept|] == kept;
  }

  ghost predicate Short(kept: seq<Candidate>) {
    forall i :: 0 <= i < |kept| ==> |kept[i].result.path| <= LONG_PATH
  }

  lemma {:induction false} ShortMemory(kept: seq<Candidate>)
    requires Short(kept)
    ensures CandidatesMemory(kept) <= |kept| * (CANDIDATE_BYTES + LONG_PATH)
  {
    if kept != [] { ShortMemory(kept[..|kept| - 1]); }
  }

  /** No path is longer than what the reserve allows for each default result. */
  ghost predicate ShortPaths(files: seq<File>) {
    forall f :: f in files ==> |f.path| <= LONG_PATH
  }

  /** What every run keeps about the default results. When the reserve is not cut by a small limit and
      paths are short, they are the best of all accepted files. */
  ghost predicate DefaultsOk(kept: seq<Candidate>, memory: nat, accepted: seq<File>, lower: Bytes -> Bytes, reserve: nat) {
    && |kept| <= DEFAULT_RESULT_LIMIT && IsHeap(kept)
    && memory == CandidatesMemory(kept) <= reserve
    && (Ample(accepted, reserve) ==> HoldsBest(kept, DefaultCandidates(accepted, lower), DEFAULT_RESULT_LIMIT))
  }

  ghost predicate Ample(accepted: seq<File>, reserve: nat) {
    reserve == DEFAULT_RESULT_LIMIT * (CANDIDATE_BYTES + LONG_PATH) && DistinctFiles(accepted) && ShortPaths(accepted)
  }

  lemma NextDefault(accepted: seq<File>, f: File, lower: Bytes -> Bytes, reserve: nat)
    requires Ample(accepted + [f], reserve)
    ensures Ample(accepted, reserve)
    ensures var (before, c) := (DefaultCandidates(accepted, lower), DefaultCandidate(f, lower));
      DefaultCandidates(accepted + [f], lower) == before + {c} && c !in before && DistinctPaths(before + {c})
  {
    hide DependencyPath, CappedDepth, NameStart, ParentOf;
    var files := accepted + [f];
    assert forall i :: 0 <= i < |accepted| ==> files[i] == accepted[i];
    assert files[|accepted|] == f;
    forall g | g in accepted ensures g in files && g.path != f.path {
      var i :| 0 <= i < |accepted| && accepted[i] == g;
      assert files[i].path != files[|accepted|].path;
    }
    assert forall g :: g in files <==> g in accepted || g == f;
  }

  lemma DefaultsAreDistinct(accepted: seq<File>, lower: Bytes -> Bytes)
    requires DistinctFiles(accepted)
    ensures DistinctPaths(DefaultCandidates(accepted, lower))
  {
    hide DependencyPath, CappedDepth, NameStart, ParentOf;
    var all := DefaultCandidates(accepted, lower);
    forall c, d | c in all && d in all && c.result.path == d.result.path ensures c == d {
      var f :| f in accepted && DefaultCandidate(f, lower) == c;
      var g :| g in accepted && DefaultCandidate(g, lower) == d;
      var i :| 0 <= i < |accepted| && accepted[i] == f;
      var j :| 0 <= j < |accepted| && accepted[j] == g;
      assert i == j;
    }
  }

  lemma KeptAreShort(kept: seq<Candidate>, accepted: seq<File>, lower: Bytes -> Bytes, reserve: nat)
    requires Ample(accepted, reserve) && HoldsBest(kept, DefaultCandidates(accepted, lower), DEFAULT_RESULT_LIMIT)
    ensures Short(kept)
  {
    forall i | 0 <= i < |kept| ensures |kept[i].result.path| <= LONG_PATH {
      assert kept[i] in DefaultCandidates(accepted, lower);
    }
  }

  lemma DefaultAppended(kept: seq<Candidate>, kept': seq<Candidate>, memory: nat, accepted: seq<File>, f: File,
      lower: Bytes -> Bytes, reserve: nat)
    requires DefaultsOk(kept, memory, accepted, lower, reserve) && |kept| < DEFAULT_RESULT_LIMIT
    requires var c := DefaultCandidate(f, lower);
      memory + CandidateMemory(c) <= reserve && multiset(kept') == multiset(kept + [c]) && IsHeap(kept')
    ensures DefaultsOk(kept', memory + CandidateMemory(DefaultCandidate(f, lower)), accepted + [f], lower, reserve)
  {
    hide IsHeap, DefaultCandidates, DefaultCandidate, HoldsBest, Ample, DistinctPaths;
    var c := DefaultCandidate(f, lower);
    MemoryAppended(kept, c);
    MemoryOfPermutation(kept', kept + [c]);
    SameElements(kept', kept + [c]);
    if Ample(accepted + [f], reserve) {
      NextDefault(accepted, f, lower, reserve);
      OneMoreKept(kept, DefaultCandidates(accepted, lower), DEFAULT_RESULT_LIMIT, c);
      Rearranged(kept + [c], kept', DefaultCandidates(accepted + [f], lower), DEFAULT_RESULT_LIMIT);
    }
  }

  lemma DefaultReplaced(kept: seq<Candidate>, kept': seq<Candidate>, memory: nat, accepted: seq<File>, f: File,
      lower: Bytes -> Bytes, reserve: nat)
    requires DefaultsOk(kept, memory, accepted, lower, reserve) && kept != []
    requires var c := DefaultCandidate(f, lower);
      memory + CandidateMemory(c) - CandidateMemory(kept[0]) <= reserve && BetterThan(c, kept[0])
      && multiset(kept') == multiset(kept[0 := c]) && IsHeap(kept')
      && (|kept| < DEFAULT_RESULT_LIMIT ==> memory + CandidateMemory(c) > reserve)
    ensures var m := memory + CandidateMemory(DefaultCandidate(f, lower)) - CandidateMemory(kept[0]);
      m >= 0 && DefaultsOk(kept', m, accepted + [f], lower, reserve)
  {
    hide IsHeap, BetterThan, DefaultCandidates, DefaultCandidate, HoldsBest, Ample, DistinctPaths;
    var c := DefaultCandidate(f, lower);
    MemoryReplaced(kept, c);
    MemoryOfPermutation(kept', kept[0 := c]);
    SameElements(kept', kept[0 := c]);
    if Ample(accepted + [f], reserve) {
      NextDefault(accepted, f, lower, reserve);
      RoomForShort(kept, memory, accepted, f, lower, reserve);
      Replaced(kept, DefaultCandidates(accepted, lower), DEFAULT_RESULT_LIMIT, c);
      Rearranged(kept[0 := c], kept', DefaultCandidates(accepted + [f], lower), DEFAULT_RESULT_LIMIT);
    }
  }

  /** With an ample reserve the memory never decides: there is room until the list is full, and for any
      replacement after that. */
  lemma RoomForShort(kept: seq<Candidate>, memory: nat, accepted: seq<File>, f: File, lower: Bytes -> Bytes, reserve: nat)
    requires DefaultsOk(kept, memory, accepted, lower, reserve) && Ample(accepted + [f], reserve)
    ensures |kept| < DEFAULT_RESULT_LIMIT ==> memory + CandidateMemory(DefaultCandidate(f, lower)) <= reserve
    ensures kept != [] ==> memory + CandidateMemory(DefaultCandidate(f, lower)) - CandidateMemory(kept[0]) <= reserve
  {
    NextDefault(accepted, f, lower, reserve);
    KeptAreShort(kept, accepted, lower, reserve);
    hide IsHeap, HoldsBest, DefaultCandidates, DistinctFiles;
    var c := DefaultCandidate(f, lower);
    assert f in accepted + [f] && |c.result.path| <= LONG_PATH;
    ShortMemory(kept);
    if kept != [] {
      MemoryReplaced(kept, c);
      ShortMemory(kept[0 := c]);
    }
  }

  lemma DefaultKept(kept: seq<Candidate>, memory: nat, accepted: seq<File>, f: File, lower: Bytes -> Bytes, reserve: nat)
    requires DefaultsOk(kept, memory, accepted, lower, reserve)
    requires var c := DefaultCandidate(f, lower);
      && (|kept| < DEFAULT_RESULT_LIMIT ==> memory + CandidateMemory(c) > reserve)
      && (kept != [] && BetterThan(c, kept[0]) ==> memory + CandidateMemory(c) - CandidateMemory(kept[0]) > reserve)
    ensures DefaultsOk(kept, memory, accepted + [f], lower, reserve)
  {
    hide IsHeap, BetterThan, DefaultCandidates, DefaultCandidate, HoldsBest, Ample, DistinctPaths;
    if Ample(accepted + [f], reserve) {
      NextDefault(accepted, f, lower, reserve);
      RoomForShort(kept, memory, accepted, f, lower, reserve);
      NotBetterThanRoot(kept, DefaultCandidates(accepted, lower), DEFAULT_RESULT_LIMIT, DefaultCandidate(f, lower));
    }
  }

  /** A replaced root may sink, and its memory was accounted. */
  lemma RootMayChange(kept: seq<Candidate>, memory: nat, accepted: seq<File>, c: Candidate, lower: Bytes -> Bytes, reserve: nat)
    requires DefaultsOk(kept, memory, accepted, lower, reserve) && kept != []
    ensures HeapExcept(kept[0 := c], 0, 0) && memory >= CandidateMemory(kept[0])
  {
    ReplacedRoot(kept, c);
    MemoryReplaced(kept, c);
    MemoryWithout(kept, 0);
  }

  lemma EmptyIsOk(lower: Bytes -> Bytes, recordLimit: nat, limit: nat)
    requires recordLimit <= limit
    ensures CoreOk(EmptyCore(), [], lower, recordLimit, limit, true)
  {
    hide SegmentHolds;
    NothingPending(lower);
  }

  lemma NoDefaultsIsOk(lower: Bytes -> Bytes, reserve: nat)
    ensures DefaultsOk([], 0, [], lower, reserve)
  {
  }
}
