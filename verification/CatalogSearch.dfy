/** Searching the in-memory catalog: records of segments, decoded from shared arenas.
    `internal/filesearch/catalog.go`. */
module CatalogSearch {
  import opened Ordering
  import opened ByteStrings
  import opened CandidateHeap
  import opened FileSearch
  import opened Wrappers

  function CappedDepth(path: Bytes): nat {
    if Depth(path) <= MAX_DEPTH then Depth(path) else MAX_DEPTH
  }

  /** The record finds its file in the segment's arenas. */
  ghost predicate Encodes(s: Segment, r: Record, f: File, lower: Bytes -> Bytes) {
    && r.pathOffset + r.pathLength <= |s.paths| && s.paths[r.pathOffset..r.pathOffset + r.pathLength] == f.path
    && r.foldOffset + r.foldLength <= |s.folded| && s.folded[r.foldOffset..r.foldOffset + r.foldLength] == lower(f.path)
    && r.nameOffset == r.pathOffset + NameStart(f.path) && r.nameLength == |f.path| - NameStart(f.path)
    && r.foldName == r.foldOffset + NameStart(lower(f.path))
    && r.depth == CappedDepth(f.path) && r.dependency == DependencyPath(lower(f.path)) && r.ignored == f.ignored
  }

  ghost predicate SegmentHolds(s: Segment, files: seq<File>, lower: Bytes -> Bytes) {
    |s.records| == |files| && forall i :: 0 <= i < |files| ==> Encodes(s, s.records[i], files[i], lower)
  }

  /** The segments, one after the other, hold exactly these files. */
  ghost predicate SegmentsHold(segments: seq<Segment>, files: seq<File>, lower: Bytes -> Bytes) {
    if segments == [] then files == []
    else
      var (n, last) := (|segments| - 1, segments[|segments| - 1]);
      |last.records| <= |files|
      && SegmentsHold(segments[..n], files[..|files| - |last.records|], lower)
      && SegmentHolds(last, files[|files| - |last.records|..], lower)
  }

  ghost predicate CountsNames(duplicates: map<Bytes, nat>, files: seq<File>, lower: Bytes -> Bytes) {
    forall name :: (if name in duplicates then duplicates[name] else 0) == NameCount(files, lower, name)
  }

  /** A complete catalog of `files` that did not overflow. */
  ghost predicate CatalogOf(snapshot: Snapshot, files: seq<File>, lower: Bytes -> Bytes) {
    && snapshot.complete && !snapshot.overflow
    && SegmentsHold(snapshot.segments, files, lower)
    && snapshot.duplicates.Some? && CountsNames(snapshot.duplicates.value, files, lower)
  }

  /** Depths fit the 16 bits of a record. */
  ghost predicate Shallow(files: seq<File>) {
    forall i :: 0 <= i < |files| ==> Depth(files[i].path) <= MAX_DEPTH
  }

  /** How many records the first n segments have. */
  function RecordCount(segments: seq<Segment>): nat {
    if segments == [] then 0 else RecordCount(segments[..|segments| - 1]) + |segments[|segments| - 1].records|
  }

  /** The k-th segment holds its share of the files. */
  lemma {:induction false} SegmentShare(segments: seq<Segment>, files: seq<File>, lower: Bytes -> Bytes, k: nat)
    requires SegmentsHold(segments, files, lower) && k < |segments|
    ensures RecordCount(segments[..k]) + |segments[k].records| == RecordCount(segments[..k + 1]) <= |files|
    ensures SegmentHolds(segments[k], files[RecordCount(segments[..k])..RecordCount(segments[..k + 1])], lower)
  {
    hide SegmentHolds;
    var n := |segments| - 1;
    assert segments[..k + 1][..k] == segments[..k];
    RecordTotal(segments, files, lower);
    if k < n {
      SegmentShare(segments[..n], files[..|files| - |segments[n].records|], lower, k);
      assert segments[..n][..k] == segments[..k] && segments[..n][..k + 1] == segments[..k + 1];
      assert files[..|files| - |segments[n].records|][RecordCount(segments[..k])..RecordCount(segments[..k + 1])]
          == files[RecordCount(segments[..k])..RecordCount(segments[..k + 1])];
    } else {
      assert segments[..k + 1] == segments;
      RecordTotal(segments[..n], files[..|files| - |segments[n].records|], lower);
      assert files[|files| - |segments[n].records|..] == files[RecordCount(segments[..k])..RecordCount(segments)];
    }
  }

  lemma {:induction false} RecordTotal(segments: seq<Segment>, files: seq<File>, lower: Bytes -> Bytes)
    requires SegmentsHold(segments, files, lower)
    ensures RecordCount(segments) == |files|
  {
    if segments != [] {
      var n := |segments| - 1;
      RecordTotal(segments[..n], files[..|files| - |segments[n].records|], lower);
    }
  }

  /** One record, scored as it is read from the arenas. */
  function ScoreRecord(s: Segment, r: Record, plan: Plan, request: Request): Option<Candidate>
    requires r.pathOffset + r.pathLength <= |s.paths| && r.nameOffset + r.nameLength <= |s.paths|
    requires r.nameLength <= r.pathLength
    requires r.foldOffset <= r.foldName <= r.foldOffset + r.foldLength <= |s.folded|
  {
    if r.ignored && !request.includeIgnored then None
    else
      var path := s.folded[r.foldOffset..r.foldOffset + r.foldLength];
      var name := s.folded[r.foldName..r.foldOffset + r.foldLength];
      match plan.score(path, name, r.depth, r.dependency)
      case None => None
      case Some((tier, quality)) =>
        var originalPath := s.paths[r.pathOffset..r.pathOffset + r.pathLength];
        var originalName := s.paths[r.nameOffset..r.nameOffset + r.nameLength];
        var before := originalPath[..|originalPath| - |originalName|];
        var parent := if before != [] && before[|before| - 1] == SLASH then before[..|before| - 1] else before;
        Some(Candidate(Found(originalPath, originalName, parent, r.dependency, r.ignored), tier,
          quality - Bonus(request.recency, originalPath)))
  }

  lemma ScoreRecordIsScored(s: Segment, r: Record, f: File, plan: Plan, request: Request)
    requires Encodes(s, r, f, plan.lower) && Depth(f.path) <= MAX_DEPTH
    ensures ScoreRecord(s, r, plan, request) == Scored(f, Depth(f.path), plan, request)
  {
    hide NameStart, Depth, DependencyPath, Bonus;
    var n := NameStart(f.path);
    assert s.folded[r.foldName..r.foldOffset + r.foldLength] == FoldName(f.path, plan.lower);
    assert s.paths[r.nameOffset..r.nameOffset + r.nameLength] == f.path[n..];
    assert f.path[..|f.path| - |f.path[n..]|] == f.path[..n];
    if n > 0 { assert f.path[..n][..n - 1] == f.path[..n - 1]; }
  }

  method Search(snapshot: Snapshot, ghost files: seq<File>, plan: Plan, request: Request, limit: int)
    returns (results: seq<Ranked>)
    requires CatalogOf(snapshot, files, plan.lower) && DistinctFiles(files) && Shallow(files)
    ensures limit <= 0 ==> results == []
    ensures limit > 0 ==> IsAnswer(files, plan, request, limit, results)
  {
    hide BetterThan, Candidates, DistinctFiles, IsFirst, HoldsBest, IsHeap, DistinctPaths, SegmentsHold, Encodes, ScoreRecord;
    if limit <= 0 { return []; }
    NothingOffered(files, plan, request, limit);
    if |snapshot.segments| == 0 {
      RecordTotal(snapshot.segments, files, plan.lower);
      NoFiles(files, plan, request, limit);
      return [];
    }
    var matches := new Selection(limit);
    for k := 0 to |snapshot.segments|
      invariant matches.Valid() && fresh(matches) && fresh(matches.values) && matches.values.Length == limit
      invariant RecordCount(snapshot.segments[..k]) <= |files|
      invariant Holds(matches.Contents(), Candidates(files[..RecordCount(snapshot.segments[..k])], plan, request), limit)
    {
      SegmentShare(snapshot.segments, files, plan.lower, k);
      SearchSegment(snapshot.segments[k], files, RecordCount(snapshot.segments[..k]), plan, request, matches);
    }
    RecordTotal(snapshot.segments, files, plan.lower);
    assert snapshot.segments[..|snapshot.segments|] == snapshot.segments && files[..|files|] == files;
    var ranked := SortMatches(matches, files, plan, request);
    results := MarkFromCatalog(ranked, snapshot, files, plan);
  }

  lemma NoFiles(files: seq<File>, plan: Plan, request: Request, limit: nat)
    requires files == []
    ensures IsAnswer(files, plan, request, limit, [])
  {
    assert IsFirst(BetterThan, [], Candidates(files, plan, request), limit);
    assert AllMarked([], files, plan, []);
  }

  /** The inner loop: every record of one segment. */
  method SearchSegment(s: Segment, ghost files: seq<File>, ghost start: nat, plan: Plan, request: Request, matches: Selection)
    requires start + |s.records| <= |files| && SegmentHolds(s, files[start..start + |s.records|], plan.lower)
    requires DistinctFiles(files) && Shallow(files)
    requires matches.Valid() && matches.values.Length > 0
    requires Holds(matches.Contents(), Candidates(files[..start], plan, request), matches.values.Length)
    modifies matches, matches.values
    ensures matches.Valid()
    ensures Holds(matches.Contents(), Candidates(files[..start + |s.records|], plan, request), matches.values.Length)
  {
    hide BetterThan, Candidates, DistinctFiles, HoldsBest, IsHeap, DistinctPaths, ScoreRecord, Depth, Scored;
    for i := 0 to |s.records|
      invariant matches.Valid()
      invariant Holds(matches.Contents(), Candidates(files[..start + i], plan, request), matches.values.Length)
    {
      ghost var n := start + i;
      assert files[start..start + |s.records|][i] == files[n];
      assert Encodes(s, s.records[i], files[n], plan.lower);
      NextFile(files, n, plan, request);
      ScoreRecordIsScored(s, s.records[i], files[n], plan, request);
      var scored := ScoreRecord(s, s.records[i], plan, request);
      if scored.None? { continue; }
      matches.AddCandidate(scored.value, Candidates(files[..n], plan, request));
    }
  }

  method MarkFromCatalog(ranked: seq<Candidate>, snapshot: Snapshot, ghost files: seq<File>, plan: Plan)
    returns (results: seq<Ranked>)
    requires snapshot.duplicates.Some? && CountsNames(snapshot.duplicates.value, files, plan.lower)
    ensures AllMarked(ranked, files, plan, results)
  {
    hide NameCount;
    results := [];
    for i := 0 to |ranked|
      invariant |results| == i && forall k :: 0 <= k < i ==> results[k] == Mark(ranked[k], files, plan)
    {
      var found := ranked[i].result;
      var name := plan.lower(found.name);
      var count := if name in snapshot.duplicates.value then snapshot.duplicates.value[name] else 0;
      results := results + [Ranked(found, count > 1, plan.indices(found.path, found.name))];
    }
  }

  /** While the catalog is incomplete a name counts as duplicate when another result folds equal to it. */
  ghost predicate MarkedAmong(ranked: seq<Candidate>, plan: Plan, i: nat, result: Ranked)
    requires i < |ranked|
  {
    var found := ranked[i].result;
    && result.file == found && result.matchIndices == plan.indices(found.path, found.name)
    && (result.duplicateName <==> exists j :: 0 <= j < |ranked| && j != i && plan.equalFold(found.name, ranked[j].result.name))
  }

  method MarkFromResults(ranked: seq<Candidate>, plan: Plan) returns (results: seq<Ranked>)
    ensures |results| == |ranked|
    ensures forall i :: 0 <= i < |ranked| ==> MarkedAmong(ranked, plan, i, results[i])
  {
    results := [];
    for i := 0 to |ranked|
      invariant |results| == i && forall k :: 0 <= k < i ==> MarkedAmong(ranked, plan, k, results[k])
    {
      var found := ranked[i].result;
      var duplicate := false;
      for other := 0 to |ranked|
        invariant !duplicate && forall j :: 0 <= j < other && j != i ==> !plan.equalFold(found.name, ranked[j].result.name)
      {
        if other != i && plan.equalFold(found.name, ranked[other].result.name) {
          duplicate := true;
          break;
        }
      }
      results := results + [Ranked(found, duplicate, plan.indices(found.path, found.name))];
    }
  }

  /** The memory engine and the stream engine answer alike. */
  method SearchEitherWay(snapshot: Snapshot, files: seq<File>, plan: Plan, request: Request, limit: int)
    returns (fromCatalog: seq<Ranked>, fromStream: seq<Ranked>)
    requires CatalogOf(snapshot, files, plan.lower) && DistinctFiles(files) && Shallow(files)
    ensures fromCatalog == fromStream
    ensures limit > 0 ==> IsAnswer(files, plan, request, limit, fromCatalog)
  {
    hide IsAnswer, DistinctFiles;
    fromCatalog := Search(snapshot, files, plan, request, limit);
    fromStream := RankPaths(files, plan, request, limit);
    if limit > 0 { AnswerIsUnique(files, plan, request, limit, fromCatalog, fromStream); }
  }
}
