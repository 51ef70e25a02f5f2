/** The two engines of the filename search, over the in-memory catalog and over a stream of paths:
    `internal/filesearch/catalog.go`. The scorer, case folding and match indices of a non-empty query
    are parameters here, as both engines call the same ones. */
module FileSearch {
  import opened Ordering
  import opened ByteStrings
  import opened CandidateHeap
  import opened Wrappers

  const MAX_DEPTH := 65535

  /** A path of the scan and whether Git ignores it. */
  datatype File = File(path: Bytes, ignored: bool)

  /** What the query plan decides: `lower` is strings.ToLower, `score` gives tier and quality. */
  datatype Plan = Plan(lower: Bytes -> Bytes, score: (Bytes, Bytes, nat, bool) -> Option<(nat, int)>,
                       indices: (Bytes, Bytes) -> seq<nat>, equalFold: (Bytes, Bytes) -> bool)

  datatype Request = Request(recency: map<Bytes, nat>, includeIgnored: bool)

  datatype Ranked = Ranked(file: Found, duplicateName: bool, matchIndices: seq<nat>)

  datatype Record = Record(pathOffset: nat, pathLength: nat, nameOffset: nat, nameLength: nat,
                           foldOffset: nat, foldLength: nat, foldName: nat, depth: nat, dependency: bool, ignored: bool)
  datatype Segment = Segment(paths: Bytes, folded: Bytes, records: seq<Record>)

  /** `duplicates` counts the files per folded name, once the catalog is complete. */
  datatype Snapshot = Snapshot(segments: seq<Segment>, duplicates: Option<map<Bytes, nat>>, complete: bool,
                               overflow: bool, memory: nat, defaults: seq<Found>)

  // ------------------------------------------------------ paths

  /** One beyond the last slash. */
  function NameStart(path: Bytes): (n: nat)
    ensures n <= |path|
  {
    if path == [] then 0 else if path[|path| - 1] == SLASH then |path| else NameStart(path[..|path| - 1])
  }

  function Depth(path: Bytes): nat {
    if path == [] then 0 else Depth(path[..|path| - 1]) + (if path[|path| - 1] == SLASH then 1 else 0)
  }

  const NODE_MODULES: Bytes := [110, 111, 100, 101, 95, 109, 111, 100, 117, 108, 101, 115]

  predicate Contains(s: Bytes, part: Bytes) {
    part <= s || (s != [] && Contains(s[1..], part))
  }

  predicate DependencyPath(path: Bytes) {
    path == NODE_MODULES || NODE_MODULES + [SLASH] <= path || Contains(path, [SLASH] + NODE_MODULES + [SLASH])
  }

  function ParentOf(path: Bytes): Bytes {
    var n := NameStart(path);
    if n > 0 && path[n - 1] == SLASH then path[..n - 1] else path[..n]
  }

  function FoldName(path: Bytes, lower: Bytes -> Bytes): Bytes {
    lower(path)[NameStart(lower(path))..]
  }

  function FoundOf(f: File, lower: Bytes -> Bytes): Found {
    Found(f.path, f.path[NameStart(f.path)..], ParentOf(f.path), DependencyPath(lower(f.path)), f.ignored)
  }

  /** The name is what follows the last slash, and a path is its parent, a slash and its name. */
  lemma {:induction false} NameFollowsLastSlash(path: Bytes)
    ensures var n := NameStart(path);
      SLASH !in path[n..] && (n > 0 ==> path[n - 1] == SLASH && path == ParentOf(path) + [SLASH] + path[n..])
      && (n == 0 ==> ParentOf(path) == [])
  {
    if path != [] && path[|path| - 1] != SLASH {
      var front := path[..|path| - 1];
      NameFollowsLastSlash(front);
      assert path[NameStart(path)..] == front[NameStart(front)..] + [path[|path| - 1]];
    }
  }

  lemma {:induction false} DepthCountsSlashes(path: Bytes)
    ensures Depth(path) == multiset(path)[SLASH]
  {
    if path != [] {
      assert path == path[..|path| - 1] + [path[|path| - 1]];
      DepthCountsSlashes(path[..|path| - 1]);
    }
  }

  predicate StretchAt(s: Bytes, part: Bytes, at: nat) {
    at + |part| <= |s| && s[at..at + |part|] == part
  }

  lemma {:induction false} ContainsIffSomewhere(s: Bytes, part: Bytes)
    ensures Contains(s, part) <==> exists at: nat :: StretchAt(s, part, at)
  {
    if part <= s {
      assert StretchAt(s, part, 0);
    } else if s != [] {
      ContainsIffSomewhere(s[1..], part);
      forall at: nat | StretchAt(s[1..], part, at) ensures StretchAt(s, part, at + 1) {
        assert s[at + 1..at + 1 + |part|] == s[1..][at..at + |part|];
      }
      forall at: nat | StretchAt(s, part, at) ensures at > 0 && StretchAt(s[1..], part, at - 1) {
        assert s[at..at + |part|] == s[at..][..|part|];
        assert at > 0 ==> s[1..][at - 1..at - 1 + |part|] == s[at..at + |part|];
      }
    }
  }

  /** Some directory of the path is called node_modules, and begins at this byte. */
  predicate InsideModules(path: Bytes, at: nat) {
    StretchAt(path, NODE_MODULES + [SLASH], at) && (at == 0 || path[at - 1] == SLASH)
  }

  /** A dependency lies under a directory called node_modules at any depth, or is called so itself at the root. */
  lemma DependencyIffInsideModules(path: Bytes)
    ensures DependencyPath(path) <==> path == NODE_MODULES || exists at: nat :: InsideModules(path, at)
  {
    var inner := [SLASH] + NODE_MODULES + [SLASH];
    ContainsIffSomewhere(path, inner);
    if NODE_MODULES + [SLASH] <= path { assert InsideModules(path, 0); }
    forall at: nat | StretchAt(path, inner, at) ensures InsideModules(path, at + 1) {
      assert path[at..at + |inner|][0] == SLASH;
      assert path[at + 1..at + |inner|] == path[at..at + |inner|][1..] == NODE_MODULES + [SLASH];
    }
    forall at: nat | InsideModules(path, at) ensures DependencyPath(path) {
      if at > 0 {
        assert path[at - 1..at - 1 + |inner|] == [SLASH] + path[at..at + |NODE_MODULES| + 1];
        assert StretchAt(path, inner, at - 1);
      }
    }
  }

  // ------------------------------------------------------ what a search should answer

  function Bonus(recency: map<Bytes, nat>, path: Bytes): nat {
    if path !in recency then 0 else if recency[path] < 10 then recency[path] else 10
  }

  /** The candidate a file makes at this depth, if the request admits it and the scorer accepts it. */
  function Scored(f: File, depth: nat, plan: Plan, request: Request): Option<Candidate> {
    if f.ignored && !request.includeIgnored then None
    else
      match plan.score(plan.lower(f.path), FoldName(f.path, plan.lower), depth, DependencyPath(plan.lower(f.path)))
      case None => None
      case Some((tier, quality)) =>
        Some(Candidate(FoundOf(f, plan.lower), tier, quality - Bonus(request.recency, f.path)))
  }

  function Candidates(files: seq<File>, plan: Plan, request: Request): set<Candidate> {
    if files == [] then {}
    else
      var last := files[|files| - 1];
      var scored := Scored(last, Depth(last.path), plan, request);
      Candidates(files[..|files| - 1], plan, request) + (if scored.Some? then {scored.value} else {})
  }

  /** How many files fold to this name. */
  function NameCount(files: seq<File>, lower: Bytes -> Bytes, name: Bytes): nat {
    if files == [] then 0
    else
      NameCount(files[..|files| - 1], lower, name)
      + (if FoldName(files[|files| - 1].path, lower) == name then 1 else 0)
  }

  function Mark(c: Candidate, files: seq<File>, plan: Plan): Ranked {
    Ranked(c.result, NameCount(files, plan.lower, plan.lower(c.result.name)) > 1, plan.indices(c.result.path, c.result.name))
  }

  /** Score all, sort by tier, quality and path, take `limit`; names that several files have are marked. */
  ghost predicate IsAnswer(files: seq<File>, plan: Plan, request: Request, limit: nat, results: seq<Ranked>) {
    exists ranked :: IsFirst(BetterThan, ranked, Candidates(files, plan, request), limit) && AllMarked(ranked, files, plan, results)
  }

  ghost predicate AllMarked(ranked: seq<Candidate>, files: seq<File>, plan: Plan, results: seq<Ranked>) {
    |results| == |ranked| && forall i :: 0 <= i < |ranked| ==> results[i] == Mark(ranked[i], files, plan)
  }

  ghost predicate DistinctFiles(files: seq<File>) {
    forall i, j :: 0 <= i < j < |files| ==> files[i].path != files[j].path
  }

  lemma {:induction false} CandidateHasFile(files: seq<File>, plan: Plan, request: Request, c: Candidate)
    returns (i: nat)
    requires c in Candidates(files, plan, request)
    ensures i < |files| && Scored(files[i], Depth(files[i].path), plan, request) == Some(c)
  {
    hide Scored, Depth;
    var n := |files| - 1;
    if c in Candidates(files[..n], plan, request) {
      i := CandidateHasFile(files[..n], plan, request, c);
    } else {
      i := n;
    }
  }

  lemma CandidatesAreDistinct(files: seq<File>, plan: Plan, request: Request)
    requires DistinctFiles(files)
    ensures DistinctPaths(Candidates(files, plan, request))
  {
    hide Candidates;
    var all := Candidates(files, plan, request);
    forall c, d | c in all && d in all && c.result.path == d.result.path ensures c == d {
      var i := CandidateHasFile(files, plan, request, c);
      var j := CandidateHasFile(files, plan, request, d);
    }
  }

  /** There is one answer, so engines that give it agree. */
  lemma AnswerIsUnique(files: seq<File>, plan: Plan, request: Request, limit: nat, a: seq<Ranked>, b: seq<Ranked>)
    requires DistinctFiles(files)
    requires IsAnswer(files, plan, request, limit, a) && IsAnswer(files, plan, request, limit, b)
    ensures a == b
  {
    hide IsFirst, TotalOrder, WeakOrder, BetterThan, Candidates, Mark, DistinctFiles;
    var all := Candidates(files, plan, request);
    CandidatesAreDistinct(files, plan, request);
    BetterOrders(all);
    var x :| IsFirst(BetterThan, x, all, limit) && AllMarked(x, files, plan, a);
    var y :| IsFirst(BetterThan, y, all, limit) && AllMarked(y, files, plan, b);
    FirstIsUnique(BetterThan, x, y, all, limit);
  }

  // ------------------------------------------------------ the stream engine

  lemma NextFile(files: seq<File>, n: nat, plan: Plan, request: Request)
    requires n < |files| && DistinctFiles(files)
    ensures var before := Candidates(files[..n], plan, request);
      var scored := Scored(files[n], Depth(files[n].path), plan, request);
      if scored.None? then Candidates(files[..n + 1], plan, request) == before
      else Candidates(files[..n + 1], plan, request) == before + {scored.value} && scored.value !in before
           && DistinctPaths(before + {scored.value})
  {
    hide Scored, Depth;
    assert files[..n + 1][..n] == files[..n];
    CandidatesAreDistinct(files[..n + 1], plan, request);
    var before := Candidates(files[..n], plan, request);
    var scored := Scored(files[n], Depth(files[n].path), plan, request);
    if scored.Some? { NewCandidate(files, n, plan, request, scored.value); }
  }

  lemma NewCandidate(files: seq<File>, n: nat, plan: Plan, request: Request, c: Candidate)
    requires n < |files| && DistinctFiles(files) && Scored(files[n], Depth(files[n].path), plan, request) == Some(c)
    ensures c !in Candidates(files[..n], plan, request)
  {
    hide Candidates;
    if c in Candidates(files[..n], plan, request) {
      var i := CandidateHasFile(files[..n], plan, request, c);
      assert false;
    }
  }

  /** Sorting the selection once every file was offered. */
  method SortMatches(matches: Selection, ghost files: seq<File>, ghost plan: Plan, ghost request: Request)
    returns (ranked: seq<Candidate>)
    requires matches.Valid() && DistinctFiles(files)
    requires HoldsBest(matches.Contents(), Candidates(files, plan, request), matches.values.Length)
    ensures IsFirst(BetterThan, ranked, Candidates(files, plan, request), matches.values.Length)
  {
    hide BetterThan, Candidates, DistinctFiles, IsFirst, HoldsBest;
    CandidatesAreDistinct(files, plan, request);
    BetterOrders(Elements(matches.values[..matches.size]));
    ranked := Sort(matches.values[..matches.size], BetterThan);
    SortedBestIsFirst(matches.Contents(), ranked, Candidates(files, plan, request), matches.values.Length);
  }

  method RankPaths(files: seq<File>, plan: Plan, request: Request, limit: int) returns (results: seq<Ranked>)
    requires DistinctFiles(files)
    ensures limit <= 0 ==> results == []
    ensures limit > 0 ==> IsAnswer(files, plan, request, limit, results)
  {
    hide BetterThan, Candidates, DistinctFiles, IsFirst, HoldsBest, IsHeap, DistinctPaths;
    if limit <= 0 { return []; }
    var matches := new Selection(limit);
    NothingOffered(files, plan, request, limit);
    for n := 0 to |files|
      invariant matches.Valid() && fresh(matches) && fresh(matches.values) && matches.values.Length == limit
      invariant Holds(matches.Contents(), Candidates(files[..n], plan, request), limit)
    {
      var file := files[n];
      NextFile(files, n, plan, request);
      var scored := Scored(file, Depth(file.path), plan, request);
      if scored.None? { continue; }
      matches.AddCandidate(scored.value, Candidates(files[..n], plan, request));
    }
    assert files[..|files|] == files;
    var ranked := SortMatches(matches, files, plan, request);
    var names := CountNames(ranked, files, plan);
    results := [];
    for i := 0 to |ranked|
      invariant |results| == i && forall k :: 0 <= k < i ==> results[k] == Mark(ranked[k], files, plan)
    {
      var found := ranked[i].result;
      results := results + [Ranked(found, names[plan.lower(found.name)] > 1, plan.indices(found.path, found.name))];
    }
    assert AllMarked(ranked, files, plan, results);
  }

  lemma NothingOffered(files: seq<File>, plan: Plan, request: Request, limit: nat)
    requires limit > 0
    ensures Holds([], Candidates(files[..0], plan, request), limit)
  {
  }

  /** The second scan: how many files have each name among the results. */
  method CountNames(ranked: seq<Candidate>, files: seq<File>, plan: Plan) returns (names: map<Bytes, nat>)
    ensures forall i :: 0 <= i < |ranked| ==> plan.lower(ranked[i].result.name) in names
    ensures forall name :: name in names ==> names[name] == NameCount(files, plan.lower, name)
  {
    names := map[];
    for i := 0 to |ranked|
      invariant forall k :: 0 <= k < i ==> plan.lower(ranked[k].result.name) in names
      invariant forall name :: name in names ==> names[name] == 0
    {
      names := names[plan.lower(ranked[i].result.name) := 0];
    }
    ghost var asked := names.Keys;
    for n := 0 to |files|
      invariant names.Keys == asked
      invariant forall name :: name in names ==> names[name] == NameCount(files[..n], plan.lower, name)
    {
      assert files[..n + 1][..n] == files[..n];
      var name := FoldName(files[n].path, plan.lower);
      if name in names { names := names[name := names[name] + 1]; }
    }
    assert files[..|files|] == files;
  }
}
