/** What the ranking makes of an answer of the filename search, whichever engine gives it:
    `internal/filesearch/catalog.go`. */
module FilenameAnswers {
  import opened ByteStrings
  import opened CandidateHeap
  import opened FileSearch
  import opened FilenameRanking
  import opened FilenameScore
  import opened Ordering
  import opened Utf8
  import opened Wrappers

  /** The plan of a query: both engines score folded paths with `scorePath`. */
  function PlanOf(query: QueryPlan, lower: Bytes -> Bytes, indices: (Bytes, Bytes) -> seq<nat>,
      equalFold: (Bytes, Bytes) -> bool): Plan
  {
    Plan(lower,
      (path: Bytes, name: Bytes, depth: nat, dependency: bool) =>
        ScorePath(Decode(path), Decode(name), depth, dependency, query),
      indices, equalFold)
  }

  /** The plan scores as the query asks. */
  ghost predicate Asks(plan: Plan, query: QueryPlan) {
    forall path, name, depth, dependency ::
      plan.score(path, name, depth, dependency) == ScorePath(Decode(path), Decode(name), depth, dependency, query)
  }

  lemma PlanAsks(query: QueryPlan, lower: Bytes -> Bytes, indices: (Bytes, Bytes) -> seq<nat>,
      equalFold: (Bytes, Bytes) -> bool)
    ensures Asks(PlanOf(query, lower, indices, equalFold), query)
  {
  }

  function Seen(f: File, lower: Bytes -> Bytes): Scorable {
    Scorable(Decode(lower(f.path)), Decode(FoldName(f.path, lower)), Depth(f.path), DependencyPath(lower(f.path)))
  }

  predicate Admitted(f: File, request: Request) {
    !f.ignored || request.includeIgnored
  }

  /** The file is among the results before position j. */
  ghost predicate ShownBefore(results: seq<Ranked>, f: File, j: nat) {
    exists i: nat :: i < j && i < |results| && results[i].file.path == f.path
  }

  ghost predicate Shown(results: seq<Ranked>, f: File) {
    ShownBefore(results, f, |results|)
  }

  /** What a file is worth: its tier and quality, the quality bettered by recent use. */
  lemma WorthOf(f: File, plan: Plan, query: QueryPlan, request: Request)
    requires Asks(plan, query)
    ensures var (c, s) := (Scored(f, Depth(f.path), plan, request), Score(Seen(f, plan.lower), query));
      && (c.Some? <==> Admitted(f, request) && s.Some?)
      && (c.Some? ==> c.value.tier == s.value.0 && c.value.quality == s.value.1 - Bonus(request.recency, f.path)
                      && c.value.result == FoundOf(f, plan.lower))
  {
    hide ScorePath, FoldName, DependencyPath, Depth, FoundOf, Decode;
  }

  lemma {:induction false} CandidateOfFile(files: seq<File>, plan: Plan, request: Request, f: File)
    requires f in files && Scored(f, Depth(f.path), plan, request).Some?
    ensures Scored(f, Depth(f.path), plan, request).value in Candidates(files, plan, request)
    decreases |files|
  {
    hide Scored, Depth;
    var n := |files| - 1;
    assert files == files[..n] + [files[n]];
    if f in files[..n] { CandidateOfFile(files[..n], plan, request, f); }
  }

  /** A better candidate is shown, and shown first, if a worse one is. */
  lemma BetterIsShownFirst(ranked: seq<Candidate>, all: set<Candidate>, limit: nat, c: Candidate, d: Candidate, j: nat)
    returns (i: nat)
    requires IsFirst(BetterThan, ranked, all, limit) && c in all && BetterThan(c, d) && j < |ranked| && ranked[j] == d
    ensures i < j && ranked[i] == c
  {
    BetterIsAsymmetric(c, d);
    hide BetterThan;
    assert d in ranked;
    assert c in ranked;
    i :| 0 <= i < |ranked| && ranked[i] == c;
  }

  /** Of two files that are accepted the one with the better candidate is shown first. */
  lemma BetterFileIsShownFirst(files: seq<File>, plan: Plan, request: Request, limit: nat, results: seq<Ranked>,
      f: File, g: File, j: nat)
    requires DistinctFiles(files) && IsAnswer(files, plan, request, limit, results) && f in files && g in files
    requires var (c, d) := (Scored(f, Depth(f.path), plan, request), Scored(g, Depth(g.path), plan, request));
      c.Some? && d.Some? && BetterThan(c.value, d.value)
    requires j < |results| && results[j].file.path == g.path
    ensures ShownBefore(results, f, j)
  {
    var c, d := Scored(f, Depth(f.path), plan, request).value, Scored(g, Depth(g.path), plan, request).value;
    CandidateOfFile(files, plan, request, f);
    CandidateOfFile(files, plan, request, g);
    CandidatesAreDistinct(files, plan, request);
    assert c.result.path == f.path && d.result.path == g.path;
    hide BetterThan, Candidates, DistinctFiles, Scored, Depth;
    var ranked: seq<Candidate> :|
      IsFirst(BetterThan, ranked, Candidates(files, plan, request), limit) && AllMarked(ranked, files, plan, results);
    assert ranked[j] in Candidates(files, plan, request) && ranked[j].result.path == g.path;
    var i := BetterIsShownFirst(ranked, Candidates(files, plan, request), limit, c, d, j);
    hide IsFirst;
    assert results[i].file == c.result;
  }

  /** Recent use never lifts a file over one of a better tier. */
  lemma LowerTierIsShownFirst(files: seq<File>, plan: Plan, query: QueryPlan, request: Request, limit: nat,
      results: seq<Ranked>, f: File, g: File, j: nat)
    requires DistinctFiles(files) && Asks(plan, query) && IsAnswer(files, plan, request, limit, results)
    requires f in files && g in files && Admitted(f, request) && Admitted(g, request)
    requires LowerTier(Seen(f, plan.lower), Seen(g, plan.lower), query)
    requires j < |results| && results[j].file.path == g.path
    ensures ShownBefore(results, f, j)
  {
    WorthOf(f, plan, query, request);
    WorthOf(g, plan, query, request);
    hide Scored, DistinctFiles, IsAnswer, Seen, Asks;
    BetterFileIsShownFirst(files, plan, request, limit, results, f, g, j);
  }

  /** Every result is a file that the request admits and the query accepts. */
  lemma ResultIsAccepted(files: seq<File>, plan: Plan, query: QueryPlan, request: Request, limit: nat,
      results: seq<Ranked>, j: nat) returns (f: File)
    requires Asks(plan, query) && IsAnswer(files, plan, request, limit, results) && j < |results|
    ensures f in files && Admitted(f, request) && Score(Seen(f, plan.lower), query).Some?
    ensures results[j].file == FoundOf(f, plan.lower)
  {
    var ranked: seq<Candidate> :|
      IsFirst(BetterThan, ranked, Candidates(files, plan, request), limit) && AllMarked(ranked, files, plan, results);
    assert ranked[j] in ranked;
    var n := CandidateHasFile(files, plan, request, ranked[j]);
    f := files[n];
    WorthOf(f, plan, query, request);
  }

  /** The path that was asked for heads the answer: whatever else is shown, it is shown before. */
  lemma ExactPathHeadsTheAnswer(files: seq<File>, plan: Plan, query: QueryPlan, request: Request, limit: nat,
      results: seq<Ranked>, f: File, j: nat)
    requires DistinctFiles(files) && Asks(plan, query) && IsAnswer(files, plan, request, limit, results)
    requires query.value != [] && f in files && Admitted(f, request) && Decode(plan.lower(f.path)) == query.value
    requires j < |results| && Decode(plan.lower(results[j].file.path)) != query.value
    ensures ShownBefore(results, f, j)
  {
    var g := ResultIsAccepted(files, plan, query, request, limit, results, j);
    ExactPathIsFirst(Seen(f, plan.lower), Seen(g, plan.lower), query);
    LowerTierIsShownFirst(files, plan, query, request, limit, results, f, g, j);
  }

  /** Without a path in the query project files that are accepted are shown before every dependency but the
      path that was asked for. */
  lemma ProjectFilesBeforeDependencies(files: seq<File>, plan: Plan, query: QueryPlan, request: Request, limit: nat,
      results: seq<Ranked>, f: File, j: nat)
    requires DistinctFiles(files) && Asks(plan, query) && IsAnswer(files, plan, request, limit, results)
    requires query.value != [] && !query.pathIntent && f in files && Admitted(f, request)
    requires !DependencyPath(plan.lower(f.path)) && Score(Seen(f, plan.lower), query).Some?
    requires j < |results| && results[j].file.dependency && Decode(plan.lower(results[j].file.path)) != query.value
    ensures ShownBefore(results, f, j)
  {
    var g := ResultIsAccepted(files, plan, query, request, limit, results, j);
    DependenciesComeLast(Seen(f, plan.lower), Seen(g, plan.lower), query);
    LowerTierIsShownFirst(files, plan, query, request, limit, results, f, g, j);
  }

  /** Of two files with the same score the one used more recently is shown first; only the first
      ten places of the list of recent files tell files apart. */
  lemma RecentlyUsedIsShownFirst(files: seq<File>, plan: Plan, query: QueryPlan, request: Request, limit: nat,
      results: seq<Ranked>, f: File, g: File, j: nat)
    requires DistinctFiles(files) && Asks(plan, query) && IsAnswer(files, plan, request, limit, results)
    requires f in files && g in files && Admitted(f, request) && Admitted(g, request)
    requires Score(Seen(f, plan.lower), query).Some? && Score(Seen(f, plan.lower), query) == Score(Seen(g, plan.lower), query)
    requires f.path in request.recency && request.recency[f.path] > 0
    requires g.path in request.recency ==> request.recency[g.path] < 10 && request.recency[g.path] < request.recency[f.path]
    requires j < |results| && results[j].file.path == g.path
    ensures ShownBefore(results, f, j)
  {
    WorthOf(f, plan, query, request);
    WorthOf(g, plan, query, request);
    hide Scored, DistinctFiles, IsAnswer, Seen, Asks;
    BetterFileIsShownFirst(files, plan, request, limit, results, f, g, j);
  }

  // ------------------------------------------------------ which files are found

  lemma {:induction false} TailWithoutSlash(head: Bytes, tail: Bytes)
    requires SLASH !in tail
    ensures NameStart(head + tail) == NameStart(head)
    decreases |tail|
  {
    if tail == [] {
      assert head + tail == head;
    } else {
      assert (head + tail)[..|head + tail| - 1] == head + tail[..|tail| - 1];
      TailWithoutSlash(head, tail[..|tail| - 1]);
    }
  }

  lemma OnlySlashIsSlash(r: Rune)
    ensures r == 47 ==> EncodeRune(r) == [SLASH]
    ensures r != 47 ==> SLASH !in EncodeRune(r)
  {
  }

  /** In encoded text the name starts at a rune. */
  lemma {:induction false} NameOfText(t: Text) returns (k: nat)
    ensures k <= |t| && Encode(t)[NameStart(Encode(t))..] == Encode(t[k..])
    decreases |t|
  {
    hide Encode, EncodeRune, NameStart;
    if t == [] {
      k := 0;
      NothingEncoded();
    } else {
      var n := |t| - 1;
      assert t == t[..n] + [t[n]];
      EncodeConcat(t[..n], [t[n]]);
      OneEncoded(t[n]);
      OnlySlashIsSlash(t[n]);
      if t[n] == 47 {
        k := |t|;
        SlashEndsIt(Encode(t[..n]));
        NothingEncoded();
        assert t[k..] == [] && Encode(t)[NameStart(Encode(t))..] == [];
      } else {
        k := NameOfText(t[..n]);
        TailWithoutSlash(Encode(t[..n]), EncodeRune(t[n]));
        assert t[k..] == t[..n][k..] + [t[n]];
        EncodeConcat(t[..n][k..], [t[n]]);
        var start := NameStart(Encode(t[..n]));
        assert (Encode(t[..n]) + EncodeRune(t[n]))[start..] == Encode(t[..n])[start..] + EncodeRune(t[n]);
      }
    }
  }

  lemma NothingEncoded()
    ensures Encode([]) == [] && NameStart([]) == 0
  {
  }

  lemma OneEncoded(r: Rune)
    ensures Encode([r]) == EncodeRune(r)
  {
    assert [r][1..] == [];
  }

  lemma SlashEndsIt(head: Bytes)
    ensures NameStart(head + [SLASH]) == |head| + 1
  {
  }

  /** The runes of the name are the last ones of the path. */
  lemma SeenNameIsSuffix(f: File, lower: Bytes -> Bytes, t: Text)
    requires lower(f.path) == Encode(t)
    ensures Decode(lower(f.path)) == t && IsSuffix(Decode(FoldName(f.path, lower)), t)
  {
    var k := NameOfText(t);
    DecodeEncode(t);
    DecodeEncode(t[k..]);
    assert t[|t| - |t[k..]|..] == t[k..];
  }

  /** An answer that is not full shows exactly the files that the request admits and whose path, in valid UTF-8,
      contains every term of the query as a subsequence. */
  lemma FoundExactlyTheMatching(files: seq<File>, plan: Plan, query: QueryPlan, request: Request, limit: nat,
      results: seq<Ranked>, f: File, t: Text)
    requires DistinctFiles(files) && Asks(plan, query) && IsAnswer(files, plan, request, limit, results)
    requires query.value != [] && TermsAreParts(query) && f in files && plan.lower(f.path) == Encode(t)
    requires |results| < limit
    ensures Shown(results, f) <==> Admitted(f, request) && forall term :: term in Wanted(query) ==> Subsequence(term, t)
  {
    SeenNameIsSuffix(f, plan.lower, t);
    var x := Seen(f, plan.lower);
    PathAccepted(x.path, x.name, x.depth, x.dependency, query);
    hide Subsequence, Wanted, TermsAreParts, Seen, Encode, Decode, IsSuffix;
    ShownIfAccepted(files, plan, query, request, limit, results, f);
  }

  lemma ShownIfAccepted(files: seq<File>, plan: Plan, query: QueryPlan, request: Request, limit: nat,
      results: seq<Ranked>, f: File)
    requires DistinctFiles(files) && Asks(plan, query) && IsAnswer(files, plan, request, limit, results)
    requires f in files && |results| < limit
    ensures Shown(results, f) <==> Admitted(f, request) && Score(Seen(f, plan.lower), query).Some?
  {
    WorthOf(f, plan, query, request);
    if Scored(f, Depth(f.path), plan, request).Some? { CandidateIsShown(files, plan, request, limit, results, f); }
    if Shown(results, f) {
      var j: nat :| j < |results| && results[j].file.path == f.path;
      var g := ResultIsAccepted(files, plan, query, request, limit, results, j);
      SamePathSameFile(files, f, g);
    }
  }

  lemma CandidateIsShown(files: seq<File>, plan: Plan, request: Request, limit: nat, results: seq<Ranked>, f: File)
    requires IsAnswer(files, plan, request, limit, results) && f in files && |results| < limit
    requires Scored(f, Depth(f.path), plan, request).Some?
    ensures Shown(results, f)
  {
    var c := Scored(f, Depth(f.path), plan, request).value;
    CandidateOfFile(files, plan, request, f);
    assert c.result.path == f.path;
    hide Scored, BetterThan, Candidates, Depth;
    var ranked: seq<Candidate> :|
      IsFirst(BetterThan, ranked, Candidates(files, plan, request), limit) && AllMarked(ranked, files, plan, results);
    assert c in ranked;
    var i :| 0 <= i < |ranked| && ranked[i] == c;
    assert results[i].file == c.result;
  }

  lemma SamePathSameFile(files: seq<File>, f: File, g: File)
    requires DistinctFiles(files) && f in files && g in files && f.path == g.path
    ensures f == g
  {
    var i :| 0 <= i < |files| && files[i] == f;
    var j :| 0 <= j < |files| && files[j] == g;
  }

  // ------------------------------------------------------ which names are marked

  ghost predicate ShareName(files: seq<File>, lower: Bytes -> Bytes, name: Bytes, i: nat, j: nat) {
    i < j < |files| && FoldName(files[i].path, lower) == FoldName(files[j].path, lower) == name
  }

  lemma {:induction false} NobodyHasName(files: seq<File>, lower: Bytes -> Bytes, name: Bytes)
    ensures NameCount(files, lower, name) == 0 <==> forall i :: 0 <= i < |files| ==> FoldName(files[i].path, lower) != name
  {
    hide FoldName;
    if files != [] { NobodyHasName(files[..|files| - 1], lower, name); }
  }

  /** A name is marked exactly when two files have it, whether or not they are shown. */
  lemma {:induction false} MarkedIffShared(files: seq<File>, lower: Bytes -> Bytes, name: Bytes)
    ensures NameCount(files, lower, name) > 1 <==> exists i: nat, j: nat :: ShareName(files, lower, name, i, j)
  {
    hide FoldName;
    if files != [] {
      var n, front := |files| - 1, files[..|files| - 1];
      MarkedIffShared(front, lower, name);
      NobodyHasName(front, lower, name);
      if i: nat, j: nat :| ShareName(front, lower, name, i, j) { assert ShareName(files, lower, name, i, j); }
      if FoldName(files[n].path, lower) == name && NameCount(front, lower, name) > 0 {
        var i :| 0 <= i < n && FoldName(front[i].path, lower) == name;
        assert ShareName(files, lower, name, i, n);
      }
      forall i: nat, j: nat | ShareName(files, lower, name, i, j) ensures NameCount(files, lower, name) > 1 {
        if j < n { assert ShareName(front, lower, name, i, j); } else { assert front[i] == files[i]; }
      }
    }
  }
}
