/** What a content search returns: the sequential scan, the batches the workers scan, and how the
    collector puts batches together. `internal/app/content_search.go`. */
module ContentBatches {
  import opened ContentExcerpt
  import opened Wrappers

  const MATCH_LIMIT := 2000

  /** A file that was scanned: its matches, or why it could not be. */
  datatype Scanned = Scanned(path: string, matches: seq<Match>, error: Option<int>)

  datatype FileMatches = FileMatches(path: string, matches: seq<Match>)

  datatype Stop = LimitReached | Failed(error: int)

  /** `scan` gives a path's matches; `emit` is handed each file with matches when streaming and may fail. */
  datatype Search = Search(scan: string -> Scanned, limit: nat, streaming: bool, emit: seq<FileMatches> -> Option<int>)

  /** The answer so far; once stopped, nothing more is added. */
  datatype Answer = Answer(results: seq<FileMatches>, count: nat, stop: Option<Stop>)

  const NOTHING := Answer([], 0, None)

  /** Limits out of range mean the greatest one. */
  function EffectiveLimit(limit: int): (n: nat)
    ensures 1 <= n <= MATCH_LIMIT
  {
    if limit <= 0 || limit > MATCH_LIMIT then MATCH_LIMIT else limit
  }

  function Min(a: int, b: int): int {
    if a < b then a else b
  }

  predicate Going(s: Search, a: Answer) {
    a.stop.None? && a.count < s.limit
  }

  /** One scanned file joins the answer. */
  function Joined(s: Search, a: Answer, file: Scanned): Answer
    requires a.stop.None? ==> a.count < s.limit
  {
    if a.stop.Some? then a
    else if file.error.Some? then a.(stop := Some(Failed(file.error.value)))
    else
      var matches := file.matches[..Min(|file.matches|, s.limit - a.count)];
      var results := if matches == [] then a.results else a.results + [FileMatches(file.path, matches)];
      var count := a.count + |matches|;
      var failure := if matches != [] && s.streaming then s.emit(results) else None;
      Answer(results, count,
        if failure.Some? then Some(Failed(failure.value)) else if count >= s.limit then Some(LimitReached) else None)
  }

  lemma JoinedStops(s: Search, a: Answer, file: Scanned)
    requires a.stop.None? ==> a.count < s.limit
    ensures Joined(s, a, file).stop.None? ==> Joined(s, a, file).count < s.limit
  {
  }

  /** The sequential scan: file after file, until something stops it. */
  function Sequential(s: Search, paths: seq<string>): (a: Answer)
    requires s.limit > 0
    ensures a.stop.None? ==> a.count < s.limit
  {
    if paths == [] then NOTHING else Joined(s, Sequential(s, paths[..|paths| - 1]), s.scan(paths[|paths| - 1]))
  }

  /** Scanned files joining one after another. */
  function JoinedAll(s: Search, a: Answer, batch: seq<Scanned>): (r: Answer)
    requires a.stop.None? ==> a.count < s.limit
    ensures r.stop.None? ==> r.count < s.limit
  {
    if batch == [] then a else Joined(s, JoinedAll(s, a, batch[..|batch| - 1]), batch[|batch| - 1])
  }

  // ------------------------------------------------------ what the sequential scan answers

  /** One match and the file it is in. */
  datatype Hit = Hit(path: string, found: Match)

  function HitsOf(path: string, matches: seq<Match>): (r: seq<Hit>)
    ensures |r| == |matches| && forall i :: 0 <= i < |r| ==> r[i] == Hit(path, matches[i])
  {
    seq(|matches|, i requires 0 <= i < |matches| => Hit(path, matches[i]))
  }

  /** Every match of every path, in order. */
  function AllHits(s: Search, paths: seq<string>): seq<Hit> {
    if paths == [] then []
    else
      var last := s.scan(paths[|paths| - 1]);
      AllHits(s, paths[..|paths| - 1]) + HitsOf(last.path, last.matches)
  }

  /** Every match shown, in order. */
  function ShownHits(results: seq<FileMatches>): seq<Hit> {
    if results == [] then []
    else
      var last := results[|results| - 1];
      ShownHits(results[..|results| - 1]) + HitsOf(last.path, last.matches)
  }

  lemma ShowOneMore(results: seq<FileMatches>, file: FileMatches)
    ensures ShownHits(results + [file]) == ShownHits(results) + HitsOf(file.path, file.matches)
  {
    assert (results + [file])[..|results|] == results;
  }

  /** What joins is what the file has, as far as the limit allows. */
  lemma JoinedShows(s: Search, a: Answer, file: Scanned)
    requires a.stop.None? && a.count < s.limit && |ShownHits(a.results)| == a.count
    ensures var (r, all) := (Joined(s, a, file), ShownHits(a.results) + HitsOf(file.path, file.matches));
      && |ShownHits(r.results)| == r.count <= s.limit && ShownHits(r.results) <= all
      && (file.error.None? ==> ShownHits(r.results) == all[..Min(s.limit, |all|)])
      && (r.stop.None? ==> file.error.None? && |all| < s.limit)
      && (r.stop == Some(LimitReached) ==> file.error.None? && |all| >= s.limit)
      && (file.error.Some? ==> r == a.(stop := Some(Failed(file.error.value))))
      && (file.error.None? && (!s.streaming || file.matches == []) ==> r.stop in {None, Some(LimitReached)})
      && (file.error.None? && s.streaming && file.matches != [] && s.emit(r.results).Some? ==>
            r.stop == Some(Failed(s.emit(r.results).value)))
      && (file.error.None? && s.streaming && file.matches != [] && s.emit(r.results).None? ==>
            r.stop in {None, Some(LimitReached)})
  {
    var n := Min(|file.matches|, s.limit - a.count);
    var matches := file.matches[..n];
    assert HitsOf(file.path, matches) == HitsOf(file.path, file.matches)[..n];
    if file.error.None? && matches != [] { ShowOneMore(a.results, FileMatches(file.path, matches)); }
    var all := ShownHits(a.results) + HitsOf(file.path, file.matches);
    assert file.error.None? ==> all[..Min(s.limit, |all|)] == ShownHits(a.results) + HitsOf(file.path, file.matches)[..n];
  }

  /** Unless it fails, the answer is the first `limit` matches in the order of the files, and says that it was cut
      exactly when there are as many. If it fails it shows matches from the front. */
  lemma {:induction false} SequentialShowsTheFirst(s: Search, paths: seq<string>)
    requires s.limit > 0
    ensures var (a, all) := (Sequential(s, paths), AllHits(s, paths));
      && |ShownHits(a.results)| == a.count <= s.limit && ShownHits(a.results) <= all
      && (a.stop.None? || a.stop == Some(LimitReached) ==> ShownHits(a.results) == all[..Min(s.limit, |all|)])
      && (a.stop.None? ==> |all| < s.limit) && (a.stop == Some(LimitReached) ==> |all| >= s.limit)
  {
    hide Joined;
    if paths != [] {
      var front, last := paths[..|paths| - 1], s.scan(paths[|paths| - 1]);
      SequentialShowsTheFirst(s, front);
      var before, all := AllHits(s, front), AllHits(s, paths);
      if Sequential(s, front).stop.None? {
        JoinedShows(s, Sequential(s, front), last);
      } else {
        StoppedKeeps(s, Sequential(s, front), last);
        assert before <= all;
        assert |before| >= s.limit ==> all[..s.limit] == before[..s.limit];
      }
    }
  }

  /** The n-th file cannot be scanned, and nothing stopped the search before. */
  ghost predicate FailsAt(s: Search, paths: seq<string>, n: nat) {
    && n < |paths| && s.scan(paths[n]).error.Some? && |AllHits(s, paths[..n])| < s.limit
    && forall m :: 0 <= m < n ==> s.scan(paths[m]).error.None?
  }

  /** A search that does not stream fails exactly when a file cannot be scanned before the limit is reached, and
      with the failure of the first such file. */
  lemma {:induction false} FailsAtFirstError(s: Search, paths: seq<string>)
    requires s.limit > 0 && !s.streaming
    ensures var stop := Sequential(s, paths).stop;
      && (stop.Some? && stop.value.Failed? <==> exists n: nat :: FailsAt(s, paths, n))
      && (forall n: nat :: FailsAt(s, paths, n) ==> stop == Some(Failed(s.scan(paths[n]).error.value)))
      && (stop.None? ==> forall m :: 0 <= m < |paths| ==> s.scan(paths[m]).error.None?)
  {
    hide Joined;
    if paths != [] {
      var last := |paths| - 1;
      var front, a := paths[..last], Sequential(s, paths[..last]);
      FailsAtFirstError(s, front);
      SequentialShowsTheFirst(s, front);
      assert forall n: nat {:trigger paths[..n]} :: n <= last ==> front[..n] == paths[..n];
      forall n: nat | n < last ensures FailsAt(s, paths, n) <==> FailsAt(s, front, n) { assert front[..n] == paths[..n]; }
      if a.stop.None? { JoinedShows(s, a, s.scan(paths[last])); } else { StoppedKeeps(s, a, s.scan(paths[last])); }
      assert paths[..last] == front;
      if n: nat :| FailsAt(s, front, n) { assert FailsAt(s, paths, n) && s.scan(paths[n]).error.Some?; }
      assert a.stop.None? && s.scan(paths[last]).error.Some? <==> FailsAt(s, paths, last);
    }
  }

  lemma StoppedKeeps(s: Search, a: Answer, file: Scanned)
    requires a.stop.Some?
    ensures Joined(s, a, file) == a
  {
  }

  // ------------------------------------------------------ one worker's batch

  /** A worker scans its paths up to a failure or the limit; `count` are the matches it has so far. */
  function Batch(s: Search, paths: seq<string>, count: nat): seq<Scanned>
    requires count < s.limit
    decreases |paths|
  {
    if paths == [] then []
    else
      var file := Trimmed(s, paths[0], count);
      [file] + (if file.error.Some? || count + |file.matches| >= s.limit then []
                else Batch(s, paths[1..], count + |file.matches|))
  }

  function Trimmed(s: Search, path: string, count: nat): Scanned
    requires count < s.limit
  {
    var file := s.scan(path);
    Scanned(path, file.matches[..Min(|file.matches|, s.limit - count)], file.error)
  }

  /** Scans are of the path they were asked for. */
  ghost predicate ScansItsPath(s: Search) {
    forall path :: s.scan(path).path == path
  }

  lemma BatchStep(s: Search, done: seq<Scanned>, paths: seq<string>, i: nat, count: nat)
    requires i < |paths| && count < s.limit
    ensures var file := Trimmed(s, paths[i], count);
      done + Batch(s, paths[i..], count) == done + [file]
        + (if file.error.Some? || count + |file.matches| >= s.limit then []
           else Batch(s, paths[i + 1..], count + |file.matches|))
  {
    hide Trimmed;
    var rest := paths[i..];
    assert rest[0] == paths[i] && rest[1..] == paths[i + 1..];
  }

  method ScanBatch(s: Search, paths: seq<string>) returns (batch: seq<Scanned>)
    requires s.limit > 0
    ensures batch == Batch(s, paths, 0)
  {
    hide Batch, Trimmed;
    batch := [];
    var count: nat := 0;
    assert paths[0..] == paths && [] + Batch(s, paths, 0) == Batch(s, paths, 0);
    for i := 0 to |paths|
      invariant count < s.limit && Batch(s, paths, 0) == batch + Batch(s, paths[i..], count)
    {
      var file := Trimmed(s, paths[i], count);
      BatchStep(s, batch, paths, i, count);
      batch := batch + [file];
      count := count + |file.matches|;
      if file.error.Some? || count >= s.limit { return; }
    }
    NoMorePaths(s, paths, count);
  }

  lemma NoMorePaths(s: Search, paths: seq<string>, count: nat)
    requires count < s.limit
    ensures Batch(s, paths[|paths|..], count) == []
  {
  }

  /** The collector's loop body: one result of a reply joins the answer. */
  method JoinResult(s: Search, a: Answer, result: Scanned) returns (r: Answer)
    requires Going(s, a)
    ensures r == Joined(s, a, result) && (r.stop.Some? || Going(s, r))
  {
    r := a;
    if result.error.Some? { return r.(stop := Some(Failed(result.error.value))); }
    var matches := result.matches[..Min(|result.matches|, s.limit - r.count)];
    if |matches| > 0 {
      r := r.(results := r.results + [FileMatches(result.path, matches)], count := r.count + |matches|);
      if s.streaming {
        var failure := s.emit(r.results);
        if failure.Some? { return r.(stop := Some(Failed(failure.value))); }
      }
    }
    if r.count >= s.limit { r := r.(stop := Some(LimitReached)); }
  }

  /** The collector's loop over one reply; the answer changes only here. */
  method CollectBatch(s: Search, a: Answer, batch: seq<Scanned>) returns (r: Answer)
    requires Going(s, a)
    ensures r == JoinedAll(s, a, batch)
  {
    hide Joined;
    r := a;
    for i := 0 to |batch|
      invariant Going(s, r) && r == JoinedAll(s, a, batch[..i])
    {
      assert batch[..i + 1][..i] == batch[..i];
      r := JoinResult(s, r, batch[i]);
      if r.stop.Some? {
        StoppedStays(s, a, batch, i + 1);
        return;
      }
    }
    assert batch[..|batch|] == batch;
  }

  lemma {:induction false} StoppedStays(s: Search, a: Answer, batch: seq<Scanned>, n: nat)
    requires Going(s, a) && n <= |batch| && JoinedAll(s, a, batch[..n]).stop.Some?
    ensures JoinedAll(s, a, batch) == JoinedAll(s, a, batch[..n])
    decreases |batch|
  {
    if n == |batch| {
      assert batch[..n] == batch;
    } else {
      assert batch[..|batch| - 1][..n] == batch[..n];
      StoppedStays(s, a, batch[..|batch| - 1], n);
    }
  }

  // ------------------------------------------------------ batches lose nothing

  function Raw(s: Search, paths: seq<string>): (r: seq<Scanned>)
    ensures |r| == |paths| && forall i :: 0 <= i < |r| ==> r[i] == s.scan(paths[i])
  {
    seq(|paths|, i requires 0 <= i < |paths| => s.scan(paths[i]))
  }

  lemma {:induction false} JoinedFirst(s: Search, a: Answer, batch: seq<Scanned>)
    requires (a.stop.None? ==> a.count < s.limit) && batch != []
    ensures Joined(s, a, batch[0]).stop.None? ==> Joined(s, a, batch[0]).count < s.limit
    ensures JoinedAll(s, a, batch) == JoinedAll(s, Joined(s, a, batch[0]), batch[1..])
    decreases |batch|
  {
    JoinedStops(s, a, batch[0]);
    var n := |batch| - 1;
    if n == 0 {
      assert batch[..0] == [] && batch[1..] == [];
    } else {
      JoinedFirst(s, a, batch[..n]);
      assert batch[..n][0] == batch[0] && batch[..n][1..] == batch[1..][..n - 1];
    }
  }

  lemma {:induction false} StoppedJoinsNothing(s: Search, a: Answer, batch: seq<Scanned>)
    requires a.stop.Some?
    ensures JoinedAll(s, a, batch) == a
    decreases |batch|
  {
    if batch != [] { StoppedJoinsNothing(s, a, batch[..|batch| - 1]); }
  }

  /** Trimming to what the batch may still hold does not change what the answer takes. */
  lemma TrimmedJoins(s: Search, a: Answer, path: string, count: nat)
    requires Going(s, a) && count <= a.count && ScansItsPath(s)
    ensures Joined(s, a, Trimmed(s, path, count)) == Joined(s, a, s.scan(path))
  {
    var file := s.scan(path);
    var k := Min(|file.matches|, s.limit - count);
    assert file.matches[..k][..Min(k, s.limit - a.count)] == file.matches[..Min(|file.matches|, s.limit - a.count)];
  }

  /** Unless the answer stops at a file, the worker goes on after it. */
  lemma WorkerGoesOn(s: Search, a: Answer, path: string, count: nat)
    requires Going(s, a) && count <= a.count && ScansItsPath(s)
    ensures var (file, next) := (Trimmed(s, path, count), Joined(s, a, s.scan(path)));
      next.stop.None? ==> file.error.None? && count + |file.matches| <= next.count < s.limit
  {
  }

  lemma FirstOfBatch(s: Search, paths: seq<string>, count: nat)
    requires paths != [] && count < s.limit
    ensures var (file, batch) := (Trimmed(s, paths[0], count), Batch(s, paths, count));
      batch != [] && batch[0] == file
      && batch[1..] == (if file.error.Some? || count + |file.matches| >= s.limit then []
                        else Batch(s, paths[1..], count + |file.matches|))
    ensures Raw(s, paths)[0] == s.scan(paths[0]) && Raw(s, paths)[1..] == Raw(s, paths[1..])
  {
    hide Trimmed;
  }

  /** A reply adds to the answer what its paths would have, scanned one after another. */
  lemma {:induction false} BatchJoins(s: Search, a: Answer, paths: seq<string>, count: nat)
    requires Going(s, a) && count <= a.count && ScansItsPath(s)
    ensures JoinedAll(s, a, Batch(s, paths, count)) == JoinedAll(s, a, Raw(s, paths))
    decreases |paths|
  {
    if paths == [] {
      assert Raw(s, paths) == [];
    } else {
      hide Joined, JoinedAll, Batch, Raw, Trimmed, ScansItsPath;
      var file := Trimmed(s, paths[0], count);
      var batch, raw := Batch(s, paths, count), Raw(s, paths);
      var next := Joined(s, a, s.scan(paths[0]));
      FirstOfBatch(s, paths, count);
      TrimmedJoins(s, a, paths[0], count);
      WorkerGoesOn(s, a, paths[0], count);
      JoinedFirst(s, a, batch);
      JoinedFirst(s, a, raw);
      if next.stop.Some? {
        StoppedJoinsNothing(s, next, batch[1..]);
        StoppedJoinsNothing(s, next, raw[1..]);
      } else {
        BatchJoins(s, next, paths[1..], count + |file.matches|);
      }
    }
  }

  lemma {:induction false} JoinedConcat(s: Search, a: Answer, x: seq<Scanned>, y: seq<Scanned>)
    requires a.stop.None? ==> a.count < s.limit
    ensures JoinedAll(s, a, x + y) == JoinedAll(s, JoinedAll(s, a, x), y)
    decreases |y|
  {
    if y == [] {
      assert x + y == x;
    } else {
      assert (x + y)[..|x + y| - 1] == x + y[..|y| - 1];
      JoinedConcat(s, a, x, y[..|y| - 1]);
    }
  }

  lemma {:induction false} SequentialJoins(s: Search, paths: seq<string>)
    requires s.limit > 0
    ensures Sequential(s, paths) == JoinedAll(s, NOTHING, Raw(s, paths))
  {
    if paths != [] {
      SequentialJoins(s, paths[..|paths| - 1]);
      assert Raw(s, paths)[..|paths| - 1] == Raw(s, paths[..|paths| - 1]);
    }
  }

  /** Collecting one more batch extends the sequential answer by the batch's paths. */
  lemma CollectExtends(s: Search, before: seq<string>, paths: seq<string>)
    requires s.limit > 0 && ScansItsPath(s) && Going(s, Sequential(s, before))
    ensures JoinedAll(s, Sequential(s, before), Batch(s, paths, 0)) == Sequential(s, before + paths)
  {
    hide JoinedAll, Sequential, Batch, ScansItsPath;
    BatchJoins(s, Sequential(s, before), paths, 0);
    SequentialJoins(s, before);
    SequentialJoins(s, before + paths);
    JoinedConcat(s, NOTHING, Raw(s, before), Raw(s, paths));
    RawConcat(s, before, paths);
  }

  lemma RawConcat(s: Search, x: seq<string>, y: seq<string>)
    ensures Raw(s, x + y) == Raw(s, x) + Raw(s, y)
  {
  }

  /** Nothing after the stop matters. */
  lemma {:induction false} StoppedIsFinal(s: Search, before: seq<string>, rest: seq<string>)
    requires s.limit > 0 && Sequential(s, before).stop.Some?
    ensures Sequential(s, before + rest) == Sequential(s, before)
    decreases |rest|
  {
    if rest == [] {
      assert before + rest == before;
    } else {
      assert (before + rest)[..|before + rest| - 1] == before + rest[..|rest| - 1];
      StoppedIsFinal(s, before, rest[..|rest| - 1]);
    }
  }
}
