/** Scoring a path against a query: `internal/filesearch/catalog.go`. Text is the runes of a valid
    UTF-8 string; offsets and lengths that enter a score are in bytes. */
module FilenameScore {
  import opened Utf8
  import opened Wrappers

  /** `terms` are the fields of `value`. */
  datatype QueryPlan = QueryPlan(value: Text, terms: seq<Text>, pathIntent: bool)

  function ByteLength(t: Text): nat {
    if t == [] then 0 else ByteLength(t[..|t| - 1]) + RuneLength(t[|t| - 1])
  }

  // ------------------------------------------------------ subsequences

  /** The positions spell the query inside the value, from left to right. */
  predicate Embeds(positions: seq<nat>, query: Text, value: Text) {
    && |positions| == |query|
    && (forall k :: 0 <= k < |query| ==> positions[k] < |value| && value[positions[k]] == query[k])
    && (forall j, k :: 0 <= j < k < |query| ==> positions[j] < positions[k])
  }

  ghost predicate Subsequence(query: Text, value: Text) {
    exists positions :: Embeds(positions, query, value)
  }

  /** The first occurrence at or after `from`: strings.IndexRune. */
  function Find(value: Text, from: nat, r: Rune): (i: Option<nat>)
    requires from <= |value|
    ensures i.Some? ==> from <= i.value < |value| && value[i.value] == r
    ensures forall j :: from <= j < (if i.Some? then i.value else |value|) ==> value[j] != r
    decreases |value| - from
  {
    if from == |value| then None else if value[from] == r then Some(from) else Find(value, from + 1, r)
  }

  /** Taking the first occurrence of each rune in turn. */
  function Greedy(value: Text, query: Text, from: nat): Option<seq<nat>>
    requires from <= |value|
    decreases |query|
  {
    if query == [] then Some([])
    else
      var i := Find(value, from, query[0]);
      if i.None? then None
      else
        var rest := Greedy(value, query[1..], i.value + 1);
        if rest.None? then None else Some([i.value] + rest.value)
  }

  lemma {:induction false} GreedyEmbeds(value: Text, query: Text, from: nat)
    requires from <= |value|
    ensures var found := Greedy(value, query, from);
      found.Some? ==> Embeds(found.value, query, value) && forall k :: 0 <= k < |query| ==> from <= found.value[k]
    decreases |query|
  {
    if query != [] {
      var i := Find(value, from, query[0]);
      if i.Some? {
        GreedyEmbeds(value, query[1..], i.value + 1);
        var rest := Greedy(value, query[1..], i.value + 1);
        if rest.Some? {
          hide Greedy, Find;
          assert forall k :: 0 < k < |query| ==> query[k] == query[1..][k - 1] && ([i.value] + rest.value)[k] == rest.value[k - 1];
        }
      }
    }
  }

  /** Greedy finds an embedding if there is one, and no other lies further left anywhere. */
  lemma {:induction false} GreedyIsLeftmost(value: Text, query: Text, from: nat, positions: seq<nat>)
    requires from <= |value| && Embeds(positions, query, value) && forall k :: 0 <= k < |query| ==> from <= positions[k]
    ensures var found := Greedy(value, query, from);
      found.Some? && |found.value| == |query| && forall k :: 0 <= k < |query| ==> found.value[k] <= positions[k]
    decreases |query|
  {
    if query != [] {
      var i := Find(value, from, query[0]);
      assert value[positions[0]] == query[0];
      assert i.Some? && i.value <= positions[0];
      assert forall k :: 0 <= k < |query| - 1 ==> positions[0] < positions[1..][k];
      GreedyIsLeftmost(value, query[1..], i.value + 1, positions[1..]);
    }
  }

  lemma GreedyDecides(value: Text, query: Text)
    ensures Greedy(value, query, 0).Some? <==> Subsequence(query, value)
    ensures Greedy(value, query, 0).Some? ==> Embeds(Greedy(value, query, 0).value, query, value)
  {
    GreedyEmbeds(value, query, 0);
    forall positions | Embeds(positions, query, value) ensures Greedy(value, query, 0).Some? {
      GreedyIsLeftmost(value, query, 0, positions);
    }
  }

  // ------------------------------------------------------ the fuzzy score

  /** The run of adjacent positions at the end. */
  function LastRun(positions: seq<nat>): nat {
    if positions == [] then 0
    else
      var n := |positions| - 1;
      if n > 0 && positions[n] == positions[n - 1] + 1 then LastRun(positions[..n]) + 1 else 1
  }

  function BestRun(positions: seq<nat>): nat {
    if positions == [] then 0
    else
      var best := BestRun(positions[..|positions| - 1]);
      if LastRun(positions) > best then LastRun(positions) else best
  }

  /** Bytes skipped, plus where the last rune lies, less twice the longest run. */
  function ScoreOf(value: Text, query: Text, positions: seq<nat>): int
    requires |positions| == |query| && forall k :: 0 <= k < |query| ==> positions[k] < |value|
  {
    if query == [] then -1
    else
      var last := positions[|positions| - 1];
      ByteLength(value[..last + 1]) - ByteLength(query) + ByteLength(value[..last]) - 2 * BestRun(positions)
  }

  lemma ByteLengthOfNext(value: Text, i: nat)
    requires i < |value|
    ensures ByteLength(value[..i + 1]) == ByteLength(value[..i]) + RuneLength(value[i])
  {
    assert value[..i + 1][..i] == value[..i];
  }

  function Behind(done: seq<nat>, rest: Option<seq<nat>>): Option<seq<nat>> {
    if rest.None? then None else Some(done + rest.value)
  }

  /** One iteration of the loop consumes one rune of the query. */
  lemma GreedyStep(value: Text, query: Text, k: nat, from: nat, done: seq<nat>)
    requires k < |query| && from <= |value|
    ensures var found := Find(value, from, query[k]);
      Behind(done, Greedy(value, query[k..], from))
      == if found.None? then None else Behind(done + [found.value], Greedy(value, query[k + 1..], found.value + 1))
  {
    hide Find;
    assert query[k..][0] == query[k] && query[k..][1..] == query[k + 1..];
    var found := Find(value, from, query[k]);
    if found.Some? {
      var rest := Greedy(value, query[k + 1..], found.value + 1);
      if rest.Some? { assert done + ([found.value] + rest.value) == done + [found.value] + rest.value; }
    }
  }

  lemma StartOfLoop(value: Text, query: Text)
    ensures Greedy(value, query, 0) == Behind([], Greedy(value, query[0..], 0))
    ensures ByteLength(value[..0]) == ByteLength(query[..0]) == 0
  {
    assert query[0..] == query;
    var found := Greedy(value, query, 0);
    if found.Some? { assert [] + found.value == found.value; }
  }

  lemma RunsGrow(positions: seq<nat>, next: nat)
    ensures LastRun(positions + [next])
      == if positions != [] && next == positions[|positions| - 1] + 1 then LastRun(positions) + 1 else 1
    ensures BestRun(positions + [next])
      == if LastRun(positions + [next]) > BestRun(positions) then LastRun(positions + [next]) else BestRun(positions)
  {
    assert (positions + [next])[..|positions|] == positions;
  }

  /** These positions follow one another without a gap. */
  predicate Adjacent(positions: seq<nat>, from: nat, to: nat) {
    from <= to <= |positions| && forall k :: from <= k < to ==> positions[k] == positions[from] + (k - from)
  }

  lemma {:induction false} LastRunIsLongestAtEnd(positions: seq<nat>)
    ensures LastRun(positions) <= |positions| && Adjacent(positions, |positions| - LastRun(positions), |positions|)
    ensures forall from: nat :: Adjacent(positions, from, |positions|) ==> |positions| - from <= LastRun(positions)
  {
    if positions != [] {
      var m := |positions| - 1;
      var front := positions[..m];
      LastRunIsLongestAtEnd(front);
      var from := m - LastRun(front);
      if m > 0 && positions[m] == positions[m - 1] + 1 {
        assert Adjacent(front, m - 1, m);
        assert from < m && front[m - 1] == front[from] + (m - 1 - from);
      }
      forall at: nat | Adjacent(positions, at, |positions|) ensures |positions| - at <= LastRun(positions) {
        if at < m {
          assert positions[m - 1] == positions[at] + (m - 1 - at) && positions[m] == positions[at] + (m - at);
          assert Adjacent(front, at, m);
        }
      }
    }
  }

  /** The best run is the longest stretch of adjacent positions anywhere. */
  lemma {:induction false} BestRunIsLongest(positions: seq<nat>)
    ensures exists from: nat, to: nat :: Adjacent(positions, from, to) && to - from == BestRun(positions)
    ensures forall from: nat, to: nat :: Adjacent(positions, from, to) ==> to - from <= BestRun(positions)
  {
    if positions == [] {
      assert Adjacent(positions, 0, 0);
    } else {
      var m := |positions| - 1;
      var front := positions[..m];
      BestRunIsLongest(front);
      LastRunIsLongestAtEnd(positions);
      hide LastRun;
      var from: nat, to: nat :| Adjacent(front, from, to) && to - from == BestRun(front);
      assert Adjacent(positions, from, to);
      assert Adjacent(positions, |positions| - LastRun(positions), |positions|);
      forall from: nat, to: nat | Adjacent(positions, from, to) ensures to - from <= BestRun(positions) {
        if to <= m { assert Adjacent(front, from, to); }
      }
    }
  }

  lemma NoRuns()
    ensures LastRun([]) == 0 && BestRun([]) == 0
  {
  }

  method FuzzyMatch(value: Text, query: Text) returns (score: int, indices: seq<nat>, ok: bool)
    ensures ok <==> Subsequence(query, value)
    ensures ok ==> Greedy(value, query, 0) == Some(indices) && Embeds(indices, query, value)
    ensures ok ==> score == ScoreOf(value, query, indices)
  {
    hide Embeds, Subsequence, Find, RuneLength, Greedy, ByteLength, LastRun, BestRun, Behind;
    NoRuns();
    GreedyDecides(value, query);
    StartOfLoop(value, query);
    var position: int, nextStart, gap, run, bestRun := -1, 0, 0, 0, 0;
    indices := [];
    for k := 0 to |query|
      invariant nextStart <= |value| && |indices| == k && forall j :: 0 <= j < k ==> indices[j] < nextStart
      invariant nextStart == if k == 0 then 0 else indices[k - 1] + 1
      invariant Greedy(value, query, 0) == Behind(indices, Greedy(value, query[k..], nextStart))
      invariant gap == ByteLength(value[..nextStart]) - ByteLength(query[..k])
      invariant position == if k == 0 then -1 else ByteLength(value[..indices[k - 1]])
      invariant run == LastRun(indices) && bestRun == BestRun(indices)
    {
      var found := Find(value, nextStart, query[k]);
      GreedyStep(value, query, k, nextStart, indices);
      if found.None? { return 0, [], false; }
      var next := found.value;
      if next == nextStart {
        run := run + 1;
      } else {
        gap := gap + ByteLength(value[..next]) - ByteLength(value[..nextStart]);
        run := 1;
      }
      if run > bestRun { bestRun := run; }
      position := ByteLength(value[..next]);
      ByteLengthOfNext(value, next);
      ByteLengthOfNext(query, k);
      RunsGrow(indices, next);
      nextStart := next + 1;
      indices := indices + [next];
    }
    assert query[..|query|] == query;
    EndOfLoop(value, query, nextStart, indices);
    score := gap + position - bestRun * 2;
    ok := true;
  }

  lemma EndOfLoop(value: Text, query: Text, from: nat, done: seq<nat>)
    requires from <= |value|
    ensures Behind(done, Greedy(value, query[|query|..], from)) == Some(done)
  {
    assert done + [] == done;
  }

  // ------------------------------------------------------ one term

  /** The first occurrence of `part` as a substring: strings.Index. */
  function Index(value: Text, part: Text, from: nat): (i: Option<nat>)
    requires from <= |value|
    ensures i.Some? ==> from <= i.value && i.value + |part| <= |value| && value[i.value..i.value + |part|] == part
    ensures forall j :: from <= j < (if i.Some? then i.value else |value|) ==> !(part <= value[j..])
    decreases |value| - from
  {
    if part <= value[from..] then Some(from) else if from == |value| then None else Index(value, part, from + 1)
  }

  function FuzzyScore(value: Text, query: Text): Option<int> {
    var found := Greedy(value, query, 0);
    if found.None? then None
    else
      GreedyEmbeds(value, query, 0);
      Some(ScoreOf(value, query, found.value))
  }

  function SingleTermQuality(path: Text, name: Text, query: Text): Option<int> {
    if query <= name then Some(20 + ByteLength(name) - ByteLength(query))
    else if query <= path then Some(40 + ByteLength(path) - ByteLength(query))
    else if Index(name, query, 0).Some? then Some(60 + ByteLength(name[..Index(name, query, 0).value]))
    else if Index(path, query, 0).Some? then Some(80 + ByteLength(path[..Index(path, query, 0).value]))
    else if ByteLength(query) < ByteLength(name) && FuzzyScore(name, query).Some? then Some(100 + FuzzyScore(name, query).value)
    else match FuzzyScore(path, query)
      case None => None
      case Some(score) => Some(120 + score)
  }

  predicate IsSuffix(name: Text, path: Text) {
    |name| <= |path| && path[|path| - |name|..] == name
  }

  /** The positions `start`, `start + 1`, ... */
  function Range(start: nat, length: nat): (r: seq<nat>)
    ensures |r| == length && forall k :: 0 <= k < length ==> r[k] == start + k
  {
    seq(length, k requires 0 <= k < length => start + k)
  }

  lemma SubstringEmbeds(value: Text, part: Text, at: nat)
    requires at + |part| <= |value| && value[at..at + |part|] == part
    ensures Embeds(Range(at, |part|), part, value) && Subsequence(part, value)
  {
    forall k | 0 <= k < |part| ensures value[at + k] == part[k] { assert value[at..at + |part|][k] == part[k]; }
    assert Embeds(Range(at, |part|), part, value);
  }

  function Shift(positions: seq<nat>, distance: nat): (r: seq<nat>)
    ensures |r| == |positions| && forall k :: 0 <= k < |r| ==> r[k] == positions[k] + distance
  {
    seq(|positions|, k requires 0 <= k < |positions| => positions[k] + distance)
  }

  lemma SuffixEmbeds(path: Text, name: Text, query: Text, positions: seq<nat>)
    requires IsSuffix(name, path) && Embeds(positions, query, name)
    ensures Embeds(Shift(positions, |path| - |name|), query, path)
  {
    var start := |path| - |name|;
    forall k | 0 <= k < |query| ensures path[positions[k] + start] == query[k] {
      assert path[start..][positions[k]] == name[positions[k]];
    }
  }

  lemma FuzzyScoreDecides(value: Text, query: Text)
    ensures FuzzyScore(value, query).Some? <==> Subsequence(query, value)
  {
    GreedyDecides(value, query);
  }

  lemma SubsequenceOfSuffix(path: Text, name: Text, query: Text)
    requires IsSuffix(name, path) && Subsequence(query, name)
    ensures Subsequence(query, path)
  {
    var positions :| Embeds(positions, query, name);
    SuffixEmbeds(path, name, query, positions);
  }

  /** A term is accepted exactly when it is a subsequence of the path. */
  lemma TermAccepted(path: Text, name: Text, query: Text)
    requires IsSuffix(name, path)
    ensures SingleTermQuality(path, name, query).Some? <==> Subsequence(query, path)
  {
    hide Subsequence, FuzzyScore, ByteLength, Index;
    FuzzyScoreDecides(path, query);
    FuzzyScoreDecides(name, query);
    if query <= name {
      SubstringEmbeds(name, query, 0);
    } else if query <= path {
      SubstringEmbeds(path, query, 0);
    } else if Index(name, query, 0).Some? {
      SubstringEmbeds(name, query, Index(name, query, 0).value);
    } else if Index(path, query, 0).Some? {
      SubstringEmbeds(path, query, Index(path, query, 0).value);
    }
    if Subsequence(query, name) { SubsequenceOfSuffix(path, name, query); }
  }

  lemma EmbeddedIsSubsequence(path: Text, query: Text)
    ensures forall positions :: Embeds(positions, query, path) ==> Subsequence(query, path)
  {
  }

  /** The runes of the path to highlight for a term; None where the source has no indices. */
  method SingleTermMatchRuneIndices(path: Text, name: Text, query: Text) returns (indices: Option<seq<nat>>)
    requires IsSuffix(name, path)
    ensures indices.Some? <==> Subsequence(query, path)
    ensures indices.Some? ==> Embeds(indices.value, query, path)
  {
    hide Embeds, Greedy, Subsequence, ByteLength, ScoreOf, Index, Find;
    var nameStart := |path| - |name|;
    EmbeddedIsSubsequence(path, query);
    if query <= name {
      assert path[nameStart..nameStart + |query|] == query;
      SubstringEmbeds(path, query, nameStart);
      return Some(Range(nameStart, |query|));
    }
    if query <= path {
      SubstringEmbeds(path, query, 0);
      return Some(Range(0, |query|));
    }
    var inName := Index(name, query, 0);
    if inName.Some? {
      SubstringEmbeds(name, query, inName.value);
      SuffixEmbeds(path, name, query, Range(inName.value, |query|));
      var shifted := Range(nameStart + inName.value, |query|);
      assert shifted == Shift(Range(inName.value, |query|), nameStart);
      return Some(shifted);
    }
    var inPath := Index(path, query, 0);
    if inPath.Some? {
      SubstringEmbeds(path, query, inPath.value);
      return Some(Range(inPath.value, |query|));
    }
    if ByteLength(query) < ByteLength(name) {
      var _, found, ok := FuzzyMatch(name, query);
      if ok {
        SuffixEmbeds(path, name, query, found);
        return Some(Shift(found, nameStart));
      }
    }
    var _, found, ok := FuzzyMatch(path, query);
    indices := if ok then Some(found) else None;
  }

  // ------------------------------------------------------ the whole query

  function TotalQuality(path: Text, name: Text, terms: seq<Text>): Option<int> {
    if terms == [] then Some(0)
    else
      var front := TotalQuality(path, name, terms[..|terms| - 1]);
      var last := SingleTermQuality(path, name, terms[|terms| - 1]);
      if front.None? || last.None? then None else Some(front.value + last.value)
  }

  function FuzzyQuality(path: Text, name: Text, plan: QueryPlan): Option<int> {
    if |plan.terms| > 1 then TotalQuality(path, name, plan.terms) else SingleTermQuality(path, name, plan.value)
  }

  /** Tier and quality; smaller is better. */
  function ScorePath(path: Text, name: Text, depth: nat, dependency: bool, plan: QueryPlan): Option<(nat, int)> {
    if plan.value == [] then Some((if dependency then 5 else 3, depth))
    else if path == plan.value then Some((0, depth))
    else
      var penalty := dependency && !plan.pathIntent;
      if name == plan.value then Some(if penalty then (4, depth) else if depth == 0 then (1, 0) else (2, depth))
      else match FuzzyQuality(path, name, plan)
        case None => None
        case Some(quality) => Some((if penalty then 5 else 3, quality + depth))
  }

  /** What a path must contain: every term, or the query itself when there is but one. */
  function Wanted(plan: QueryPlan): seq<Text> {
    if |plan.terms| > 1 then plan.terms else [plan.value]
  }

  lemma {:induction false} AllTermsAccepted(path: Text, name: Text, terms: seq<Text>)
    requires IsSuffix(name, path)
    ensures TotalQuality(path, name, terms).Some? <==> forall t :: t in terms ==> Subsequence(t, path)
  {
    hide Subsequence, SingleTermQuality;
    if terms != [] {
      var n := |terms| - 1;
      AllTermsAccepted(path, name, terms[..n]);
      TermAccepted(path, name, terms[n]);
      assert terms == terms[..n] + [terms[n]];
    }
  }

  /** Each term is a stretch of the query, as strings.Fields gives them. */
  ghost predicate TermsAreParts(plan: QueryPlan) {
    forall t :: t in plan.terms ==> exists at: nat :: PartAt(plan.value, t, at)
  }

  predicate PartAt(value: Text, part: Text, at: nat) {
    at + |part| <= |value| && value[at..at + |part|] == part
  }

  lemma PartOfSuffix(path: Text, value: Text, part: Text, at: nat)
    requires IsSuffix(value, path) && PartAt(value, part, at)
    ensures Subsequence(part, path)
  {
    var start := |path| - |value|;
    assert path[start + at..start + at + |part|] == path[start..][at..at + |part|];
    SubstringEmbeds(path, part, start + at);
  }

  /** A path is a result exactly when each term is a subsequence of it. */
  lemma PathAccepted(path: Text, name: Text, depth: nat, dependency: bool, plan: QueryPlan)
    requires IsSuffix(name, path) && plan.value != [] && TermsAreParts(plan)
    ensures ScorePath(path, name, depth, dependency, plan).Some? <==> forall t :: t in Wanted(plan) ==> Subsequence(t, path)
  {
    hide Subsequence, SingleTermQuality, TotalQuality;
    if path == plan.value || name == plan.value {
      forall t | t in Wanted(plan) ensures Subsequence(t, path) {
        if t in plan.terms {
          var at: nat :| PartAt(plan.value, t, at);
          PartOfSuffix(path, plan.value, t, at);
        } else {
          PartOfSuffix(path, plan.value, plan.value, 0);
        }
      }
    } else if |plan.terms| > 1 {
      AllTermsAccepted(path, name, plan.terms);
    } else {
      TermAccepted(path, name, plan.value);
    }
  }
}
