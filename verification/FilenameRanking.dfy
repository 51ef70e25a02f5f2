/** What the scores of the filename search are worth, and what that makes of its answers:
    `internal/filesearch/catalog.go`. A smaller score ranks first. */
module FilenameRanking {
  import opened ByteStrings
  import opened CandidateHeap
  import opened FileSearch
  import opened FilenameScore
  import opened Ordering
  import opened Utf8
  import opened Wrappers

  // ------------------------------------------------------ one term

  /** How a path contains a term, best first. */
  datatype Kind = NamePrefix | PathPrefix | InName | InPath | ScatteredInName | ScatteredInPath

  ghost predicate Occurs(part: Text, value: Text) {
    exists at: nat :: PartAt(value, part, at)
  }

  /** The first of the kinds that applies. */
  ghost predicate IsKind(path: Text, name: Text, term: Text, kind: Kind) {
    match kind
    case NamePrefix => term <= name
    case PathPrefix => !(term <= name) && term <= path
    case InName => !(term <= name) && !(term <= path) && Occurs(term, name)
    case InPath => !(term <= name) && !(term <= path) && !Occurs(term, name) && Occurs(term, path)
    case ScatteredInName => !Occurs(term, path) && ByteLength(term) < ByteLength(name) && Subsequence(term, name)
    case ScatteredInPath =>
      !Occurs(term, path) && Subsequence(term, path) && !(ByteLength(term) < ByteLength(name) && Subsequence(term, name))
  }

  function Rank(kind: Kind): nat {
    match kind
    case NamePrefix => 1
    case PathPrefix => 2
    case InName => 3
    case InPath => 4
    case ScatteredInName => 5
    case ScatteredInPath => 6
  }

  ghost predicate FirstAt(value: Text, part: Text, at: nat) {
    PartAt(value, part, at) && forall other: nat :: PartAt(value, part, other) ==> at <= other
  }

  /** The bytes a term leaves over: those behind a prefix, those before its first occurrence, or the fuzzy score. */
  ghost predicate Leaves(path: Text, name: Text, term: Text, kind: Kind, rest: int) {
    match kind
    case NamePrefix => rest == ByteLength(name) - ByteLength(term)
    case PathPrefix => rest == ByteLength(path) - ByteLength(term)
    case InName => exists at: nat :: FirstAt(name, term, at) && rest == ByteLength(name[..at])
    case InPath => exists at: nat :: FirstAt(path, term, at) && rest == ByteLength(path[..at])
    case ScatteredInName => FuzzyScore(name, term) == Some(rest)
    case ScatteredInPath => FuzzyScore(path, term) == Some(rest)
  }

  lemma IndexDecides(value: Text, part: Text)
    ensures Index(value, part, 0).Some? <==> Occurs(part, value)
    ensures Index(value, part, 0).Some? ==> FirstAt(value, part, Index(value, part, 0).value)
  {
    var found := Index(value, part, 0);
    if found.Some? { assert PartAt(value, part, found.value); }
    forall at: nat | PartAt(value, part, at) ensures found.Some? && found.value <= at {
      assert part <= value[at..] by { assert value[at..][..|part|] == value[at..at + |part|]; }
    }
  }

  lemma StretchOfTail(value: Text, start: nat, at: nat, n: nat)
    requires start + at + n <= |value|
    ensures value[start..][at..at + n] == value[start + at..start + at + n]
  {
  }

  lemma PrefixOccurs(path: Text, name: Text, term: Text)
    requires IsSuffix(name, path)
    ensures term <= name || term <= path || Occurs(term, name) ==> Occurs(term, path)
  {
    if term <= name { assert PartAt(name, term, 0); }
    if term <= path { assert PartAt(path, term, 0); }
    if at: nat :| PartAt(name, term, at) {
      var start := |path| - |name|;
      StretchOfTail(path, start, at, |term|);
      assert PartAt(path, term, start + at);
    }
  }

  /** The quality of a term: twenty for each kind passed over, and what the term leaves over. */
  lemma TermQuality(path: Text, name: Text, term: Text, kind: Kind, rest: int)
    requires IsSuffix(name, path) && IsKind(path, name, term, kind) && Leaves(path, name, term, kind, rest)
    ensures SingleTermQuality(path, name, term) == Some(20 * Rank(kind) + rest)
  {
    hide Index, FuzzyScore, ByteLength, Subsequence, FirstAt;
    IndexDecides(name, term);
    IndexDecides(path, term);
    PrefixOccurs(path, name, term);
    FuzzyScoreDecides(name, term);
    FirstIsOne(name, term);
    FirstIsOne(path, term);
    hide Occurs;
  }

  lemma FirstIsOne(value: Text, part: Text)
    ensures forall i: nat, j: nat :: FirstAt(value, part, i) && FirstAt(value, part, j) ==> i == j
  {
  }

  /** An earlier kind wins unless it leaves twenty bytes more over for each kind it is ahead. */
  lemma EarlierKindWins(path: Text, name: Text, kind: Kind, rest: int,
      path': Text, name': Text, kind': Kind, rest': int, term: Text)
    requires IsSuffix(name, path) && IsKind(path, name, term, kind) && Leaves(path, name, term, kind, rest)
    requires IsSuffix(name', path') && IsKind(path', name', term, kind') && Leaves(path', name', term, kind', rest')
    ensures var (q, q') := (SingleTermQuality(path, name, term), SingleTermQuality(path', name', term));
      q.Some? && q'.Some? && (q.value < q'.value <==> rest < rest' + 20 * (Rank(kind') - Rank(kind)))
  {
    TermQuality(path, name, term, kind, rest);
    TermQuality(path', name', term, kind', rest');
    hide SingleTermQuality, IsKind, Leaves;
  }

  lemma {:induction false} LongerIsLonger(value: Text, n: nat)
    requires n <= |value|
    ensures ByteLength(value[..n]) <= ByteLength(value)
    decreases |value|
  {
    if n == |value| {
      assert value[..n] == value;
    } else {
      assert value[..|value| - 1][..n] == value[..n];
      LongerIsLonger(value[..|value| - 1], n);
    }
  }

  lemma {:induction false} LengthOfConcat(a: Text, b: Text)
    ensures ByteLength(a + b) == ByteLength(a) + ByteLength(b)
    decreases |b|
  {
    if b == [] {
      assert a + b == a;
    } else {
      assert (a + b)[..|a + b| - 1] == a + b[..|b| - 1];
      LengthOfConcat(a, b[..|b| - 1]);
    }
  }

  /** Among paths of one length a prefix of the name beats a prefix of the path. */
  lemma NamePrefixBeatsPathPrefix(path: Text, name: Text, path': Text, name': Text, term: Text)
    requires IsSuffix(name, path) && IsSuffix(name', path') && ByteLength(path) == ByteLength(path')
    requires IsKind(path, name, term, NamePrefix) && IsKind(path', name', term, PathPrefix)
    ensures var (q, q') := (SingleTermQuality(path, name, term), SingleTermQuality(path', name', term));
      q.Some? && q'.Some? && q.value < q'.value
  {
    var start := |path| - |name|;
    assert path == path[..start] + name;
    LengthOfConcat(path[..start], name);
    EarlierKindWins(path, name, NamePrefix, ByteLength(name) - ByteLength(term),
      path', name', PathPrefix, ByteLength(path') - ByteLength(term), term);
  }

  /** A prefix of the path does not always beat a later occurrence in a name of the same length, as it counts all
      that follows: 26 bytes with a prefix of one score worse than 26 bytes with the term one byte into the name. */
  lemma PathPrefixMayLose() returns (path: Text, name: Text, path': Text, name': Text, term: Text)
    ensures IsSuffix(name, path) && IsSuffix(name', path') && ByteLength(path) == ByteLength(path') == 26
    ensures IsKind(path, name, term, PathPrefix) && IsKind(path', name', term, InName)
    ensures SingleTermQuality(path, name, term) == Some(65) && SingleTermQuality(path', name', term) == Some(61)
  {
    term := [97];
    name := Wide();
    path := [97, 47] + name;
    name' := [98] + [97] + Narrow();
    path' := [99, 47] + name';
    OneByte(97);
    LengthOfConcat([97], [47]);
    LengthOfConcat([97, 47], name);
    OneByte(47);
    OneByte(98);
    OneByte(99);
    LengthOfConcat([98], [97]);
    LengthOfConcat([98] + [97], Narrow());
    LengthOfConcat([99], [47]);
    LengthOfConcat([99, 47], name');
    assert path[2..] == name && path'[2..] == name';
    assert [97] + [47] == [97, 47] && [99] + [47] == [99, 47];
    TermQuality(path, name, term, PathPrefix, 25);
    assert name'[..1] == [98] && PartAt(name', term, 1);
    assert !PartAt(name', term, 0) by { assert name'[0..1] == [98]; }
    assert FirstAt(name', term, 1);
    TermQuality(path', name', term, InName, 1);
  }

  lemma OneByte(r: Rune)
    requires r < 0x80
    ensures ByteLength([r]) == 1
  {
    assert [r][..0] == [];
  }

  const SMILE: Rune := 0x1F600

  /** Six runes of four bytes each. */
  function Wide(): (t: Text)
    ensures ByteLength(t) == 24 && |t| == 6 && t[0] == SMILE
  {
    LengthOfSmiles(6);
    seq(6, i => SMILE)
  }

  /** Twenty-two bytes. */
  function Narrow(): (t: Text)
    ensures ByteLength(t) == 22
  {
    LengthOfSmiles(5);
    OneByte(98);
    LengthOfConcat([98], [98]);
    LengthOfConcat(seq(5, i => SMILE), [98] + [98]);
    seq(5, i => SMILE) + ([98] + [98])
  }

  lemma {:induction false} LengthOfSmiles(n: nat)
    ensures ByteLength(seq(n, i => SMILE)) == 4 * n
  {
    var all: Text := seq(n, i => SMILE);
    if n > 0 {
      assert all[..n - 1] == seq(n - 1, i => SMILE);
      LengthOfSmiles(n - 1);
    }
  }

  // ------------------------------------------------------ several terms

  /** A path that contains no term worse than another path, and one better, has the better sum. */
  lemma {:induction false} TermsAddUp(path: Text, name: Text, path': Text, name': Text, terms: seq<Text>)
    requires TotalQuality(path, name, terms).Some? && TotalQuality(path', name', terms).Some?
    requires forall t :: t in terms && SingleTermQuality(path, name, t).Some? && SingleTermQuality(path', name', t).Some? ==>
      SingleTermQuality(path, name, t).value <= SingleTermQuality(path', name', t).value
    ensures TotalQuality(path, name, terms).value <= TotalQuality(path', name', terms).value
    ensures (exists t :: t in terms && SingleTermQuality(path, name, t) != SingleTermQuality(path', name', t)) ==>
      TotalQuality(path, name, terms).value < TotalQuality(path', name', terms).value
  {
    hide SingleTermQuality;
    if terms != [] {
      var n := |terms| - 1;
      assert terms == terms[..n] + [terms[n]];
      TermsAddUp(path, name, path', name', terms[..n]);
    }
  }

  // ------------------------------------------------------ the whole query

  /** A dependency counts as such unless the query names a path. */
  predicate Penalized(dependency: bool, plan: QueryPlan) {
    dependency && !plan.pathIntent
  }

  /** A path as the scorer sees it. */
  datatype Scorable = Scorable(path: Text, name: Text, depth: nat, dependency: bool)

  function Score(x: Scorable, plan: QueryPlan): Option<(nat, int)> {
    ScorePath(x.path, x.name, x.depth, x.dependency, plan)
  }

  predicate LowerTier(x: Scorable, y: Scorable, plan: QueryPlan) {
    Score(x, plan).Some? && Score(y, plan).Some? && Score(x, plan).value.0 < Score(y, plan).value.0
  }

  /** Neither the path nor its name is what was asked for. */
  predicate Inexact(x: Scorable, plan: QueryPlan) {
    x.path != plan.value && x.name != plan.value
  }

  /** What was asked for comes before everything else that is accepted. */
  lemma ExactPathIsFirst(x: Scorable, y: Scorable, plan: QueryPlan)
    requires plan.value != [] && x.path == plan.value && y.path != plan.value && Score(y, plan).Some?
    ensures LowerTier(x, y, plan)
  {
    hide FuzzyQuality;
  }

  /** Then come the files of that name, before every inexact match that is not better placed as a project file. */
  lemma ExactNameIsNext(x: Scorable, y: Scorable, plan: QueryPlan)
    requires plan.value != [] && x.name == plan.value && Inexact(y, plan) && Score(y, plan).Some?
    requires Penalized(x.dependency, plan) ==> Penalized(y.dependency, plan)
    ensures LowerTier(x, y, plan)
  {
    hide FuzzyQuality;
  }

  /** Of these the one at the root comes first. */
  lemma RootComesFirst(x: Scorable, y: Scorable, plan: QueryPlan)
    requires plan.value != [] && x.name == y.name == plan.value && y.path != plan.value
    requires !Penalized(x.dependency, plan) && x.depth == 0 && (y.depth > 0 || Penalized(y.dependency, plan))
    ensures LowerTier(x, y, plan)
  {
  }

  /** A dependency that was not asked for by its path comes after every project file that is accepted. */
  lemma DependenciesComeLast(x: Scorable, y: Scorable, plan: QueryPlan)
    requires plan.value != [] && !Penalized(x.dependency, plan) && Penalized(y.dependency, plan) && y.path != plan.value
    requires Score(x, plan).Some? && Score(y, plan).Some?
    ensures LowerTier(x, y, plan)
  {
    hide FuzzyQuality;
  }

  /** A query with a slash makes no difference between dependencies and other files. */
  lemma PathIntentLiftsDependencies(x: Scorable, plan: QueryPlan)
    requires plan.value != [] && plan.pathIntent
    ensures Score(x.(dependency := true), plan) == Score(x.(dependency := false), plan)
  {
    hide FuzzyQuality;
  }

  /** Among inexact matches of one standing the quality and the depth decide together. */
  lemma InexactByQualityAndDepth(x: Scorable, y: Scorable, plan: QueryPlan)
    requires plan.value != [] && Inexact(x, plan) && Inexact(y, plan)
    requires Penalized(x.dependency, plan) == Penalized(y.dependency, plan)
    requires Score(x, plan).Some? && Score(y, plan).Some?
    ensures var (p, q) := (FuzzyQuality(x.path, x.name, plan), FuzzyQuality(y.path, y.name, plan));
      && p.Some? && q.Some? && Score(x, plan).value.0 == Score(y, plan).value.0
      && (Score(x, plan).value.1 < Score(y, plan).value.1 <==> p.value + x.depth < q.value + y.depth)
  {
    hide FuzzyQuality;
  }

  /** Among files of the name that was asked for the shallower comes first. */
  lemma ExactNamesByDepth(x: Scorable, y: Scorable, plan: QueryPlan)
    requires plan.value != [] && x.name == y.name == plan.value && x.path != plan.value && y.path != plan.value
    requires Penalized(x.dependency, plan) == Penalized(y.dependency, plan) && x.depth < y.depth
    ensures var (s, t) := (Score(x, plan), Score(y, plan));
      s.Some? && t.Some? && (s.value.0 < t.value.0 || (s.value.0 == t.value.0 && s.value.1 < t.value.1))
  {
  }
}
