/** Every interleaving of page requests, builds, invalidation and eviction over the cache of
    directory-index files: no file goes while it is read, and none is left behind. */
module DirectoryIndexFiles {
  import opened Wrappers
  import opened DirectoryIndexCache

  datatype Request = Waiting(i: nat) | Reading(i: nat) | Done
  datatype State = State(cache: Cache, requests: seq<Request>)

  /** `gone` are the keys the eviction at the end of a locked section drops. */
  datatype Step =
    | Arrive(key: string) | GiveUp(r: nat) | Enter(r: nat) | Leave(r: nat, gone: set<string>)
    | EndBuild(i: nat, ok: bool) | Publish(i: nat, gone: set<string>) | Discard(i: nat) | Invalidate

  const INITIAL := State(Cache(map[], 0, 0, [], {}), [])

  ghost predicate Next(s: State, step: Step, s': State)
    requires InRange(s.cache)
  {
    var c := s.cache;
    match step
    case Arrive(key) =>
      var (c', i) := Looked(c, key);
      s' == State(c', s.requests + [Waiting(i)])
    case GiveUp(r) => r < |s.requests| && s.requests[r].Waiting? && s' == State(c, s.requests[r := Done])
    case Enter(r) =>
      && r < |s.requests| && s.requests[r].Waiting? && s.requests[r].i < |c.table| && c.table[s.requests[r].i].ready
      && var (c', outcome) := Entered(c, s.requests[r].i);
         s' == State(c', s.requests[r := if outcome == Admitted then Reading(s.requests[r].i) else Done])
    case Leave(r, gone) =>
      && r < |s.requests| && s.requests[r].Reading?
      && s.requests[r].i < |c.table| && c.table[s.requests[r].i].readers > 0
      && InRange(Left(c, s.requests[r].i)) && Evicts(Left(c, s.requests[r].i), None, gone, s'.cache)
      && s'.requests == s.requests[r := Done]
    case EndBuild(i, ok) =>
      && i < |c.table| && c.table[i].build.Building?
      && s' == State(BuildEnded(c, i, ok), s.requests)
    case Publish(i, gone) =>
      && i < |c.table| && c.table[i].build.Built? && InRange(Published(c, i).0)
      && (if Published(c, i).1 then s'.cache == Published(c, i).0 else Evicts(Published(c, i).0, Some(i), gone, s'.cache))
      && s'.requests == s.requests
    case Discard(i) =>
      && i < |c.table| && c.table[i].build.Stale?
      && s' == State(Discarded(c, i), s.requests)
    case Invalidate => s' == State(Invalidated(c), s.requests)
  }

  // ------------------------------------------------------ the invariant

  function CountReading(requests: seq<Request>, i: nat): nat {
    if requests == [] then 0
    else CountReading(requests[..|requests| - 1], i) + (if requests[|requests| - 1] == Reading(i) then 1 else 0)
  }

  /** An entry counts as many readers as requests read it. */
  ghost predicate Counted(requests: seq<Request>, table: seq<CachedIndex>) {
    && (forall i :: 0 <= i < |table| ==> table[i].readers == CountReading(requests, i))
    && (forall i :: i >= |table| ==> CountReading(requests, i) == 0)
  }

  ghost predicate Inv(s: State) {
    && CacheOk(s.cache) && Counted(s.requests, s.cache.table)
    && (forall r :: 0 <= r < |s.requests| && !s.requests[r].Done? ==> s.requests[r].i < |s.cache.table|)
  }

  lemma {:induction false} CountAfter(requests: seq<Request>, r: nat, x: Request, i: nat)
    requires r < |requests|
    ensures CountReading(requests[r := x], i) + (if requests[r] == Reading(i) then 1 else 0)
         == CountReading(requests, i) + (if x == Reading(i) then 1 else 0)
  {
    var n := |requests| - 1;
    if r < n {
      assert requests[r := x][..n] == requests[..n][r := x];
      CountAfter(requests[..n], r, x, i);
    } else {
      assert requests[r := x][..n] == requests[..n];
    }
  }

  lemma CountMore(requests: seq<Request>, x: Request, i: nat)
    ensures CountReading(requests + [x], i) == CountReading(requests, i) + (if x == Reading(i) then 1 else 0)
  {
    assert (requests + [x])[..|requests|] == requests;
  }

  // ------------------------------------------------------ every step keeps it

  lemma CountsKept(s: State, s': State)
    requires Inv(s) && CacheOk(s'.cache) && s'.requests == s.requests
    requires |s'.cache.table| == |s.cache.table|
    requires forall i :: 0 <= i < |s.cache.table| ==> s'.cache.table[i].readers == s.cache.table[i].readers
    ensures Inv(s')
  {
    hide CacheOk, CountReading;
  }

  lemma RequestMoves(s: State, r: nat, x: Request, s': State)
    requires Inv(s) && CacheOk(s'.cache) && r < |s.requests| && s'.requests == s.requests[r := x]
    requires |s'.cache.table| == |s.cache.table| && (!x.Done? ==> x.i < |s.cache.table|)
    requires forall i :: 0 <= i < |s.cache.table| ==>
      s'.cache.table[i].readers + (if s.requests[r] == Reading(i) then 1 else 0)
      == s.cache.table[i].readers + (if x == Reading(i) then 1 else 0)
    ensures Inv(s')
  {
    hide CacheOk;
    forall i: nat ensures CountReading(s'.requests, i) + (if s.requests[r] == Reading(i) then 1 else 0)
      == CountReading(s.requests, i) + (if x == Reading(i) then 1 else 0)
    {
      CountAfter(s.requests, r, x, i);
    }
  }

  lemma RequestArrives(s: State, x: Request, s': State)
    requires Inv(s) && CacheOk(s'.cache) && s'.requests == s.requests + [x] && x.Waiting?
    requires |s'.cache.table| >= |s.cache.table| && x.i < |s'.cache.table|
    requires forall i :: 0 <= i < |s.cache.table| ==> s'.cache.table[i].readers == s.cache.table[i].readers
    requires forall i :: |s.cache.table| <= i < |s'.cache.table| ==> s'.cache.table[i].readers == 0
    ensures Inv(s')
  {
    ArrivalCounted(s.requests, x, s.cache.table, s'.cache.table);
    hide CacheOk, Counted;
  }

  lemma ArrivalCounted(requests: seq<Request>, x: Request, table: seq<CachedIndex>, table': seq<CachedIndex>)
    requires Counted(requests, table) && x.Waiting? && |table'| >= |table|
    requires forall i :: 0 <= i < |table| ==> table'[i].readers == table[i].readers
    requires forall i :: |table| <= i < |table'| ==> table'[i].readers == 0
    ensures Counted(requests + [x], table')
  {
    forall i: nat ensures CountReading(requests + [x], i) == CountReading(requests, i) { CountMore(requests, x, i); }
  }

  lemma EnterStepKeeps(s: State, r: nat, s': State)
    requires Inv(s) && Next(s, Enter(r), s')
    ensures Inv(s')
  {
    EnterKeeps(s.cache, s.requests[r].i);
    hide CacheOk, CountReading;
    RequestMoves(s, r, s'.requests[r], s');
  }

  lemma LeaveStepKeeps(s: State, r: nat, gone: set<string>, s': State)
    requires Inv(s) && Next(s, Leave(r, gone), s')
    ensures Inv(s')
  {
    LeaveKeeps(s.cache, s.requests[r].i);
    EvictKeeps(Left(s.cache, s.requests[r].i), None, gone, s'.cache);
    hide CacheOk, CountReading, Evicts;
    RequestMoves(s, r, Done, s');
  }

  lemma PublishStepKeeps(s: State, i: nat, gone: set<string>, s': State)
    requires Inv(s) && Next(s, Publish(i, gone), s')
    ensures Inv(s')
  {
    BuildKeeps(s.cache, i, false);
    hide CacheOk, CountReading, Evicts;
    if !Published(s.cache, i).1 { EvictKeeps(Published(s.cache, i).0, Some(i), gone, s'.cache); }
    CountsKept(s, s');
  }

  lemma BuilderStepKeeps(s: State, step: Step, s': State)
    requires Inv(s) && Next(s, step, s') && (step.EndBuild? || step.Discard?)
    ensures Inv(s')
  {
    BuildKeeps(s.cache, step.i, step.EndBuild? && step.ok);
    hide CacheOk, CountReading;
    CountsKept(s, s');
  }

  lemma InvalidateStepKeeps(s: State, s': State)
    requires Inv(s) && Next(s, Invalidate, s')
    ensures Inv(s')
  {
    InvalidateKeeps(s.cache);
    hide CacheOk, CountReading;
    CountsKept(s, s');
  }

  lemma RequestStepKeeps(s: State, step: Step, s': State)
    requires Inv(s) && Next(s, step, s') && (step.Arrive? || step.GiveUp?)
    ensures Inv(s')
  {
    if step.Arrive? {
      LookKeeps(s.cache, step.key);
      var arrived := Looked(s.cache, step.key);
      hide CacheOk, CountReading, Looked;
      RequestArrives(s, Waiting(arrived.1), s');
    } else {
      RequestMoves(s, step.r, Done, s');
    }
  }

  lemma StepKeepsInv(s: State, step: Step, s': State)
    requires InRange(s.cache) && Inv(s) && Next(s, step, s')
    ensures Inv(s')
  {
    hide Inv, Next;
    match step {
      case Arrive(_) => RequestStepKeeps(s, step, s');
      case GiveUp(_) => RequestStepKeeps(s, step, s');
      case Enter(r) => EnterStepKeeps(s, r, s');
      case Leave(r, gone) => LeaveStepKeeps(s, r, gone, s');
      case EndBuild(_, _) => BuilderStepKeeps(s, step, s');
      case Publish(i, gone) => PublishStepKeeps(s, i, gone, s');
      case Discard(_) => BuilderStepKeeps(s, step, s');
      case Invalidate => InvalidateStepKeeps(s, s');
    }
  }

  /** A run: states and the steps between them. */
  ghost predicate Run(states: seq<State>, steps: seq<Step>) {
    && |states| == |steps| + 1 && states[0] == INITIAL
    && forall n :: 0 <= n < |steps| ==> InRange(states[n].cache) && Next(states[n], steps[n], states[n + 1])
  }

  lemma InitialInv()
    ensures Inv(INITIAL)
  {
  }

  lemma {:induction false} EveryRunKeepsInv(states: seq<State>, steps: seq<Step>)
    requires Run(states, steps)
    ensures forall n :: 0 <= n < |states| ==> Inv(states[n])
  {
    hide Inv, Next, InRange;
    var m := |steps|;
    if m == 0 {
      InitialInv();
    } else {
      EveryRunKeepsInv(states[..m], steps[..m - 1]);
      assert Inv(states[..m][m - 1]);
      StepKeepsInv(states[m - 1], steps[m - 1], states[m]);
    }
  }

  // ------------------------------------------------------ what it means

  lemma {:induction false} ReaderIsCounted(requests: seq<Request>, r: nat)
    requires r < |requests| && requests[r].Reading?
    ensures CountReading(requests, requests[r].i) > 0
  {
    var n := |requests| - 1;
    if r < n {
      ReaderIsCounted(requests[..n], r);
      assert requests[..n][r] == requests[r];
    }
  }

  lemma {:induction false} CountedIsReader(requests: seq<Request>, i: nat)
    requires CountReading(requests, i) > 0
    ensures exists r :: 0 <= r < |requests| && requests[r] == Reading(i)
  {
    var n := |requests| - 1;
    if requests[n] != Reading(i) {
      CountedIsReader(requests[..n], i);
      var r :| 0 <= r < n && requests[..n][r] == Reading(i);
      assert requests[r] == Reading(i);
    }
  }

  /** A file exists exactly while its builder still holds it, the cache offers it, or a request reads it. */
  ghost predicate Owned(s: State, i: nat) {
    && i < |s.cache.table|
    && var e := s.cache.table[i];
       || ((e.build.Built? || e.build.Stale?) && e.build.ok)
       || (e.build.Finished? && e.hasPath
           && (Current(s.cache, i) || exists r :: 0 <= r < |s.requests| && s.requests[r] == Reading(i)))
  }

  lemma FilesAreExactlyOwned(states: seq<State>, steps: seq<Step>, n: nat, i: nat)
    requires Run(states, steps) && n < |states|
    ensures i in states[n].cache.files <==> Owned(states[n], i)
  {
    EveryRunKeepsInv(states, steps);
    var s := states[n];
    assert Inv(s);
    if i < |s.cache.table| {
      assert EntryOk(s.cache, i);
      if s.cache.table[i].readers > 0 { CountedIsReader(s.requests, i); }
      forall r | 0 <= r < |s.requests| && s.requests[r] == Reading(i) ensures s.cache.table[i].readers > 0 {
        ReaderIsCounted(s.requests, r);
      }
    }
  }

  /** A file that a request reads is there, and stays through every step until that request leaves. */
  lemma ReadFilesStay(states: seq<State>, steps: seq<Step>, n: nat, r: nat)
    requires Run(states, steps) && n < |states| && r < |states[n].requests| && states[n].requests[r].Reading?
    ensures states[n].requests[r].i in states[n].cache.files
  {
    EveryRunKeepsInv(states, steps);
    var s := states[n];
    assert Inv(s);
    ReaderIsCounted(s.requests, r);
    assert EntryOk(s.cache, s.requests[r].i);
  }

  /** The last reader of an invalidated file removes it; a builder that finds itself replaced leaves none. */
  lemma LastOneRemoves(states: seq<State>, steps: seq<Step>, n: nat)
    requires Run(states, steps) && n < |steps|
    ensures steps[n].Discard? ==> steps[n].i !in states[n + 1].cache.files
    ensures steps[n].Leave? && steps[n].r < |states[n].requests| && states[n].requests[steps[n].r].Reading? ==>
      var i := states[n].requests[steps[n].r].i;
      i < |states[n].cache.table| && (states[n].cache.table[i].invalidated && states[n].cache.table[i].readers == 1 ==>
      i !in states[n + 1].cache.files)
  {
    assert Next(states[n], steps[n], states[n + 1]);
    EveryRunKeepsInv(states, steps);
    assert Inv(states[n]);
    if steps[n].Discard? { assert EntryOk(states[n].cache, steps[n].i); }
  }

  // ------------------------------------------------------ whoever waits is woken

  lemma {:induction false} LeastUsed(c: Cache, current: Option<nat>, keys: set<string>) returns (key: string)
    requires InRange(c) && exists k :: k in keys && Evictable(c, current, k)
    ensures key in keys && Evictable(c, current, key)
    ensures forall k :: k in keys && Evictable(c, current, k) ==>
      c.table[c.entries[key]].lastUsed <= c.table[c.entries[k]].lastUsed
    decreases |keys|
  {
    key :| key in keys && Evictable(c, current, key);
    if exists k :: k in keys - {key} && Evictable(c, current, k) {
      var other := LeastUsed(c, current, keys - {key});
      if c.table[c.entries[other]].lastUsed < c.table[c.entries[key]].lastUsed { key := other; }
    }
  }

  /** An eviction is always possible. */
  lemma EvictionExists(c: Cache, current: Option<nat>) returns (gone: set<string>, c': Cache)
    requires InRange(c)
    ensures Evicts(c, current, gone, c')
  {
    hide Evicting, Evictable, InRange, Dropped;
    gone, c' := {}, c;
    NothingEvicted(c, current);
    while |c'.entries| > CACHE_LIMIT && exists k :: k in c'.entries.Keys && Evictable(c', current, k)
      invariant InRange(c') && Evicting(c, current, gone, c')
      decreases |c'.entries|
    {
      var key := LeastUsed(c', current, c'.entries.Keys);
      EvictableIsCached(c', current);
      EvictOneMore(c, current, gone, c', key);
      DroppedIsSmaller(c', key);
      gone, c' := gone + {key}, Dropped(c', key);
    }
    StillEvictable(c, current, gone, c');
    EvictableIsCached(c', current);
  }

  lemma EvictableIsCached(c: Cache, current: Option<nat>)
    requires InRange(c)
    ensures forall k :: Evictable(c, current, k) ==> k in c.entries.Keys
  {
  }

  lemma DroppedIsSmaller(c: Cache, key: string)
    requires key in c.entries
    ensures |Dropped(c, key).entries| < |c.entries|
  {
    RemovingOne(c.entries, key);
  }

  /** How many steps the goroutine that builds the entry has left at most. */
  function BuildWork(c: Cache, i: nat): nat
    requires i < |c.table|
  {
    match c.table[i].build
    case Building => 3
    case Built(_) => 2
    case Stale(_) => 1
    case Finished => 0
  }

  /** Steps of the goroutine that builds entry i. */
  predicate Builds(step: Step, i: nat) {
    (step.EndBuild? || step.Publish? || step.Discard?) && step.i == i
  }

  /** No request waits in vain: until its entry is ready the builder can take a step, whatever requests and
      invalidations do, and has less to do then. */
  lemma SomeoneWillWake(states: seq<State>, steps: seq<Step>, n: nat, r: nat) returns (step: Step, s': State)
    requires Run(states, steps) && n < |states| && r < |states[n].requests| && states[n].requests[r].Waiting?
    ensures var (c, i) := (states[n].cache, states[n].requests[r].i);
      && i < |c.table| && (c.table[i].ready <==> BuildWork(c, i) == 0) && InRange(c)
      && (!c.table[i].ready ==>
            Builds(step, i) && Next(states[n], step, s') && i < |s'.cache.table| && BuildWork(s'.cache, i) < BuildWork(c, i))
  {
    EveryRunKeepsInv(states, steps);
    assert Inv(states[n]);
    var s, i := states[n], states[n].requests[r].i;
    assert EntryOk(s.cache, i);
    step, s' := BuilderCanGoOn(s, i);
  }

  lemma EvictionKeepsTable(c: Cache, current: Option<nat>, gone: set<string>, c': Cache)
    requires InRange(c) && Evicts(c, current, gone, c')
    ensures c'.table == c.table
  {
  }

  lemma PublishCanGoOn(s: State, i: nat) returns (step: Step, s': State)
    requires CacheOk(s.cache) && i < |s.cache.table| && s.cache.table[i].build.Built?
    ensures Builds(step, i) && Next(s, step, s') && i < |s'.cache.table| && BuildWork(s'.cache, i) < BuildWork(s.cache, i)
  {
    hide Evicts, InRange, Published;
    PublishedRanged(s.cache, i);
    PublishLeavesBuilds(s.cache, i, i);
    var (published, stale) := Published(s.cache, i);
    var gone, c' := EvictionExists(published, Some(i));
    EvictionKeepsTable(published, Some(i), gone, c');
    step, s' := Publish(i, gone), State(if stale then published else c', s.requests);
    hide CacheOk;
  }

  lemma PublishedRanged(c: Cache, i: nat)
    requires CacheOk(c) && i < |c.table| && c.table[i].build.Built?
    ensures InRange(c) && InRange(Published(c, i).0)
  {
    BuildKeeps(c, i, false);
    hide EntryOk;
  }

  lemma BuilderCanGoOn(s: State, i: nat) returns (step: Step, s': State)
    requires CacheOk(s.cache) && i < |s.cache.table|
    ensures BuildWork(s.cache, i) > 0 ==>
      Builds(step, i) && Next(s, step, s') && i < |s'.cache.table| && BuildWork(s'.cache, i) < BuildWork(s.cache, i)
  {
    var c := s.cache;
    match c.table[i].build {
      case Building => step, s' := EndBuild(i, false), State(BuildEnded(c, i, false), s.requests);
      case Built(_) => step, s' := PublishCanGoOn(s, i);
      case Stale(_) => step, s' := Discard(i), State(Discarded(c, i), s.requests);
      case Finished => step, s' := Invalidate, s;
    }
  }

  /** No step gives a builder more to do, so it has finished after at most three of its own. */
  lemma BuildsOnlyGoOn(s: State, step: Step, s': State, i: nat)
    requires Inv(s) && InRange(s.cache) && Next(s, step, s') && i < |s.cache.table|
    ensures i < |s'.cache.table| && BuildWork(s'.cache, i) <= BuildWork(s.cache, i)
    ensures Builds(step, i) ==> BuildWork(s'.cache, i) < BuildWork(s.cache, i)
  {
    hide CacheOk, Counted, Evicts, InRange, Looked, Left, Entered, Published, Invalidated;
    match step
    case Arrive(key) => SectionsLeaveBuilds(s.cache, key, i);
    case Enter(r) => EnterLeavesBuilds(s.cache, s.requests[r].i, i);
    case Leave(r, gone) =>
      EnterLeavesBuilds(s.cache, s.requests[r].i, i);
      EvictionKeepsTable(Left(s.cache, s.requests[r].i), None, gone, s'.cache);
    case Publish(k, gone) =>
      PublishLeavesBuilds(s.cache, k, i);
      if !Published(s.cache, k).1 { EvictionKeepsTable(Published(s.cache, k).0, Some(k), gone, s'.cache); }
    case Invalidate => SectionsLeaveBuilds(s.cache, "", i);
    case _ =>
  }

  lemma SectionsLeaveBuilds(c: Cache, key: string, i: nat)
    requires InRange(c) && i < |c.table|
    ensures i < |Looked(c, key).0.table| && BuildWork(Looked(c, key).0, i) == BuildWork(c, i)
    ensures i < |Invalidated(c).table| && BuildWork(Invalidated(c), i) == BuildWork(c, i)
  {
  }

  lemma EnterLeavesBuilds(c: Cache, k: nat, i: nat)
    requires k < |c.table| && i < |c.table|
    ensures i < |Entered(c, k).0.table| && BuildWork(Entered(c, k).0, i) == BuildWork(c, i)
    ensures c.table[k].readers > 0 ==> i < |Left(c, k).table| && BuildWork(Left(c, k), i) == BuildWork(c, i)
  {
  }

  lemma PublishLeavesBuilds(c: Cache, k: nat, i: nat)
    requires k < |c.table| && i < |c.table| && c.table[k].build.Built?
    ensures i < |Published(c, k).0.table|
    ensures BuildWork(Published(c, k).0, i) ==
      if k != i then BuildWork(c, i) else if Published(c, k).1 then 1 else 0
  {
  }

  // ------------------------------------------------------ what was invalidated is never served

  /** Steps by which entry i would be offered or served. */
  ghost predicate Offers(s: State, step: Step, s': State, i: nat) {
    match step
    case Arrive(_) => s'.requests != [] && s'.requests[|s'.requests| - 1] == Waiting(i)
    case Enter(r) => r < |s.requests| && s.requests[r] == Waiting(i) && r < |s'.requests| && s'.requests[r].Reading?
    case Publish(k, _) => k == i && i < |s.cache.table| && s.cache.table[i].build.Built? && !Published(s.cache, i).1
    case _ => false
  }

  lemma EvictionCachesNothing(c: Cache, current: Option<nat>, gone: set<string>, c': Cache, i: nat)
    requires InRange(c) && Evicts(c, current, gone, c') && i < |c.table|
    ensures i < |c'.table| && (Current(c', i) ==> Current(c, i))
  {
    EvictEffect(c, current, gone, c', i);
  }

  lemma ReplacedStaysReplaced(s: State, step: Step, s': State, i: nat)
    requires Inv(s) && InRange(s.cache) && Next(s, step, s') && i < |s.cache.table| && !Current(s.cache, i)
    ensures i < |s'.cache.table| && !Current(s'.cache, i)
    ensures !Offers(s, step, s', i)
  {
    hide CacheOk, Counted, Evicts, InRange;
    match step
    case Leave(r, gone) => EvictionCachesNothing(Left(s.cache, s.requests[r].i), None, gone, s'.cache, i);
    case Publish(k, gone) =>
      if !Published(s.cache, k).1 { EvictionCachesNothing(Published(s.cache, k).0, Some(k), gone, s'.cache, i); }
    case Arrive(key) => NewEntriesAreNew(s.cache, key, i);
    case _ =>
  }

  lemma NewEntriesAreNew(c: Cache, key: string, i: nat)
    requires InRange(c) && i < |c.table| && !Current(c, i)
    ensures Looked(c, key).1 != i && i < |Looked(c, key).0.table| && !Current(Looked(c, key).0, i)
  {
  }

  lemma InvalidatedIsReplaced(s: State, s': State, i: nat)
    requires InRange(s.cache) && Next(s, Invalidate, s') && i < |s.cache.table|
    ensures i < |s'.cache.table| && !Current(s'.cache, i)
  {
  }

  /** After an invalidation no entry there was before it is ever found, published or read again: whoever asks next
      has the directory scanned anew. Only requests that were reading already go on. */
  lemma {:induction false} InvalidatedIsNeverServed(states: seq<State>, steps: seq<Step>, m: nat, n: nat, i: nat)
    requires Run(states, steps) && m < n < |states| && steps[m].Invalidate? && i < |states[m].cache.table|
    ensures i < |states[n].cache.table| && !Current(states[n].cache, i)
    ensures n < |steps| ==> !Offers(states[n], steps[n], states[n + 1], i)
    decreases n
  {
    hide Inv, Offers, Current;
    EveryRunKeepsInv(states, steps);
    assert Next(states[n - 1], steps[n - 1], states[n]) && InRange(states[n - 1].cache) && Inv(states[n - 1]);
    hide Next, InRange;
    if n == m + 1 {
      InvalidatedIsReplaced(states[m], states[n], i);
    } else {
      InvalidatedIsNeverServed(states, steps, m, n - 1, i);
      ReplacedStaysReplaced(states[n - 1], steps[n - 1], states[n], i);
    }
    if n < |steps| {
      assert Inv(states[n]);
      NextAt(states, steps, n);
      ReplacedStaysReplaced(states[n], steps[n], states[n + 1], i);
    }
  }

  lemma NextAt(states: seq<State>, steps: seq<Step>, n: nat)
    requires Run(states, steps) && n < |steps|
    ensures InRange(states[n].cache) && Next(states[n], steps[n], states[n + 1])
  {
  }

  /** Once builds and reads have come to rest, the files are those of the cached entries, and no others. */
  lemma AtRestOnlyCachedFiles(states: seq<State>, steps: seq<Step>, n: nat, i: nat)
    requires Run(states, steps) && n < |states|
    requires forall k :: 0 <= k < |states[n].cache.table| ==> states[n].cache.table[k].build.Finished?
    requires forall r :: 0 <= r < |states[n].requests| ==> !states[n].requests[r].Reading?
    ensures i in states[n].cache.files <==>
      i < |states[n].cache.table| && Current(states[n].cache, i) && states[n].cache.table[i].hasPath
    ensures states[n].cache.entries == map[] ==> states[n].cache.files == {}
  {
    forall k: nat ensures k in states[n].cache.files <==> Owned(states[n], k) {
      FilesAreExactlyOwned(states, steps, n, k);
    }
  }
}
