/** The cache of directory-index files: one file per built entry, counted readers, invalidation and
    eviction. `internal/app/folder_directory_index.go`. Each locked section is a method of the class
    and a step of the state machine below it. */
module DirectoryIndexCache {
  import opened Wrappers

  const CACHE_LIMIT := 64

  /** What the goroutine that builds an entry still has to do. `ok` says whether it made a file. */
  datatype Build = Building | Built(ok: bool) | Stale(ok: bool) | Finished

  /** An entry; its file, when it has one, goes by the entry's number, as temp names are fresh. */
  datatype CachedIndex = CachedIndex(key: string, cacheID: nat, lastUsed: nat, build: Build, ready: bool,
                                     hasPath: bool, failed: bool, readers: nat, invalidated: bool)

  datatype Cache = Cache(entries: map<string, nat>, clock: nat, cacheID: nat, table: seq<CachedIndex>, files: set<nat>)

  datatype Outcome = Canceled | Failed | Admitted

  ghost predicate InRange(c: Cache) {
    forall k :: k in c.entries ==> c.entries[k] < |c.table| && c.table[c.entries[k]].key == k
  }

  /** `cache.entries[key] == entry`. */
  predicate Current(c: Cache, i: nat)
    requires i < |c.table|
  {
    c.table[i].key in c.entries && c.entries[c.table[i].key] == i
  }

  // ------------------------------------------------------ the locked sections, as functions of the cache

  /** A lookup; an unknown key gets an entry and a builder. */
  function Looked(c: Cache, key: string): (Cache, nat)
    requires InRange(c)
  {
    if key in c.entries then
      var i := c.entries[key];
      (c.(clock := c.clock + 1, table := c.table[i := c.table[i].(lastUsed := c.clock + 1)]), i)
    else
      var e := CachedIndex(key, c.cacheID, c.clock + 1, Building, false, false, false, 0, false);
      (c.(clock := c.clock + 1, table := c.table + [e], entries := c.entries[key := |c.table|]), |c.table|)
  }

  /** What a request finds once the entry is ready: replaced, failed, or open for one more reader. */
  function Entered(c: Cache, i: nat): (Cache, Outcome)
    requires i < |c.table|
  {
    var e := c.table[i];
    if !Current(c, i) then (c, Canceled)
    else if e.failed then
      (c.(entries := c.entries - {e.key}, files := if e.hasPath then c.files - {i} else c.files), Failed)
    else (c.(table := c.table[i := e.(readers := e.readers + 1)]), Admitted)
  }

  /** One reader fewer; the last reader of an invalidated entry removes its file. */
  function Left(c: Cache, i: nat): Cache
    requires i < |c.table| && c.table[i].readers > 0
  {
    var e := c.table[i].(readers := c.table[i].readers - 1);
    c.(table := c.table[i := e], files := if e.invalidated && e.readers == 0 then c.files - {i} else c.files)
  }

  /** A finished build publishes its file unless the entry was replaced meanwhile. */
  function Published(c: Cache, i: nat): (Cache, bool)
    requires i < |c.table| && c.table[i].build.Built?
  {
    var e := c.table[i];
    if c.cacheID != e.cacheID || !Current(c, i) then (c.(table := c.table[i := e.(build := Stale(e.build.ok))]), true)
    else (c.(table := c.table[i := e.(build := Finished, ready := true, hasPath := e.build.ok, failed := !e.build.ok)]), false)
  }

  /** The builder has written its file, or failed and removed what it had. */
  function BuildEnded(c: Cache, i: nat, ok: bool): Cache
    requires i < |c.table|
  {
    c.(table := c.table[i := c.table[i].(build := Built(ok))], files := if ok then c.files + {i} else c.files)
  }

  /** A stale builder removes its file and wakes whoever waits. */
  function Discarded(c: Cache, i: nat): Cache
    requires i < |c.table| && c.table[i].build.Stale?
  {
    c.(table := c.table[i := c.table[i].(build := Finished, failed := true, ready := true)],
       files := if c.table[i].build.ok then c.files - {i} else c.files)
  }

  /** Entry i is cached under one of `keys`, and nobody reads its file. */
  predicate Unread(c: Cache, i: nat, keys: set<string>)
    requires i < |c.table|
  {
    Current(c, i) && c.table[i].key in keys && c.table[i].hasPath && c.table[i].readers == 0
  }

  function Marked(c: Cache, i: nat, keys: set<string>): CachedIndex
    requires i < |c.table|
  {
    if Current(c, i) && c.table[i].key in keys && c.table[i].hasPath && c.table[i].readers > 0
    then c.table[i].(invalidated := true) else c.table[i]
  }

  /** The cache forgets everything; files without readers go, the others are left to their last reader. */
  function Invalidated(c: Cache): Cache {
    c.(entries := map[], cacheID := c.cacheID + 1,
       files := (set i | i in c.files && !(i < |c.table| && Unread(c, i, c.entries.Keys))),
       table := seq(|c.table|, i requires 0 <= i < |c.table| => Marked(c, i, c.entries.Keys)))
  }

  predicate Evictable(c: Cache, current: Option<nat>, key: string)
    requires InRange(c)
  {
    key in c.entries && Some(c.entries[key]) != current && c.table[c.entries[key]].hasPath && c.table[c.entries[key]].readers == 0
  }

  ghost predicate AllEvictable(c: Cache, current: Option<nat>, keys: set<string>)
    requires InRange(c)
  {
    forall k :: k in keys ==> Evictable(c, current, k)
  }

  /** No evictable entry outside `gone` was used before one inside. */
  ghost predicate OldestFirst(c: Cache, current: Option<nat>, gone: set<string>)
    requires InRange(c)
  {
    forall k, m :: k in gone && k in c.entries && Evictable(c, current, m) && m !in gone ==>
      c.table[c.entries[k]].lastUsed <= c.table[c.entries[m]].lastUsed
  }

  /** `gone` leaves the cache: the least recently used of the evictable, and only as many as it takes. */
  ghost predicate Evicting(c: Cache, current: Option<nat>, gone: set<string>, c': Cache)
    requires InRange(c)
  {
    && AllEvictable(c, current, gone) && OldestFirst(c, current, gone)
    && c' == c.(entries := c.entries - gone, files := c.files - FilesOf(c, gone))
    && (gone != {} ==> |c'.entries| >= CACHE_LIMIT)
  }

  ghost predicate Evicts(c: Cache, current: Option<nat>, gone: set<string>, c': Cache)
    requires InRange(c)
  {
    && Evicting(c, current, gone, c')
    && (|c'.entries| > CACHE_LIMIT ==> forall k :: Evictable(c, current, k) ==> k in gone)
  }

  function Dropped(c: Cache, key: string): Cache
    requires key in c.entries
  {
    c.(entries := c.entries - {key}, files := c.files - {c.entries[key]})
  }

  lemma EvictOneMore(c: Cache, current: Option<nat>, gone: set<string>, c': Cache, key: string)
    requires InRange(c) && InRange(c') && Evicting(c, current, gone, c') && |c'.entries| > CACHE_LIMIT
    requires key in c'.entries && Evictable(c', current, key)
    requires forall k :: Evictable(c', current, k) ==>
      c'.table[c'.entries[key]].lastUsed <= c'.table[c'.entries[k]].lastUsed
    ensures InRange(Dropped(c', key)) && Evicting(c, current, gone + {key}, Dropped(c', key))
  {
    hide FilesOf, Dropped, InRange, Evictable, AllEvictable, OldestFirst;
    DropComposes(c, gone, c', key);
    OldestIsNext(c, current, gone, c', key);
  }

  lemma DropComposes(c: Cache, gone: set<string>, c': Cache, key: string)
    requires c' == c.(entries := c.entries - gone, files := c.files - FilesOf(c, gone)) && key in c'.entries
    requires InRange(c')
    ensures InRange(Dropped(c', key)) && |Dropped(c', key).entries| == |c'.entries| - 1
    ensures Dropped(c', key) == c.(entries := c.entries - (gone + {key}), files := c.files - FilesOf(c, gone + {key}))
  {
    RemovingOne(c'.entries, key);
    assert c.entries - (gone + {key}) == c.entries - gone - {key};
    assert FilesOf(c, gone + {key}) == FilesOf(c, gone) + {c.entries[key]};
    assert c.files - FilesOf(c, gone + {key}) == c.files - FilesOf(c, gone) - {c.entries[key]};
  }

  lemma OldestIsNext(c: Cache, current: Option<nat>, gone: set<string>, c': Cache, key: string)
    requires InRange(c) && InRange(c') && Evicting(c, current, gone, c')
    requires key in c'.entries && Evictable(c', current, key)
    requires forall k :: Evictable(c', current, k) ==>
      c'.table[c'.entries[key]].lastUsed <= c'.table[c'.entries[k]].lastUsed
    ensures AllEvictable(c, current, gone + {key}) && OldestFirst(c, current, gone + {key})
  {
    StillEvictable(c, current, gone, c');
    hide Evictable, FilesOf, InRange;
    assert Evictable(c, current, key);
  }

  lemma StillEvictable(c: Cache, current: Option<nat>, gone: set<string>, c': Cache)
    requires InRange(c) && InRange(c') && Evicting(c, current, gone, c')
    ensures forall k :: Evictable(c', current, k) <==> Evictable(c, current, k) && k !in gone
  {
  }

  ghost function FilesOf(c: Cache, keys: set<string>): set<nat> {
    set k | k in keys && k in c.entries :: c.entries[k]
  }

  // ------------------------------------------------------ what every section keeps

  /** Whose the file of entry i is, and what goes with that. */
  predicate EntryOk(c: Cache, i: nat)
    requires i < |c.table|
  {
    var e := c.table[i];
    && e.cacheID <= c.cacheID && e.lastUsed <= c.clock
    && (Current(c, i) ==> e.cacheID == c.cacheID && !e.invalidated)
    && (if e.build.Finished? then
          && e.ready && e.failed == !e.hasPath
          && (e.readers > 0 ==> e.hasPath)
          && (i in c.files <==> e.hasPath && (Current(c, i) || e.readers > 0))
          && (e.readers > 0 && !Current(c, i) ==> e.invalidated)
        else
          && !e.ready && !e.hasPath && !e.failed && e.readers == 0 && !e.invalidated
          && (i in c.files <==> (e.build.Built? || e.build.Stale?) && e.build.ok)
          && (e.build.Stale? ==> !Current(c, i)))
  }

  ghost predicate CacheOk(c: Cache) {
    && InRange(c)
    && (forall i :: 0 <= i < |c.table| ==> EntryOk(c, i))
    && (forall i :: i in c.files ==> i < |c.table|)
  }

  lemma FilesOfEntry(c: Cache, keys: set<string>, i: nat)
    requires InRange(c) && i < |c.table|
    ensures i in FilesOf(c, keys) <==> Current(c, i) && c.table[i].key in keys
  {
    if Current(c, i) && c.table[i].key in keys { assert c.entries[c.table[i].key] == i; }
  }

  lemma EvictEffect(c: Cache, current: Option<nat>, gone: set<string>, c': Cache, i: nat)
    requires InRange(c) && Evicts(c, current, gone, c') && i < |c.table|
    ensures var dropped := Current(c, i) && c.table[i].key in gone;
      && (dropped ==> c.table[i].hasPath && c.table[i].readers == 0)
      && (Current(c', i) <==> Current(c, i) && !dropped)
      && (i in c'.files <==> i in c.files && !dropped)
  {
    FilesOfEntry(c, gone, i);
    hide OldestFirst, FilesOf, InRange;
    assert Current(c, i) && c.table[i].key in gone ==> Evictable(c, current, c.table[i].key);
  }

  lemma EvictKeeps(c: Cache, current: Option<nat>, gone: set<string>, c': Cache)
    requires CacheOk(c) && Evicts(c, current, gone, c')
    ensures CacheOk(c') && c'.table == c.table
  {
    hide AllEvictable, OldestFirst, Current, FilesOf;
    forall i | 0 <= i < |c'.table| ensures EntryOk(c', i) {
      assert EntryOk(c, i);
      EvictEffect(c, current, gone, c', i);
    }
  }

  /** The entry an eviction is told to spare stays cached, with its file. */
  lemma ServedIsKept(c: Cache, i: nat, gone: set<string>, c': Cache)
    requires InRange(c) && Evicts(c, Some(i), gone, c') && i < |c.table| && Current(c, i)
    ensures i < |c'.table| && Current(c', i) && c'.table[i] == c.table[i] && (i in c'.files <==> i in c.files)
  {
    EvictEffect(c, Some(i), gone, c', i);
    hide OldestFirst, FilesOf, InRange;
    assert !Evictable(c, Some(i), c.table[i].key);
  }

  lemma LookKeeps(c: Cache, key: string)
    requires CacheOk(c)
    ensures var (c', i) := Looked(c, key);
      CacheOk(c') && i < |c'.table| && |c.table| <= |c'.table|
      && (forall j :: 0 <= j < |c.table| ==> c'.table[j].readers == c.table[j].readers)
      && (forall j :: |c.table| <= j < |c'.table| ==> c'.table[j].readers == 0)
  {
    var (c', i) := Looked(c, key);
    forall j | 0 <= j < |c'.table| ensures EntryOk(c', j) {
      if j < |c.table| { assert EntryOk(c, j) && (Current(c', j) <==> Current(c, j)); }
    }
  }

  lemma EnterKeeps(c: Cache, i: nat)
    requires CacheOk(c) && i < |c.table| && c.table[i].ready
    ensures var (c', outcome) := Entered(c, i);
      CacheOk(c') && |c'.table| == |c.table|
      && (forall j :: 0 <= j < |c.table| ==>
            c'.table[j].readers == c.table[j].readers + (if j == i && outcome == Admitted then 1 else 0))
  {
    var (c', outcome) := Entered(c, i);
    assert EntryOk(c, i);
    forall j | 0 <= j < |c'.table| ensures EntryOk(c', j) {
      assert EntryOk(c, j);
      assert Current(c', j) <==> Current(c, j) && !(outcome == Failed && j == i);
    }
  }

  lemma EnterAdmits(c: Cache, i: nat)
    requires CacheOk(c) && i < |c.table| && c.table[i].ready
    ensures var (c', outcome) := Entered(c, i);
      && (outcome == Admitted <==> Current(c, i) && !c.table[i].failed)
      && (outcome == Admitted ==> i in c'.files && InRange(c') && forall current :: !Evictable(c', current, c.table[i].key))
      && (outcome == Failed ==> i !in c'.files)
  {
    assert EntryOk(c, i);
  }

  lemma LeaveKeeps(c: Cache, i: nat)
    requires CacheOk(c) && i < |c.table| && c.table[i].readers > 0
    ensures CacheOk(Left(c, i))
  {
    forall j | 0 <= j < |c.table| ensures EntryOk(Left(c, i), j) {
      assert EntryOk(c, j) && (Current(Left(c, i), j) <==> Current(c, j));
    }
  }

  lemma BuildKeeps(c: Cache, i: nat, ok: bool)
    requires CacheOk(c) && i < |c.table|
    ensures c.table[i].build.Building? ==> CacheOk(BuildEnded(c, i, ok))
    ensures c.table[i].build.Built? ==> CacheOk(Published(c, i).0)
    ensures c.table[i].build.Stale? ==> CacheOk(Discarded(c, i))
  {
    forall j | 0 <= j < |c.table|
      ensures c.table[i].build.Building? ==> EntryOk(BuildEnded(c, i, ok), j)
      ensures c.table[i].build.Built? ==> EntryOk(Published(c, i).0, j)
      ensures c.table[i].build.Stale? ==> EntryOk(Discarded(c, i), j)
    {
      assert EntryOk(c, j) && EntryOk(c, i);
    }
  }

  lemma InvalidateKeeps(c: Cache)
    requires CacheOk(c)
    ensures CacheOk(Invalidated(c))
  {
    forall j | 0 <= j < |c.table| ensures EntryOk(Invalidated(c), j) {
      assert EntryOk(c, j);
    }
  }

  lemma InvalidatedEntries(c: Cache)
    requires CacheOk(c)
    ensures var c' := Invalidated(c);
      |c'.table| == |c.table| && forall i :: 0 <= i < |c.table| ==>
        && (Current(c, i) && c.table[i].readers == 0 && c.table[i].hasPath ==> i !in c'.files)
        && (Current(c, i) && c.table[i].readers > 0 ==> i in c'.files && c'.table[i].invalidated)
        && (!Current(c, i) ==> (i in c'.files <==> i in c.files))
  {
    forall i | 0 <= i < |c.table|
      ensures Current(c, i) && c.table[i].readers > 0 ==> i in Invalidated(c).files && Invalidated(c).table[i].invalidated
    {
      assert EntryOk(c, i);
    }
  }

  /** A build is published unless its entry was replaced, and then open to requests if it succeeded. */
  lemma PublishedOpens(c: Cache, i: nat)
    requires CacheOk(c) && i < |c.table| && c.table[i].build.Built?
    ensures Published(c, i).1 <==> !Current(c, i)
    ensures var (p, e) := (Published(c, i).0, c.table[i]);
      Current(c, i) ==> i < |p.table| && p.table[i].ready && (p.table[i].failed <==> !e.build.ok)
                        && (e.build.ok ==> Entered(p, i).1 == Admitted && i in p.files)
  {
    assert EntryOk(c, i);
  }

  lemma Ranged(c: Cache)
    requires CacheOk(c)
    ensures InRange(c)
  {
  }

  // ------------------------------------------------------ the class

  class FolderDirectoryIndexCache {
    var entries: map<string, nat>
    var clock: nat
    var cacheID: nat
    var table: seq<CachedIndex>
    var files: set<nat>

    ghost function View(): Cache
      reads this
    {
      Cache(entries, clock, cacheID, table, files)
    }

    ghost predicate Valid()
      reads this
    {
      CacheOk(View())
    }

    constructor ()
      ensures Valid() && View() == Cache(map[], 0, 0, [], {})
    {
      entries, clock, cacheID, table, files := map[], 0, 0, [], {};
    }

    /** Nothing is cached any more, and no build that has begun can be published. The file of every cached entry
        that nobody reads is gone; one that is read stays, marked for its last reader; other files stay. */
    method Invalidate()
      requires Valid()
      modifies this
      ensures Valid() && entries == map[] && cacheID > old(cacheID) && |table| == |old(table)|
      ensures forall i :: 0 <= i < |table| && old(Current(View(), i)) && old(table)[i].readers == 0 && old(table)[i].hasPath ==>
        i !in files
      ensures forall i :: 0 <= i < |table| && old(Current(View(), i)) && old(table)[i].readers > 0 ==>
        i in files && table[i].invalidated
      ensures forall i :: 0 <= i < |table| && !old(Current(View(), i)) ==> (i in files <==> i in old(files))
      ensures View() == Invalidated(old(View()))
    {
      InvalidateKeeps(View());
      InvalidatedEntries(View());
      hide CacheOk;
      cacheID := cacheID + 1;
      var dropped := entries;
      entries := map[];
      var left := dropped.Keys;
      while left != {}
        invariant left <= dropped.Keys && entries == map[] && cacheID == old(cacheID) + 1 && clock == old(clock)
        invariant |table| == |old(table)|
        invariant forall i :: 0 <= i < |table| ==>
          table[i] == Marked(old(View()), i, dropped.Keys - left)
        invariant forall i :: i in files <==>
          i in old(files) && !(i < |table| && Unread(old(View()), i, dropped.Keys - left))
      {
        var key :| key in left;
        left := left - {key};
        var i := dropped[key];
        if table[i].hasPath {
          if table[i].readers == 0 {
            files := files - {i};
          } else {
            table := table[i := table[i].(invalidated := true)];
          }
        }
      }
      assert table == Invalidated(old(View())).table;
      assert files == Invalidated(old(View())).files;
    }

    /** The entry cached for the key, now the most recently used of all. A known key keeps its entry, an unknown
        one gets the only new one, with a builder; no other entry and no file is touched. */
    method Look(key: string) returns (i: nat)
      requires Valid()
      modifies this
      ensures Valid() && files == old(files) && i < |table| && Current(View(), i) && table[i].key == key
      ensures forall j :: 0 <= j < |table| && j != i ==> table[j].lastUsed < table[i].lastUsed
      ensures forall k :: k in old(entries) ==> k in entries && entries[k] == old(entries)[k]
      ensures |table| == |old(table)| + (if key in old(entries) then 0 else 1)
      ensures key !in old(entries) ==> table[i].build.Building? && !table[i].ready
      ensures (View(), i) == Looked(old(View()), key)
    {
      LookKeeps(View(), key);
      ghost var before := View();
      forall j | 0 <= j < |table| ensures before.table[j].lastUsed <= before.clock { assert EntryOk(before, j); }
      clock := clock + 1;
      if key !in entries {
        i := |table|;
        table := table + [CachedIndex(key, cacheID, clock, Building, false, false, false, 0, false)];
        entries := entries[key := i];
      } else {
        i := entries[key];
        table := table[i := table[i].(lastUsed := clock)];
      }
      assert forall j :: 0 <= j < |before.table| && j != i ==> table[j] == before.table[j];
    }

    /** A request is admitted to an entry only while the cache offers it; then the file is there and cannot be
        evicted before the request leaves. A failed entry is forgotten, so that the next lookup builds anew. */
    method Enter(i: nat) returns (outcome: Outcome)
      requires Valid() && i < |table| && table[i].ready
      modifies this
      ensures Valid() && |table| == |old(table)|
      ensures outcome == Admitted <==> old(Current(View(), i)) && !old(table[i].failed)
      ensures outcome == Admitted ==> i in files && Current(View(), i) && table[i].readers == old(table[i].readers) + 1
      ensures outcome == Admitted ==> forall current :: !Evictable(View(), current, table[i].key)
      ensures outcome == Failed ==> table[i].key !in entries && i !in files
      ensures outcome == Canceled ==> View() == old(View())
      ensures (View(), outcome) == Entered(old(View()), i)
    {
      EnterKeeps(View(), i);
      EnterAdmits(View(), i);
      hide CacheOk, Evictable;
      var e := table[i];
      if !(e.key in entries && entries[e.key] == i) { return Canceled; }
      if e.failed {
        entries := entries - {e.key};
        if e.hasPath { files := files - {i}; }
        return Failed;
      }
      table := table[i := e.(readers := e.readers + 1)];
      outcome := Admitted;
    }

    method Leave(i: nat)
      requires Valid() && i < |table| && table[i].readers > 0
      modifies this
      ensures Valid() && InRange(Left(old(View()), i))
      ensures exists gone :: Evicts(Left(old(View()), i), None, gone, View())
    {
      LeaveKeeps(View(), i);
      ghost var left := Left(View(), i);
      table := table[i := table[i].(readers := table[i].readers - 1)];
      if table[i].invalidated && table[i].readers == 0 { files := files - {i}; }
      hide CacheOk, Evicts;
      assert InRange(left) by { Ranged(left); }
      EvictLocked(None);
      ghost var gone :| Evicts(left, None, gone, View());
      EvictKeeps(left, None, gone, View());
    }

    /** A build becomes ready exactly when its entry is still cached: failed if it failed, and otherwise open to
        requests, whatever is evicted for it. */
    method Publish(i: nat) returns (stale: bool)
      requires Valid() && i < |table| && table[i].build.Built?
      modifies this
      ensures Valid() && (stale <==> !old(Current(View(), i))) && i < |table|
      ensures !stale ==> table[i].ready && (table[i].failed <==> !old(table[i].build.ok))
      ensures !stale && old(table[i].build.ok) ==> Entered(View(), i).1 == Admitted && i in files
      ensures stale == Published(old(View()), i).1 && InRange(Published(old(View()), i).0)
      ensures stale ==> View() == Published(old(View()), i).0
      ensures !stale ==> exists gone :: Evicts(Published(old(View()), i).0, Some(i), gone, View())
    {
      BuildKeeps(View(), i, false);
      PublishedOpens(View(), i);
      hide CacheOk, Evicts;
      ghost var published := Published(View(), i).0;
      assert InRange(published) by { Ranged(published); }
      var e := table[i];
      if cacheID != e.cacheID || !(e.key in entries && entries[e.key] == i) {
        table := table[i := e.(build := Stale(e.build.ok))];
        return true;
      }
      table := table[i := e.(build := Finished, ready := true, hasPath := e.build.ok, failed := !e.build.ok)];
      EvictLocked(Some(i));
      ghost var gone :| Evicts(published, Some(i), gone, View());
      EvictKeeps(published, Some(i), gone, View());
      ServedIsKept(published, i, gone, View());
      stale := false;
    }

    /** The least recently used evictable entry, if there is one. */
    method Oldest(current: Option<nat>) returns (oldest: Option<string>)
      requires InRange(View())
      ensures oldest.None? ==> forall k :: !Evictable(View(), current, k)
      ensures oldest.Some? ==> oldest.value in entries && Evictable(View(), current, oldest.value)
      ensures oldest.Some? ==> forall k :: Evictable(View(), current, k) ==>
        table[entries[oldest.value]].lastUsed <= table[entries[k]].lastUsed
    {
      oldest := None;
      var left := entries.Keys;
      while left != {}
        invariant left <= entries.Keys
        invariant oldest.None? ==> forall k :: Evictable(View(), current, k) ==> k in left
        invariant oldest.Some? ==> Evictable(View(), current, oldest.value)
        invariant oldest.Some? ==> forall k :: Evictable(View(), current, k) && k !in left ==>
          table[entries[oldest.value]].lastUsed <= table[entries[k]].lastUsed
      {
        var key :| key in left;
        left := left - {key};
        var candidate := table[entries[key]];
        if Some(entries[key]) == current || !candidate.hasPath || candidate.readers != 0 { continue; }
        if oldest.None? || candidate.lastUsed < table[entries[oldest.value]].lastUsed { oldest := Some(key); }
      }
    }

    method EvictLocked(current: Option<nat>)
      requires InRange(View())
      modifies this
      ensures exists gone :: Evicts(old(View()), current, gone, View())
    {
      hide Evicting, Evictable, InRange;
      ghost var gone: set<string> := {};
      ghost var before := View();
      NothingEvicted(before, current);
      while |entries| > CACHE_LIMIT
        invariant InRange(View()) && Evicting(before, current, gone, View())
      {
        var oldest := Oldest(current);
        StillEvictable(before, current, gone, View());
        if oldest.None? { break; }
        EvictOneMore(before, current, gone, View(), oldest.value);
        ghost var kept := Dropped(View(), oldest.value);
        files := files - {entries[oldest.value]};
        entries := entries - {oldest.value};
        assert View() == kept;
        gone := gone + {oldest.value};
      }
      assert Evicts(before, current, gone, View());
    }
  }

  lemma NothingEvicted(c: Cache, current: Option<nat>)
    requires InRange(c)
    ensures Evicting(c, current, {}, c)
  {
    assert c.entries - {} == c.entries && c.files - FilesOf(c, {}) == c.files;
  }

  lemma RemovingOne(m: map<string, nat>, key: string)
    requires key in m
    ensures |m - {key}| == |m| - 1
  {
    assert (m - {key}).Keys == m.Keys - {key};
  }
}
